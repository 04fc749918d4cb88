/** The machine's unsigned words. */
module Words {
  const WORD_VALUES := 0x1_0000_0000_0000_0000
  const WORD_MAX := 0xFFFF_FFFF_FFFF_FFFF
  const UINT32_VALUES := 0x1_0000_0000

  type Size = n: int | 0 <= n < WORD_VALUES

  type Uint32 = n: int | 0 <= n < UINT32_VALUES

  function Min(a: nat, b: nat): nat {
    if a <= b then a else b
  }

  function Max(a: nat, b: nat): nat {
    if a >= b then a else b
  }
}
