/**
 Byte-addressed memory with 64-bit little-endian words, and the intrusive free lists threaded through it:
 each free block holds the address of the next one in its first word, and null ends the list.
 */
module ByteMemory {
  import opened Words

  type Byte = n: int | 0 <= n < 256

  type Memory = nat -> Byte

  const WORD_BYTES := 8

  /** The bytes of the word at an address. */
  function WordAt(m: Memory, a: nat): seq<Byte> {
    seq(WORD_BYTES, i requires 0 <= i < WORD_BYTES => m(a + i))
  }

  /** The number written in base 256, least significant digit first. */
  function FromDigits(digits: seq<Byte>): nat {
    if digits == [] then 0 else digits[0] + 256 * FromDigits(digits[1..])
  }

  function LoadWord(m: Memory, a: nat): nat {
    FromDigits(WordAt(m, a))
  }

  function Digit(w: nat, i: nat): Byte {
    if i == 0 then w % 256 else Digit(w / 256, i - 1)
  }

  function StoreWord(m: Memory, a: nat, w: nat): Memory {
    (x: nat) => if a <= x < a + WORD_BYTES then Digit(w, x - a) else m(x)
  }

  function StoreByte(m: Memory, a: nat, b: Byte): Memory {
    (x: nat) => if x == a then b else m(x)
  }

  ghost predicate AgreeOn(m: Memory, n: Memory, a: nat, k: nat) {
    forall x :: a <= x < a + k ==> m(x) == n(x)
  }

  function Pow256(k: nat): nat {
    if k == 0 then 1 else 256 * Pow256(k - 1)
  }

  lemma {:induction false} FromDigitsOf(digits: seq<Byte>, w: nat)
    requires w < Pow256(|digits|)
    requires forall i :: 0 <= i < |digits| ==> digits[i] == Digit(w, i)
    ensures FromDigits(digits) == w
  {
    if digits != [] {
      var rest := digits[1..];
      forall i | 0 <= i < |rest| ensures rest[i] == Digit(w / 256, i) {
        assert digits[i + 1] == Digit(w, i + 1);
      }
      FromDigitsOf(rest, w / 256);
    }
  }

  lemma WordRange()
    ensures Pow256(WORD_BYTES) == WORD_VALUES
  {
    assert Pow256(4) == 0x1_0000_0000;
  }

  /** A stored word is loaded back. */
  lemma LoadStore(m: Memory, a: nat, w: Size)
    ensures LoadWord(StoreWord(m, a, w), a) == w
  {
    WordRange();
    FromDigitsOf(WordAt(StoreWord(m, a, w), a), w);
  }

  lemma LoadFrame(m: Memory, n: Memory, a: nat)
    requires AgreeOn(m, n, a, WORD_BYTES)
    ensures LoadWord(m, a) == LoadWord(n, a)
  {
    assert WordAt(m, a) == WordAt(n, a);
  }

  // ---- intrusive lists ----

  /** The block a list starts with, or null. */
  function First(chain: seq<nat>): nat {
    if chain == [] then 0 else chain[0]
  }

  /** The i-th block is a block, and its first word is the address of the next one, or null at the end. */
  predicate LinkAt(m: Memory, chain: seq<nat>, i: nat)
    requires i < |chain|
  {
    chain[i] != 0 && LoadWord(m, chain[i]) == First(chain[i + 1..])
  }

  /** Following the links from head visits exactly the listed blocks and then reaches null. */
  predicate IsChain(m: Memory, head: nat, chain: seq<nat>) {
    head == First(chain) && forall i {:trigger LinkAt(m, chain, i)} :: 0 <= i < |chain| ==> LinkAt(m, chain, i)
  }

  ghost predicate Distinct(s: seq<nat>) {
    forall i, j :: 0 <= i < j < |s| ==> s[i] != s[j]
  }

  /** Memory changes that leave every listed link word alone leave the list alone. */
  lemma ChainFrame(m: Memory, n: Memory, head: nat, chain: seq<nat>)
    requires IsChain(m, head, chain)
    requires forall a :: a in chain ==> AgreeOn(m, n, a, WORD_BYTES)
    ensures IsChain(n, head, chain)
  {
    forall i | 0 <= i < |chain| ensures LinkAt(n, chain, i) {
      assert LinkAt(m, chain, i);
      LoadFrame(m, n, chain[i]);
    }
  }

  lemma ChainTail(m: Memory, head: nat, chain: seq<nat>)
    requires IsChain(m, head, chain) && chain != []
    ensures head == chain[0] != 0 && IsChain(m, LoadWord(m, head), chain[1..])
  {
    assert LinkAt(m, chain, 0);
    forall i | 0 <= i < |chain[1..]| ensures LinkAt(m, chain[1..], i) {
      assert LinkAt(m, chain, i + 1);
      assert chain[1..][i + 1..] == chain[i + 2..];
    }
  }

  /** The memory determines the list: there is at most one way to follow the links. */
  lemma {:induction false} ChainUnique(m: Memory, head: nat, a: seq<nat>, b: seq<nat>)
    requires IsChain(m, head, a) && IsChain(m, head, b)
    ensures a == b
    decreases |a|
  {
    if a != [] {
      ChainTail(m, head, a);
      if b != [] {
        ChainTail(m, head, b);
        ChainUnique(m, LoadWord(m, head), a[1..], b[1..]);
        assert a == [a[0]] + a[1..] && b == [b[0]] + b[1..];
      }
    } else if b != [] {
      ChainTail(m, head, b);
    }
  }

  lemma {:induction false} ChainSuffix(m: Memory, head: nat, chain: seq<nat>, i: nat)
    requires IsChain(m, head, chain) && i < |chain|
    ensures IsChain(m, chain[i], chain[i..])
    decreases i
  {
    if i > 0 {
      ChainTail(m, head, chain);
      ChainSuffix(m, LoadWord(m, head), chain[1..], i - 1);
      assert chain[1..][i - 1..] == chain[i..];
    } else {
      assert chain[0..] == chain;
    }
  }

  /** A list that reaches null never visits a block twice. */
  lemma ChainIsAcyclic(m: Memory, head: nat, chain: seq<nat>)
    requires IsChain(m, head, chain)
    ensures Distinct(chain)
  {
    forall i, j | 0 <= i < j < |chain| ensures chain[i] != chain[j] {
      ChainSuffix(m, head, chain, i);
      ChainSuffix(m, head, chain, j);
      assert |chain[i..]| > |chain[j..]|;
      if chain[i] == chain[j] {
        ChainUnique(m, chain[i], chain[i..], chain[j..]);
      }
    }
  }

  /** Writing the old head into a new block's first word and pointing at the block prepends it. */
  lemma ChainPush(m: Memory, head: Size, chain: seq<nat>, block: nat)
    requires IsChain(m, head, chain) && block != 0
    requires forall a :: a in chain ==> a + WORD_BYTES <= block || block + WORD_BYTES <= a
    ensures IsChain(StoreWord(m, block, head), block, [block] + chain)
  {
    var n, longer := StoreWord(m, block, head), [block] + chain;
    LoadStore(m, block, head);
    ChainFrame(m, n, head, chain);
    forall i | 0 <= i < |longer| ensures LinkAt(n, longer, i) {
      assert longer[i + 1..] == chain[i..];
      if i == 0 {
        assert chain[0..] == chain;
      } else {
        assert LinkAt(n, chain, i - 1);
      }
    }
  }

  /** Following the same links as another list up to a block meets that block. */
  lemma {:induction false} WalkMeets(m: Memory, n: Memory, head: nat, chain: seq<nat>, other: seq<nat>, block: nat)
    requires IsChain(m, head, chain) && IsChain(n, head, other) && block in chain
    requires forall a :: a in chain && a != block ==> AgreeOn(m, n, a, WORD_BYTES)
    ensures block in other
    decreases |chain|
  {
    ChainTail(m, head, chain);
    ChainTail(n, head, other);
    if head != block {
      LoadFrame(m, n, head);
      WalkMeets(m, n, LoadWord(m, head), chain[1..], other[1..], block);
    }
  }

  /** Pushing a block that is on the list already closes a cycle, so the links form a list exactly when it was not. */
  lemma PushIsChainIff(m: Memory, head: Size, chain: seq<nat>, block: nat)
    requires IsChain(m, head, chain) && block != 0
    requires forall a :: a in chain && a != block ==> a + WORD_BYTES <= block || block + WORD_BYTES <= a
    ensures (exists again :: IsChain(StoreWord(m, block, head), block, again)) <==> block !in chain
  {
    var n := StoreWord(m, block, head);
    if block !in chain {
      ChainPush(m, head, chain, block);
    } else {
      forall again | IsChain(n, block, again) ensures false {
        LoadStore(m, block, head);
        ChainTail(n, block, again);
        WalkMeets(m, n, head, chain, again[1..], block);
        ChainIsAcyclic(n, block, again);
      }
    }
  }

  /** Blocks that each link to the next form a list. */
  lemma LinkedBlocks(m: Memory, list: seq<nat>)
    requires list != [] && forall i :: 0 <= i < |list| ==> list[i] != 0
    requires forall i :: 0 <= i < |list| - 1 ==> LoadWord(m, list[i]) == list[i + 1]
    requires LoadWord(m, list[|list| - 1]) == 0
    ensures IsChain(m, list[0], list)
  {
  }

  /** The blocks of a list as a set; there are as many as the list is long. */
  function Members(chain: seq<nat>): set<nat> {
    set a | a in chain
  }

  lemma {:induction false} MembersCount(chain: seq<nat>)
    requires Distinct(chain)
    ensures |Members(chain)| == |chain|
  {
    if chain != [] {
      var rest := chain[1..];
      assert forall i :: 0 <= i < |rest| ==> rest[i] == chain[i + 1];
      MembersCount(rest);
      assert chain[0] !in Members(rest);
      assert Members(chain) == Members(rest) + {chain[0]};
    } else {
      assert Members(chain) == {};
    }
  }
}
