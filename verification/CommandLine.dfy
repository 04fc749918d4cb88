/**
 Quoting a list of arguments into one Windows command line, and the Microsoft C rules that split
 a command line into arguments again.  The printer is undone by the parser on every list.
 */
module CommandLine {
  import opened Options

  // ---- the printer, as the specification of the quoting loop ----

  function Backslashes(n: nat): string {
    seq(n, _ => '\\')
  }

  predicate IsSeparator(c: char) {
    c == ' ' || c == '\t'
  }

  predicate NeedsQuotes(value: string) {
    exists i :: 0 <= i < |value| && (IsSeparator(value[i]) || value[i] == '"')
  }

  /** The quoted form of what is left of an argument, with n backslashes read but not yet written. */
  function QuoteRest(value: string, n: nat): string {
    if value == [] then Backslashes(2 * n) + "\""
    else if value[0] == '\\' then QuoteRest(value[1..], n + 1)
    else if value[0] == '"' then Backslashes(2 * n + 1) + "\"" + QuoteRest(value[1..], 0)
    else Backslashes(n) + [value[0]] + QuoteRest(value[1..], 0)
  }

  function Quoted(value: string): string {
    if value == [] then "\"\""
    else if !NeedsQuotes(value) then value
    else "\"" + QuoteRest(value, 0)
  }

  function Line(items: seq<string>): string
    requires items != []
  {
    if |items| == 1 then Quoted(items[0]) else Quoted(items[0]) + " " + Line(items[1..])
  }

  // ---- the Microsoft C argument rules ----

  function LeadingBackslashes(s: string): (n: nat)
    ensures n <= |s|
  {
    if s != [] && s[0] == '\\' then 1 + LeadingBackslashes(s[1..]) else 0
  }

  datatype Reading = Reading(arg: string, rest: string)

  function Prepend(prefix: string, r: Reading): Reading {
    Reading(prefix + r.arg, r.rest)
  }

  /**
   Reads one argument.  2n backslashes before a quote stand for n and the quote toggles quoting; 2n + 1 stand
   for n and the quote is literal; other backslashes are literal; a separator ends the argument outside quotes.
   `doubled` selects the later rule by which a doubled quote inside quotes is a literal quote.
   */
  function ReadArgument(s: string, inQuotes: bool, doubled: bool): (r: Reading)
    ensures |r.rest| <= |s|
    ensures s != [] && !IsSeparator(s[0]) ==> |r.rest| < |s|
    decreases |s|
  {
    if s == [] || (IsSeparator(s[0]) && !inQuotes) then
      Reading([], s)
    else if s[0] == '\\' then
      var n := LeadingBackslashes(s);
      if n < |s| && s[n] == '"' then
        if n % 2 == 0 then Prepend(Backslashes(n / 2), ReadArgument(s[n..], inQuotes, doubled))
        else Prepend(Backslashes(n / 2) + "\"", ReadArgument(s[n + 1..], inQuotes, doubled))
      else
        Prepend(Backslashes(n), ReadArgument(s[n..], inQuotes, doubled))
    else if s[0] == '"' then
      if doubled && inQuotes && |s| > 1 && s[1] == '"' then
        Prepend("\"", ReadArgument(s[2..], true, doubled))
      else
        ReadArgument(s[1..], !inQuotes, doubled)
    else
      Prepend([s[0]], ReadArgument(s[1..], inQuotes, doubled))
  }

  function SplitArguments(s: string, doubled: bool): seq<string>
    decreases |s|
  {
    if s == [] then []
    else if IsSeparator(s[0]) then SplitArguments(s[1..], doubled)
    else
      var r := ReadArgument(s, false, doubled);
      [r.arg] + SplitArguments(r.rest, doubled)
  }

  // ---- reading back one argument ----

  lemma {:induction false} CountBackslashes(n: nat, s: string)
    requires s == [] || s[0] != '\\'
    ensures LeadingBackslashes(Backslashes(n) + s) == n
  {
    if n == 0 {
      assert Backslashes(0) + s == s;
    } else {
      CountBackslashes(n - 1, s);
      assert (Backslashes(n) + s)[1..] == Backslashes(n - 1) + s;
    }
  }

  /** Literal backslashes in front of anything but a backslash or a quote. */
  lemma ReadPlainBackslashes(n: nat, s: string, inQuotes: bool, doubled: bool)
    requires s == [] || (s[0] != '\\' && s[0] != '"')
    ensures ReadArgument(Backslashes(n) + s, inQuotes, doubled)
            == Prepend(Backslashes(n), ReadArgument(s, inQuotes, doubled))
  {
    var t := Backslashes(n) + s;
    if n == 0 {
      assert t == s;
    } else {
      CountBackslashes(n, s);
      assert t[n..] == s;
    }
  }

  /** An odd number of backslashes and a quote, at the front of what is read. */
  lemma ReadOddBackslashes(t: string, m: nat, inQuotes: bool, doubled: bool)
    requires t != [] && t[0] == '\\' && LeadingBackslashes(t) == m < |t| && t[m] == '"' && m % 2 == 1
    ensures ReadArgument(t, inQuotes, doubled)
            == Prepend(Backslashes(m / 2) + "\"", ReadArgument(t[m + 1..], inQuotes, doubled))
  {
  }

  lemma BeforeQuote(m: nat, s: string)
    requires m > 0
    ensures var t := Backslashes(m) + "\"" + s;
            && t[0] == '\\' && LeadingBackslashes(t) == m < |t| && t[m] == '"'
            && t[m..] == "\"" + s && t[m + 1..] == s
  {
    Associate(Backslashes(m), "\"", s);
    CountBackslashes(m, "\"" + s);
  }

  /** 2n + 1 backslashes and a quote are n backslashes and a literal quote. */
  lemma ReadEscapedQuote(n: nat, s: string, inQuotes: bool, doubled: bool)
    ensures ReadArgument(Backslashes(2 * n + 1) + "\"" + s, inQuotes, doubled)
            == Prepend(Backslashes(n) + "\"", ReadArgument(s, inQuotes, doubled))
  {
    BeforeQuote(2 * n + 1, s);
    ReadOddBackslashes(Backslashes(2 * n + 1) + "\"" + s, 2 * n + 1, inQuotes, doubled);
  }

  /** An even number of backslashes and a quote, at the front of what is read. */
  lemma ReadEvenBackslashes(t: string, m: nat, inQuotes: bool, doubled: bool)
    requires t != [] && t[0] == '\\' && LeadingBackslashes(t) == m < |t| && t[m] == '"' && m % 2 == 0
    ensures ReadArgument(t, inQuotes, doubled) == Prepend(Backslashes(m / 2), ReadArgument(t[m..], inQuotes, doubled))
  {
  }

  /** 2n backslashes and a closing quote are n backslashes; the argument ends with the text before `after`. */
  lemma ReadClosingQuote(n: nat, after: string, doubled: bool)
    requires after == [] || IsSeparator(after[0])
    ensures ReadArgument(Backslashes(2 * n) + "\"" + after, true, doubled) == Reading(Backslashes(n), after)
  {
    var q := "\"" + after;
    assert q[1..] == after;
    assert ReadArgument(q, true, doubled) == Reading([], after);
    var t := Backslashes(2 * n) + "\"" + after;
    if n == 0 {
      assert t == q;
    } else {
      BeforeQuote(2 * n, after);
      ReadEvenBackslashes(t, 2 * n, true, doubled);
    }
  }

  lemma Associate(a: string, b: string, c: string)
    ensures (a + b) + c == a + (b + c)
  {
  }

  /** A quote inside the argument: escaped by the printer, literal for the parser. */
  lemma ReadQuoteCharacter(n: nat, tail: string, after: string, doubled: bool)
    requires ReadArgument(QuoteRest(tail, 0) + after, true, doubled) == Reading(tail, after)
    ensures ReadArgument(QuoteRest("\"" + tail, n) + after, true, doubled)
            == Reading(Backslashes(n) + ("\"" + tail), after)
  {
    assert ("\"" + tail)[1..] == tail;
    var escaped, rest := Backslashes(2 * n + 1) + "\"", QuoteRest(tail, 0);
    assert QuoteRest("\"" + tail, n) == escaped + rest;
    Associate(escaped, rest, after);
    ReadEscapedQuote(n, rest + after, true, doubled);
    Associate(Backslashes(n), "\"", tail);
  }

  /** Any other character: pending backslashes are written and read literally. */
  lemma ReadPlainCharacter(c: char, n: nat, tail: string, after: string, doubled: bool)
    requires c != '\\' && c != '"'
    requires ReadArgument(QuoteRest(tail, 0) + after, true, doubled) == Reading(tail, after)
    ensures ReadArgument(QuoteRest([c] + tail, n) + after, true, doubled)
            == Reading(Backslashes(n) + ([c] + tail), after)
  {
    assert ([c] + tail)[1..] == tail;
    ReadPlain(c, n, QuoteRest(tail, 0) + after, doubled);
    assert QuoteRest([c] + tail, n) == Backslashes(n) + [c] + QuoteRest(tail, 0);
    Associate(Backslashes(n) + [c], QuoteRest(tail, 0), after);
    Associate(Backslashes(n), [c], QuoteRest(tail, 0) + after);
  }

  lemma {:induction false} ReadQuotedRest(value: string, n: nat, after: string, doubled: bool)
    requires after == [] || IsSeparator(after[0])
    ensures ReadArgument(QuoteRest(value, n) + after, true, doubled) == Reading(Backslashes(n) + value, after)
  {
    if value == [] {
      ReadClosingQuote(n, after, doubled);
      assert Backslashes(n) + [] == Backslashes(n);
    } else {
      var c, tail := value[0], value[1..];
      assert value == [c] + tail;
      if c == '\\' {
        ReadQuotedRest(tail, n + 1, after, doubled);
        assert Backslashes(n + 1) + tail == Backslashes(n) + value;
      } else {
        ReadQuotedRest(tail, 0, after, doubled);
        assert Backslashes(0) + tail == tail;
        if c == '"' {
          ReadQuoteCharacter(n, tail, after, doubled);
        } else {
          ReadPlainCharacter(c, n, tail, after, doubled);
        }
      }
    }
  }

  /** Backslashes and an ordinary character inside quotes. */
  lemma ReadPlain(c: char, n: nat, s: string, doubled: bool)
    requires c != '\\' && c != '"'
    ensures ReadArgument(Backslashes(n) + ([c] + s), true, doubled)
            == Prepend(Backslashes(n), Prepend([c], ReadArgument(s, true, doubled)))
  {
    ReadPlainBackslashes(n, [c] + s, true, doubled);
    assert ([c] + s)[1..] == s;
  }

  lemma {:induction false} SplitBackslashes(value: string)
    ensures var n := LeadingBackslashes(value);
            value == Backslashes(n) + value[n..] && (n < |value| ==> value[n] != '\\')
  {
    if value != [] && value[0] == '\\' {
      SplitBackslashes(value[1..]);
      var n := LeadingBackslashes(value);
      assert value == [value[0]] + value[1..];
      assert Backslashes(n) == "\\" + Backslashes(n - 1);
      assert value[1..][n - 1..] == value[n..];
    }
  }

  lemma TailNeedsNoQuotes(value: string, n: nat)
    requires n <= |value| && !NeedsQuotes(value)
    ensures !NeedsQuotes(value[n..])
  {
    assert forall i :: 0 <= i < |value[n..]| ==> value[n..][i] == value[n + i];
  }

  /** Backslashes that no quote follows, in front of text that is read back. */
  lemma ReadUnquotedBackslashes(n: nat, tail: string, after: string, doubled: bool)
    requires tail != [] ==> tail[0] != '\\' && tail[0] != '"'
    requires after == [] || IsSeparator(after[0])
    requires ReadArgument(tail + after, false, doubled) == Reading(tail, after)
    ensures ReadArgument((Backslashes(n) + tail) + after, false, doubled) == Reading(Backslashes(n) + tail, after)
  {
    Associate(Backslashes(n), tail, after);
    assert tail + after != [] ==> (tail + after)[0] == if tail == [] then after[0] else tail[0];
    ReadPlainBackslashes(n, tail + after, false, doubled);
  }

  lemma ReadUnquotedCharacter(c: char, tail: string, after: string, doubled: bool)
    requires c != '\\' && c != '"' && !IsSeparator(c)
    requires ReadArgument(tail + after, false, doubled) == Reading(tail, after)
    ensures ReadArgument(([c] + tail) + after, false, doubled) == Reading([c] + tail, after)
  {
    Associate([c], tail, after);
    assert ([c] + (tail + after))[1..] == tail + after;
  }

  lemma {:induction false} ReadUnquoted(value: string, after: string, doubled: bool)
    requires !NeedsQuotes(value)
    requires after == [] || IsSeparator(after[0])
    ensures ReadArgument(value + after, false, doubled) == Reading(value, after)
    decreases |value|
  {
    if value == [] {
      assert value + after == after;
    } else if value[0] == '\\' {
      var n := LeadingBackslashes(value);
      SplitBackslashes(value);
      TailNeedsNoQuotes(value, n);
      ReadUnquoted(value[n..], after, doubled);
      ReadUnquotedBackslashes(n, value[n..], after, doubled);
    } else {
      TailNeedsNoQuotes(value, 1);
      ReadUnquoted(value[1..], after, doubled);
      ReadUnquotedCharacter(value[0], value[1..], after, doubled);
      assert value == [value[0]] + value[1..];
    }
  }

  lemma OpeningQuote(s: string, doubled: bool)
    ensures ReadArgument("\"" + s, false, doubled) == ReadArgument(s, true, doubled)
  {
    assert ("\"" + s)[1..] == s;
  }

  /** The empty argument is a pair of quotes. */
  lemma ReadEmptyArgument(after: string, doubled: bool)
    requires after == [] || IsSeparator(after[0])
    ensures ReadArgument("\"\"" + after, false, doubled) == Reading([], after)
  {
    ReadClosingQuote(0, after, doubled);
    assert Backslashes(0) + "\"" + after == "\"" + after;
    assert ("\"\"" + after)[1..] == "\"" + after;
  }

  /** One quoted argument is read back exactly, up to the separator or the end that follows it. */
  lemma ReadQuotedArgument(value: string, after: string, doubled: bool)
    requires after == [] || IsSeparator(after[0])
    ensures ReadArgument(Quoted(value) + after, false, doubled) == Reading(value, after)
  {
    if value == [] {
      ReadEmptyArgument(after, doubled);
    } else if NeedsQuotes(value) {
      ReadQuotedRest(value, 0, after, doubled);
      OpeningQuote(QuoteRest(value, 0) + after, doubled);
      Associate("\"", QuoteRest(value, 0), after);
      assert Backslashes(0) + value == value;
    } else {
      ReadUnquoted(value, after, doubled);
    }
  }

  // ---- reading back the whole line ----

  lemma QuotedStart(value: string)
    ensures Quoted(value) != [] && !IsSeparator(Quoted(value)[0])
  {
  }

  /** One printed argument is split off, whatever follows it. */
  lemma SplitFirst(item: string, after: string, doubled: bool)
    requires after == [] || IsSeparator(after[0])
    ensures SplitArguments(Quoted(item) + after, doubled) == [item] + SplitArguments(after, doubled)
  {
    QuotedStart(item);
    ReadQuotedArgument(item, after, doubled);
  }

  lemma SplitSeparator(s: string, doubled: bool)
    ensures SplitArguments(" " + s, doubled) == SplitArguments(s, doubled)
  {
    assert (" " + s)[1..] == s;
  }

  lemma LineStart(items: seq<string>)
    requires items != []
    ensures Line(items) == Quoted(items[0]) + if |items| == 1 then [] else " " + Line(items[1..])
  {
    if |items| > 1 {
      Associate(Quoted(items[0]), " ", Line(items[1..]));
    }
  }

  /** Splitting undoes printing, for every list of strings and under both quote rules. */
  lemma {:induction false} SplitUndoesLine(items: seq<string>, doubled: bool)
    requires items != []
    ensures SplitArguments(Line(items), doubled) == items
  {
    LineStart(items);
    if |items| == 1 {
      SplitFirst(items[0], [], doubled);
    } else {
      var rest := Line(items[1..]);
      SplitFirst(items[0], " " + rest, doubled);
      SplitSeparator(rest, doubled);
      SplitUndoesLine(items[1..], doubled);
    }
  }

  /** Different argument lists never share a command line. */
  lemma LineIsInjective(a: seq<string>, b: seq<string>)
    requires a != [] && b != [] && Line(a) == Line(b)
    ensures a == b
  {
    SplitUndoesLine(a, false);
    SplitUndoesLine(b, false);
  }

  lemma AssociateFour(a: string, b: string, c: string, d: string)
    ensures a + ((b + c) + d) == ((a + b) + c) + d
  {
  }

  lemma {:induction false} LineAppend(items: seq<string>, item: string)
    requires items != []
    ensures Line(items + [item]) == Line(items) + " " + Quoted(item)
  {
    var more := items + [item];
    if |items| == 1 {
      assert more[1..] == [item];
    } else {
      LineAppend(items[1..], item);
      assert more[1..] == items[1..] + [item];
      AssociateFour(Quoted(items[0]) + " ", Line(items[1..]), " ", Quoted(item));
    }
  }

  // ---- which characters matter ----

  lemma {:induction false} QuoteRestEnds(value: string, n: nat)
    ensures var q := QuoteRest(value, n);
            |q| > |value| + n && q[|q| - 1] == '"'
  {
    if value != [] {
      if value[0] == '\\' {
        QuoteRestEnds(value[1..], n + 1);
      } else {
        QuoteRestEnds(value[1..], 0);
      }
    }
  }

  /** An argument is printed as it is exactly when it has no space, tab or quote; otherwise it is put in quotes. */
  lemma QuotedShape(value: string)
    ensures var q := Quoted(value);
            && (q == value <==> value != [] && ' ' !in value && '\t' !in value && '"' !in value)
            && (q != value ==> |q| >= 2 && q[0] == '"' && q[|q| - 1] == '"')
  {
    if value != [] && NeedsQuotes(value) {
      QuoteRestEnds(value, 0);
    }
  }

  /** Text without backslashes, quotes, spaces and tabs. */
  predicate IsPlain(s: string) {
    forall i :: 0 <= i < |s| ==> s[i] != '\\' && s[i] != '"' && s[i] != ' ' && s[i] != '\t'
  }

  /** Between plain texts, a space or a tab, and no other character without a meaning of its own, separates arguments. */
  lemma SeparatesIff(a: string, c: char, b: string, doubled: bool)
    requires IsPlain(a) && IsPlain(b) && a != [] && b != [] && c != '\\' && c != '"'
    ensures SplitArguments(a + [c] + b, doubled) == [a, b] <==> c == ' ' || c == '\t'
  {
    if c == ' ' || c == '\t' {
      Associate(a, [c], b);
      SplitPlain(a, [c] + b, doubled);
      assert ([c] + b)[1..] == b;
      SplitPlain(b, [], doubled);
      assert b + [] == b;
    } else {
      var whole := a + [c] + b;
      SplitPlain(whole, [], doubled);
      assert whole + [] == whole;
    }
  }

  lemma SplitPlain(a: string, after: string, doubled: bool)
    requires IsPlain(a) && a != [] && (after == [] || IsSeparator(after[0]))
    ensures SplitArguments(a + after, doubled) == [a] + SplitArguments(after, doubled)
  {
    assert Quoted(a) == a;
    SplitFirst(a, after, doubled);
  }

  // ---- the rules for backslashes and quotes ----

  /** Plain text is read as it is, inside and outside quotes. */
  lemma {:induction false} ReadPlainText(a: string, rest: string, inQuotes: bool, doubled: bool)
    requires IsPlain(a)
    ensures ReadArgument(a + rest, inQuotes, doubled) == Prepend(a, ReadArgument(rest, inQuotes, doubled))
  {
    if a == [] {
      assert a + rest == rest;
    } else {
      ReadPlainText(a[1..], rest, inQuotes, doubled);
      assert (a + rest)[1..] == a[1..] + rest;
      Associate([a[0]], a[1..], ReadArgument(rest, inQuotes, doubled).arg);
      assert [a[0]] + a[1..] == a;
    }
  }

  lemma SplitOnlyArgument(s: string, arg: string, doubled: bool)
    requires s != [] && s[0] != ' ' && s[0] != '\t' && ReadArgument(s, false, doubled) == Reading(arg, [])
    ensures SplitArguments(s, doubled) == [arg]
  {
  }

  lemma ReadLastPlain(b: string, inQuotes: bool, doubled: bool)
    requires IsPlain(b)
    ensures ReadArgument(b, inQuotes, doubled) == Reading(b, [])
  {
    ReadPlainText(b, [], inQuotes, doubled);
    assert b + [] == b;
  }

  /** Backslashes that no quote follows are literal. */
  lemma LiteralBackslashes(a: string, n: nat, b: string, doubled: bool)
    requires IsPlain(a) && IsPlain(b) && a != []
    ensures |Backslashes(n)| == n && forall i :: 0 <= i < n ==> Backslashes(n)[i] == '\\'
    ensures SplitArguments(a + (Backslashes(n) + b), doubled) == [a + (Backslashes(n) + b)]
  {
    var rest := Backslashes(n) + b;
    ReadPlainText(a, rest, false, doubled);
    ReadPlainBackslashes(n, b, false, doubled);
    ReadLastPlain(b, false, doubled);
    SplitOnlyArgument(a + rest, a + rest, doubled);
  }

  /** 2n + 1 backslashes and a quote are n backslashes and a quote of the argument. */
  lemma EscapedQuote(a: string, n: nat, b: string, doubled: bool)
    requires IsPlain(a) && IsPlain(b) && a != []
    ensures SplitArguments(a + (Backslashes(2 * n + 1) + "\"" + b), doubled) == [a + (Backslashes(n) + "\"" + b)]
  {
    var rest := Backslashes(2 * n + 1) + "\"" + b;
    ReadPlainText(a, rest, false, doubled);
    ReadEscapedQuote(n, b, false, doubled);
    ReadLastPlain(b, false, doubled);
    SplitOnlyArgument(a + rest, a + (Backslashes(n) + "\"" + b), doubled);
  }

  /** In quotes spaces are literal, and 2n backslashes before the closing quote are n backslashes. */
  lemma QuotedText(a: string, c: char, b: string, n: nat, doubled: bool)
    requires IsPlain(a) && IsPlain(b) && (c == ' ' || c == '\t')
    ensures SplitArguments("\"" + (a + ([c] + (b + (Backslashes(2 * n) + "\"")))), doubled)
            == [a + ([c] + (b + Backslashes(n)))]
  {
    var end := Backslashes(2 * n) + "\"";
    assert end + [] == end;
    ReadClosingQuote(n, [], doubled);
    ReadPlainText(b, end, true, doubled);
    ReadPlain(c, 0, b + end, doubled);
    assert Backslashes(0) + ([c] + (b + end)) == [c] + (b + end);
    ReadPlainText(a, [c] + (b + end), true, doubled);
    OpeningQuote(a + ([c] + (b + end)), doubled);
    SplitOnlyArgument("\"" + (a + ([c] + (b + end))), a + ([c] + (b + Backslashes(n))), doubled);
  }

  /** By the later rule a doubled quote in quotes is a literal quote, and the text stays in quotes. */
  lemma DoubledQuote(a: string, b: string, c: char, d: string)
    requires IsPlain(a) && IsPlain(b) && IsPlain(d) && (c == ' ' || c == '\t')
    ensures SplitArguments("\"" + (a + ("\"\"" + (b + ([c] + (d + "\""))))), true) == [a + ("\"" + (b + ([c] + d)))]
  {
    var tail := b + ([c] + (d + "\""));
    QuotedTail(b, c, d, true);
    assert ("\"\"" + tail)[2..] == tail;
    assert ReadArgument("\"\"" + tail, true, true) == Prepend("\"", ReadArgument(tail, true, true));
    ReadPlainText(a, "\"\"" + tail, true, true);
    OpeningQuote(a + ("\"\"" + tail), true);
    SplitOnlyArgument("\"" + (a + ("\"\"" + tail)), a + ("\"" + (b + ([c] + d))), true);
  }

  /** By the older rule it closes the quotes and opens them again. */
  lemma ReopenedQuote(a: string, b: string, c: char, d: string)
    requires IsPlain(a) && IsPlain(b) && IsPlain(d) && (c == ' ' || c == '\t')
    ensures SplitArguments("\"" + (a + ("\"\"" + (b + ([c] + (d + "\""))))), false) == [a + (b + ([c] + d))]
  {
    var tail := b + ([c] + (d + "\""));
    QuotedTail(b, c, d, false);
    assert ("\"\"" + tail)[1..] == "\"" + tail;
    OpeningQuote(tail, false);
    assert ReadArgument("\"\"" + tail, true, false) == ReadArgument(tail, true, false);
    ReadPlainText(a, "\"\"" + tail, true, false);
    OpeningQuote(a + ("\"\"" + tail), false);
    SplitOnlyArgument("\"" + (a + ("\"\"" + tail)), a + (b + ([c] + d)), false);
  }

  lemma QuotedTail(b: string, c: char, d: string, doubled: bool)
    requires IsPlain(b) && IsPlain(d) && (c == ' ' || c == '\t')
    ensures ReadArgument(b + ([c] + (d + "\"")), true, doubled) == Reading(b + ([c] + d), [])
  {
    ReadClosingQuote(0, [], doubled);
    assert Backslashes(0) + "\"" + [] == "\"";
    ReadPlainText(d, "\"", true, doubled);
    ReadPlain(c, 0, d + "\"", doubled);
    assert Backslashes(0) + ([c] + (d + "\"")) == [c] + (d + "\"");
    ReadPlainText(b, [c] + (d + "\""), true, doubled);
  }

  // ---- the code ----

  /** Leaves an argument as it is exactly when it has no space, tab or quote and is not empty. */
  method QuoteCommandArgument(value: string) returns (result: string)
    ensures result == Quoted(value)
    ensures result == value <==> value != [] && ' ' !in value && '\t' !in value && '"' !in value
    ensures result != value ==> |result| >= 2 && result[0] == '"' && result[|result| - 1] == '"'
  {
    QuotedShape(value);
    if value == [] {
      return "\"\"";
    }
    var needsQuotes := exists i :: 0 <= i < |value| && (IsSeparator(value[i]) || value[i] == '"');
    if !needsQuotes {
      return value;
    }
    result := QuoteCharacters(value);
  }

  /** The scanning loop: backslashes are held back until the next character shows what they stand before. */
  method QuoteCharacters(value: string) returns (result: string)
    ensures result == "\"" + QuoteRest(value, 0)
  {
    result := "\"";
    var backslashCount := 0;
    for i := 0 to |value|
      invariant result + QuoteRest(value[i..], backslashCount) == "\"" + QuoteRest(value, 0)
    {
      var character := value[i];
      assert value[i..][1..] == value[i + 1..];
      if character == '\\' {
        backslashCount := backslashCount + 1;
        continue;
      }
      if character == '"' {
        result := result + Backslashes(backslashCount * 2 + 1);
        result := result + "\"";
        backslashCount := 0;
        continue;
      }
      result := result + Backslashes(backslashCount);
      backslashCount := 0;
      result := result + [character];
    }
    result := result + Backslashes(backslashCount * 2);
    result := result + "\"";
  }

  /** Argument text to wide text: None where the conversion fails. */
  type Conversion = string -> Option<string>

  ghost predicate AllConvert(convert: Conversion, arguments: seq<string>) {
    forall i :: 0 <= i < |arguments| ==> convert(arguments[i]).Some?
  }

  function ConvertAll(convert: Conversion, arguments: seq<string>): seq<string>
    requires AllConvert(convert, arguments)
  {
    seq(|arguments|, i requires 0 <= i < |arguments| => convert(arguments[i]).value)
  }

  /** Succeeds exactly when every argument converts, and then a program splitting the line sees its own arguments. */
  method BuildCommandLine(convert: Conversion, executablePath: string, arguments: seq<string>)
    returns (ok: bool, commandLine: string)
    ensures ok <==> AllConvert(convert, arguments)
    ensures ok ==> forall doubled ::
      SplitArguments(commandLine, doubled) == [executablePath] + ConvertAll(convert, arguments)
  {
    commandLine := QuoteCommandArgument(executablePath);
    ghost var items := [executablePath];
    for i := 0 to |arguments|
      invariant forall j :: 0 <= j < i ==> convert(arguments[j]).Some?
      invariant |items| == i + 1 && items[0] == executablePath
      invariant forall j :: 0 <= j < i ==> items[j + 1] == convert(arguments[j]).value
      invariant commandLine == Line(items)
    {
      var wideArgument := convert(arguments[i]);
      if wideArgument.None? {
        return false, commandLine;
      }
      LineAppend(items, wideArgument.value);
      commandLine := commandLine + " ";
      var quoted := QuoteCommandArgument(wideArgument.value);
      commandLine := commandLine + quoted;
      items := items + [wideArgument.value];
    }
    assert items == [executablePath] + ConvertAll(convert, arguments);
    forall doubled ensures SplitArguments(commandLine, doubled) == items {
      SplitUndoesLine(items, doubled);
    }
    ok := true;
  }
}
