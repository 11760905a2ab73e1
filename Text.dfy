/** The string primitives the application relies on, with JavaScript's
    semantics: `split` on one character, decimal `parseInt`, `toString` and
    `padStart(2, '0')` on integers, `toLowerCase`, `includes`, `trim` and the
    `<` comparison of strings. */
module Text {
  import opened Wrappers

  // ---------------------------------------------------------------------
  // Decimal digits

  predicate IsDigit(c: char) { '0' <= c <= '9' }

  predicate AllDigits(s: string) { forall i :: 0 <= i < |s| ==> IsDigit(s[i]) }

  function DigitValue(c: char): (n: nat)
    requires IsDigit(c)
    ensures n < 10
  {
    (c as int) - ('0' as int)
  }

  function DigitChar(n: nat): (c: char)
    requires n < 10
    ensures IsDigit(c) && DigitValue(c) == n
  {
    (('0' as int) + n) as char
  }

  /** `n.toString()` for a non-negative integer: decimal, no leading zeros. */
  function NatStr(n: nat): (r: string)
    ensures 1 <= |r| && AllDigits(r)
    decreases n
  {
    if n < 10 then [DigitChar(n)] else NatStr(n / 10) + [DigitChar(n % 10)]
  }

  /** `y.toString()` for any integer. */
  function IntStr(y: int): string {
    if y < 0 then "-" + NatStr(-y) else NatStr(y)
  }

  /** The number a string of decimal digits denotes (leading zeros allowed). */
  function DigitsValue(s: string): nat
    requires AllDigits(s)
    decreases |s|
  {
    if s == [] then 0 else DigitsValue(s[..|s| - 1]) * 10 + DigitValue(s[|s| - 1])
  }

  /** `s.padStart(2, '0')`: zeros in front up to two characters. */
  function PadStart2(s: string): (r: string)
    ensures |r| == if |s| < 2 then 2 else |s|
    ensures r[|r| - |s|..] == s
    ensures forall i :: 0 <= i < |r| - |s| ==> r[i] == '0'
  {
    if |s| >= 2 then s else if |s| == 1 then "0" + s else "00"
  }

  /** `n.toString().padStart(2, '0')`. */
  function Pad2(n: int): (r: string)
    ensures 2 <= |r|
    ensures 0 <= n < 100 ==> |r| == 2
    ensures n >= 0 ==> AllDigits(r)
  {
    if n >= 10 then assert n < 100 ==> |NatStr(n / 10)| == 1; PadStart2(IntStr(n))
    else PadStart2(IntStr(n))
  }

  function Pow10(n: nat): (r: nat)
    ensures r >= 1
  {
    if n == 0 then 1 else 10 * Pow10(n - 1)
  }

  /** A string of `k` digits denotes a number below `10^k`. */
  lemma {:induction false} DigitsValueBound(s: string)
    requires AllDigits(s)
    ensures DigitsValue(s) < Pow10(|s|)
    decreases |s|
  {
    if s != [] {
      var t := s[..|s| - 1];
      DigitsValueBound(t);
      assert DigitsValue(s) == DigitsValue(t) * 10 + DigitValue(s[|s| - 1]);
      assert DigitsValue(t) * 10 <= (Pow10(|t|) - 1) * 10;
    }
  }

  lemma {:induction false} NatStrValue(n: nat)
    ensures DigitsValue(NatStr(n)) == n
    decreases n
  {
    if n >= 10 {
      NatStrValue(n / 10);
      var s := NatStr(n);
      assert s[..|s| - 1] == NatStr(n / 10);
    }
  }

  lemma Pad2Value(n: nat)
    ensures DigitsValue(Pad2(n)) == n
  {
    NatStrValue(n);
    if n < 10 {
      var s := Pad2(n);
      assert s[..1] == "0";
    }
  }

  /** A four-digit year prints as exactly four characters. */
  lemma NatStrFourDigits(n: nat)
    requires 1000 <= n <= 9999
    ensures |NatStr(n)| == 4
  {
    assert |NatStr(n / 1000)| == 1;
    assert |NatStr(n / 100)| == 2;
    assert |NatStr(n / 10)| == 3;
  }

  // ---------------------------------------------------------------------
  // Splitting on one separator character

  /** Index of the first occurrence of `c` in `s`. */
  function IndexOf(s: string, c: char): (k: nat)
    requires c in s
    ensures k < |s| && s[k] == c && c !in s[..k]
  {
    if s[0] == c then 0
    else
      var k := 1 + IndexOf(s[1..], c);
      assert s[..k] == [s[0]] + s[1..][..k - 1];
      k
  }

  /** `s.split(c)`: the pieces between occurrences of `c`, empty pieces
      included; the empty string splits into one empty piece. */
  function Split(s: string, c: char): (r: seq<string>)
    ensures |r| >= 1
    ensures forall i :: 0 <= i < |r| ==> c !in r[i]
    decreases |s|
  {
    if c !in s then [s]
    else
      var k := IndexOf(s, c);
      [s[..k]] + Split(s[k + 1..], c)
  }

  /** `parts.join(c)`, the inverse of `Split`. */
  function Join(parts: seq<string>, c: char): string
    requires |parts| >= 1
  {
    if |parts| == 1 then parts[0] else parts[0] + [c] + Join(parts[1..], c)
  }

  function CountChar(s: string, c: char): nat {
    if s == [] then 0 else (if s[0] == c then 1 else 0) + CountChar(s[1..], c)
  }

  lemma {:induction false} CountCharAppend(a: string, b: string, c: char)
    ensures CountChar(a + b, c) == CountChar(a, c) + CountChar(b, c)
  {
    if a == [] {
      assert a + b == b;
    } else {
      assert (a + b)[0] == a[0];
      assert (a + b)[1..] == a[1..] + b;
      CountCharAppend(a[1..], b, c);
    }
  }

  lemma {:induction false} CountCharAbsent(s: string, c: char)
    ensures c !in s <==> CountChar(s, c) == 0
  {
    if s != [] {
      CountCharAbsent(s[1..], c);
      assert s == [s[0]] + s[1..];
    }
  }

  /** Joining the pieces of a split gives back the original string. */
  lemma {:induction false} SplitJoin(s: string, c: char)
    ensures Join(Split(s, c), c) == s
    decreases |s|
  {
    if c in s {
      var k := IndexOf(s, c);
      var a, rest := s[..k], s[k + 1..];
      assert s == a + [c] + rest;
      SplitAt(a, c, rest);
      SplitJoin(rest, c);
      var parts := [a] + Split(rest, c);
      assert parts[1..] == Split(rest, c);
      assert Join(parts, c) == a + [c] + Join(Split(rest, c), c);
    }
  }

  /** Splitting a join of separator-free pieces gives back the pieces. */
  lemma {:induction false} JoinSplit(parts: seq<string>, c: char)
    requires |parts| >= 1
    requires forall i :: 0 <= i < |parts| ==> c !in parts[i]
    ensures Split(Join(parts, c), c) == parts
    decreases |parts|
  {
    if |parts| > 1 {
      var rest := parts[1..];
      assert forall i :: 0 <= i < |rest| ==> rest[i] == parts[i + 1];
      SplitAt(parts[0], c, Join(rest, c));
      JoinSplit(rest, c);
      assert parts == [parts[0]] + rest;
    }
  }

  /** Splitting a separator-free piece, the separator and a rest. */
  lemma SplitAt(a: string, c: char, rest: string)
    requires c !in a
    ensures Split(a + [c] + rest, c) == [a] + Split(rest, c)
  {
    var t := a + [c] + rest;
    assert t[|a|] == c;
    assert t[..|a|] == a;
    assert IndexOf(t, c) == |a| by {
      var k := IndexOf(t, c);
      assert k <= |a|;
      assert k >= |a|;
    }
    assert t[|a| + 1..] == rest;
  }

  /** `s.split(c).length` is one more than the number of separators. */
  lemma {:induction false} SplitLength(s: string, c: char)
    ensures |Split(s, c)| == CountChar(s, c) + 1
    decreases |s|
  {
    if c !in s {
      CountCharAbsent(s, c);
    } else {
      var k := IndexOf(s, c);
      SplitLength(s[k + 1..], c);
      assert s == s[..k] + ([c] + s[k + 1..]);
      CountCharAppend(s[..k], [c] + s[k + 1..], c);
      CountCharAbsent(s[..k], c);
      assert ([c] + s[k + 1..])[1..] == s[k + 1..];
    }
  }

  /** Splitting `a c b` on `c`, for `a` and `b` without `c`. */
  lemma SplitTwo(a: string, c: char, b: string)
    requires c !in a && c !in b
    ensures Split(a + [c] + b, c) == [a, b]
  {
    var parts := [a, b];
    assert Join(parts[1..], c) == b;
    assert Join(parts, c) == a + [c] + b;
    JoinSplit(parts, c);
  }

  /** The first piece of a split is the text before the first separator. */
  lemma SplitFirst(s: string, c: char, rest: string)
    requires c !in s
    ensures Split(s, c)[0] == s
    ensures Split(s + [c] + rest, c)[0] == s
  {
    SplitAt(s, c, rest);
  }

  // ---------------------------------------------------------------------
  // White space, `trim` and `parseInt`

  /** The characters JavaScript's `trim` removes. */
  predicate IsSpace(c: char) {
    c == ' ' || c == '\t' || c == '\n' || c == '\r' || c == '\U{000B}' || c == '\U{000C}'
    || c == '\U{00A0}' || c == '\U{1680}' || ('\U{2000}' <= c <= '\U{200A}')
    || c == '\U{2028}' || c == '\U{2029}' || c == '\U{202F}' || c == '\U{205F}'
    || c == '\U{3000}' || c == '\U{FEFF}'
  }

  function TrimStart(s: string): (r: string)
    ensures |r| <= |s|
  {
    if s != [] && IsSpace(s[0]) then TrimStart(s[1..]) else s
  }

  /** Only white space is dropped, and the rest does not start with any. */
  lemma {:induction false} TrimStartSpec(s: string)
    ensures TrimStart(s) == [] || !IsSpace(TrimStart(s)[0])
    ensures forall i :: 0 <= i < |s| - |TrimStart(s)| ==> IsSpace(s[i])
    ensures TrimStart(s) == s[|s| - |TrimStart(s)|..]
  {
    if s != [] && IsSpace(s[0]) {
      TrimStartSpec(s[1..]);
      assert forall i :: 1 <= i < |s| ==> s[i] == s[1..][i - 1];
    }
  }

  /** `!s.trim()`: the string is empty or white space only. */
  predicate IsBlank(s: string) { TrimStart(s) == [] }

  lemma IsBlankIff(s: string)
    ensures IsBlank(s) <==> forall i :: 0 <= i < |s| ==> IsSpace(s[i])
  {
    var r := TrimStart(s);
    TrimStartSpec(s);
    assert r != [] ==> r[0] == s[|s| - |r|];
  }

  /** The longest prefix of decimal digits. */
  function LeadingDigits(s: string): (r: string)
    ensures AllDigits(r)
  {
    if s != [] && IsDigit(s[0]) then [s[0]] + LeadingDigits(s[1..]) else []
  }

  /** The run is a prefix, and what follows it is not a digit. */
  lemma {:induction false} LeadingDigitsSpec(s: string)
    ensures LeadingDigits(s) <= s
    ensures |LeadingDigits(s)| < |s| ==> !IsDigit(s[|LeadingDigits(s)|])
  {
    if s != [] && IsDigit(s[0]) {
      LeadingDigitsSpec(s[1..]);
    }
  }

  /** `parseInt(s)` on decimal text: leading white space is skipped, then an
      optional sign, then the longest run of digits; `None` is NaN (no
      digit). A `0x` prefix is read as the number 0. */
  function ParseInt(s: string): Option<int> {
    var t := TrimStart(s);
    var signed := |t| > 0 && (t[0] == '-' || t[0] == '+');
    var ds := LeadingDigits(if signed then t[1..] else t);
    if ds == [] then None
    else
      var v: int := DigitsValue(ds);
      if signed && t[0] == '-' then Some(-v) else Some(v)
  }

  lemma {:induction false} LeadingDigitsAll(s: string)
    requires AllDigits(s)
    ensures LeadingDigits(s) == s
  {
    if s != [] { LeadingDigitsAll(s[1..]); }
  }

  /** A non-empty string of digits parses to the number it denotes. */
  lemma ParseIntDigits(s: string)
    requires s != [] && AllDigits(s)
    ensures ParseInt(s) == Some(DigitsValue(s))
  {
    assert TrimStart(s) == s;
    LeadingDigitsAll(s);
  }

  lemma ParseIntNatStr(n: nat)
    ensures ParseInt(NatStr(n)) == Some(n)
  {
    ParseIntDigits(NatStr(n));
    NatStrValue(n);
  }

  lemma ParseIntPad2(n: nat)
    ensures ParseInt(Pad2(n)) == Some(n)
  {
    ParseIntDigits(Pad2(n));
    Pad2Value(n);
  }

  // ---------------------------------------------------------------------
  // Lower case, substring search

  /** `toLowerCase`, for the ASCII letters. */
  function LowerChar(c: char): char {
    if 'A' <= c <= 'Z' then ((c as int) + 32) as char else c
  }

  function ToLower(s: string): string {
    seq(|s|, i requires 0 <= i < |s| => LowerChar(s[i]))
  }

  /** `s.includes(sub)`. */
  predicate Contains(s: string, sub: string)
    decreases |s|
  {
    sub <= s || (s != [] && Contains(s[1..], sub))
  }

  /** `sub` occurs in `s` starting at index `i`. */
  predicate OccursAt(s: string, sub: string, i: int) {
    0 <= i <= |s| - |sub| && s[i..i + |sub|] == sub
  }

  /** `includes` finds `sub` exactly when it occurs at some position. */
  lemma {:induction false} ContainsIff(s: string, sub: string)
    ensures Contains(s, sub) <==> exists i :: OccursAt(s, sub, i)
    decreases |s|
  {
    if sub <= s {
      assert OccursAt(s, sub, 0);
    } else if s != [] {
      ContainsIff(s[1..], sub);
      if exists i :: OccursAt(s, sub, i) {
        var i :| OccursAt(s, sub, i);
        assert i != 0;
        assert OccursAt(s[1..], sub, i - 1);
      }
      if Contains(s[1..], sub) {
        var i :| OccursAt(s[1..], sub, i);
        assert OccursAt(s, sub, i + 1);
      }
    } else {
      assert forall i :: !OccursAt(s, sub, i);
    }
  }

  lemma ContainsEmpty(s: string)
    ensures Contains(s, "")
  {
  }

  // ---------------------------------------------------------------------
  // String order

  /** JavaScript's `<` on strings: lexicographic by character code. */
  predicate LexLess(a: string, b: string)
    decreases |a|
  {
    if a == [] then b != []
    else b != [] && (a[0] < b[0] || (a[0] == b[0] && LexLess(a[1..], b[1..])))
  }

  /** Comparing two concatenations whose first parts have equal length
      compares the first parts, then the second parts. */
  lemma {:induction false} LexLessAppend(a1: string, a2: string, b1: string, b2: string)
    requires |a1| == |b1|
    ensures LexLess(a1 + a2, b1 + b2) <==> LexLess(a1, b1) || (a1 == b1 && LexLess(a2, b2))
    ensures a1 + a2 == b1 + b2 <==> a1 == b1 && a2 == b2
    decreases |a1|
  {
    assert (a1 + a2)[..|a1|] == a1 && (a1 + a2)[|a1|..] == a2;
    assert (b1 + b2)[..|b1|] == b1 && (b1 + b2)[|b1|..] == b2;
    if a1 != [] {
      assert (a1 + a2)[0] == a1[0] && (b1 + b2)[0] == b1[0];
      assert (a1 + a2)[1..] == a1[1..] + a2;
      assert (b1 + b2)[1..] == b1[1..] + b2;
      LexLessAppend(a1[1..], a2, b1[1..], b2);
      if a1[0] == b1[0] && a1[1..] == b1[1..] { assert a1 == b1; }
    } else {
      assert a1 + a2 == a2 && b1 + b2 == b2;
    }
  }

  /** Equal-length digit strings compare as strings exactly as their
      values compare as numbers. */
  lemma {:induction false} DigitsLexOrder(a: string, b: string)
    requires |a| == |b| && AllDigits(a) && AllDigits(b)
    ensures LexLess(a, b) <==> DigitsValue(a) < DigitsValue(b)
    ensures a == b <==> DigitsValue(a) == DigitsValue(b)
    decreases |a|
  {
    if a != [] {
      var n := |a| - 1;
      var a', b' := a[..n], b[..n];
      assert a == a' + [a[n]] && b == b' + [b[n]];
      DigitsLexOrder(a', b');
      LexLessAppend(a', [a[n]], b', [b[n]]);
      assert LexLess([a[n]], [b[n]]) <==> a[n] < b[n];
      assert a[n] < b[n] <==> DigitValue(a[n]) < DigitValue(b[n]);
    }
  }
}
