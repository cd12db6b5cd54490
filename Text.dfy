/** The string primitives the core relies on: ASCII digits, decimal text of
    numbers, Kotlin's `String.toIntOrNull`, `startsWith`, `contains`, and
    `split(sep, limit = 2)`. Strings are sequences of characters; digits are
    the ASCII digits '0'..'9' only. */
module Text {
  import opened Wrappers

  predicate IsDigit(c: char) {
    '0' <= c <= '9'
  }

  predicate AllDigits(s: string) {
    forall i :: 0 <= i < |s| ==> IsDigit(s[i])
  }

  function DigitValue(c: char): (d: nat)
    requires IsDigit(c)
    ensures d < 10
  {
    (c as int) - ('0' as int)
  }

  function DigitChar(d: nat): (c: char)
    requires d < 10
    ensures IsDigit(c) && DigitValue(c) == d
  {
    ('0' as int + d) as char
  }

  /** The value of a string of decimal digits, most significant digit first. */
  function DecimalValue(s: string): nat
    requires AllDigits(s)
  {
    if s == [] then 0 else DecimalValue(s[..|s| - 1]) * 10 + DigitValue(s[|s| - 1])
  }

  function Pow10(k: nat): (p: nat)
    ensures p >= 1
  {
    if k == 0 then 1 else 10 * Pow10(k - 1)
  }

  /** A string of k digits denotes a number below 10^k. */
  lemma {:induction false} DecimalValueBound(s: string)
    requires AllDigits(s)
    ensures DecimalValue(s) < Pow10(|s|)
  {
    if s != [] {
      DecimalValueBound(s[..|s| - 1]);
    }
  }

  /** Decimal text of a natural number without leading zeros, as Kotlin's
      `Int.toString()` and `Long.toString()` write it. */
  function NatToDecimal(n: nat): (s: string)
    ensures |s| >= 1 && AllDigits(s)
    ensures n < 10 <==> |s| == 1
  {
    if n < 10 then [DigitChar(n)] else NatToDecimal(n / 10) + [DigitChar(n % 10)]
  }

  /** Reading back the decimal text of n gives n. */
  lemma {:induction false} DecimalRoundTrip(n: nat)
    ensures DecimalValue(NatToDecimal(n)) == n
  {
    var s := NatToDecimal(n);
    if n >= 10 {
      DecimalRoundTrip(n / 10);
      assert s[..|s| - 1] == NatToDecimal(n / 10);
    }
  }

  const IntMin: int := -0x8000_0000
  const IntMax: int := 0x7FFF_FFFF

  /** Kotlin's `String.toIntOrNull()`: an optional leading '+' or '-', then
      one or more digits, and a value inside the 32-bit `Int` range;
      anything else is null. */
  function ToIntOrNull(s: string): (r: Option<int>)
    ensures r.Some? ==> IntMin <= r.value <= IntMax
    ensures r.Some? ==> s != [] && (IsDigit(s[0]) || s[0] == '+' || s[0] == '-')
  {
    if s == [] then None
    else
      var signed := s[0] == '-' || s[0] == '+';
      var digits := if signed then s[1..] else s;
      if digits == [] || !AllDigits(digits) then None
      else
        var v := if s[0] == '-' then -(DecimalValue(digits) as int) else DecimalValue(digits);
        if IntMin <= v <= IntMax then Some(v) else None
  }

  /** A non-empty digit string of at most nine digits never overflows, so
      `toIntOrNull` returns its decimal value. */
  lemma ToIntOrNullOfDigits(s: string)
    requires s != [] && AllDigits(s) && |s| <= 9
    ensures ToIntOrNull(s) == Some(DecimalValue(s) as int)
  {
    DecimalValueBound(s);
    var k := |s|;
    assert Pow10(k) <= Pow10(9) by { Pow10Monotone(k, 9); }
  }

  /** A string with a character that is neither a digit nor a leading sign is
      never a number. */
  lemma ToIntOrNullRejects(s: string, i: nat)
    requires i < |s| && !IsDigit(s[i]) && (i > 0 || (s[0] != '+' && s[0] != '-'))
    ensures ToIntOrNull(s) == None
  {
    if s[0] == '-' || s[0] == '+' {
      assert s[1..][i - 1] == s[i];
    }
  }

  lemma {:induction false} Pow10Monotone(j: nat, k: nat)
    requires j <= k
    ensures Pow10(j) <= Pow10(k)
  {
    if j < k {
      Pow10Monotone(j, k - 1);
    }
  }

  /** Decimal text of an `Int`-sized natural number parses back to it. */
  lemma ToIntOrNullRoundTrip(n: nat)
    requires n <= IntMax
    ensures ToIntOrNull(NatToDecimal(n)) == Some(n)
  {
    var s := NatToDecimal(n);
    DecimalRoundTrip(n);
    assert IsDigit(s[0]);
  }

  predicate StartsWith(s: string, prefix: string) {
    |prefix| <= |s| && s[..|prefix|] == prefix
  }

  /** Kotlin's `String.contains(other)`: `other` occurs at some position. */
  predicate Contains(s: string, other: string) {
    exists i :: 0 <= i <= |s| - |other| && OccursAt(s, other, i)
  }

  predicate OccursAt(s: string, other: string, i: int) {
    0 <= i <= |s| - |other| && s[i..i + |other|] == other
  }

  /** The first position of `c` in `s`, Kotlin's `indexOf` with -1 as None. */
  function IndexOf(s: string, c: char): (r: Option<nat>)
    ensures r.Some? ==> r.value < |s| && s[r.value] == c && c !in s[..r.value]
    ensures r.None? ==> c !in s
  {
    if s == [] then None
    else if s[0] == c then Some(0)
    else
      match IndexOf(s[1..], c)
      case None => None
      case Some(k) =>
        assert s[..k + 1] == [s[0]] + s[1..][..k];
        Some(k + 1)
  }

  /** When `c` does not occur in `a`, the first `c` in `a + [c] + b` is the
      one right after `a`. */
  lemma IndexOfAfter(a: string, c: char, b: string)
    requires c !in a
    ensures IndexOf(a + [c] + b, c) == Some(|a|)
  {
    var s := a + [c] + b;
    assert s[|a|] == c;
    assert s[..|a|] == a;
  }

  /** Kotlin's `s.split(sep, limit = 2)` for a one-character separator: the
      whole string when `sep` does not occur, otherwise the text before the
      first `sep` and everything after it. */
  function SplitLimit2(s: string, sep: char): (parts: seq<string>)
    ensures |parts| == 1 || |parts| == 2
    ensures |parts| == 1 ==> parts[0] == s && sep !in s
    ensures |parts| == 2 ==> parts[0] + [sep] + parts[1] == s && sep !in parts[0]
  {
    match IndexOf(s, sep)
    case None => [s]
    case Some(i) =>
      assert s[..i] + [sep] + s[i + 1..] == s;
      [s[..i], s[i + 1..]]
  }

  /** Splitting `head + [sep] + tail` at its first separator gives `head` and
      `tail` back whenever `head` has no separator; `tail` may hold any. */
  lemma SplitLimit2Join(head: string, sep: char, tail: string)
    requires sep !in head
    ensures SplitLimit2(head + [sep] + tail, sep) == [head, tail]
  {
    var s := head + [sep] + tail;
    IndexOfAfter(head, sep, tail);
    assert s[..|head|] == head;
    assert s[|head| + 1..] == tail;
  }
}
