/**
 * Byte strings as the server handles them: Go strings and `[]byte` are both
 * sequences of bytes. This module gives the literal conversion, `strings.HasPrefix`,
 * the decimal formatting of `fmt`'s `%d` verb with its inverse, and the search for
 * a delimiter that `bufio.Reader.ReadString` performs.
 */
module Bytes {
  import opened Wrappers

  type byte = b: int | 0 <= b < 256

  /** The newline byte `'\n'`. */
  const Newline: byte := 10

  /** The bytes of a Go string literal (every literal of the server is ASCII). */
  function Ascii(s: string): (r: seq<byte>)
    ensures |r| == |s|
  {
    seq(|s|, i requires 0 <= i < |s| => (s[i] as int) % 256)
  }

  /** Converting two literals one after the other converts their concatenation. */
  lemma AsciiConcat(a: string, b: string)
    ensures Ascii(a + b) == Ascii(a) + Ascii(b)
  {
  }

  /** `strings.HasPrefix(s, p)`. */
  predicate HasPrefix(s: seq<byte>, p: seq<byte>)
  {
    p <= s
  }

  predicate IsDigit(b: byte)
  {
    '0' as int <= b <= '9' as int
  }

  predicate AllDigits(ds: seq<byte>)
  {
    forall i :: 0 <= i < |ds| ==> IsDigit(ds[i])
  }

  /** `%d` of a non-negative integer: its decimal digits, without leading zeros. */
  function Decimal(n: nat): (r: seq<byte>)
    ensures 1 <= |r| && AllDigits(r)
    ensures r[0] == '0' as int ==> n == 0
    ensures |r| > 1 ==> r[0] != '0' as int
    decreases n
  {
    if n < 10 then [n + '0' as int] else Decimal(n / 10) + [n % 10 + '0' as int]
  }

  /** The number a string of decimal digits denotes. */
  function DigitsValue(ds: seq<byte>): nat
    requires AllDigits(ds)
  {
    if ds == [] then 0 else DigitsValue(ds[..|ds| - 1]) * 10 + (ds[|ds| - 1] - '0' as int)
  }

  /** Reading back the digits `%d` wrote gives the number. */
  lemma {:induction false} DecimalRoundTrip(n: nat)
    ensures DigitsValue(Decimal(n)) == n
    decreases n
  {
    if n >= 10 {
      var ds := Decimal(n);
      assert ds[..|ds| - 1] == Decimal(n / 10);
      DecimalRoundTrip(n / 10);
    }
  }

  /** The length of the longest run of digits at the start of `s`. */
  function SpanDigits(s: seq<byte>): (r: nat)
    ensures r <= |s| && AllDigits(s[..r])
    ensures r < |s| ==> !IsDigit(s[r])
  {
    if s == [] || !IsDigit(s[0]) then 0 else 1 + SpanDigits(s[1..])
  }

  /** Digits followed by anything that does not start with a digit: the run ends where the digits do. */
  lemma SpanDigitsConcat(ds: seq<byte>, rest: seq<byte>)
    requires AllDigits(ds)
    requires rest == [] || !IsDigit(rest[0])
    ensures SpanDigits(ds + rest) == |ds|
  {
    var s := ds + rest;
    var r := SpanDigits(s);
    assert forall i :: 0 <= i < |ds| ==> s[i] == ds[i];
    assert |ds| < |s| ==> s[|ds|] == rest[0];
    assert forall k :: |ds| < k <= |s| ==> s[..k][|ds|] == s[|ds|];
  }

  /** The first position of `b` in `s`, if any. */
  function FirstIndex(s: seq<byte>, b: byte): (r: Option<nat>)
    ensures r.None? <==> b !in s
    ensures r.Some? ==> r.value < |s| && s[r.value] == b && b !in s[..r.value]
  {
    if s == [] then None
    else if s[0] == b then Some(0)
    else match FirstIndex(s[1..], b)
      case None => None
      case Some(k) => Some(k + 1)
  }

  /** A byte absent from `s` and then `b`: the first `b` is the one right after `s`. */
  lemma FirstIndexAfter(s: seq<byte>, b: byte, rest: seq<byte>)
    requires b !in s
    ensures FirstIndex(s + [b] + rest, b) == Some(|s|)
  {
    var t := s + [b] + rest;
    assert t[|s|] == b;
    assert forall i :: 0 <= i < |s| ==> t[i] == s[i];
    var r := FirstIndex(t, b);
    assert forall k :: |s| < k <= |t| ==> t[..k][|s|] == b;
  }

  /**
   * `bufio.Reader.ReadString('\n')` on the bytes still to arrive: the first line,
   * delimiter included, and what follows it; `None` when no newline arrives, where
   * Go returns an error.
   */
  function ReadLine(s: seq<byte>): (r: Option<(seq<byte>, seq<byte>)>)
    ensures r.None? <==> Newline !in s
    ensures r.Some? ==> r.value.0 + r.value.1 == s
    ensures r.Some? ==> |r.value.0| > 0 && r.value.0[|r.value.0| - 1] == Newline
    ensures r.Some? ==> Newline !in r.value.0[..|r.value.0| - 1]
  {
    match FirstIndex(s, Newline)
    case None => None
    case Some(k) =>
      assert s[..k + 1][..k] == s[..k];
      Some((s[..k + 1], s[k + 1..]))
  }

  /** A line without a newline, then the newline, then anything: `ReadLine` returns exactly that line. */
  lemma ReadLineAfter(s: seq<byte>, rest: seq<byte>)
    requires Newline !in s
    ensures ReadLine(s + [Newline] + rest) == Some((s + [Newline], rest))
  {
    var t := s + [Newline] + rest;
    FirstIndexAfter(s, Newline, rest);
    assert t[..|s| + 1] == s + [Newline];
    assert t[|s| + 1..] == rest;
  }
}
