/**
 * Small value helpers shared by the countdown display and the results report:
 * an Option type for values JavaScript leaves `undefined`, `String.prototype.repeat`
 * and `padStart` for one-character fills, and base-10 rendering of non-negative
 * integers (`Number.prototype.toString()`) together with its inverse.
 */
module Basics {

  datatype Option<+T> = None | Some(value: T)

  /** `ch.repeat(n)` for a one-character string `ch`. */
  function Repeat(ch: char, n: nat): (r: string)
    ensures |r| == n
    ensures forall j :: 0 <= j < n ==> r[j] == ch
  {
    if n == 0 then "" else Repeat(ch, n - 1) + [ch]
  }

  /** `s.padStart(width, pad)` for a one-character `pad`: left-fill up to `width`. */
  function PadStart(s: string, width: nat, pad: char): (r: string)
    ensures |r| == if |s| < width then width else |s|
    ensures r[|r| - |s|..] == s
    ensures forall j :: 0 <= j < |r| - |s| ==> r[j] == pad
  {
    if |s| < width then Repeat(pad, width - |s|) + s else s
  }

  predicate IsDigit(c: char) {
    '0' <= c <= '9'
  }

  predicate AllDigits(s: string) {
    forall j :: 0 <= j < |s| ==> IsDigit(s[j])
  }

  function DigitValue(c: char): (d: nat)
    requires IsDigit(c)
    ensures d < 10
  {
    c as int - '0' as int
  }

  function DigitChar(d: nat): (c: char)
    requires d < 10
    ensures IsDigit(c) && DigitValue(c) == d
  {
    ('0' as int + d) as char
  }

  /** Decimal text of `n`, as `n.toString()` prints a non-negative integer. */
  function NatToDecimal(n: nat): (r: string)
    ensures |r| >= 1 && AllDigits(r)
    ensures |r| > 1 ==> r[0] != '0'
    ensures n < 10 <==> |r| == 1
  {
    if n < 10 then [DigitChar(n)] else NatToDecimal(n / 10) + [DigitChar(n % 10)]
  }

  /** The value of a string of decimal digits (the empty string reads as 0). */
  function ParseDecimal(s: string): nat
    requires AllDigits(s)
  {
    if s == [] then 0 else ParseDecimal(s[..|s| - 1]) * 10 + DigitValue(s[|s| - 1])
  }

  /** Reading back the decimal text of `n` gives `n`. */
  lemma {:induction false} DecimalRoundTrip(n: nat)
    ensures ParseDecimal(NatToDecimal(n)) == n
  {
    var r := NatToDecimal(n);
    if n >= 10 {
      assert r[..|r| - 1] == NatToDecimal(n / 10);
      DecimalRoundTrip(n / 10);
    }
  }

  /** Different numbers never share a decimal text. */
  lemma DecimalInjective(a: nat, b: nat)
    requires NatToDecimal(a) == NatToDecimal(b)
    ensures a == b
  {
    DecimalRoundTrip(a);
    DecimalRoundTrip(b);
  }

  /**
   * The position of the first occurrence of `c` in `s`, as `s.indexOf(c)`
   * would report it (`None` for JavaScript's -1).
   */
  function IndexOf(s: string, c: char): (r: Option<nat>)
    ensures r.Some? ==> r.value < |s| && s[r.value] == c
    ensures r.Some? ==> forall j :: 0 <= j < r.value ==> s[j] != c
    ensures r.None? ==> forall j :: 0 <= j < |s| ==> s[j] != c
  {
    if s == [] then None
    else if s[0] == c then Some(0)
    else match IndexOf(s[1..], c)
      case None => None
      case Some(k) => Some(k + 1)
  }
}
