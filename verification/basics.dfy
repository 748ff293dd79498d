/** Small shared vocabulary: optional values, plane points and decimal digit strings. */
module Basics {

  /** A value that may be missing (`T | null` or `T | undefined` in the editor). */
  datatype Option<+T> = None | Some(value: T)

  /** A position or an offset on the drawing surface, in pixels. */
  datatype Point = Point(x: real, y: real)
  {
    function Plus(o: Point): Point { Point(x + o.x, y + o.y) }
    function Minus(o: Point): Point { Point(x - o.x, y - o.y) }
  }

  const Origin: Point := Point(0.0, 0.0)

  /** Displacements add up in any order. */
  lemma PlusRearrange(a: Point, r: Point, d: Point)
    ensures a.Plus(d).Plus(r) == a.Plus(r).Plus(d)
    ensures a.Plus(r.Plus(d)) == a.Plus(r).Plus(d)
  {
  }

  /** Adding the difference `b - a` to `a` lands on `b`. */
  lemma PlusMinus(a: Point, b: Point)
    ensures a.Plus(b.Minus(a)) == b
  {
  }

  /** Re-basing an offset to `b` from `s` onto `s + r`. */
  lemma MinusRebase(b: Point, s: Point, r: Point)
    ensures b.Minus(s) == r.Plus(b.Minus(s.Plus(r)))
  {
  }

  lemma PlusOrigin(a: Point)
    ensures a.Plus(Origin) == a
  {
  }

  /** JavaScript truthiness of a `string | null`: null and the empty string are falsy. */
  predicate Truthy(s: Option<string>)
  {
    s.Some? && s.value != ""
  }

  predicate IsDigit(c: char)
  {
    '0' <= c <= '9'
  }

  predicate AllDigits(s: string)
  {
    forall i :: 0 <= i < |s| ==> IsDigit(s[i])
  }

  function DigitChar(d: nat): (c: char)
    requires d < 10
    ensures IsDigit(c)
  {
    "0123456789"[d]
  }

  function DigitValue(c: char): nat
    requires IsDigit(c)
  {
    (c as int - '0' as int) as nat
  }

  /** The value of a non-empty run of decimal digits, as `parseInt(s, 10)` reads it. */
  function DigitsValue(s: string): nat
    requires AllDigits(s)
  {
    if s == [] then 0 else DigitsValue(s[..|s| - 1]) * 10 + DigitValue(s[|s| - 1])
  }

  /** The decimal rendering of a natural number, without leading zeros, as a template string prints it. */
  function DecimalString(n: nat): (s: string)
    ensures |s| > 0 && AllDigits(s)
  {
    if n < 10 then [DigitChar(n)] else DecimalString(n / 10) + [DigitChar(n % 10)]
  }

  lemma {:induction false} DecimalRoundTrip(n: nat)
    ensures DigitsValue(DecimalString(n)) == n
  {
    var s := DecimalString(n);
    if n < 10 {
      assert DigitValue("0123456789"[n]) == n;
    } else {
      DecimalRoundTrip(n / 10);
      assert s[..|s| - 1] == DecimalString(n / 10);
      assert DigitValue("0123456789"[n % 10]) == n % 10;
    }
  }
}
