/**
 * Decimal integers as text: `str(n)` for the integers the converters print
 * (channel counts, frame rates, image dimensions) and `int(s)` for the
 * numbers they parse (heading numbers in style names, integer settings read
 * from the environment).
 */
module Decimal {
  import opened Wrappers
  import opened Strings

  function DigitValue(c: char): (d: nat)
    requires IsDigit(c)
    ensures d < 10
  {
    c as int - '0' as int
  }

  function DigitChar(d: nat): (c: char)
    requires d < 10
    ensures IsDigit(c) && DigitValue(c) == d
  {
    (d + '0' as int) as char
  }

  predicate AllDigits(s: string)
  {
    forall i :: 0 <= i < |s| ==> IsDigit(s[i])
  }

  /** The value of a run of ASCII digits, most significant first; the empty run is 0. */
  function DigitsValue(s: string): nat
    requires AllDigits(s)
    decreases |s|
  {
    if s == [] then 0 else DigitsValue(s[..|s| - 1]) * 10 + DigitValue(s[|s| - 1])
  }

  /** `str(n)` for a natural number: its digits, no leading zero except in "0" itself. */
  function NatToString(n: nat): (s: string)
    ensures s != [] && AllDigits(s)
    ensures |s| > 1 ==> s[0] != '0'
    decreases n
  {
    if n < 10 then [DigitChar(n)]
    else
      var front := NatToString(n / 10);
      front + [DigitChar(n % 10)]
  }

  /** Reading back what `str` printed gives the number. */
  lemma {:induction false} NatToStringRoundTrip(n: nat)
    ensures DigitsValue(NatToString(n)) == n
    decreases n
  {
    if n >= 10 {
      NatToStringRoundTrip(n / 10);
      var s := NatToString(n);
      assert s[..|s| - 1] == NatToString(n / 10);
    }
  }

  /** `f"{n:02d}"` for a number below 100: two digits, with a leading zero below 10. */
  function TwoDigits(n: nat): (s: string)
    requires n < 100
    ensures |s| == 2 && AllDigits(s) && DigitsValue(s) == n
  {
    var s := [DigitChar(n / 10), DigitChar(n % 10)];
    assert s[..1] == [DigitChar(n / 10)] && s[..1][..0] == [];
    assert DigitsValue(s[..1]) == n / 10;
    s
  }

  function Dist(a: int, b: int): nat
  {
    if a >= b then a - b else b - a
  }

  /**
   * The quotient `num / den` in tenths, rounded to the nearest tenth with
   * ties to the even one: what `:.1f` prints of a quotient the float holds
   * exactly.
   */
  function NearestTenths(num: nat, den: nat): (t: nat)
    requires den > 0
    ensures 2 * Dist(10 * num, t * den) <= den
    ensures 2 * Dist(10 * num, t * den) == den ==> t % 2 == 0
  {
    RoundHalfEven(10 * num, den)
  }

  /** `a / d` rounded to the nearest whole number, ties to the even one. */
  function RoundHalfEven(a: nat, d: nat): (t: nat)
    requires d > 0
    ensures 2 * Dist(a, t * d) <= d
    ensures 2 * Dist(a, t * d) == d ==> t % 2 == 0
  {
    Neighbours(a, d);
    RoundChoice(a, d, a / d, a % d);
    if 2 * (a % d) > d || (2 * (a % d) == d && (a / d) % 2 == 1) then a / d + 1 else a / d
  }

  /** Of the multiples `q * d` and `(q + 1) * d` around `a`, the nearer one, ties to the even quotient. */
  lemma RoundChoice(a: nat, d: nat, q: nat, r: nat)
    requires Dist(a, q * d) == r && Dist(a, (q + 1) * d) == d - r && r < d
    ensures var t := if 2 * r > d || (2 * r == d && q % 2 == 1) then q + 1 else q;
      2 * Dist(a, t * d) <= d && (2 * Dist(a, t * d) == d ==> t % 2 == 0)
  {
  }

  /** A number lies `a % d` above the multiple of `d` below it and `d - a % d` below the next one. */
  lemma Neighbours(a: nat, d: nat)
    requires d > 0
    ensures Dist(a, (a / d) * d) == a % d
    ensures Dist(a, (a / d + 1) * d) == d - a % d
  {
    var q := a / d;
    assert a == q * d + a % d;
    assert (q + 1) * d == q * d + d;
  }

  /** `f"{num / den:.1f}"`: the whole part, a point and one digit, together spelling the nearest tenths. */
  function OneDecimal(num: nat, den: nat): (s: string)
    requires den > 0
    ensures var k := |s| - 2;
      && k >= 1 && s[k] == '.' && AllDigits(s[..k]) && AllDigits(s[k + 1..])
      && DigitsValue(s[..k]) * 10 + DigitsValue(s[k + 1..]) == NearestTenths(num, den)
  {
    var t := NearestTenths(num, den);
    var whole := NatToString(t / 10);
    NatToStringRoundTrip(t / 10);
    var s := whole + "." + [DigitChar(t % 10)];
    assert s[..|whole|] == whole;
    assert s[|whole| + 1..] == [DigitChar(t % 10)];
    assert DigitsValue([DigitChar(t % 10)]) == t % 10 by {
      assert [DigitChar(t % 10)][..0] == [];
    }
    s
  }

  /** `str(i)` for an integer: a `-` before the digits of a negative one. */
  function IntToString(i: int): (s: string)
    ensures s != []
    ensures i >= 0 ==> s == NatToString(i)
    ensures i < 0 ==> s == "-" + NatToString(-i)
  {
    if i >= 0 then NatToString(i) else "-" + NatToString(-i)
  }

  /**
   * `int(s)` on text: surrounding white space is ignored, then an optional
   * sign and at least one ASCII digit; anything else is a `ValueError`
   * (here `None`).
   */
  function ParseInt(s: string): (r: Option<int>)
    ensures r.Some? ==> Strip(s) != []
  {
    var t := Strip(s);
    if t == [] then None
    else
      var negative := t[0] == '-';
      var digits := if t[0] == '-' || t[0] == '+' then t[1..] else t;
      if digits == [] || !AllDigits(digits) then None
      else
        var v: int := DigitsValue(digits);
        Some(if negative then -v else v)
  }

  /** `int(str(i)) == i`. */
  lemma ParseIntRoundTrip(i: int)
    ensures ParseInt(IntToString(i)) == Some(i)
  {
    var s := IntToString(i);
    var n := if i >= 0 then i else -i;
    NatToStringRoundTrip(n);
    assert !IsSpace(s[0]) && !IsSpace(s[|s| - 1]);
    TrimStartNoop(s, IsSpace);
    TrimEndNoop(s, IsSpace);
    if i < 0 {
      assert s[1..] == NatToString(n);
    }
  }

  /** Text that is not a signed run of digits, such as "abc" or "1.5", does not parse. */
  lemma ParseIntRejects(s: string)
    requires Strip(s) != [] && !IsDigit(Strip(s)[0]) && Strip(s)[0] != '-' && Strip(s)[0] != '+'
    ensures ParseInt(s) == None
  {
  }
}
