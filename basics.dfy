/** Small building blocks shared by the model: an option type, Python's
    clamping list slice, Python's `int(a / b)` truncating division, and the
    decimal text of integers (`int(text)` and `str(n)`). */
module Basics {

  datatype Option<+T> = None | Some(value: T)

  /** `s[lo:hi]` for non-negative bounds: Python clamps both bounds to the
      length and yields the empty list when they cross. */
  function PySlice<T>(s: seq<T>, lo: nat, hi: nat): (r: seq<T>)
    ensures |r| == if hi <= lo || |s| <= lo then 0 else Min(hi, |s|) - lo
    ensures forall x :: x in r ==> x in s
    ensures lo < |s| && lo < hi ==> r[0] == s[lo]
  {
    var l := Min(lo, |s|);
    var h := Min(hi, |s|);
    if h <= l then [] else s[l..h]
  }

  /** The first `n` after the first `lo` are the slice from `lo` to `lo + n`. */
  lemma SliceOfSuffix<T>(xs: seq<T>, lo: nat, hi: nat, n: nat)
    requires hi == lo + n <= |xs|
    ensures xs[lo..][..n] == xs[lo..hi]
  {
  }

  /** Taking one more element of a sequence. */
  lemma TakeSnoc<T>(xs: seq<T>, k: nat)
    requires k < |xs|
    ensures xs[..k + 1] == xs[..k] + [xs[k]]
  {
  }

  function Min(a: int, b: int): int { if a <= b then a else b }

  function Max(a: int, b: int): int { if a <= b then b else a }

  /** `int(a / b)` for a positive divisor: the quotient rounded toward zero
      (Dafny's own `/` rounds toward negative infinity for negative `a`). */
  function TruncDiv(a: int, b: int): (q: int)
    requires b > 0
    ensures a >= 0 ==> q * b <= a < (q + 1) * b
    ensures a < 0 ==> (q - 1) * b < a <= q * b
  {
    if a >= 0 then a / b else -((-a) / b)
  }

  /** `random.randint(0, n)` driven by an oracle value: every result in
      `0..n` is reachable and nothing else is. */
  function Pick(raw: nat, n: nat): (r: nat)
    ensures r <= n
    ensures raw <= n ==> r == raw
  {
    raw % (n + 1)
  }

  /** Cancelling a positive factor on both sides of a comparison. */
  lemma MulCancelLe(a: int, b: int, n: int)
    requires n > 0 && a * n <= b * n
    ensures a <= b
  {
  }

  lemma MulCancelLt(a: int, b: int, n: int)
    requires n > 0 && a * n < b * n
    ensures a < b
  {
  }

  lemma MulSucc(a: int, n: int)
    ensures a * n == a * (n - 1) + a
  {
  }

  /** A fraction below one of a non-negative amount does not exceed it. */
  lemma FractionBelow(r: real, t: real)
    requires 0.0 <= r < 1.0 && t >= 0.0
    ensures 0.0 <= r * t <= t
  {
    assert (1.0 - r) * t >= 0.0;
  }

  lemma SquareZero(a: int)
    ensures a * a >= 0
    ensures a * a == 0 <==> a == 0
  {
  }

  predicate IsDigit(c: char) { '0' <= c <= '9' }

  predicate AllDigits(s: string) { forall i :: 0 <= i < |s| ==> IsDigit(s[i]) }

  function DigitsValue(s: string): nat
    requires AllDigits(s)
  {
    if s == [] then 0 else DigitsValue(s[..|s| - 1]) * 10 + (s[|s| - 1] as int - '0' as int)
  }

  /** `int(s)` on text: an optional sign followed by decimal digits; `None`
      where Python would raise ValueError. */
  function ParseInt(s: string): Option<int>
  {
    if |s| > 1 && s[0] == '-' && AllDigits(s[1..]) then Some(-(DigitsValue(s[1..]) as int))
    else if |s| > 1 && s[0] == '+' && AllDigits(s[1..]) then Some(DigitsValue(s[1..]))
    else if |s| > 0 && AllDigits(s) then Some(DigitsValue(s))
    else None
  }

  function Digit(d: nat): (c: char)
    requires d < 10
    ensures IsDigit(c) && c as int - '0' as int == d
  {
    ('0' as int + d) as char
  }

  /** `str(n)` for a natural number: no sign and no leading zeros. */
  function NatToString(n: nat): (s: string)
    ensures |s| > 0 && AllDigits(s)
    ensures |s| > 1 ==> s[0] != '0'
  {
    if n < 10 then [Digit(n)] else NatToString(n / 10) + [Digit(n % 10)]
  }

  /** `str(i)`. */
  function IntToString(i: int): (s: string)
    ensures |s| > 0
  {
    if i < 0 then "-" + NatToString(-i) else NatToString(i)
  }

  lemma {:induction false} DigitsOfNat(n: nat)
    ensures DigitsValue(NatToString(n)) == n
  {
    var s := NatToString(n);
    if n >= 10 {
      DigitsOfNat(n / 10);
      assert s[..|s| - 1] == NatToString(n / 10);
    }
  }

  /** Reading back the text `str` writes gives the number again. */
  lemma ParseIntToString(i: int)
    ensures ParseInt(IntToString(i)) == Some(i)
  {
    if i < 0 {
      var s := IntToString(i);
      assert s[1..] == NatToString(-i);
      DigitsOfNat(-i);
    } else {
      DigitsOfNat(i);
    }
  }
}
