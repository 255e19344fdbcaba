/**
 Rounding of exact decimal amounts to currency precision (two fractional
 digits) with midpoints resolved to the even neighbour, the behaviour of
 `Math.Round(x, 2, MidpointRounding.ToEven)` on C# `decimal`.
 */
module Rounding {

  /** The value of `n` cents. */
  function Cents(n: int): real {
    n as real / 100.0
  }

  /** The number of whole cents in `x`, rounded down. */
  function CentCount(x: real): int {
    (x * 100.0).Floor
  }

  /** `x` has at most two fractional digits. */
  predicate IsCents(x: real) {
    CentCount(x) as real == x * 100.0
  }

  function Abs(x: real): real {
    if x < 0.0 then -x else x
  }

  /** Half of the smallest currency unit. */
  const HalfCent: real := 0.005

  /**
   Reference definition of banker's rounding: `r` is a whole number of cents
   strictly closer than half a cent to `x`, or exactly half a cent away with
   an even cent count.
   */
  ghost predicate IsBankersRounding(x: real, r: real) {
    && IsCents(r)
    && (|| Abs(r - x) < HalfCent
        || (Abs(r - x) == HalfCent && CentCount(r) % 2 == 0))
  }

  /** The integer nearest to `c`, ties to the even one. */
  function NearestEvenCentCount(c: real): int {
    var f := c.Floor;
    var d := c - f as real;
    if d < 0.5 then f
    else if d > 0.5 then f + 1
    else if f % 2 == 0 then f
    else f + 1
  }

  /** Round `x` to two fractional digits, ties to the even cent. */
  function RoundHalfEven2(x: real): (r: real)
    ensures IsBankersRounding(x, r)
  {
    var c := x * 100.0;
    var n := NearestEvenCentCount(c);
    CentsRoundTrip(n);
    assert Cents(n) - x == (n as real - c) / 100.0;
    Cents(n)
  }

  lemma CentsRoundTrip(n: int)
    ensures CentCount(Cents(n)) == n
    ensures IsCents(Cents(n))
  {
    assert Cents(n) * 100.0 == n as real;
  }

  /** A whole number of cents is `Cents` of its cent count. */
  lemma CentsOfCentCount(x: real)
    requires IsCents(x)
    ensures x == Cents(CentCount(x))
  {
  }

  /** At most one value meets the reference definition. */
  lemma BankersIsUnique(x: real, r: real)
    requires IsBankersRounding(x, r)
    ensures r == RoundHalfEven2(x)
  {
    var c := x * 100.0;
    var k := CentCount(r);
    CentsOfCentCount(r);
    assert r - x == (k as real - c) / 100.0;
    var n := NearestEvenCentCount(c);
    assert RoundHalfEven2(x) == Cents(n);
    if Abs(r - x) < HalfCent {
      assert c - 0.5 < k as real < c + 0.5;
    } else {
      assert k as real == c + 0.5 || k as real == c - 0.5;
    }
    assert k == n;
  }

  /** Banker's rounding is exactly the reference definition. */
  lemma RoundCharacterization(x: real, r: real)
    ensures r == RoundHalfEven2(x) <==> IsBankersRounding(x, r)
  {
    if IsBankersRounding(x, r) {
      BankersIsUnique(x, r);
    }
  }

  /** Rounding leaves a whole number of cents unchanged. */
  lemma RoundCentsIsIdentity(x: real)
    requires IsCents(x)
    ensures RoundHalfEven2(x) == x
  {
    BankersIsUnique(x, x);
  }

  /** Rounding twice is rounding once. */
  lemma RoundIdempotent(x: real)
    ensures RoundHalfEven2(RoundHalfEven2(x)) == RoundHalfEven2(x)
  {
    RoundCentsIsIdentity(RoundHalfEven2(x));
  }

  /** Any value strictly within half a cent of `n` cents rounds to it. */
  lemma RoundNearCents(x: real, n: int)
    requires Abs(x - Cents(n)) < HalfCent
    ensures RoundHalfEven2(x) == Cents(n)
  {
    CentsRoundTrip(n);
    BankersIsUnique(x, Cents(n));
  }

  /** An exact midpoint between two cents goes to the one with the even count. */
  lemma RoundMidpoint(x: real, k: int)
    requires x * 100.0 == k as real + 0.5
    ensures RoundHalfEven2(x) == Cents(if k % 2 == 0 then k else k + 1)
  {
    var n := if k % 2 == 0 then k else k + 1;
    CentsRoundTrip(n);
    assert Cents(n) - x == (n as real - x * 100.0) / 100.0;
    BankersIsUnique(x, Cents(n));
  }

  /** The rounded value is at least as close to `x` as any other whole number of cents. */
  lemma RoundIsNearest(x: real, y: real)
    requires IsCents(y)
    ensures Abs(RoundHalfEven2(x) - x) <= Abs(y - x)
  {
    if Abs(y - x) < HalfCent {
      BankersIsUnique(x, y);
    }
  }

  /** Two different whole numbers of cents are at least a cent apart. */
  lemma CentsGap(a: real, b: real)
    requires IsCents(a) && IsCents(b) && a > b
    ensures a >= b + 0.01
  {
    CentsOfCentCount(a);
    CentsOfCentCount(b);
    assert CentCount(a) >= CentCount(b) + 1;
  }

  /** Rounding preserves order. */
  lemma RoundMonotone(x: real, y: real)
    requires x <= y
    ensures RoundHalfEven2(x) <= RoundHalfEven2(y)
  {
    var rx, ry := RoundHalfEven2(x), RoundHalfEven2(y);
    if rx > ry {
      CentsGap(rx, ry);
      assert false;
    }
  }

  /** Rounding is symmetric about zero, as `MidpointRounding.ToEven` is. */
  lemma RoundNegate(x: real)
    ensures RoundHalfEven2(-x) == -RoundHalfEven2(x)
  {
    var r := RoundHalfEven2(x);
    CentsOfCentCount(r);
    var k := CentCount(r);
    CentsRoundTrip(-k);
    assert -r == Cents(-k);
    assert (-k) % 2 == 0 <==> k % 2 == 0;
    BankersIsUnique(-x, -r);
  }

  /** A whole number of cents times a whole number is a whole number of cents. */
  lemma CentsTimesInt(x: real, m: int)
    requires IsCents(x)
    ensures IsCents(x * m as real)
  {
    var k := CentCount(x);
    CentsOfCentCount(x);
    assert x * m as real == Cents(k * m);
    CentsRoundTrip(k * m);
  }

  /** The difference of two whole numbers of cents is a whole number of cents. */
  lemma CentsMinusCents(x: real, y: real)
    requires IsCents(x) && IsCents(y)
    ensures IsCents(x - y)
  {
    CentsOfCentCount(x);
    CentsOfCentCount(y);
    assert x - y == Cents(CentCount(x) - CentCount(y));
    CentsRoundTrip(CentCount(x) - CentCount(y));
  }
}
