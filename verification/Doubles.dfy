/**
 Rounding as 64-bit floating point does it: to nearest, ties to even, with 53 significant bits
 (section 4.3.1 of IEEE 754). A computation is over the reals, with a rounding as a parameter.
 */
module Doubles {
  /** How the program's floating point rounds a product or a quotient. */
  type Rounding = real -> real

  /** The relative error of rounding to nearest with 53 significant bits is at most one in 2 to the 53. */
  predicate Close(v: real, rounded: real) {
    var error := (rounded - v) * 9007199254740992.0;
    if v >= 0.0 then -v <= error <= v else v <= error <= -v
  }

  /** As accurate as `f64`, whose smallest and largest numbers are far from any value computed here. */
  ghost predicate Accurate(round: Rounding) { forall v: real :: Close(v, round(v)) }

  function Pow2(k: nat): real { if k == 0 then 1.0 else 2.0 * Pow2(k - 1) }

  function Shift(v: real, k: nat): real { v * Pow2(k) }

  predicate Whole(y: real) { y == y.Floor as real }

  predicate Even(y: real) { y.Floor % 2 == 0 }

  /** A whole number nearest to x, the even one of two equally near. */
  predicate NearestWhole(x: real, y: real) {
    Whole(y) && -0.5 <= y - x <= 0.5 && (y - x == 0.5 || y - x == -0.5 ==> Even(y))
  }

  /** Shifted so, the number has 53 bits before the point. */
  predicate FullBits(v: real, k: nat) { k <= 1074 && 4503599627370496.0 <= Shift(v, k) < 9007199254740992.0 }

  /** The rounding of `f64`, on every number that can be shifted so. */
  ghost predicate Nearest53(round: Rounding) {
    forall v: real, k: nat :: FullBits(v, k) ==> NearestWhole(Shift(v, k), Shift(round(v), k))
  }

  // ----- Products -----

  function Mul(a: real, b: real): real { a * b }

  lemma Times(n: real, a: real, b: real)
    requires n >= 0.0 && a <= b
    ensures n * a <= n * b
  {
  }

  lemma Cancel(a: real, b: real, k: real)
    requires k > 0.0 && a * k < b * k
    ensures a < b
  {
  }

  lemma CancelAtMost(a: real, b: real, k: real)
    requires k > 0.0 && a * k <= b * k
    ensures a <= b
  {
    assert b < a ==> b * k < a * k;
  }

  lemma TimesCast(q: int, k: int)
    ensures q as real * k as real == (q * k) as real
  {
  }

  lemma {:induction false} Pow2Add(a: nat, b: nat)
    ensures Pow2(a + b) == Pow2(a) * Pow2(b)
  {
    if b > 0 { Pow2Add(a, b - 1); }
  }

  lemma Pow2Is()
    ensures Pow2(47) == 140737488355328.0 && Pow2(52) == 4503599627370496.0
  {
    assert Pow2(5) == 32.0 && Pow2(7) == 128.0;
    Pow2Add(5, 5);
    Pow2Add(10, 10);
    Pow2Add(20, 20);
    Pow2Add(40, 7);
    Pow2Add(47, 5);
  }

  lemma {:induction false} Pow2Whole(k: nat) returns (m: nat)
    ensures m > 0 && Pow2(k) == m as real
  {
    if k == 0 {
      m := 1;
    } else {
      m := Pow2Whole(k - 1);
      m := 2 * m;
    }
  }

  // ----- Rounding to nearest -----

  lemma WholeIsClose(v: real, u: real, p: real)
    requires p > 0.0 && 4503599627370496.0 <= v * p && -0.5 <= u * p - v * p <= 0.5
    ensures Close(v, u)
  {
    var error := (u - v) * 9007199254740992.0;
    var e := u * p - v * p;
    assert -4503599627370496.0 <= e * 9007199254740992.0 <= 4503599627370496.0;
    assert error * p == e * 9007199254740992.0;
    assert -v * p == -(v * p);
    CancelAtMost(0.0, v, p);
    CancelAtMost(error, v, p);
    CancelAtMost(-v, error, p);
  }

  /** Rounding to nearest is as accurate as that, on every number that can be shifted so. */
  lemma NearestIsClose(round: Rounding, v: real, k: nat)
    requires Nearest53(round) && FullBits(v, k)
    ensures Close(v, round(v))
  {
    var m := Pow2Whole(k);
    assert NearestWhole(Shift(v, k), Shift(round(v), k));
    WholeIsClose(v, round(v), Pow2(k));
  }

  /** How far a number with a whole part is to be shifted. */
  lemma {:induction false} ShiftOf(p: real, low: nat) returns (k: nat)
    requires p >= 1.0 && low <= 52 && Shift(p, low) < 9007199254740992.0
    ensures k <= 52 && FullBits(p, k)
    decreases 52 - low
  {
    if Shift(p, low) >= 4503599627370496.0 {
      k := low;
    } else {
      if low == 52 {
        Pow2Is();
        Times(4503599627370496.0, 1.0, p);
        assert false;
      }
      assert Shift(p, low + 1) == 2.0 * Shift(p, low);
      k := ShiftOf(p, low + 1);
    }
  }

  lemma WholeBelow(x: real, y: real, m: int)
    requires Whole(y) && y - x >= -0.5 && m as real <= x
    ensures m as real <= y
  {
    var f := y.Floor;
    assert f < m ==> (f + 1) as real <= m as real;
  }

  /** Rounding to nearest never passes a whole number. */
  lemma NearestAtLeast(round: Rounding, p: real, q: nat)
    requires Nearest53(round) && 1.0 <= p < 9007199254740992.0 && q as real <= p
    ensures q as real <= round(p)
  {
    assert Shift(p, 0) == p;
    var k := ShiftOf(p, 0);
    var m := Pow2Whole(k);
    assert NearestWhole(Shift(p, k), Shift(round(p), k));
    TimesCast(q, m);
    Times(m as real, q as real, p);
    WholeBelow(Shift(p, k), Shift(round(p), k), q * m);
    CancelAtMost(q as real, round(p), m as real);
  }
}
