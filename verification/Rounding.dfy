/** Arithmetic that rounds, as JavaScript's numbers do: every operation gives the exact result but for
    a relative error of at most eps. For double precision eps is 2^-53, away from overflow and
    underflow; with eps 0 the arithmetic is exact. */
module Rounding {

  type RoundFn = real -> real

  ghost predicate Faithful(round: RoundFn, eps: real) {
    && 0.0 <= eps < 1.0
    && forall x: real {:trigger round(x)} :: x >= 0.0 ==> Times(1.0 - eps, x) <= round(x) <= Times(1.0 + eps, x)
  }

  const DOUBLE_EPS: real := 1.0 / 9007199254740992.0

  // ---- Products ----

  /** A product by name, so that proofs need not multiply it out. */
  function Times(a: real, b: real): real {
    a * b
  }

  lemma ProductNotNegative(a: real, b: real)
    requires a >= 0.0 && b >= 0.0
    ensures Times(a, b) >= 0.0
  {
  }

  lemma Distribute(a: real, b: real, n: real)
    ensures Times(a - b, n) == Times(a, n) - Times(b, n)
    ensures Times(a + b, n) == Times(a, n) + Times(b, n)
  {
  }

  lemma Commute(a: real, b: real)
    ensures Times(a, b) == Times(b, a)
  {
  }

  lemma Widen(a: real, b: real, n: real)
    requires a <= b && n >= 0.0
    ensures Times(a, n) <= Times(b, n)
  {
    ProductNotNegative(b - a, n);
    Distribute(b, a, n);
  }

  lemma Associate(a: real, b: real, c: real)
    ensures Times(Times(a, b), c) == Times(a, Times(b, c))
  {
  }

  lemma ProductOrdered(a: real, b: real, c: real, d: real)
    requires 0.0 <= a <= b && 0.0 <= c <= d
    ensures Times(a, c) <= Times(b, d)
  {
    Widen(a, b, c);
    Widen(c, d, b);
    Commute(c, b);
    Commute(d, b);
  }

  lemma Exchange(a: real, b: real, c: real, d: real)
    ensures Times(Times(a, b), Times(c, d)) == Times(Times(a, c), Times(b, d))
  {
  }

  lemma ByOne(a: real)
    ensures Times(1.0, a) == a && Times(a, 1.0) == a
  {
  }

  // ---- What roundings make of a value ----

  /** v is x up to these factors. */
  predicate Near(low: real, high: real, v: real, x: real) {
    && 0.0 <= low <= 1.0 <= high && 0.0 <= x
    && Times(low, x) <= v <= Times(high, x)
  }

  lemma NearIsNotNegative(low: real, high: real, v: real, x: real)
    requires Near(low, high, v, x)
    ensures v >= 0.0
  {
    ProductNotNegative(low, x);
  }

  lemma NearItself(x: real)
    requires x >= 0.0
    ensures Near(1.0, 1.0, x, x)
  {
    ByOne(x);
  }

  lemma FactorsStay(k: real, l: real, low: real, high: real)
    requires 0.0 <= k <= 1.0 <= l && 0.0 <= low <= 1.0 <= high
    ensures 0.0 <= Times(k, low) <= 1.0 <= Times(l, high)
  {
    ProductNotNegative(k, low);
    ProductOrdered(k, 1.0, low, 1.0);
    ProductOrdered(1.0, l, 1.0, high);
    ByOne(1.0);
  }

  lemma NearRound(round: RoundFn, eps: real, low: real, high: real, v: real, x: real)
    requires Faithful(round, eps) && Near(low, high, v, x)
    ensures Near(Times(1.0 - eps, low), Times(1.0 + eps, high), round(v), x)
  {
    NearIsNotNegative(low, high, v, x);
    FactorsStay(1.0 - eps, 1.0 + eps, low, high);
    Widen(Times(low, x), v, 1.0 - eps);
    Widen(v, Times(high, x), 1.0 + eps);
    Commute(Times(low, x), 1.0 - eps);
    Commute(v, 1.0 - eps);
    Commute(Times(high, x), 1.0 + eps);
    Commute(v, 1.0 + eps);
    Associate(1.0 - eps, low, x);
    Associate(1.0 + eps, high, x);
  }

  lemma NearTimes(a: real, c: real, v: real, x: real, b: real, d: real, w: real, z: real)
    requires Near(a, c, v, x) && Near(b, d, w, z)
    ensures Near(Times(a, b), Times(c, d), Times(v, w), Times(x, z))
  {
    NearIsNotNegative(a, c, v, x);
    NearIsNotNegative(b, d, w, z);
    ProductNotNegative(x, z);
    FactorsStay(a, c, b, d);
    ProductNotNegative(a, x);
    ProductNotNegative(b, z);
    ProductOrdered(Times(a, x), v, Times(b, z), w);
    ProductOrdered(v, Times(c, x), w, Times(d, z));
    Exchange(a, x, b, z);
    Exchange(c, x, d, z);
  }

  lemma NearScaled(low: real, high: real, v: real, x: real, b: real)
    requires Near(low, high, v, x) && b >= 0.0
    ensures Near(low, high, Times(v, b), Times(x, b))
  {
    ProductNotNegative(x, b);
    Widen(Times(low, x), v, b);
    Widen(v, Times(high, x), b);
    Associate(low, x, b);
    Associate(high, x, b);
  }

  lemma ByInverse(x: real, b: real)
    requires b > 0.0
    ensures Times(x, 1.0 / b) == x / b
  {
  }

  lemma NearDivided(low: real, high: real, v: real, x: real, b: real)
    requires Near(low, high, v, x) && b > 0.0
    ensures Near(low, high, v / b, x / b)
  {
    NearScaled(low, high, v, x, 1.0 / b);
    ByInverse(v, b);
    ByInverse(x, b);
  }

  lemma NearPlusOne(low: real, high: real, v: real, x: real)
    requires Near(low, high, v, x)
    ensures Near(low, high, 1.0 + v, 1.0 + x)
  {
    Distribute(1.0, x, low);
    Distribute(1.0, x, high);
    ByOne(low);
    ByOne(high);
    Commute(1.0 + x, low);
    Commute(x, low);
    Commute(1.0 + x, high);
    Commute(x, high);
  }

  // ---- What n roundings lose ----

  function Power(k: real, n: nat): real {
    if n == 0 then 1.0 else Times(k, Power(k, n - 1))
  }

  /** At most n times eps. */
  lemma {:induction false} LossIsSmall(eps: real, n: nat)
    requires 0.0 <= eps < 1.0
    ensures 1.0 - Times(n as real, eps) <= Power(1.0 - eps, n) <= 1.0
    ensures Power(1.0 - eps, n) >= 0.0
  {
    if n == 0 {
      assert Times(0.0, eps) == 0.0;
    } else {
      var p, m := Power(1.0 - eps, n - 1), (n - 1) as real;
      LossIsSmall(eps, n - 1);
      FactorsStay(1.0 - eps, 1.0, p, 1.0);
      Distribute(1.0, eps, p);
      ByOne(p);
      ByOne(eps);
      Widen(p, 1.0, eps);
      Commute(p, eps);
      Distribute(m, 1.0, eps);
      assert n as real == m + 1.0;
    }
  }

  lemma {:induction false} PowerAdds(k: real, n: nat, m: nat)
    ensures Power(k, n + m) == Times(Power(k, n), Power(k, m))
  {
    if n == 0 {
      ByOne(Power(k, m));
    } else {
      PowerAdds(k, n - 1, m);
      Associate(k, Power(k, n - 1), Power(k, m));
    }
  }

  /** v is what n roundings may have made of x. */
  predicate After(eps: real, n: nat, v: real, x: real) {
    Near(Power(1.0 - eps, n), Power(1.0 + eps, n), v, x)
  }

  lemma AfterNone(eps: real, x: real)
    requires x >= 0.0
    ensures After(eps, 0, x, x)
  {
    NearItself(x);
  }

  lemma AfterRound(round: RoundFn, eps: real, n: nat, v: real, x: real)
    requires Faithful(round, eps) && After(eps, n, v, x)
    ensures After(eps, n + 1, round(v), x)
  {
    NearRound(round, eps, Power(1.0 - eps, n), Power(1.0 + eps, n), v, x);
  }

  lemma AfterTimes(eps: real, n: nat, v: real, x: real, m: nat, w: real, z: real)
    requires After(eps, n, v, x) && After(eps, m, w, z)
    ensures After(eps, n + m, Times(v, w), Times(x, z))
  {
    NearTimes(Power(1.0 - eps, n), Power(1.0 + eps, n), v, x, Power(1.0 - eps, m), Power(1.0 + eps, m), w, z);
    PowerAdds(1.0 - eps, n, m);
    PowerAdds(1.0 + eps, n, m);
  }

  /** What is lost is at most n times eps of the exact value. */
  lemma AfterLoses(eps: real, n: nat, v: real, x: real)
    requires 0.0 <= eps < 1.0 && After(eps, n, v, x)
    ensures x - v <= Times(Times(n as real, eps), x)
  {
    LossIsSmall(eps, n);
    Widen(1.0 - Times(n as real, eps), Power(1.0 - eps, n), x);
    Distribute(1.0, Times(n as real, eps), x);
    ByOne(x);
  }

  /** Exact arithmetic errs by nothing. */
  lemma ExactIsFaithful()
    ensures Faithful((x: real) => x, 0.0)
  {
  }

  // ---- Rounding up what was computed ----

  lemma Split(c: int, num: nat)
    ensures Times(c as real, num as real) == (c * num) as real
  {
  }

  lemma Cancel(x: real, y: real, n: real)
    requires n > 0.0 && Times(x, n) <= Times(y, n)
    ensures x <= y
  {
    assert (y - x) * n >= 0.0;
  }

  /** An integer closer than 1 / num below a multiple of 1 / num is not below it. */
  lemma NoGap(c: int, x: real, num: nat, k: nat)
    requires num > 0 && Times(x, num as real) == k as real && Times(x - c as real, num as real) < 1.0
    ensures x <= c as real
  {
    Distribute(x, c as real, num as real);
    Split(c, num);
    assert k <= c * num;
    Cancel(x, c as real, num as real);
  }

  /** If x counts k units of 1 / num and too little is lost of it to miss a unit, an integer above what
      was computed is above x. */
  lemma IntegerAbove(loss: real, x: real, y: real, c: int, num: nat, k: nat)
    requires num > 0 && Times(x, num as real) == k as real && Times(loss, k as real) < 1.0
    requires x - y <= Times(loss, x) && y <= c as real
    ensures x <= c as real
  {
    Widen(x - c as real, Times(loss, x), num as real);
    Associate(loss, x, num as real);
    NoGap(c, x, num, k);
  }
}
