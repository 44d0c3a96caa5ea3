/**
 The Wilson score interval of the false-positive claim, and the search for the
 number of clean alerts that would bring its upper bound under a target.
 Rates are reals; the square root is a parameter known only to be a nonnegative root.
 */
module Wilson {
  import opened Common

  const U64_MAX: nat := TWO_64 - 1

  /** A one-sided confidence level, carrying its own standard-normal quantile. */
  datatype OneSided = P95 | P99 {
    function Z(): (z: real)
      ensures z > 1.0
    {
      match this
      case P95 => 1.6448536269514722
      case P99 => 2.3263478740408408
    }

    function Z2(): (z2: real)
      ensures z2 > 1.0
    {
      Z() * Z()
    }

    function Percent(): nat {
      match this
      case P95 => 95
      case P99 => 99
    }
  }

  ghost predicate IsRoot(f: real -> real, x: real) {
    x >= 0.0 ==> f(x) >= 0.0 && f(x) * f(x) == x
  }

  /** `f` computes nonnegative square roots. */
  ghost predicate IsSqrt(f: real -> real) {
    forall x: real {:trigger IsRoot(f, x)} :: IsRoot(f, x)
  }

  /** The variance under the margin's root. */
  function Spread(z2: real, k: real, n: real): real
    requires n > 0.0
  {
    var p := k / n;
    p * (1.0 - p) / n + z2 / (4.0 * n * n)
  }

  /** One end of the interval: the shrunken centre, moved by `offset`. */
  function End(z2: real, k: real, n: real, offset: real): real
    requires n > 0.0 && z2 > 0.0
  {
    var centre := k / n + z2 / (2.0 * n);
    (centre + offset) / (1.0 + z2 / n)
  }

  /** The interval for `k` refutations in `n` alerts; no trials, no interval. */
  function Interval(sqrt: real -> real, level: OneSided, k: nat, n: nat): Option<(real, real)> {
    if n == 0 then None else
    var kf, nf, z2 := Min(k, n) as real, n as real, level.Z2();
    var margin := level.Z() * sqrt(Spread(z2, kf, nf));
    Some((MaxReal(End(z2, kf, nf, -margin), 0.0), MinReal(End(z2, kf, nf, margin), 1.0)))
  }

  /** The closure `clears`: the upper bound over `k` in `n` is under the target. */
  predicate UpperUnder(sqrt: real -> real, level: OneSided, target: real, k: nat, n: nat) {
    var i := Interval(sqrt, level, k, n);
    i.Some? && i.value.1 < target
  }

  /** The lower bound is above the target: the evidence contradicts the claim. */
  predicate LowerOver(sqrt: real -> real, level: OneSided, target: real, k: nat, n: nat) {
    var i := Interval(sqrt, level, k, n);
    i.Some? && i.value.0 > target
  }

  // ----- The square-root-free form of both bounds -----

  ghost predicate IsShortfall(d: real, t: real, k: real, n: real) {
    d == n * t - k
  }

  /**
   `k` lies below the expected count `n * t` by more than `sqrt(z2)` standard deviations. The
   shortfall is named so that only a proof that speaks of it computes it.
   */
  ghost predicate FarBelow(z2: real, t: real, k: real, n: real) {
    forall d: real {:trigger IsShortfall(d, t, k, n)} | IsShortfall(d, t, k, n) ::
      d > 0.0 && d * d > z2 * n * t * (1.0 - t)
  }

  ghost predicate IsExcess(d: real, t: real, k: real, n: real) {
    d == k - n * t
  }

  /** `k` lies that far above it. */
  ghost predicate FarAbove(z2: real, t: real, k: real, n: real) {
    forall d: real {:trigger IsExcess(d, t, k, n)} | IsExcess(d, t, k, n) :: d > 0.0 && d * d > z2 * n * t * (1.0 - t)
  }

  /** The polynomial identity behind the score interval. */
  lemma {:induction false} ScoreIdentity(z2: real, t: real, k: real, n: real, mm: real, a: real, d: real)
    requires n * mm == z2 * (k * (n - k) + z2 * n / 4.0)
    requires d == n * t - k && a == d + z2 * t - z2 / 2.0
    ensures n * (a * a - mm) == (n + z2) * (d * d - z2 * n * t * (1.0 - t))
  {
    var h := t - 0.5;
    assert a == d + z2 * h;
    assert a * a == d * d + 2.0 * (d * (z2 * h)) + (z2 * h) * (z2 * h);
    assert k == n * t - d;
    assert k * (n - k) == n * t * n * (1.0 - t) + n * (2.0 * t - 1.0) * d - d * d;
  }

  lemma {:induction false} ProductPositive(a: real, b: real)
    requires a > 0.0 && b > 0.0
    ensures a * b > 0.0
  {}

  lemma {:induction false} ProductNonneg(a: real, b: real)
    requires a >= 0.0 && b >= 0.0
    ensures a * b >= 0.0
  {}

  lemma {:induction false} SquareLess(m: real, a: real)
    requires m >= 0.0 && a >= 0.0
    ensures m < a <==> m * m < a * a
  {
    assert a * a - m * m == (a - m) * (a + m);
    if m < a {
      ProductPositive(a - m, a + m);
    } else {
      ProductNonneg(m - a, m + a);
      assert (m - a) * (m + a) == -((a - m) * (a + m));
    }
  }

  lemma {:induction false} SameSign(n: real, x: real, w: real, y: real)
    requires n > 0.0 && w > 0.0 && n * x == w * y
    ensures x > 0.0 <==> y > 0.0
  {
    if x > 0.0 { ProductPositive(n, x); }
    if y > 0.0 { ProductPositive(w, y); }
  }

  /** The comparison with the squares already related: `a` against the margin, `d` against the spread. */
  lemma {:induction false} MarginComparison(a: real, m: real, d: real, w: real, wt: real, q: real)
    requires a == d + wt - w / 2.0 && 0.0 < wt < w && m >= w / 2.0
    requires a * a - m * m > 0.0 <==> d * d - q > 0.0
    ensures m < a <==> d > 0.0 && d * d > q
  {
    if a >= 0.0 {
      SquareLess(m, a);
    } else {
      SquareLess(m, -a);
      assert (-a) * (-a) == a * a;
    }
  }

  lemma {:induction false} FractionOf(w: real, t: real)
    requires w > 0.0 && 0.0 < t < 1.0
    ensures 0.0 < Product(w, t) < w
  {
    var rest := Product(w, 1.0 - t);
    assert rest == w - Product(w, t);
  }

  lemma {:induction false} SpreadComparison(z2: real, t: real, k: real, n: real, m: real, a: real, d: real)
    requires z2 > 0.0 && n > 0.0
    requires n * (m * m) == z2 * (k * (n - k) + z2 * n / 4.0)
    requires d == n * t - k && a == d + z2 * t - z2 / 2.0
    ensures a * a - m * m > 0.0 <==> d * d - z2 * n * t * (1.0 - t) > 0.0
  {
    ScoreIdentity(z2, t, k, n, m * m, a, d);
    SameSign(n, a * a - m * m, n + z2, d * d - z2 * n * t * (1.0 - t));
  }

  lemma {:induction false} UpperIdentity(z2: real, t: real, k: real, n: real, m: real)
    requires z2 > 0.0 && 0.0 < t < 1.0 && 0.0 <= k <= n && n > 0.0 && m >= 0.0
    requires n * (m * m) == z2 * (k * (n - k) + z2 * n / 4.0)
    ensures k + z2 / 2.0 + m < t * (n + z2) <==> FarBelow(z2, t, k, n)
  {
    var d := n * t - k;
    assert IsShortfall(d, t, k, n);
    var wt := Product(z2, t);
    var a := d + wt - z2 / 2.0;
    SpreadComparison(z2, t, k, n, m, a, d);
    MarginAtLeastHalf(z2, k, n, m);
    FractionOf(z2, t);
    MarginComparison(a, m, d, z2, wt, z2 * n * t * (1.0 - t));
    Distribute(t, n, z2);
  }

  lemma {:induction false} Distribute(t: real, n: real, w: real)
    ensures t * (n + w) == n * t + Product(w, t)
  {}

  lemma {:induction false} MarginAtLeastHalf(z2: real, k: real, n: real, m: real)
    requires z2 > 0.0 && 0.0 <= k <= n && n > 0.0 && m >= 0.0
    requires n * (m * m) == z2 * (k * (n - k) + z2 * n / 4.0)
    ensures m >= z2 / 2.0
  {
    var e := k * (n - k);
    ProductNonneg(k, n - k);
    ProductNonneg(z2, e);
    var h := z2 / 2.0;
    assert z2 * (e + z2 * n / 4.0) == z2 * e + n * (h * h);
    SquareLess(m, h);
    var gap := h * h - m * m;
    assert n * gap == n * (h * h) - n * (m * m);
    if gap > 0.0 {
      ProductPositive(n, gap);
    }
  }

  /** `n` times the margin, from the two summands under the root. */
  lemma {:induction false} ScaledSquare(n: real, z: real, z2: real, r: real, u: real, v: real, p: real, k: real)
    requires n > 0.0 && r * r == u + v && z2 == z * z
    requires u * n == p * (1.0 - p) && p * n == k && v * (4.0 * n * n) == z2
    ensures n * ((n * (z * r)) * (n * (z * r))) == z2 * (k * (n - k) + z2 * n / 4.0)
  {
    var x := u + v;
    var nnn := n * n * n;
    assert nnn * u == k * (n - k) by {
      assert nnn * u == (n * n) * (u * n);
      assert (n * n) * (p * (1.0 - p)) == (p * n) * (n - p * n);
    }
    assert nnn * v == z2 * n / 4.0 by {
      assert nnn * v == (v * (4.0 * n * n)) * n / 4.0;
    }
    assert (n * (z * r)) * (n * (z * r)) == (n * n) * (z2 * (r * r));
    assert n * ((n * n) * (z2 * x)) == z2 * (nnn * x);
    assert nnn * x == nnn * u + nnn * v;
  }

  lemma {:induction false} QuotientTimes(a: real, b: real)
    requires a >= 0.0 && b > 0.0
    ensures a / b >= 0.0 && (a / b) * b == a
  {}

  lemma {:induction false} FourSquares(n: real) returns (w: real)
    requires n > 0.0
    ensures w == 4.0 * n * n && w > 0.0
  {
    w := Product(4.0 * n, n);
  }

  lemma {:induction false} ShareInUnit(k: real, n: real)
    requires 0.0 < n && 0.0 <= k <= n
    ensures var p := k / n; p * n == k && p * (1.0 - p) >= 0.0
  {
    var p := k / n;
    assert p * n == k;
    assert 0.0 <= p <= 1.0;
    ProductNonneg(p, 1.0 - p);
  }

  lemma {:induction false} SpreadParts(z2: real, k: real, n: real) returns (p: real, u: real, v: real)
    requires z2 > 0.0 && 0.0 < n && 0.0 <= k <= n
    ensures Spread(z2, k, n) == u + v >= 0.0
    ensures u * n == p * (1.0 - p) && p * n == k && v * (4.0 * n * n) == z2
  {
    var w := FourSquares(n);
    QuotientTimes(z2, w);
    v := z2 / w;
    ShareInUnit(k, n);
    p := k / n;
    QuotientTimes(p * (1.0 - p), n);
    u := p * (1.0 - p) / n;
  }

  /** The margin, scaled by the number of alerts. */
  lemma {:induction false} ScaledMargin(sqrt: real -> real, z: real, z2: real, k: real, n: real)
    requires IsSqrt(sqrt) && z > 0.0 && z2 == z * z && z2 > 0.0 && 0.0 < n && 0.0 <= k <= n
    ensures var m := n * (z * sqrt(Spread(z2, k, n)));
            m >= 0.0 && n * (m * m) == z2 * (k * (n - k) + z2 * n / 4.0)
  {
    var p, u, v := SpreadParts(z2, k, n);
    var r := sqrt(Spread(z2, k, n));
    assert IsRoot(sqrt, Spread(z2, k, n));
    assert r >= 0.0 && r * r == Spread(z2, k, n);
    ScaledSquare(n, z, z2, r, u, v, p, k);
    ProductNonneg(z, r);
    ProductNonneg(n, z * r);
  }

  lemma {:induction false} ClearDenominators(z2: real, k: real, n: real, m: real, t: real)
    requires n > 0.0 && z2 > 0.0
    ensures End(z2, k, n, m) < t <==> k + z2 / 2.0 + n * m < t * (n + z2)
    ensures End(z2, k, n, m) > t <==> k + z2 / 2.0 + n * m > t * (n + z2)
  {
    var c, d := k / n + z2 / (2.0 * n), 1.0 + z2 / n;
    assert n * d == n + z2;
    assert n * c == k + z2 / 2.0;
    QuotientTimes(z2, n);
    Cross(c + m, d, t, n);
    assert n * (c + m) == k + z2 / 2.0 + n * m;
    assert n * (t * d) == t * (n + z2);
  }

  lemma {:induction false} Cross(x: real, d: real, t: real, n: real)
    requires d > 0.0 && n > 0.0
    ensures x / d < t <==> n * x < n * (t * d)
    ensures x / d > t <==> n * x > n * (t * d)
  {
    var q := x / d;
    assert q * d == x;
    var e := (t - q) * d;
    assert n * (t * d) - n * x == n * e;
    assert (q - t) * d == -e && n * ((q - t) * d) == -(n * e);
    if q < t { ProductPositive(t - q, d); ProductPositive(n, e); }
    if q > t { ProductPositive(q - t, d); ProductPositive(n, (q - t) * d); }
  }

  lemma {:induction false} UpperEndIff(sqrt: real -> real, z: real, z2: real, t: real, k: real, n: real)
    requires IsSqrt(sqrt) && z > 0.0 && z2 == z * z && z2 > 0.0
    requires 0.0 < t < 1.0 && 0.0 < n && 0.0 <= k <= n
    ensures End(z2, k, n, z * sqrt(Spread(z2, k, n))) < t <==> FarBelow(z2, t, k, n)
  {
    var m := z * sqrt(Spread(z2, k, n));
    ScaledMargin(sqrt, z, z2, k, n);
    UpperIdentity(z2, t, k, n, n * m);
    ClearDenominators(z2, k, n, m, t);
  }

  lemma {:induction false} LowerEndIff(sqrt: real -> real, z: real, z2: real, t: real, k: real, n: real)
    requires IsSqrt(sqrt) && z > 0.0 && z2 == z * z && z2 > 0.0
    requires 0.0 < t < 1.0 && 0.0 < n && 0.0 <= k <= n
    ensures End(z2, k, n, -(z * sqrt(Spread(z2, k, n)))) > t <==> FarAbove(z2, t, k, n)
  {
    var m := z * sqrt(Spread(z2, k, n));
    ScaledMargin(sqrt, z, z2, k, n);
    Mirror(z2, t, k, n, n * m);
    ClearDenominators(z2, k, n, -m, t);
    assert n * -m == -(n * m);
  }

  /** Confirmed and refuted alerts swap roles when the target becomes its complement. */
  lemma {:induction false} Mirror(z2: real, t: real, k: real, n: real, m: real)
    requires z2 > 0.0 && 0.0 < t < 1.0 && 0.0 <= k <= n && n > 0.0 && m >= 0.0
    requires n * (m * m) == z2 * (k * (n - k) + z2 * n / 4.0)
    ensures k + z2 / 2.0 - m > t * (n + z2) <==> FarAbove(z2, t, k, n)
  {
    var s, d := 1.0 - t, k - n * t;
    assert (n - k) * (n - (n - k)) == k * (n - k);
    UpperIdentity(z2, s, n - k, n, m);
    assert IsExcess(d, t, k, n);
    assert n * s - (n - k) == d && IsShortfall(d, s, n - k, n);
    assert z2 * n * s * (1.0 - s) == z2 * n * t * (1.0 - t);
    assert s * (n + z2) == n + z2 - t * (n + z2);
  }

  lemma {:induction false} AllRefutedIsNotBelow(z2: real, t: real, k: real, n: real)
    requires 0.0 < t < 1.0 && 0.0 < n <= k
    ensures !FarBelow(z2, t, k, n)
  {
    assert IsShortfall(n * t - k, t, k, n);
    ProductPositive(n, 1.0 - t);
    assert n * (1.0 - t) == n - n * t;
  }

  /** The upper bound is under the target exactly when `k` is far below `n * target`. */
  lemma {:induction false} UpperUnderIff(sqrt: real -> real, level: OneSided, target: real, k: nat, n: nat)
    requires IsSqrt(sqrt) && 0.0 < target < 1.0
    ensures UpperUnder(sqrt, level, target, k, n)
       <==> FarBelow(level.Z2(), target, k as real, n as real)
  {
    if n == 0 {
      assert IsShortfall(0.0 * target - k as real, target, k as real, 0.0);
    } else {
      UpperEndIff(sqrt, level.Z(), level.Z2(), target, Min(k, n) as real, n as real);
      if k > n {
        // Every alert refuted: the rate is capped at one, and so is the bound.
        AllRefutedIsNotBelow(level.Z2(), target, k as real, n as real);
        AllRefutedIsNotBelow(level.Z2(), target, n as real, n as real);
      }
    }
  }

  /** The lower bound is above the target exactly when `k` is far above `n * target`. */
  lemma {:induction false} LowerOverIff(sqrt: real -> real, level: OneSided, target: real, k: nat, n: nat)
    requires IsSqrt(sqrt) && 0.0 < target < 1.0
    ensures LowerOver(sqrt, level, target, k, n)
       <==> 0 < n && FarAbove(level.Z2(), target, Min(k, n) as real, n as real)
  {
    if n > 0 {
      LowerEndIff(sqrt, level.Z(), level.Z2(), target, Min(k, n) as real, n as real);
    }
  }

  // ----- The search for the number of clean alerts -----

  /** The closure `clears`: whether `extra` further confirmed alerts bring the bound under target. */
  predicate Clears(sqrt: real -> real, level: OneSided, target: real, k: nat, n: nat, extra: nat) {
    UpperUnder(sqrt, level, target, k, n + extra)
  }

  lemma {:induction false} BeyondSpread(z2: real, t: real, k: real, n: real)
    requires z2 > 0.0 && 0.0 < t < 1.0 && k >= 0.0 && n >= 0.0
    requires FarBelow(z2, t, k, n)
    ensures n * t - k > z2 * (1.0 - t)
  {
    var d, s := n * t - k, Product(z2, 1.0 - t);
    assert IsShortfall(d, t, k, n);
    assert z2 * n * t * (1.0 - t) == s * (d + k);
    ProductNonneg(s, k);
    assert s * (d + k) == s * d + s * k;
    var gap := s - d;
    assert d * gap == s * d - d * d;
    if gap >= 0.0 {
      ProductNonneg(d, gap);
    }
  }

  lemma {:induction false} OneMoreStaysBelow(z2: real, t: real, k: real, n: real)
    requires z2 > 0.0 && 0.0 < t < 1.0 && k >= 0.0 && n >= 0.0
    requires FarBelow(z2, t, k, n)
    ensures FarBelow(z2, t, k, n + 1.0)
  {
    BeyondSpread(z2, t, k, n);
    var d, q := n * t - k, z2 * n * t * (1.0 - t);
    assert IsShortfall(d, t, k, n) && (n + 1.0) * t - k == d + t;
    assert z2 * (n + 1.0) * t * (1.0 - t) == q + z2 * (1.0 - t) * t;
    StepUp(d, t, z2 * (1.0 - t), q);
  }

  lemma {:induction false} StepUp(d: real, t: real, s: real, q: real)
    requires d > 0.0 && t > 0.0 && d > s && d * d > q
    ensures (d + t) * (d + t) > q + s * t
  {
    ProductPositive(t, 2.0 * d + t - s);
    assert (d + t) * (d + t) == d * d + t * (2.0 * d + t);
    assert t * (2.0 * d + t - s) == t * (2.0 * d + t) - s * t;
  }

  lemma {:induction false} SquareBeatsProduct(y: real, d: real, z2: real)
    requires z2 > 0.0 && y > 4.0 * z2 && d > y / 2.0
    ensures d * d > Product(y, z2)
  {
    var h := y / 2.0;
    SquareLess(h, d);
    ProductPositive(y, y / 4.0 - z2);
    assert y * (y / 4.0 - z2) == h * h - y * z2;
  }

  lemma {:induction false} SpreadBelowProduct(z2: real, t: real, n: real)
    requires z2 > 0.0 && 0.0 < t < 1.0 && n * t > 0.0
    ensures z2 * n * t * (1.0 - t) < Product(n * t, z2)
  {
    var yz := Product(n * t, z2);
    FractionOf(yz, t);
    assert z2 * n * t * (1.0 - t) == yz - Product(yz, t);
  }

  lemma {:induction false} EnoughIsBelow(z2: real, t: real, k: real, n: real)
    requires z2 > 0.0 && 0.0 < t < 1.0 && k >= 0.0 && n * t > 2.0 * k + 4.0 * z2
    ensures FarBelow(z2, t, k, n)
  {
    SquareBeatsProduct(n * t, n * t - k, z2);
    SpreadBelowProduct(z2, t, n);
  }

  /** Once the bound is under the target it stays there, and it gets there. */
  lemma {:induction false} ClearsForGood(sqrt: real -> real, level: OneSided, target: real,
                                         k: nat, n: nat, extra: nat, more: nat)
    requires IsSqrt(sqrt) && 0.0 < target < 1.0
    requires Clears(sqrt, level, target, k, n, extra) && extra <= more
    ensures Clears(sqrt, level, target, k, n, more)
    decreases more
  {
    if extra < more {
      ClearsForGood(sqrt, level, target, k, n, extra, more - 1);
      UpperUnderIff(sqrt, level, target, k, n + more - 1);
      UpperUnderIff(sqrt, level, target, k, n + more);
      OneMoreStaysBelow(level.Z2(), target, k as real, (n + more - 1) as real);
      assert (n + more - 1) as real + 1.0 == (n + more) as real;
    }
  }

  lemma {:induction false} EnoughExists(t: real, b: real) returns (m: nat)
    requires 0.0 < t && b >= 0.0
    ensures m as real * t > b
  {
    var q := b / t;
    QuotientTimes(b, t);
    m := q.Floor + 1;
    ProductPositive(m as real - q, t);
    assert (m as real - q) * t == m as real * t - q * t;
  }

  lemma {:induction false} EventuallyClears(sqrt: real -> real, level: OneSided, target: real, k: nat, n: nat)
    requires IsSqrt(sqrt) && 0.0 < target < 1.0
    ensures exists extra: nat :: Clears(sqrt, level, target, k, n, extra)
  {
    var z2 := level.Z2();
    var extra := EnoughExists(target, 2.0 * (k as real) + 4.0 * z2);
    var m, e := (n + extra) as real, extra as real;
    assert m * target == e * target + n as real * target;
    ProductNonneg(n as real, target);
    EnoughIsBelow(z2, target, k as real, m);
    UpperUnderIff(sqrt, level, target, k, n + extra);
    assert Clears(sqrt, level, target, k, n, extra);
  }

  ghost predicate IsThreshold(sqrt: real -> real, level: OneSided, target: real, k: nat, n: nat, least: nat) {
    forall extra: nat :: Clears(sqrt, level, target, k, n, extra) <==> least <= extra
  }

  /** There is a number of clean alerts from which on, and before which never, the bound is under target. */
  lemma {:induction false} Threshold(sqrt: real -> real, level: OneSided, target: real, k: nat, n: nat)
    requires IsSqrt(sqrt) && 0.0 < target < 1.0
    ensures exists least: nat :: IsThreshold(sqrt, level, target, k, n, least)
  {
    EventuallyClears(sqrt, level, target, k, n);
    var least: nat :| Clears(sqrt, level, target, k, n, least);
    while least > 0 && Clears(sqrt, level, target, k, n, least - 1)
      invariant Clears(sqrt, level, target, k, n, least)
    {
      least := least - 1;
    }
    forall extra: nat
      ensures Clears(sqrt, level, target, k, n, extra) <==> least <= extra
    {
      if least <= extra {
        ClearsForGood(sqrt, level, target, k, n, least, extra);
      } else if Clears(sqrt, level, target, k, n, extra) {
        ClearsForGood(sqrt, level, target, k, n, extra, least - 1);
      }
    }
    assert IsThreshold(sqrt, level, target, k, n, least);
  }

  /** What the search returns: the answer, a `u64` sum out of range, or a bracket that cannot grow. */
  datatype Needed = Extra(count: nat) | SumOverflows | BracketStuck

  function SaturatingDouble(x: nat): nat {
    Min(2 * x, U64_MAX)
  }

  /** The last of `from`, `2 * from`, `4 * from`, ... whose sum with `n` is still a `u64`. */
  function LastDoubling(n: nat, from: nat): (h: nat)
    requires 0 < from && n + from <= U64_MAX
    ensures from <= h && n + h <= U64_MAX
    ensures h == U64_MAX || n + SaturatingDouble(h) > U64_MAX
    decreases U64_MAX - from
  {
    var next := SaturatingDouble(from);
    if from == U64_MAX || n + next > U64_MAX then from else LastDoubling(n, next)
  }

  /** The furthest a bracket over `n` alerts can reach: no number of extra alerts but zero, if `n` is the greatest `u64`. */
  function Reach(n: nat): (h: nat)
    requires n <= U64_MAX
    ensures n + h <= U64_MAX
  {
    if n == U64_MAX then 0 else LastDoubling(n, 1)
  }

  /**
   How many more alerts, all confirmed, bring the upper bound over `k` refutations in
   `n` alerts under the target: bracket by doubling, then bisect, in `u64` arithmetic.
   */
  method CleanAlertsNeeded(sqrt: real -> real, level: OneSided, target: real, k: nat, n: nat)
    returns (r: Needed)
    requires IsSqrt(sqrt) && 0.0 < target < 1.0
    requires k <= U64_MAX && n <= U64_MAX
    ensures r.Extra? ==> IsThreshold(sqrt, level, target, k, n, r.count)
    ensures r == Extra(0) <==> Clears(sqrt, level, target, k, n, 0)
    ensures r.Extra? <==> FarBelow(level.Z2(), target, k as real, (n + Reach(n)) as real)
    ensures !r.Extra? ==> r == if n == 0 then BracketStuck else SumOverflows
  {
    Threshold(sqrt, level, target, k, n);
    ghost var least: nat :| IsThreshold(sqrt, level, target, k, n, least);
    assert Clears(sqrt, level, target, k, n, 0) <==> least <= 0;
    assert Clears(sqrt, level, target, k, n, Reach(n)) <==> least <= Reach(n);
    UpperUnderIff(sqrt, level, target, k, n + Reach(n));
    r := Search(sqrt, level, target, k, n, least);
  }

  method Search(sqrt: real -> real, level: OneSided, target: real, k: nat, n: nat, ghost least: nat) returns (r: Needed)
    requires IsThreshold(sqrt, level, target, k, n, least) && n <= U64_MAX
    ensures r.Extra? <==> least <= Reach(n)
    ensures r.Extra? ==> r.count == least
    ensures !r.Extra? ==> r == if n == 0 then BracketStuck else SumOverflows
  {
    if Clears(sqrt, level, target, k, n, 0) {
      return Extra(0);
    }
    var high := 1;
    if n + high > U64_MAX {
      return SumOverflows;
    }
    while !Clears(sqrt, level, target, k, n, high)
      invariant 0 < high && n + high <= U64_MAX && high / 2 < least
      invariant LastDoubling(n, high) == Reach(n)
      decreases U64_MAX - high
    {
      if high == U64_MAX {
        return BracketStuck;
      }
      high := SaturatingDouble(high);
      if n + high > U64_MAX {
        return SumOverflows;
      }
    }
    var low := high / 2;
    while high - low > 1
      invariant low < least <= high <= Reach(n)
    {
      var mid := low + (high - low) / 2;
      if Clears(sqrt, level, target, k, n, mid) {
        high := mid;
      } else {
        low := mid;
      }
    }
    return Extra(high);
  }

  /** With as many alerts as can be counted, all of them refuted, the first sum of the search overflows. */
  lemma {:induction false} SearchOverflows(z2: real, target: real)
    requires z2 > 0.0 && 0.0 < target < 1.0
    ensures !FarBelow(z2, target, U64_MAX as real, (U64_MAX + Reach(U64_MAX)) as real)
  {
    AllRefutedIsNotBelow(z2, target, U64_MAX as real, U64_MAX as real);
  }

  /** With no alerts at all, the search gets stuck exactly for targets this small. */
  lemma {:induction false} SearchIsStuckIff(z2: real, target: real)
    requires z2 > 0.0 && 0.0 < target < 1.0
    ensures Reach(0) == U64_MAX
    ensures FarBelow(z2, target, 0.0, (0 + Reach(0)) as real) <==> (U64_MAX as real) * target > z2 * (1.0 - target)
  {
    var d, s := Product(Reach(0) as real, target), Product(z2, 1.0 - target);
    assert IsShortfall(d, target, 0.0, Reach(0) as real);
    ProductPositive(Reach(0) as real, target);
    assert z2 * (Reach(0) as real) * target * (1.0 - target) == s * d;
    assert d * d - s * d == d * (d - s);
    if d > s { ProductPositive(d, d - s); } else { ProductNonneg(d, s - d); }
  }

  lemma {:induction false} OneThreshold(sqrt: real -> real, level: OneSided, target: real, k: nat, n: nat, least: nat)
    requires IsThreshold(sqrt, level, target, k, n, least)
    ensures forall other: nat :: IsThreshold(sqrt, level, target, k, n, other) ==> other == least
  {
    forall other: nat | IsThreshold(sqrt, level, target, k, n, other)
      ensures other == least
    {
      assert Clears(sqrt, level, target, k, n, other) && Clears(sqrt, level, target, k, n, least);
    }
  }

  /** With no refutations at all, the committed 4% target at 95% takes exactly 65 adjudicated alerts. */
  lemma {:induction false} SixtyFiveCleanAlerts(sqrt: real -> real)
    requires IsSqrt(sqrt)
    ensures IsThreshold(sqrt, P95, 0.04, 0, 0, 65)
  {
    Threshold(sqrt, P95, 0.04, 0, 0);
    var least: nat :| IsThreshold(sqrt, P95, 0.04, 0, 0, least);
    UpperUnderIff(sqrt, P95, 0.04, 0, 64);
    UpperUnderIff(sqrt, P95, 0.04, 0, 65);
    assert P95.Z2() == 1.6448536269514722 * 1.6448536269514722;
    assert IsShortfall(64.0 * 0.04, 0.04, 0.0, 64.0) && IsShortfall(65.0 * 0.04, 0.04, 0.0, 65.0);
    assert !Clears(sqrt, P95, 0.04, 0, 0, 64);
    assert Clears(sqrt, P95, 0.04, 0, 0, 65);
  }

  /** No evidence both clears the target and contradicts it. */
  lemma {:induction false} NeverBoth(sqrt: real -> real, level: OneSided, target: real, k: nat, n: nat)
    requires IsSqrt(sqrt) && 0.0 < target < 1.0
    ensures !(UpperUnder(sqrt, level, target, k, n) && LowerOver(sqrt, level, target, k, n))
  {
    UpperUnderIff(sqrt, level, target, k, n);
    LowerOverIff(sqrt, level, target, k, n);
    NotFarBothWays(level.Z2(), target, k as real, Min(k, n) as real, n as real);
  }

  lemma {:induction false} NotFarBothWays(z2: real, t: real, k: real, least: real, n: real)
    requires least <= k
    ensures !(FarBelow(z2, t, k, n) && FarAbove(z2, t, least, n))
  {
    assert IsExcess(least - n * t, t, least, n) && IsShortfall(n * t - k, t, k, n);
  }
}
