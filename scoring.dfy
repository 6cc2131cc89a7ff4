/** The season point curve: the points one rank earns (`calculatePoint`),
    the label shown beside a rank input, and the rounding of the total.
    Every branch of the curve is rational arithmetic, so `real` models it
    exactly; the tier `ceil(log10(p))` is the least `t` with `p <= 10^t`. */
module Scoring {

  function Pow10(t: nat): (r: nat)
    ensures r >= 1
  {
    if t == 0 then 1 else 10 * Pow10(t - 1)
  }

  function Pow2(t: nat): (r: nat)
    ensures r >= 1
  {
    if t == 0 then 1 else 2 * Pow2(t - 1)
  }

  lemma {:induction false} Pow10Monotone(s: nat, t: nat)
    requires s <= t
    ensures Pow10(s) <= Pow10(t)
  {
    if s < t {
      Pow10Monotone(s, t - 1);
    }
  }

  /** The decimal order of magnitude of a positive rank, `ceil(log10(p))`:
      the least `t` such that `p <= 10^t`. */
  function Tier(p: nat): (t: nat)
    requires p >= 1
    ensures p <= Pow10(t)
    ensures t > 0 ==> Pow10(t - 1) < p
  {
    if p == 1 then 0 else 1 + Tier((p + 9) / 10)
  }

  /** The tier is the least exponent that bounds the rank. */
  lemma TierLeast(p: nat, t: nat)
    requires p >= 1
    ensures p <= Pow10(t) <==> Tier(p) <= t
  {
    if Tier(p) <= t {
      Pow10Monotone(Tier(p), t);
    } else {
      Pow10Monotone(t, Tier(p) - 1);
    }
  }

  lemma TierMonotone(p: nat, q: nat)
    requires 1 <= p <= q
    ensures Tier(p) <= Tier(q)
  {
    TierLeast(p, Tier(q));
  }

  /** The points of the first rank of a tier from 2 on. */
  function BasePoints(tier: nat): (r: real)
    requires tier >= 1
    ensures 0.0 < r <= 4000.0
  {
    4000.0 / Pow2(tier - 1) as real
  }

  /** Between 1 and 1.9: how far into its tier a rank lies. */
  function RankMultiplier(tier: nat, p: nat): real
    requires tier >= 1 && p >= 1
  {
    Pow10(tier - 1) as real / p as real + 0.9
  }

  /** `calculatePoint`: a blank or zero rank earns nothing, ranks of tier
      0 and 1 (1 to 10) earn 40000 / p, tiers 2 to 6 follow the halving
      curve, and every rank beyond one million earns nothing. */
  function CalculatePoint(p: nat): real {
    if p == 0 then 0.0
    else
      var tier := Tier(p);
      if tier < 2 then 40000.0 / p as real
      else if tier < 7 then HalvingCurve(tier, p)
      else 0.0
  }

  /** The score of a rank in tiers 2 to 6: the tier's base points scaled by
      the rank multiplier. */
  function HalvingCurve(tier: nat, p: nat): real
    requires tier >= 1 && p >= 1
  {
    BasePoints(tier) * RankMultiplier(tier, p)
  }

  lemma TierSmall(p: nat)
    requires p >= 1
    ensures Tier(p) < 2 <==> p <= 10
  {
    TierLeast(p, 1);
  }

  lemma TierLarge(p: nat)
    requires p >= 1
    ensures Tier(p) < 7 <==> p <= 1000000
  {
    TierLeast(p, 6);
  }

  /** A falsy rank and every rank beyond one million score nothing. */
  lemma ZeroCases(p: nat)
    ensures p == 0 || p > 1000000 ==> CalculatePoint(p) == 0.0
  {
    if p > 0 {
      TierLarge(p);
    }
  }

  /** Ranks 1 to 10 score 40000 / p. */
  lemma LowRanks(p: nat)
    requires 1 <= p <= 10
    ensures CalculatePoint(p) == 40000.0 / p as real
    ensures p == 1 ==> CalculatePoint(p) == 40000.0
    ensures p == 10 ==> CalculatePoint(p) == 4000.0
  {
    TierSmall(p);
  }

  /** Ranks 11 to one million lie in tiers 2 to 6 and follow the halving curve. */
  lemma MiddleRanks(p: nat)
    requires 11 <= p <= 1000000
    ensures 2 <= Tier(p) <= 6
    ensures CalculatePoint(p) == HalvingCurve(Tier(p), p)
  {
    TierSmall(p);
    TierLarge(p);
  }

  lemma {:induction false} TierOfPower(t: nat)
    ensures Tier(Pow10(t)) == t
  {
    TierLeast(Pow10(t), t);
    if t > 0 {
      TierLeast(Pow10(t), t - 1);
      Pow10Monotone(t - 1, t);
      assert Pow10(t - 1) < Pow10(t);
    }
  }

  /** The last rank of a tier, 10^t, earns exactly the base points of that tier. */
  lemma TierTop(t: nat)
    requires 2 <= t <= 6
    ensures CalculatePoint(Pow10(t)) == BasePoints(t)
  {
    TierOfPower(t);
    MultiplierAtTop(t);
  }

  lemma MultiplierAtTop(t: nat)
    requires t >= 1
    ensures RankMultiplier(t, Pow10(t)) == 1.0
  {
    TenthOf(Pow10(t - 1), Pow10(t));
  }

  lemma TenthOf(k: nat, n: nat)
    requires k >= 1 && n == 10 * k
    ensures k as real / n as real == 0.1
  {
    Tenth(k as real, n as real);
  }

  /** Rank 100, the last of tier 2, earns 2000 points. */
  lemma HundredthRank()
    ensures CalculatePoint(100) == 2000.0
  {
    assert Pow10(2) == 100;
    TierTop(2);
  }

  /** Rank one million, the last that scores, earns 125 points. */
  lemma MillionthRank()
    ensures CalculatePoint(1000000) == 125.0
  {
    assert Pow10(6) == 1000000;
    assert Pow2(5) == 32;
    TierTop(6);
  }

  lemma BaseHalves(t: nat)
    requires t >= 1
    ensures BasePoints(t + 1) * 2.0 == BasePoints(t)
  {
    assert Pow2(t) == 2 * Pow2(t - 1);
    Halve(4000.0, Pow2(t - 1) as real);
  }

  lemma {:induction false} BaseAntitone(s: nat, t: nat)
    requires 1 <= s < t
    ensures BasePoints(t) * 2.0 <= BasePoints(s)
  {
    BaseHalves(t - 1);
    if s < t - 1 {
      BaseAntitone(s, t - 1);
    }
  }

  // Facts of real arithmetic, each kept apart so that the solver sees
  // nothing but the reals involved.

  lemma MulStrict(a: real, b: real, k: real)
    requires a < b && k > 0.0
    ensures a * k < b * k
  {
  }

  lemma Tenth(c: real, d: real)
    requires c > 0.0 && d == 10.0 * c
    ensures c / d == 0.1
  {
    assert 0.1 * d == c;
  }

  lemma Halve(a: real, b: real)
    requires b > 0.0
    ensures a / (2.0 * b) * 2.0 == a / b
  {
    var h := a / (2.0 * b);
    assert h * (2.0 * b) == a;
    assert (h * 2.0) * b == a;
  }

  lemma AtLeastTenth(r: real, p: real, c: real)
    requires r * p == c && 0.0 < p <= 10.0 * c
    ensures 0.1 <= r
  {
    if r < 0.1 {
      MulStrict(r, 0.1, p);
    }
  }

  lemma BelowOne(r: real, p: real, c: real)
    requires r * p == c && 0.0 < c < p
    ensures r < 1.0
  {
    if r > 1.0 {
      MulStrict(1.0, r, p);
    }
  }

  lemma Smaller(x: real, q: real, y: real, p: real, c: real)
    requires x * q == c && y * p == c && 0.0 < c && 0.0 < p < q
    ensures x < y
  {
    if y <= 0.0 {
      if y < 0.0 {
        MulStrict(y, 0.0, p);
      }
    } else if x >= y {
      MulStrict(p, q, y);
      if x > y {
        MulStrict(y, x, q);
      }
    }
  }

  lemma RatioBounds(c: real, p: real)
    requires 0.0 < c < p <= 10.0 * c
    ensures 0.1 <= c / p < 1.0
  {
    var r := c / p;
    assert r * p == c;
    AtLeastTenth(r, p, c);
    BelowOne(r, p, c);
  }

  lemma ScaleBounds(b: real, m: real)
    requires b > 0.0 && 1.0 <= m < 1.9
    ensures b <= b * m < 1.9 * b
  {
    MulStrict(m, 1.9, b);
    if m > 1.0 {
      MulStrict(1.0, m, b);
    }
  }

  lemma RatioStrict(c: real, p: real, q: real)
    requires 0.0 < c && 0.0 < p < q
    ensures c / q < c / p
  {
    var x, y := c / q, c / p;
    assert x * q == c;
    assert y * p == c;
    Smaller(x, q, y, p, c);
  }

  /** Inside a tier the multiplier lies in [1, 1.9), so the curve lies
      between the base points and 1.9 times them. */
  lemma CurveBounds(t: nat, p: nat)
    requires t >= 1 && Pow10(t - 1) < p <= Pow10(t)
    ensures BasePoints(t) <= HalvingCurve(t, p) < 1.9 * BasePoints(t)
  {
    var c := Pow10(t - 1);
    assert Pow10(t) == 10 * c;
    RatioBounds(c as real, p as real);
    ScaleBounds(BasePoints(t), RankMultiplier(t, p));
  }

  /** With the tier fixed, the curve falls strictly as the rank grows. */
  lemma CurveFalls(t: nat, p: nat, q: nat)
    requires t >= 1 && 1 <= p < q
    ensures HalvingCurve(t, q) < HalvingCurve(t, p)
  {
    var c := Pow10(t - 1) as real;
    RatioStrict(c, p as real, q as real);
    MulStrict(RankMultiplier(t, q), RankMultiplier(t, p), BasePoints(t));
  }

  /** Inside tiers 2 to 6 a rank scores at least the base points of its
      tier and less than 1.9 times them. */
  lemma MiddleBounds(p: nat)
    requires 11 <= p <= 1000000
    ensures 2 <= Tier(p) <= 6
    ensures BasePoints(Tier(p)) <= CalculatePoint(p) < 1.9 * BasePoints(Tier(p))
  {
    MiddleRanks(p);
    CurveBounds(Tier(p), p);
  }

  /** Ranks 1 to 10 score at least 4000. */
  lemma LowBound(p: nat)
    requires 1 <= p <= 10
    ensures CalculatePoint(p) >= 4000.0
  {
    LowRanks(p);
    RatioStrict(40000.0, p as real, 11.0);
  }

  /** Every rank from 1 to one million earns a strictly positive score. */
  lemma Positive(p: nat)
    requires 1 <= p <= 1000000
    ensures CalculatePoint(p) > 0.0
  {
    if p <= 10 {
      LowBound(p);
    } else {
      MiddleBounds(p);
    }
  }

  /** Within one middle tier the score strictly falls as the rank grows. */
  lemma SameTier(p: nat, q: nat)
    requires 11 <= p < q <= 1000000 && Tier(p) == Tier(q)
    ensures CalculatePoint(q) < CalculatePoint(p)
  {
    MiddleRanks(p);
    MiddleRanks(q);
    CurveFalls(Tier(p), p, q);
  }

  /** The curve falls strictly on 1..1000000, across tier boundaries too,
      and never rises anywhere on the positive ranks. */
  lemma Monotone(p: nat, q: nat)
    requires 1 <= p < q
    ensures CalculatePoint(q) <= CalculatePoint(p)
    ensures q <= 1000000 ==> CalculatePoint(q) < CalculatePoint(p)
  {
    if q > 1000000 {
      ZeroCases(q);
      if p <= 1000000 {
        Positive(p);
      } else {
        ZeroCases(p);
      }
    } else if q <= 10 {
      LowRanks(p);
      LowRanks(q);
      RatioStrict(40000.0, p as real, q as real);
    } else {
      TierMonotone(p, q);
      MiddleBounds(q);
      if p <= 10 {
        // q has left the 40000 / p branch: at most 1.9 * 2000 < 4000
        LowBound(p);
        BaseAntitone(1, Tier(q));
      } else if Tier(p) == Tier(q) {
        SameTier(p, q);
      } else {
        // q lies in a later tier: at most 1.9 / 2 of the base points of p's tier
        MiddleBounds(p);
        BaseAntitone(Tier(p), Tier(q));
      }
    }
  }

  /** Every rank scores between 0 and 40000 points, and strictly more
      than 0 exactly when it lies in 1..1000000. */
  lemma PointRange(p: nat)
    ensures 0.0 <= CalculatePoint(p) <= 40000.0
    ensures CalculatePoint(p) > 0.0 <==> 1 <= p <= 1000000
  {
    ZeroCases(p);
    if p >= 1 {
      LowRanks(1);
      if p > 1 {
        Monotone(1, p);
      }
      if p <= 1000000 {
        Positive(p);
      }
    }
  }

  /** `Math.round`: the nearest integer, halves rounded up. */
  function Round(x: real): (r: int)
    ensures x - 0.5 < r as real <= x + 0.5
  {
    (x + 0.5).Floor
  }

  /** The label shown beside a rank input: the score truncated to an
      integer, or blank when that integer is 0. */
  function LabelOf(score: real): (r: nat)
    requires score >= 0.0
    ensures r as real <= score < r as real + 1.0
  {
    score.Floor
  }
}
