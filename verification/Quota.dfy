/** The degraded collector rejects a quota of batches (Bresenham), over exact ratios. */
module Quota {

  /** `shouldRejectBatch`. */
  function Reject(index: nat, ratio: real): bool {
    if ratio <= 0.0 then false
    else if ratio >= 1.0 then true
    else
      var phase := 1.0 - ratio;
      ((index + 1) as real * ratio + phase).Floor > (index as real * ratio + phase).Floor
  }

  /** How many of the first n batches are rejected. */
  function Rejected(n: nat, ratio: real): nat {
    if n == 0 then 0 else Rejected(n - 1, ratio) + if Reject(n - 1, ratio) then 1 else 0
  }

  function Ceil(x: real): int { -((-x).Floor) }

  /** The accumulated quota before batch n. */
  function Level(n: nat, ratio: real): int { (n as real * ratio + (1.0 - ratio)).Floor }

  lemma LevelStep(n: nat, ratio: real)
    requires 0.0 < ratio < 1.0
    ensures Level(n, ratio) <= Level(n + 1, ratio) <= Level(n, ratio) + 1
    ensures Reject(n, ratio) <==> Level(n + 1, ratio) == Level(n, ratio) + 1
  {
    assert (n + 1) as real * ratio == n as real * ratio + ratio;
  }

  lemma {:induction false} RejectedIsLevel(n: nat, ratio: real)
    requires 0.0 < ratio < 1.0
    ensures Rejected(n, ratio) == Level(n, ratio)
  {
    if n == 0 {
      assert 0 as real * ratio == 0.0;
    } else {
      RejectedIsLevel(n - 1, ratio);
      LevelStep(n - 1, ratio);
    }
  }

  /** The counting law. */
  lemma QuotaLaw(n: nat, ratio: real)
    requires 0.0 < ratio < 1.0 && n >= 1
    ensures Rejected(n, ratio) == ((n - 1) as real * ratio).Floor + 1
  {
    RejectedIsLevel(n, ratio);
    assert n as real * ratio == (n - 1) as real * ratio + ratio;
  }

  /** The first batch is always rejected, and the count stays within one of n * ratio. */
  lemma QuotaTight(n: nat, ratio: real)
    requires 0.0 < ratio < 1.0
    ensures Reject(0, ratio)
    ensures -1.0 < Rejected(n, ratio) as real - n as real * ratio < 1.0
  {
    RejectedIsLevel(n, ratio);
    LevelStep(0, ratio);
    assert 0 as real * ratio == 0.0 && 1 as real * ratio == ratio;
  }

  /** A ratio of 0 or less rejects nothing, one of 1 or more everything. */
  lemma {:induction false} QuotaEnds(n: nat, ratio: real)
    ensures ratio <= 0.0 ==> Rejected(n, ratio) == 0
    ensures ratio >= 1.0 ==> Rejected(n, ratio) == n
  {
    if n > 0 { QuotaEnds(n - 1, ratio); }
  }

  lemma CeilIs(x: real, c: int)
    requires (c - 1) as real < x <= c as real
    ensures Ceil(x) == c
  {
  }

  predicate IsUnitFraction(ratio: real, k: nat) { k as real * ratio == 1.0 }

  lemma Scaled(a: real, b: real, c: real)
    requires c > 0.0 && a < b
    ensures a * c < b * c
  {
    assert (b - a) * c > 0.0;
  }

  lemma Decompose(q: nat, k: nat, rem: nat, ratio: real)
    requires IsUnitFraction(ratio, k)
    ensures (q * k + rem) as real * ratio == q as real + rem as real * ratio
  {
    assert (q * k) as real == q as real * k as real;
    assert (q as real * k as real) * ratio == q as real * (k as real * ratio);
    assert ((q * k) as real + rem as real) * ratio == (q * k) as real * ratio + rem as real * ratio;
  }

  lemma FloorIs(x: real, c: int)
    requires c as real <= x < (c + 1) as real
    ensures x.Floor == c
  {
  }

  /** With 1/ratio = k, less than k steps stay under one whole. */
  lemma Part(rem: nat, k: nat, ratio: real)
    requires 0.0 < ratio && IsUnitFraction(ratio, k) && rem < k
    ensures 0.0 <= rem as real * ratio < 1.0
    ensures 0.0 < (rem + 1) as real * ratio <= 1.0
  {
    PartOf(0.0, rem as real, k as real, ratio);
    PartOf(rem as real, (rem + 1) as real, k as real, ratio);
  }

  lemma PartOf(low: real, mid: real, high: real, ratio: real)
    requires 0.0 < ratio && 0.0 <= low <= mid <= high && high * ratio == 1.0
    ensures 0.0 <= low * ratio <= mid * ratio <= 1.0
    ensures low < mid ==> low * ratio < mid * ratio
    ensures mid < high ==> mid * ratio < 1.0
  {
    ScaledAtMost(0.0, low, ratio);
    ScaledAtMost(low, mid, ratio);
    ScaledAtMost(mid, high, ratio);
    if low < mid { Scaled(low, mid, ratio); }
    if mid < high { Scaled(mid, high, ratio); }
  }

  lemma Between(n: nat, k: nat, ratio: real) returns (q: nat)
    requires 0.0 < ratio < 1.0 && n >= 1 && IsUnitFraction(ratio, k)
    ensures q as real <= (n - 1) as real * ratio < (q + 1) as real
    ensures q as real < n as real * ratio <= (q + 1) as real
  {
    assert k > 0;
    q := (n - 1) / k;
    var rem := (n - 1) % k;
    assert n - 1 == q * k + rem;
    Decompose(q, k, rem, ratio);
    Decompose(q, k, rem + 1, ratio);
    Part(rem, k, ratio);
  }

  lemma CeilWhenUnitFraction(n: nat, k: nat, ratio: real)
    requires 0.0 < ratio < 1.0 && n >= 1 && IsUnitFraction(ratio, k)
    ensures Rejected(n, ratio) == Ceil(n as real * ratio)
  {
    QuotaLaw(n, ratio);
    var q := Between(n, k, ratio);
    FloorIs((n - 1) as real * ratio, q);
    CeilIs(n as real * ratio, q + 1);
  }

  /** The batch at which a ratio that is no unit fraction falls behind the ceiling. */
  lemma FallsBehind(ratio: real) returns (n: nat)
    requires 0.0 < ratio < 1.0 && forall k: nat :: !IsUnitFraction(ratio, k)
    ensures n >= 1 && Rejected(n, ratio) == 1 < Ceil(n as real * ratio)
  {
    var k := Recip(ratio);
    assert !IsUnitFraction(ratio, k);
    BehindAfter(k, ratio);
    n := k + 1;
  }

  lemma BehindAfter(k: nat, ratio: real)
    requires 0.0 < ratio < 1.0 && AtMostOne(k, ratio) && !IsUnitFraction(ratio, k) && !AtMostOne(k + 1, ratio)
    ensures Rejected(k + 1, ratio) == 1 < Ceil((k + 1) as real * ratio)
  {
    NotNegative(k, ratio);
    QuotaLaw(k + 1, ratio);
    FloorIs(k as real * ratio, 0);
  }

  lemma NotNegative(k: nat, ratio: real)
    requires ratio > 0.0
    ensures k as real * ratio >= 0.0
  {
  }

  predicate AtMostOne(k: nat, ratio: real) { k as real * ratio <= 1.0 }

  /** The last k with k * ratio <= 1. */
  lemma Recip(ratio: real) returns (k: nat)
    requires ratio > 0.0
    ensures AtMostOne(k, ratio) && !AtMostOne(k + 1, ratio)
  {
    var u := Inverse(ratio);
    k := FloorOf(u);
    Bracket(k as real, u, (k + 1) as real, ratio);
  }

  lemma FloorOf(u: real) returns (k: nat)
    requires u > 0.0
    ensures k as real <= u < (k + 1) as real
  {
    k := u.Floor;
  }

  lemma Bracket(low: real, u: real, high: real, ratio: real)
    requires ratio > 0.0 && low <= u < high
    ensures low * ratio <= u * ratio < high * ratio
  {
    ScaledAtMost(low, u, ratio);
    Scaled(u, high, ratio);
  }

  lemma ScaledAtMost(a: real, b: real, c: real)
    requires c > 0.0 && a <= b
    ensures a * c <= b * c
  {
    assert (b - a) * c >= 0.0;
  }

  lemma Inverse(ratio: real) returns (u: real)
    requires ratio > 0.0
    ensures u > 0.0 && u * ratio == 1.0
  {
    u := 1.0 / ratio;
  }

  /** "ceil(n * ratio) batches in a run of any size" holds exactly for the ratios 1/k. */
  lemma CeilingIffUnitFraction(ratio: real)
    requires 0.0 < ratio < 1.0
    ensures (forall n: nat :: n >= 1 ==> Rejected(n, ratio) == Ceil(n as real * ratio))
            <==> (exists k: nat :: IsUnitFraction(ratio, k))
  {
    if k: nat :| IsUnitFraction(ratio, k) {
      forall n: nat | n >= 1 ensures Rejected(n, ratio) == Ceil(n as real * ratio) {
        CeilWhenUnitFraction(n, k, ratio);
      }
    } else {
      var n := FallsBehind(ratio);
    }
  }

  /** The default ratio rejects the ceiling; 0.4 does not: one of the first three, not two. */
  lemma DefaultAndCounterexample(n: nat)
    requires n >= 1
    ensures Rejected(n, 0.2) == Ceil(n as real * 0.2)
    ensures Rejected(3, 0.4) == 1 && Ceil(3 as real * 0.4) == 2
  {
    assert IsUnitFraction(0.2, 5);
    CeilWhenUnitFraction(n, 5, 0.2);
    QuotaLaw(3, 0.4);
    CeilIs(3 as real * 0.4, 2);
  }
}
