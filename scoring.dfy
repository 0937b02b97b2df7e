/**
 * The relevance score of a memory (interpreter/tools/memory.py): a weighted
 * sum of a recency signal that decays hyperbolically with age and a
 * frequency signal that saturates at ten accesses.  Timestamps are whole
 * seconds; scores are exact reals (no floating-point rounding).
 */
module Scoring {

  /** DEFAULT_SHORT_TERM_CAPACITY is in ShortTerm; these are the four policy constants. */
  const ShortTermDecayHours: real := 24.0
  const MemoryHalfLifeDays: real := 30.0
  const RecencyWeight: real := 0.7
  const FrequencyWeight: real := 0.3

  const SecondsPerHour: int := 3600
  const SecondsPerDay: int := 86400

  /** `now - timedelta(days=days)`, in whole seconds. */
  function DaysBefore(now: int, days: int): int
  {
    now - days * SecondsPerDay
  }

  function Min(a: real, b: real): real { if a <= b then a else b }

  /** `(now - created_at).total_seconds() / 3600` for an age in seconds. */
  function AgeHours(ageSeconds: int): real
  {
    ageSeconds as real / SecondsPerHour as real
  }

  /** The hyperbolic decay `1 / (1 + x)` both tiers use, `x` being age over the characteristic time. */
  function Decay(x: real): real
    requires 1.0 + x != 0.0
  {
    1.0 / (1.0 + x)
  }

  /** Decay is 1 at x = 0, stays in (0, 1] for x >= 0 and strictly decreases there. */
  lemma DecayBounds(x1: real, x2: real)
    requires 0.0 <= x1 <= x2
    ensures 0.0 < Decay(x2) <= Decay(x1) <= 1.0
    ensures x1 < x2 ==> Decay(x2) < Decay(x1)
    ensures x1 == 0.0 ==> Decay(x1) == 1.0
  {
    var d1, d2 := 1.0 + x1, 1.0 + x2;
    var r1, r2 := Decay(x1), Decay(x2);
    DecayInverse(x1);
    DecayInverse(x2);
    if x1 < x2 {
      MultiplyStrict(r2, d1, d2);
      calc {
        r2 * d1;
      <
        r2 * d2;
      ==
        1.0;
      ==
        r1 * d1;
      }
      DivideOutPositive(r2, r1, d1);
    } else {
      assert r1 == r2;
    }
  }

  /** For a positive denominator, the decay is positive and inverts it. */
  lemma DecayInverse(x: real)
    requires 1.0 + x > 0.0
    ensures Decay(x) * (1.0 + x) == 1.0 && Decay(x) > 0.0
  {
  }

  lemma MultiplyStrict(r: real, a: real, b: real)
    requires r > 0.0 && a < b
    ensures r * a < r * b
  {
  }

  /** The recency denominator is non-zero: Python raises ZeroDivisionError otherwise. */
  predicate RecencyDefined(ageHours: real)
  {
    1.0 + ageHours / ShortTermDecayHours != 0.0
  }

  /** `1.0 / (1.0 + age_hours / SHORT_TERM_DECAY_HOURS)`. */
  function Recency(ageHours: real): real
    requires RecencyDefined(ageHours)
  {
    Decay(ageHours / ShortTermDecayHours)
  }

  /** `min(access_count / 10.0, 1.0)`. */
  function Frequency(accessCount: int): real
  {
    Min(accessCount as real / 10.0, 1.0)
  }

  /** `RECENCY_WEIGHT * recency + FREQUENCY_WEIGHT * frequency`. */
  function Combined(recency: real, frequency: real): real
  {
    RecencyWeight * recency + FrequencyWeight * frequency
  }

  /** Only a record exactly one decay period in the future cannot be scored. */
  lemma RecencyDefinedIff(ageSeconds: int)
    ensures RecencyDefined(AgeHours(ageSeconds)) <==> ageSeconds != -SecondsPerDay
  {
  }

  /** The short-term score of a record of the given age and access count. */
  function ShortTermScore(ageSeconds: int, accessCount: int): real
    requires RecencyDefined(AgeHours(ageSeconds))
  {
    Combined(Recency(AgeHours(ageSeconds)), Frequency(accessCount))
  }

  /** Recency is 1 for a brand-new record and lies in (0, 1] for any age >= 0. */
  lemma RecencyBounds(ageHours: real)
    requires ageHours >= 0.0
    ensures RecencyDefined(ageHours)
    ensures 0.0 < Recency(ageHours) <= 1.0
    ensures ageHours == 0.0 ==> Recency(ageHours) == 1.0
  {
    DecayBounds(ageHours / ShortTermDecayHours, ageHours / ShortTermDecayHours);
  }

  /** Recency strictly decreases as age grows. */
  lemma RecencyStrictlyDecreasing(h1: real, h2: real)
    requires 0.0 <= h1 < h2
    ensures RecencyDefined(h1) && RecencyDefined(h2)
    ensures Recency(h1) > Recency(h2)
  {
    DecayBounds(h1 / ShortTermDecayHours, h2 / ShortTermDecayHours);
  }

  /** Cancelling a positive factor preserves a strict inequality. */
  lemma DivideOutPositive(a: real, b: real, d: real)
    requires d > 0.0 && a * d < b * d
    ensures a < b
  {
  }

  /** Frequency lies in (0, 1] for any stored record (access count >= 1). */
  lemma FrequencyBounds(accessCount: int)
    requires accessCount >= 1
    ensures 0.0 < Frequency(accessCount) <= 1.0
    ensures accessCount >= 10 ==> Frequency(accessCount) == 1.0
  {
  }

  /** Frequency never decreases with the access count, and grows strictly below the cap. */
  lemma FrequencyMonotone(c1: int, c2: int)
    requires c1 <= c2
    ensures Frequency(c1) <= Frequency(c2)
    ensures c1 < c2 <= 10 ==> Frequency(c1) < Frequency(c2)
  {
  }

  /** The combined score of a stored record lies in (0.03, 1]. */
  lemma ShortTermScoreBounds(ageSeconds: int, accessCount: int)
    requires ageSeconds >= 0 && accessCount >= 1
    ensures RecencyDefined(AgeHours(ageSeconds))
    ensures 0.03 < ShortTermScore(ageSeconds, accessCount) <= 1.0
    ensures ageSeconds == 0 && accessCount >= 10 ==> ShortTermScore(ageSeconds, accessCount) == 1.0
  {
    RecencyBounds(AgeHours(ageSeconds));
    FrequencyBounds(accessCount);
  }

  /**
   * Monotonicity of the score in each signal: with equal access counts the
   * younger record scores strictly higher; with equal ages the more
   * frequently accessed one scores at least as high.
   */
  lemma ShortTermScoreMonotone(age1: int, count1: int, age2: int, count2: int)
    requires 0 <= age1 && 0 <= age2
    ensures RecencyDefined(AgeHours(age1)) && RecencyDefined(AgeHours(age2))
    ensures count1 == count2 && age1 < age2 ==> ShortTermScore(age1, count1) > ShortTermScore(age2, count2)
    ensures age1 == age2 && count1 >= count2 ==> ShortTermScore(age1, count1) >= ShortTermScore(age2, count2)
  {
    RecencyBounds(AgeHours(age1));
    RecencyBounds(AgeHours(age2));
    if age1 < age2 {
      RecencyStrictlyDecreasing(AgeHours(age1), AgeHours(age2));
    }
    if count1 >= count2 {
      FrequencyMonotone(count2, count1);
    }
  }

  // ---------------------------------------------------------------------------
  // The persistent tier computes the same shape server-side, in days since the
  // last access, with MEMORY_HALF_LIFE_DAYS as the characteristic time.

  predicate LongTermRecencyDefined(ageSeconds: int)
  {
    1.0 + ageSeconds as real / SecondsPerDay as real / MemoryHalfLifeDays != 0.0
  }

  /** `1.0 / (1.0 + EXTRACT(EPOCH FROM (now - last_accessed)) / 86400 / $3)`. */
  function LongTermRecency(ageSeconds: int): real
    requires LongTermRecencyDefined(ageSeconds)
  {
    Decay(ageSeconds as real / SecondsPerDay as real / MemoryHalfLifeDays)
  }

  /** `$1 * recency + $2 * LEAST(access_count / 10.0, 1.0)`. */
  function LongTermScore(ageSeconds: int, accessCount: int): real
    requires LongTermRecencyDefined(ageSeconds)
  {
    Combined(LongTermRecency(ageSeconds), Frequency(accessCount))
  }

  /** The long-term recency also lies in (0, 1] and strictly decays with time since last use. */
  lemma LongTermRecencyBounds(age1: int, age2: int)
    requires 0 <= age1 < age2
    ensures LongTermRecencyDefined(age1) && LongTermRecencyDefined(age2)
    ensures 0.0 < LongTermRecency(age2) < LongTermRecency(age1) <= 1.0
    ensures age1 == 0 ==> LongTermRecency(age1) == 1.0
  {
    DecayBounds(age1 as real / SecondsPerDay as real / MemoryHalfLifeDays,
                age2 as real / SecondsPerDay as real / MemoryHalfLifeDays);
  }

}
