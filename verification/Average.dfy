// The clamped, truncated moving average of the time one token takes.
module Average {
  import opened Arith
  import opened Shmem
  import opened FairShare

  const DEFAULT_ALPHA: real := 0.7

  /** The new sample, kept within a quarter and four times the current average. */
  function ClampSample(cur: nat, sample: nat): nat {
    Clamp(sample, Max(cur / 4, 1), Max(Min(cur * 4, U64 - 1), 1))
  }

  function Blend(cur: nat, sample: nat, alpha: real): int {
    (Times(cur as real, 1.0 - alpha) + Times(sample as real, alpha)).Floor
  }

  /** The average after measuring `duration` for `tokens` tokens. */
  function NextAvg(cur: nat, duration: nat, tokens: nat, alpha: real): int {
    if tokens == 0 then cur else Blend(cur, ClampSample(cur, duration / tokens), alpha)
  }

  lemma BlendValue(cur: nat, sample: nat, alpha: real)
    ensures Times(cur as real, 1.0 - alpha) + Times(sample as real, alpha)
         == cur as real + Times((sample - cur) as real, alpha)
         == sample as real - Times((sample - cur) as real, 1.0 - alpha)
  {
  }

  /** The blend lies between its arguments, moves off the current value downwards at once, and
      upwards exactly when the weighted gap is a whole unit; it never lands on a higher sample. */
  lemma BlendBetween(cur: nat, sample: nat, alpha: real)
    requires 0.0 < alpha < 1.0
    ensures var r := Blend(cur, sample, alpha);
            && (sample == cur ==> r == cur)
            && (sample < cur ==> sample <= r < cur)
            && (cur < sample ==> cur <= r < sample && (r == cur <==> Times((sample - cur) as real, alpha) < 1.0))
  {
    hide Times;
    BlendValue(cur, sample, alpha);
    TimesUnit(alpha);
    TimesUnit(1.0 - alpha);
    var gap := (sample - cur) as real;
    if sample < cur {
      TimesStrict(gap, 0.0, alpha);
      TimesStrict(gap, 0.0, 1.0 - alpha);
    } else if cur < sample {
      TimesStrict(0.0, gap, alpha);
      TimesStrict(0.0, gap, 1.0 - alpha);
    }
  }

  /** How far one measurement moves the average: it keeps the weighted part of its distance to the
      sample, rounded down. */
  lemma BlendDistance(cur: nat, sample: nat, alpha: real)
    requires 0.0 < alpha < 1.0
    ensures var left := Times((cur - sample) as real, 1.0 - alpha);
            (Blend(cur, sample, alpha) - sample) as real <= left < (Blend(cur, sample, alpha) - sample) as real + 1.0
  {
    hide Times;
    BlendValue(cur, sample, alpha);
    TimesSum(0.0, (sample - cur) as real, 1.0 - alpha);
    TimesUnit(1.0 - alpha);
  }

  /** What one measurement does: nothing without tokens; else the sample is the whole microseconds per
      token, kept within a quarter and four times the average, and the new average is the sample plus
      the weighted part of the old distance to it, rounded down. */
  lemma MeasurementMoves(cur: nat, duration: nat, tokens: nat, alpha: real)
    requires 0.0 < alpha < 1.0 && 1 <= cur && 4 * cur < U64
    ensures tokens == 0 ==> NextAvg(cur, duration, tokens, alpha) == cur
    ensures tokens > 0 ==>
              var m, lo := duration / tokens, Max(cur / 4, 1);
              var t := if m < lo then lo else if m > 4 * cur then 4 * cur else m;
              var over := (NextAvg(cur, duration, tokens, alpha) - t) as real;
              over <= Times((cur - t) as real, 1.0 - alpha) < over + 1.0
  {
    hide Blend, Times;
    if tokens > 0 {
      BlendDistance(cur, ClampSample(cur, duration / tokens), alpha);
    }
  }

  /** One measurement moves the average by no more than a factor of four, down or up. */
  lemma SwingBounded(cur: nat, duration: nat, tokens: nat, alpha: real)
    requires 0.0 < alpha < 1.0 && 1 <= cur && 4 * cur < U64
    ensures cur / 4 <= NextAvg(cur, duration, tokens, alpha) <= 4 * cur
  {
    hide Blend;
    if tokens > 0 {
      BlendBetween(cur, ClampSample(cur, duration / tokens), alpha);
    }
  }

  /** The average after a series of (duration, tokens) measurements. */
  function AvgAfter(cur: nat, updates: seq<(nat, nat)>, alpha: real): int
    decreases |updates|
  {
    if updates == [] then cur else
      var next := NextAvg(cur, updates[0].0, updates[0].1, alpha);
      if next < 0 then next else AvgAfter(next, updates[1..], alpha)
  }

  /** Measurements of at most `m` microseconds per token keep the average within [1, m]. */
  lemma {:induction false} AvgStays(cur: nat, updates: seq<(nat, nat)>, alpha: real, m: nat)
    requires 0.0 < alpha < 1.0 && 1 <= cur <= m < U64
    requires forall u :: u in updates && u.1 > 0 ==> u.0 / u.1 <= m
    ensures 1 <= AvgAfter(cur, updates, alpha) <= m
    decreases |updates|
  {
    hide Blend;
    if updates != [] {
      var u := updates[0];
      if u.1 > 0 {
        BlendBetween(cur, ClampSample(cur, u.0 / u.1), alpha);
      }
      AvgStays(NextAvg(cur, u.0, u.1, alpha), updates[1..], alpha, m);
    }
  }

  /** How long the manager waits for reports: at least half a second, or a quarter of the limit and
      ten milliseconds. */
  function Grace(plan: Plan): nat {
    Max(500_000, plan.timeLimit / 4 + 10_000)
  }

  /** Over every run whose measured token times are at most `m`, the budget product, the time
      limit, the grace period and the saturating multiplication stay inside u64, and the limit is
      one and a half budgets and 50 ms. */
  lemma NoOverflow(updates: seq<(nat, nat)>, alpha: real, m: nat, anchor: nat, prio: real, scale: real, fixed: bool)
    requires 0.0 < alpha < 1.0 && Max(DEFAULT_AVG_US, m) <= MAX_AVG_US
    requires forall u :: u in updates && u.1 > 0 ==> u.0 / u.1 <= m
    ensures var avg := AvgAfter(DEFAULT_AVG_US, updates, alpha);
            && 1 <= avg <= Max(DEFAULT_AVG_US, m)
            && var plan := MakePlan(anchor, avg, prio, scale, fixed);
               plan.expectedRun == plan.tokens * avg < U64 && plan.timeLimit < U64 && Grace(plan) < U64
               && MIN_TOKENS <= plan.tokens <= MAX_TOKENS
               && Grace(plan) >= 500_000 && plan.timeLimit < 4 * (Grace(plan) - 10_000) + 4
               && (Grace(plan) > 500_000 ==> 4 * (Grace(plan) - 10_000) <= plan.timeLimit)
               && 3 * plan.expectedRun - 1 <= 2 * (plan.timeLimit - 50_000) <= 3 * plan.expectedRun
  {
    hide RawTokens, Scaled, RestWait;
    var top := Max(DEFAULT_AVG_US, m);
    AvgStays(DEFAULT_AVG_US, updates, alpha, top);
    var avg := AvgAfter(DEFAULT_AVG_US, updates, alpha);
    var t := MakePlan(anchor, avg, prio, scale, fixed).tokens;
    BudgetFits(t, avg);
    MulMono(t, 2_000_000, avg, 6_000_000_000_000);
  }

  // ----- a constant measurement -----

  function Smooth(cur: nat, m: nat, alpha: real): int {
    NextAvg(cur, m, 1, alpha)
  }

  /** For every weight: from above the average falls strictly without passing `m`; at `m` it stays;
      from below it never falls and never reaches `m`, and it stalls exactly when the weighted
      clamped gap is below one unit. */
  lemma SmoothStep(cur: nat, m: nat, alpha: real)
    requires 0.0 < alpha < 1.0 && cur >= 1 && 1 <= m < U64
    ensures var r := Smooth(cur, m, alpha);
            && (m < cur ==> m <= r < cur)
            && (m == cur ==> r == m)
            && (cur < m ==> cur <= r < m && (r == cur <==> Times((Min(m, 4 * cur) - cur) as real, alpha) < 1.0))
  {
    hide Times, Blend;
    assert m / 1 == m;
    BlendBetween(cur, ClampSample(cur, m), alpha);
  }

  function Steps(cur: nat, m: nat, alpha: real, n: nat): int
    decreases n
  {
    if n == 0 then cur else
      var next := Smooth(cur, m, alpha);
      if next < 0 then next else Steps(next, m, alpha, n - 1)
  }

  ghost function Limit(cur: nat, m: nat): int {
    if cur >= m then m else m - 1
  }

  lemma DefaultStep(cur: nat, m: nat)
    requires cur >= 1 && 1 <= m < U64
    ensures var r := Smooth(cur, m, DEFAULT_ALPHA);
            && r >= 1 && Limit(r, m) == Limit(cur, m)
            && (cur == Limit(cur, m) ==> r == cur)
            && (cur > Limit(cur, m) ==> m <= r < cur)
            && (cur < Limit(cur, m) ==> cur < r < m)
  {
    SmoothStep(cur, m, DEFAULT_ALPHA);
  }

  // ----- how fast -----

  function Pow(x: real, n: nat): real {
    if n == 0 then 1.0 else Times(x, Pow(x, n - 1))
  }

  lemma {:induction false} PowPositive(x: real, n: nat)
    requires x > 0.0
    ensures Pow(x, n) > 0.0
  {
    hide Times;
    if n > 0 {
      PowPositive(x, n - 1);
      TimesStrict(0.0, x, Pow(x, n - 1));
      TimesUnit(Pow(x, n - 1));
    }
  }

  /** A quantity that shrinks to `x` times itself before `n - 1` more such steps. */
  lemma PowStep(x: real, n: nat, y: real, z: real)
    requires x > 0.0 && n > 0 && z <= Times(x, y)
    ensures Times(Pow(x, n - 1), z) <= Times(Pow(x, n), y)
  {
    hide Times;
    var q := Pow(x, n - 1);
    PowPositive(x, n - 1);
    TimesMono(z, Times(x, y), q);
    TimesSwap(x, y, q);
    TimesSwap(x, q, y);
    TimesSwap(z, q, 1.0);
  }

  lemma FallStep(cur: nat, m: nat, alpha: real)
    requires 0.0 < alpha < 1.0 && 1 <= m <= cur < U64
    ensures var r := Smooth(cur, m, alpha);
            m <= r <= cur && (r - m) as real <= Times(1.0 - 0.75 * alpha, (cur - m) as real)
  {
    SmoothStep(cur, m, alpha);
    assert m / 1 == m;
    var t := ClampSample(cur, m);
    BlendDistance(cur, t, alpha);
    assert 4.0 * (cur - t) as real >= 3.0 * (cur - m) as real;
    TimesMono(0.75 * (cur - m) as real, (cur - t) as real, alpha);
  }

  /** From above, for every weight, each measurement leaves at most 1 - 3/4 of the weight of the
      distance, also while the sample is clamped. */
  lemma {:induction false} FallsGeometrically(cur: nat, m: nat, alpha: real, n: nat)
    requires 0.0 < alpha < 1.0 && 1 <= m <= cur < U64
    ensures var r := Steps(cur, m, alpha, n);
            m <= r <= cur && (r - m) as real <= Times(Pow(1.0 - 0.75 * alpha, n), (cur - m) as real)
    decreases n
  {
    hide Times, Smooth;
    TimesUnit((cur - m) as real);
    if n > 0 {
      var r := Smooth(cur, m, alpha);
      FallStep(cur, m, alpha);
      FallsGeometrically(r, m, alpha, n - 1);
      PowStep(1.0 - 0.75 * alpha, n, (cur - m) as real, (r - m) as real);
    }
  }

  /** The weighted distance from below, less the unit that rounding takes. */
  function Deficit(cur: int, m: nat, alpha: real): real {
    Times(alpha, (m - cur) as real) - 1.0
  }

  lemma RiseStep(cur: nat, m: nat, alpha: real)
    requires 0.0 < alpha < 1.0 && 1 <= cur < m < U64 && m <= 4 * cur
    ensures var r := Smooth(cur, m, alpha);
            cur <= r < m && Deficit(r, m, alpha) <= Times(1.0 - alpha, Deficit(cur, m, alpha))
  {
    hide Times, Blend;
    SmoothStep(cur, m, alpha);
    assert m / 1 == m;
    var r, g, beta := Smooth(cur, m, alpha), (m - cur) as real, 1.0 - alpha;
    BlendDistance(cur, m, alpha);
    TimesSum(0.0, g, beta);
    TimesUnit(beta);
    TimesMono((m - r) as real, Times(g, beta) + 1.0, alpha);
    TimesSum(Times(g, beta), 1.0, alpha);
    TimesUnit(alpha);
    TimesSwap(g, beta, alpha);
    TimesSwap(alpha, g, beta);
    TimesSwap(alpha, (m - r) as real, 1.0);
    TimesSum(Times(alpha, g), 1.0, beta);
    TimesSwap(beta, Times(alpha, g) - 1.0, 1.0);
  }

  /** From below, once a measurement is not clamped, each leaves at most 1 - weight of the deficit. */
  lemma {:induction false} RisesGeometrically(cur: nat, m: nat, alpha: real, n: nat)
    requires 0.0 < alpha < 1.0 && 1 <= cur < m < U64 && m <= 4 * cur
    ensures var r := Steps(cur, m, alpha, n);
            cur <= r < m && Deficit(r, m, alpha) <= Times(Pow(1.0 - alpha, n), Deficit(cur, m, alpha))
    decreases n
  {
    hide Times, Smooth, Deficit;
    TimesUnit(Deficit(cur, m, alpha));
    if n > 0 {
      var r := Smooth(cur, m, alpha);
      RiseStep(cur, m, alpha);
      RisesGeometrically(r, m, alpha, n - 1);
      PowStep(1.0 - alpha, n, Deficit(cur, m, alpha), Deficit(r, m, alpha));
    }
  }

  /** While the measurement is clamped, the average triples with the default weight. */
  lemma {:induction false} TriplesWhileFar(cur: nat, m: nat, n: nat)
    requires 1 <= cur < m < U64
    ensures var r := Steps(cur, m, DEFAULT_ALPHA, n);
            cur <= r < m && (m <= 4 * r || r as real >= Times(Pow(3.0, n), cur as real))
    decreases n
  {
    hide Times, Smooth;
    TimesUnit(cur as real);
    if n > 0 {
      var r := Smooth(cur, m, DEFAULT_ALPHA);
      SmoothStep(cur, m, DEFAULT_ALPHA);
      TriplesWhileFar(r, m, n - 1);
      if m <= 4 * cur {
        StaysNear(r, m, n - 1);
      } else {
        TripleStep(cur, m);
        PowGrows(n, cur as real, r as real);
      }
    }
  }

  lemma TripleStep(cur: nat, m: nat)
    requires 1 <= cur && 4 * cur < m < U64
    ensures Smooth(cur, m, DEFAULT_ALPHA) as real >= Times(3.0, cur as real)
  {
    assert m / 1 == m;
    BlendDistance(cur, 4 * cur, DEFAULT_ALPHA);
  }

  lemma PowGrows(n: nat, y: real, z: real)
    requires n > 0 && z >= Times(3.0, y)
    ensures Times(Pow(3.0, n - 1), z) >= Times(Pow(3.0, n), y)
  {
    hide Times;
    var q := Pow(3.0, n - 1);
    PowPositive(3.0, n - 1);
    TimesMono(Times(3.0, y), z, q);
    TimesSwap(3.0, y, q);
    TimesSwap(3.0, q, y);
    TimesSwap(z, q, 1.0);
  }

  lemma {:induction false} StaysNear(cur: nat, m: nat, n: nat)
    requires 1 <= cur < m < U64 && m <= 4 * cur
    ensures m <= 4 * Steps(cur, m, DEFAULT_ALPHA, n)
    decreases n
  {
    if n > 0 {
      SmoothStep(cur, m, DEFAULT_ALPHA);
      StaysNear(Smooth(cur, m, DEFAULT_ALPHA), m, n - 1);
    }
  }

  /** So with the default weight the average is at its limit as soon as 0.475^n of the distance from
      above is below 1, or from below 0.3^n of the deficit below 0.4: after logarithmically many
      measurements. */
  lemma ConvergesFast(cur: nat, m: nat, n: nat)
    requires 1 <= cur < U64 && 1 <= m < U64 && m <= 4 * cur
    requires m <= cur ==> Times(Pow(0.475, n), (cur - m) as real) < 1.0
    requires cur < m ==> Times(Pow(0.3, n), Deficit(cur, m, DEFAULT_ALPHA)) < 0.4
    ensures Steps(cur, m, DEFAULT_ALPHA, n) == Limit(cur, m)
  {
    hide Pow;
    assert 1.0 - 0.75 * DEFAULT_ALPHA == 0.475 && 1.0 - DEFAULT_ALPHA == 0.3;
    if m <= cur {
      FallsGeometrically(cur, m, DEFAULT_ALPHA, n);
    } else {
      RisesGeometrically(cur, m, DEFAULT_ALPHA, n);
    }
  }

  /** With the default weight the average reaches its limit, which is `m` from above and `m - 1`
      from below, in at most |m - cur| measurements, and stays there. */
  lemma {:induction false} Converges(cur: nat, m: nat, n: nat)
    requires cur >= 1 && 1 <= m < U64
    ensures var r := Steps(cur, m, DEFAULT_ALPHA, n);
            && (m <= cur ==> m <= r <= cur) && (cur < m ==> cur <= r < m)
            && (n >= Max(cur - Limit(cur, m), Limit(cur, m) - cur) ==> r == Limit(cur, m))
    decreases n
  {
    if n > 0 {
      DefaultStep(cur, m);
      Converges(Smooth(cur, m, DEFAULT_ALPHA), m, n - 1);
    }
  }

  lemma {:induction false} SmallWeightStays(updates: seq<(nat, nat)>, alpha: real)
    requires 0.0 < alpha && 3.0 * alpha < 1.0
    ensures AvgAfter(1, updates, alpha) == 1
    decreases |updates|
  {
    hide Blend;
    if updates != [] {
      var u := updates[0];
      if u.1 > 0 {
        BlendBetween(1, ClampSample(1, u.0 / u.1), alpha);
        assert Times(2.0, alpha) < 1.0 && Times(3.0, alpha) < 1.0;
      }
      SmallWeightStays(updates[1..], alpha);
    }
  }

  /** An average of 1 stays there whatever is measured if and only if the weight is below one third. */
  lemma SmallWeightIsStuckIff(alpha: real)
    requires 0.0 < alpha < 1.0
    ensures (forall updates :: AvgAfter(1, updates, alpha) == 1) <==> 3.0 * alpha < 1.0
  {
    if 3.0 * alpha < 1.0 {
      forall updates
        ensures AvgAfter(1, updates, alpha) == 1
      {
        SmallWeightStays(updates, alpha);
      }
    } else {
      var updates := LargerWeightLeaves(alpha);
    }
  }

  lemma LargerWeightLeaves(alpha: real) returns (updates: seq<(nat, nat)>)
    requires alpha < 1.0 <= 3.0 * alpha
    ensures AvgAfter(1, updates, alpha) != 1
  {
    updates := [(4, 1)];
    SmoothStep(1, 4, alpha);
    assert updates[1..] == [];
  }
}
