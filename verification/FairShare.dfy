// Tokens, run budget and rest of one round, in exact real arithmetic: every rounding the code
// asks for (ceiling, truncation, round-to-nearest) is kept, that of f64 itself is not.
module FairShare {
  import opened Arith
  import opened Shmem

  const MIN_TOKENS: nat := 1
  const MAX_TOKENS: nat := 2_000_000

  /** Up to this average no round's arithmetic leaves u64 (see Average.NoOverflow). */
  const MAX_AVG_US: nat := 6_000_000_000_000

  datatype Plan = Plan(tokens: nat, timeLimit: nat, baseTokens: nat, expectedRun: nat, restWait: nat, anchor: nat)

  function Ceil(x: real): int {
    -(-x).Floor
  }

  function MaxR(x: real, y: real): real {
    if x < y then y else x
  }

  function ClampR(x: real, lo: real, hi: real): real {
    if x < lo then lo else if x > hi then hi else x
  }

  /** The slowest average among active managers, never below 1. */
  function Anchor(slots: seq<ManagerSlot>): (a: nat)
    ensures a >= 1
    ensures forall i :: 0 <= i < |slots| && slots[i].active ==> slots[i].avg <= a
    ensures a == 1 || exists i :: 0 <= i < |slots| && slots[i].active && slots[i].avg == a
  {
    if |slots| == 0 then 1 else
      var a := Anchor(slots[..|slots| - 1]);
      var last := slots[|slots| - 1];
      assert forall i :: 0 <= i < |slots| - 1 ==> slots[i] == slots[..|slots| - 1][i];
      if last.active && last.avg > a then last.avg else a
  }

  /** Priority times the ratio of the anchor to one's own average. */
  function RawTokens(prio: real, anchor: nat, avg: nat): real
    requires avg >= 1
  {
    prio * (anchor as real / avg as real)
  }

  function Scaled(base: nat, scale: real): real {
    base as real * scale
  }

  function RestWait(prio: real, anchor: nat, scale: real): nat {
    var p := ClampR(prio, 1.0, 100.0);
    Clamp((Times(100.0 - p, Times(anchor as real, scale)) + 0.5).Floor, 0, U64 - 1)
  }

  /** A priority below 1 counts as such only for fixed shares. */
  function Effective(prio: real, fixed: bool): (p: real)
    ensures prio >= 1.0 ==> p == prio
    ensures prio < 1.0 && !fixed ==> p == 1.0
    ensures prio < 1.0 && fixed ==> p == MaxR(prio, 0.01) && 0.01 <= p < 1.0
  {
    if fixed then MaxR(prio, 0.01) else MaxR(prio, 1.0)
  }

  function MakePlan(anchor: nat, currentAvg: nat, prio: real, scale: real, fixed: bool): Plan {
    var avg := Max(currentAvg, 1);
    var base := Clamp(Ceil(RawTokens(Effective(prio, fixed), anchor, avg)), MIN_TOKENS, MAX_TOKENS);
    var tokens := Clamp(Scaled(base, scale).Floor, MIN_TOKENS, MAX_TOKENS);
    var run := Min(tokens * avg, U64 - 1);
    Plan(tokens, run + run / 2 + 50_000, base, Max(run, 1), if fixed then RestWait(prio, anchor, scale) else 0, anchor)
  }

  // ----- one round -----

  /** Neither clamp of the token count bites. */
  ghost predicate Unclamped(anchor: nat, avg: nat, prio: real, scale: real)
    requires avg >= 1
  {
    var c := Ceil(RawTokens(prio, anchor, avg));
    1 <= c <= MAX_TOKENS && MIN_TOKENS as real <= Scaled(c, scale) <= MAX_TOKENS as real
  }

  lemma CeilBounds(x: real)
    ensures Ceil(x) as real - 1.0 < x <= Ceil(x) as real
  {
  }

  lemma BudgetFits(t: nat, avg: nat)
    requires 1 <= t <= MAX_TOKENS && 1 <= avg <= MAX_AVG_US
    ensures 1 <= t * avg < U64
  {
    MulMono(t, 2_000_000, avg, 6_000_000_000_000);
    MulMono(1, t, 1, avg);
  }

  /** Unclamped, the plan's token count is the scaled ceiling and its budget is exact. */
  lemma UnclampedPlan(anchor: nat, avg: nat, prio: real, scale: real, fixed: bool)
    requires 1 <= avg <= MAX_AVG_US
    requires Unclamped(anchor, avg, Effective(prio, fixed), scale)
    ensures var c := Ceil(RawTokens(Effective(prio, fixed), anchor, avg));
            var t := Scaled(c, scale).Floor;
            var plan := MakePlan(anchor, avg, prio, scale, fixed);
            plan.tokens == t >= 1 && plan.baseTokens == c && plan.expectedRun == t * avg
  {
    hide RawTokens, Scaled, RestWait;
    var t := Scaled(Ceil(RawTokens(Effective(prio, fixed), anchor, avg)), scale).Floor;
    BudgetFits(t, avg);
  }

  lemma RawTimes(p: real, anchor: nat, avg: nat)
    requires avg >= 1 && anchor >= 1 && p > 0.0
    ensures Times(RawTokens(p, anchor, avg), avg as real) == Times(p, anchor as real)
    ensures RawTokens(p, anchor, avg) > 0.0
  {
    var a, m := anchor as real, avg as real;
    var r := a / m;
    assert r * m == a && r > 0.0;
    TimesStrict(0.0, r, p);
    TimesSwap(p, r, m);
  }

  lemma ScaledTimes(c: nat, scale: real, m: real)
    ensures Times(Scaled(c, scale), m) == Times(Times(c as real, m), scale)
    ensures scale.Floor as real == scale ==> Scaled(c, scale).Floor as real == Scaled(c, scale)
  {
    TimesSwap(c as real, scale, m);
    if scale.Floor as real == scale {
      assert Scaled(c, scale) == (c * scale.Floor) as real;
    }
  }

  /** `run` is `p` units, short of them by less than `slack` and above them by less than one. */
  ghost predicate NearShare(run: real, p: real, unit: real, slack: real) {
    Times(p, unit) - slack < run < Times(p + 1.0, unit)
  }

  /** `c = ceil(p * a / m)` tokens of length `m` cover `p * a` and overshoot it by less than `m`. */
  lemma CeilCovers(p: real, anchor: nat, avg: nat) returns (c: int)
    requires avg >= 1 && anchor >= 1 && p > 0.0
    ensures c == Ceil(RawTokens(p, anchor, avg)) && c >= 1
    ensures Times(p, anchor as real) <= Times(c as real, avg as real) < Times(p, anchor as real) + avg as real
  {
    hide Times, RawTokens;
    var x, m := RawTokens(p, anchor, avg), avg as real;
    c := Ceil(x);
    RawTimes(p, anchor, avg);
    CeilBounds(x);
    TimesMono(x, c as real, m);
    TimesStrict(c as real - 1.0, x, m);
    TimesSum(c as real, 1.0, m);
    TimesUnit(m);
  }

  /** Truncating the scaled token count loses less than one token's time. */
  lemma FloorLoses(c: nat, scale: real, avg: nat) returns (t: int)
    requires avg >= 1
    ensures t == Scaled(c, scale).Floor
    ensures var exact := Times(Times(c as real, avg as real), scale);
            && exact - avg as real < Times(t as real, avg as real) <= exact
            && (scale.Floor as real == scale ==> Times(t as real, avg as real) == exact)
  {
    hide Times, Scaled;
    var cs, m := Scaled(c, scale), avg as real;
    t := cs.Floor;
    ScaledTimes(c, scale, m);
    TimesMono(t as real, cs, m);
    TimesStrict(cs - 1.0, t as real, m);
    TimesSum(cs, 1.0, m);
    TimesUnit(m);
  }

  /** The run budget of one unclamped round: `priority * anchor * scale`, short of it by less than
      one token's time (not at all when the scale is whole) and above it by less than
      `anchor * scale`. */
  lemma RunBudget(anchor: nat, avg: nat, prio: real, scale: real, fixed: bool)
    requires 1 <= avg <= anchor && avg <= MAX_AVG_US && scale > 0.0
    requires Unclamped(anchor, avg, Effective(prio, fixed), scale)
    ensures var run := MakePlan(anchor, avg, prio, scale, fixed).expectedRun as real;
            var p, unit := Effective(prio, fixed), Times(anchor as real, scale);
            && NearShare(run, p, unit, avg as real)
            && (scale.Floor as real == scale ==> Times(p, unit) <= run)
  {
    hide Times, Scaled, RawTokens, MakePlan;
    var p, a, m := Effective(prio, fixed), anchor as real, avg as real;
    UnclampedPlan(anchor, avg, prio, scale, fixed);
    var c := CeilCovers(p, anchor, avg);
    var t := FloorLoses(c, scale, avg);
    TimesCast(t, avg);
    var pa, cm := Times(p, a), Times(c as real, m);
    TimesMono(pa, cm, scale);
    TimesStrict(cm, pa + a, scale);
    TimesSum(pa, a, scale);
    TimesSwap(p, a, scale);
    TimesSum(p, 1.0, Times(a, scale));
    TimesUnit(Times(a, scale));
  }

  /** In terms of the configured priority: one of at least 1 counts as it is, whether shares are fixed
      or not; a lower one counts as 1, or with fixed shares as itself but at least a hundredth. */
  lemma RunBudgetByPriority(anchor: nat, avg: nat, prio: real, scale: real, fixed: bool)
    requires 1 <= avg <= anchor && avg <= MAX_AVG_US && scale > 0.0
    requires Unclamped(anchor, avg, if prio >= 1.0 then prio else if fixed then MaxR(prio, 0.01) else 1.0, scale)
    ensures var run := MakePlan(anchor, avg, prio, scale, fixed).expectedRun as real;
            var unit := Times(anchor as real, scale);
            && (prio >= 1.0 ==> NearShare(run, prio, unit, avg as real))
            && (prio < 1.0 && !fixed ==> NearShare(run, 1.0, unit, avg as real))
            && (prio < 1.0 && fixed ==> NearShare(run, MaxR(prio, 0.01), unit, avg as real))
  {
    hide Times, MakePlan, Unclamped;
    RunBudget(anchor, avg, prio, scale, fixed);
  }

  /** The whole plan for any average, priority and scale.  The base is the least token count within
      the limits that covers priority times anchor, the tokens are the greatest within them below the
      scaled base, and the run is what they take, both capped. */
  lemma PlanCovers(anchor: nat, currentAvg: nat, prio: real, scale: real, fixed: bool)
    ensures var plan := MakePlan(anchor, currentAvg, prio, scale, fixed);
            var avg, base, tokens := Max(currentAvg, 1), plan.baseTokens, plan.tokens;
            var need, scaled := Times(Effective(prio, fixed), anchor as real), Times(base as real, scale);
            && MIN_TOKENS <= base <= MAX_TOKENS && MIN_TOKENS <= tokens <= MAX_TOKENS
            && (base < MAX_TOKENS ==> need <= Times(base as real, avg as real))
            && (base > MIN_TOKENS ==> Times((base - 1) as real, avg as real) < need)
            && (tokens > MIN_TOKENS ==> tokens as real <= scaled)
            && (tokens < MAX_TOKENS ==> scaled < tokens as real + 1.0)
            && plan.expectedRun == Min(tokens * avg, U64 - 1) && plan.anchor == anchor
            && plan.timeLimit == plan.expectedRun + plan.expectedRun / 2 + 50_000
  {
    hide Times, RawTokens, RestWait;
    var avg := Max(currentAvg, 1);
    var x := RawTokens(Effective(prio, fixed), anchor, avg);
    var c := Ceil(x);
    CeilBounds(x);
    CeilOf(Effective(prio, fixed), anchor, avg);
    var plan := MakePlan(anchor, currentAvg, prio, scale, fixed);
    ScaledIs(plan.baseTokens, scale);
    MulMono(1, plan.tokens, 1, avg);
    if plan.baseTokens < MAX_TOKENS {
      TimesMono(c as real, plan.baseTokens as real, avg as real);
    }
    if plan.baseTokens > MIN_TOKENS {
      TimesMono((plan.baseTokens - 1) as real, c as real - 1.0, avg as real);
    }
  }

  lemma ScaledIs(base: nat, scale: real)
    ensures Scaled(base, scale) == Times(base as real, scale)
  {
  }

  lemma CeilOf(p: real, anchor: nat, avg: nat)
    requires avg >= 1
    ensures var c := Ceil(RawTokens(p, anchor, avg)) as real;
            Times(c - 1.0, avg as real) < Times(p, anchor as real) <= Times(c, avg as real)
  {
    hide Times, RawTokens;
    var x, m := RawTokens(p, anchor, avg), avg as real;
    CeilBounds(x);
    RawIs(p, anchor, avg);
    TimesMono(x, Ceil(x) as real, m);
    TimesStrict(Ceil(x) as real - 1.0, x, m);
  }

  lemma RawIs(p: real, anchor: nat, avg: nat)
    requires avg >= 1
    ensures Times(RawTokens(p, anchor, avg), avg as real) == Times(p, anchor as real)
  {
    var a, m := anchor as real, avg as real;
    var r := a / m;
    assert r * m == a;
    TimesSwap(p, r, m);
  }

  /** The rest of a round: none without fixed shares; with them the nearest whole number to
      (100 - priority) * anchor * scale for a priority from 1 to 100, as for 1 below and none above. */
  lemma RestIs(anchor: nat, currentAvg: nat, prio: real, scale: real)
    requires scale >= 0.0
    ensures MakePlan(anchor, currentAvg, prio, scale, false).restWait == 0
    ensures var rest := MakePlan(anchor, currentAvg, prio, scale, true).restWait;
            var share := Times(100.0 - prio, Times(anchor as real, scale));
            && (prio >= 100.0 ==> rest == 0)
            && (prio < 1.0 ==> rest == MakePlan(anchor, currentAvg, 1.0, scale, true).restWait)
            && (1.0 <= prio <= 100.0 && share < (U64 - 1) as real ==> share - 0.5 < rest as real <= share + 0.5)
            && (1.0 <= prio <= 100.0 && share >= (U64 - 1) as real ==> rest == U64 - 1)
  {
    hide Times, RawTokens, Scaled;
    var unit := Times(anchor as real, scale);
    TimesMono(0.0, anchor as real, scale);
    TimesUnit(scale);
    TimesUnit(unit);
    if prio <= 100.0 {
      TimesMono(0.0, 100.0 - prio, unit);
    }
  }

  /** Fixed share: run time over run plus rest lies between p/100 and (p+1)/101, up to the half
      microsecond by which the rest is rounded; exactly so when the priority is whole. */
  lemma DutyCycle(anchor: nat, avg: nat, prio: real, scale: real)
    requires 1 <= avg <= anchor && avg <= MAX_AVG_US
    requires 1.0 <= prio <= 100.0 && scale >= 1.0 && scale.Floor as real == scale
    requires Unclamped(anchor, avg, prio, scale)
    requires Times(100.0 - prio, Times(anchor as real, scale)) + 0.5 < U64 as real
    ensures var plan := MakePlan(anchor, avg, prio, scale, true);
            var run, rest := plan.expectedRun as real, plan.restWait as real;
            var e := if prio.Floor as real == prio then 0.0 else 0.5;
            && Times(prio, run + rest) <= 100.0 * run + Times(prio, e)
            && 101.0 * run <= Times(prio + 1.0, run + rest) + Times(prio + 1.0, e)
  {
    hide Times, MakePlan, Unclamped;
    var unit, q := Times(anchor as real, scale), 100.0 - prio;
    var plan := MakePlan(anchor, avg, prio, scale, true);
    var run, rest := plan.expectedRun as real, plan.restWait as real;
    var e := if prio.Floor as real == prio then 0.0 else 0.5;
    RunBudget(anchor, avg, prio, scale, true);
    RestRounds(anchor, avg, prio, scale);
    AtLeastShare(prio, q, unit, run, rest, e);
    AtMostShare(prio + 1.0, q, unit, run, rest, e);
  }

  lemma PlanRest(anchor: nat, avg: nat, prio: real, scale: real)
    requires avg >= 1 && 1.0 <= prio <= 100.0
    ensures MakePlan(anchor, avg, prio, scale, true).restWait
         == Clamp((Times(100.0 - prio, Times(anchor as real, scale)) + 0.5).Floor, 0, U64 - 1)
  {
    hide Times, RawTokens, Scaled;
  }

  /** Rounding to the nearest microsecond, exact for a whole product. */
  lemma Rounds(x: real, k: int)
    requires 0.0 <= x && x + 0.5 < U64 as real
    ensures var r := Clamp((x + 0.5).Floor, 0, U64 - 1) as real;
            x - 0.5 <= r <= x + 0.5 && (x == k as real ==> r == x)
  {
    FloorIn(x + 0.5, U64);
    assert Clamp((x + 0.5).Floor, 0, U64 - 1) == (x + 0.5).Floor;
    if x == k as real {
      FloorOf(x + 0.5, k);
    }
  }

  lemma RestRounds(anchor: nat, avg: nat, prio: real, scale: real)
    requires avg >= 1 && 1.0 <= prio <= 100.0 && scale >= 1.0 && scale.Floor as real == scale
    requires Times(100.0 - prio, Times(anchor as real, scale)) + 0.5 < U64 as real
    ensures var exact := Times(100.0 - prio, Times(anchor as real, scale));
            var rest := MakePlan(anchor, avg, prio, scale, true).restWait as real;
            && exact - 0.5 <= rest <= exact + 0.5
            && (prio.Floor as real == prio ==> rest == exact)
  {
    hide Times, MakePlan, Clamp;
    var unit, s, q := Times(anchor as real, scale), scale.Floor, 100 - prio.Floor;
    TimesMono(0.0, anchor as real, scale);
    TimesUnit(scale);
    TimesMono(0.0, 100.0 - prio, unit);
    TimesUnit(unit);
    PlanRest(anchor, avg, prio, scale);
    TimesCast(anchor, s);
    TimesCast(q, anchor * s);
    Rounds(Times(100.0 - prio, unit), q * (anchor * s));
  }

  lemma AtLeastShare(p: real, q: real, unit: real, run: real, rest: real, e: real)
    requires p >= 0.0 && q >= 0.0 && p + q == 100.0
    requires Times(p, unit) <= run && rest <= Times(q, unit) + e
    ensures Times(p, run + rest) <= 100.0 * run + Times(p, e)
  {
    hide Times;
    TimesMono(rest, Times(q, unit) + e, p);
    TimesSum(Times(q, unit), e, p);
    TimesSwap(q, unit, p);
    TimesSwap(p, unit, q);
    TimesMono(Times(p, unit), run, q);
    TimesSum(p, q, run);
    TimesUnit(run);
    Commute(p, q, unit, run, rest, e);
  }

  lemma AtMostShare(p: real, q: real, unit: real, run: real, rest: real, e: real)
    requires p >= 0.0 && q >= 0.0 && p + q == 101.0
    requires run <= Times(p, unit) && Times(q, unit) - e <= rest
    ensures 101.0 * run <= Times(p, run + rest) + Times(p, e)
  {
    hide Times;
    TimesMono(Times(q, unit), rest + e, p);
    TimesSum(rest, e, p);
    TimesMono(run, Times(p, unit), q);
    TimesSum(p, q, run);
    TimesUnit(run);
    Commute(p, q, unit, run, rest, e);
  }

  lemma Commute(p: real, q: real, unit: real, run: real, rest: real, e: real)
    ensures Times(Times(q, unit), p) == Times(Times(p, unit), q)
    ensures Times(run, q) == Times(q, run) && Times(rest, p) == Times(p, rest) && Times(e, p) == Times(p, e)
    ensures Times(p, run + rest) == Times(p, run) + Times(p, rest)
  {
  }
}
