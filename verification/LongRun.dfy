// Rotation and budgets together: over whole rotations of the baton each manager's budgeted run
// time is proportional to its priority, up to one unit of priority.
module LongRun {
  import opened Arith
  import opened Shmem
  import opened FairShare
  import Ring
  import RoundRobin

  /** What the managers are configured with: a priority per slot, one scale, one mode. */
  datatype Config = Config(prio: seq<real>, scale: real, fixed: bool)

  ghost predicate FullRotation(g: Ring.Registry) {
    && RoundRobin.Rotating(RoundRobin.State(g, {}))
    && forall i :: i in Ring.Window(g) ==> Ring.Active(g, i)
  }

  /** The time manager `i` plans to run when it gets the baton in `g`. */
  ghost function Budget(g: Ring.Registry, cfg: Config, i: nat): nat
    requires Ring.Wf(g) && |cfg.prio| == MAX_MANAGERS && i < MAX_MANAGERS
  {
    MakePlan(Anchor(g.slots), g.slots[i].avg, cfg.prio[i], cfg.scale, cfg.fixed).expectedRun
  }

  /** Manager `i`'s budgets added up over the next `turns` turns of whoever holds the baton. */
  ghost function TotalRun(g: Ring.Registry, cfg: Config, i: nat, turns: nat): nat
    requires Ring.Wf(g) && |cfg.prio| == MAX_MANAGERS && i < MAX_MANAGERS
    decreases turns
  {
    if turns == 0 || g.owner >= MAX_MANAGERS then 0
    else (if g.owner == i then Budget(g, cfg, i) else 0) + TotalRun(Ring.Pass(g, g.owner), cfg, i, turns - 1)
  }

  lemma PassRotates(g: Ring.Registry)
    requires FullRotation(g)
    ensures var w, p := Ring.Window(g), Ring.Pass(g, g.owner);
            FullRotation(p) && Ring.Window(p) == w[1..] + [w[0]] && p.slots == g.slots && 1 <= |w| <= MAX_MANAGERS
  {
    var w := Ring.Window(g);
    RoundRobin.DistinctIsShort(w, MAX_MANAGERS);
    RoundRobin.StepKeepsRotation(RoundRobin.State(g, {}), RoundRobin.Pass);
    Ring.PassWindow(g, g.owner);
    RoundRobin.RotateKeeps(w);
    assert (w[1..] + [w[0]])[0] in w;
  }

  /** In `t` passes the manager at queue position `pos` has `k` turns, with k determined by
      k * n <= t + n - 1 - pos < (k + 1) * n, and runs its fixed budget in each. */
  lemma {:induction false} TurnsOf(g: Ring.Registry, cfg: Config, pos: nat, t: nat) returns (k: nat)
    requires FullRotation(g) && |cfg.prio| == MAX_MANAGERS && pos < |Ring.Window(g)|
    ensures var i, n := Ring.Window(g)[pos], |Ring.Window(g)|;
            && i < MAX_MANAGERS
            && TotalRun(g, cfg, i, t) == k * Budget(g, cfg, i)
            && k * n <= t + n - 1 - pos < (k + 1) * n
    decreases t
  {
    hide MakePlan, Ring.Window, Ring.Pass, Anchor;
    var w := Ring.Window(g);
    var i, n := w[pos], |w|;
    assert i in w;
    if t == 0 {
      k := 0;
    } else {
      PassRotates(g);
      var p := Ring.Pass(g, g.owner);
      assert g.owner == w[0] && w[0] in w;
      k := TurnsOf(p, cfg, if pos > 0 then pos - 1 else n - 1, t - 1);
      assert Budget(p, cfg, i) == Budget(g, cfg, i);
      if pos == 0 {
        OneMore(k, Budget(g, cfg, i), n);
        k := k + 1;
      }
    }
  }

  lemma OneMore(k: nat, b: nat, n: nat)
    ensures (k + 1) * b == b + k * b && (k + 1) * n == k * n + n && (k + 2) * n == k * n + n + n
  {
  }

  lemma WholeTurns(k: nat, rounds: nat, n: nat, pos: nat)
    requires pos < n && k * n <= rounds * n + n - 1 - pos < (k + 1) * n
    ensures k == rounds
  {
    if k < rounds {
      MulMono(k + 1, rounds, n, n);
    } else if k > rounds {
      assert (rounds + 1) * n == rounds * n + n;
      MulMono(rounds + 1, k, n, n);
    }
  }

  /** Over `rounds` full rotations every queued manager runs its budget exactly `rounds` times. */
  lemma RotationsRun(g: Ring.Registry, cfg: Config, i: nat, rounds: nat)
    requires FullRotation(g) && |cfg.prio| == MAX_MANAGERS && i in Ring.Window(g)
    ensures i < MAX_MANAGERS
    ensures TotalRun(g, cfg, i, rounds * |Ring.Window(g)|) == rounds * Budget(g, cfg, i)
  {
    var w := Ring.Window(g);
    var pos :| 0 <= pos < |w| && w[pos] == i;
    var k := TurnsOf(g, cfg, pos, rounds * |w|);
    WholeTurns(k, rounds, |w|, pos);
  }

  /** Manager `i` publishes a usable average, and neither token clamp bites for it. */
  ghost predicate Regular(g: Ring.Registry, cfg: Config, i: nat)
    requires Ring.Wf(g) && |cfg.prio| == MAX_MANAGERS
  {
    && Ring.Active(g, i) && 1 <= g.slots[i].avg <= MAX_AVG_US
    && Unclamped(Anchor(g.slots), g.slots[i].avg, Effective(cfg.prio[i], cfg.fixed), cfg.scale)
  }

  /** `total` is K p units or more and less than K (p + 1). */
  ghost predicate Within(total: nat, rounds: nat, p: real, unit: real) {
    Times(rounds as real, Times(p, unit)) <= total as real < Times(rounds as real, Times(p + 1.0, unit))
  }

  /** Over K rotations manager `i`'s total run lies in [K p A s, K (p + 1) A s), with A the anchor, s
      the whole-number scale and p the configured priority if that is at least 1; a lower one counts as
      1, or with fixed shares as itself but at least a hundredth. */
  lemma RotationBounds(g: Ring.Registry, cfg: Config, i: nat, rounds: nat)
    requires FullRotation(g) && |cfg.prio| == MAX_MANAGERS && i in Ring.Window(g) && rounds >= 1
    requires Regular(g, cfg, i) && cfg.scale >= 1.0 && cfg.scale.Floor as real == cfg.scale
    ensures var p, unit := cfg.prio[i], Times(Anchor(g.slots) as real, cfg.scale);
            var total := TotalRun(g, cfg, i, rounds * |Ring.Window(g)|);
            && Within(total, rounds, Effective(p, cfg.fixed), unit)
            && (p >= 1.0 ==> Within(total, rounds, p, unit))
            && (p < 1.0 && !cfg.fixed ==> Within(total, rounds, 1.0, unit))
            && (p < 1.0 && cfg.fixed ==> Within(total, rounds, MaxR(p, 0.01), unit))
  {
    hide Times, MakePlan, Unclamped;
    var p, unit, k := Effective(cfg.prio[i], cfg.fixed), Times(Anchor(g.slots) as real, cfg.scale), rounds as real;
    var b := Budget(g, cfg, i);
    RunBudget(Anchor(g.slots), g.slots[i].avg, cfg.prio[i], cfg.scale, cfg.fixed);
    RotationsRun(g, cfg, i, rounds);
    TimesCast(rounds, b);
    TimesMono(Times(p, unit), b as real, k);
    TimesStrict(b as real, Times(p + 1.0, unit), k);
    TimesSwap(k, Times(p, unit), 1.0);
    TimesSwap(k, Times(p + 1.0, unit), 1.0);
    TimesSwap(k, b as real, 1.0);
  }

  /** Long-run proportional share: totals compare as the configured priorities do, up to one unit;
      priorities below 1 compare as the values they count as. */
  lemma ProportionalShare(g: Ring.Registry, cfg: Config, i: nat, j: nat, rounds: nat)
    requires FullRotation(g) && |cfg.prio| == MAX_MANAGERS && rounds >= 1
    requires i in Ring.Window(g) && j in Ring.Window(g) && Regular(g, cfg, i) && Regular(g, cfg, j)
    requires cfg.scale >= 1.0 && cfg.scale.Floor as real == cfg.scale
    ensures var n := rounds * |Ring.Window(g)|;
            var ti, tj := TotalRun(g, cfg, i, n) as real, TotalRun(g, cfg, j, n) as real;
            && Times(ti, Effective(cfg.prio[j], cfg.fixed) + 1.0) > Times(tj, Effective(cfg.prio[i], cfg.fixed))
            && (cfg.prio[i] >= 1.0 && cfg.prio[j] >= 1.0 ==>
                  Times(ti, cfg.prio[j] + 1.0) > Times(tj, cfg.prio[i]))
  {
    hide Times, TotalRun, Regular, Effective;
    var n, unit, k := rounds * |Ring.Window(g)|, Times(Anchor(g.slots) as real, cfg.scale), rounds as real;
    var pi, pj := Effective(cfg.prio[i], cfg.fixed), Effective(cfg.prio[j], cfg.fixed);
    RotationBounds(g, cfg, i, rounds);
    RotationBounds(g, cfg, j, rounds);
    var ti, tj := TotalRun(g, cfg, i, n) as real, TotalRun(g, cfg, j, n) as real;
    TimesMono(Times(k, Times(pi, unit)), ti, pj + 1.0);
    TimesStrict(tj, Times(k, Times(pj + 1.0, unit)), pi);
    CrossProducts(k, pi, pj + 1.0, unit);
  }

  lemma CrossProducts(k: real, p: real, q: real, unit: real)
    ensures Times(Times(k, Times(p, unit)), q) == Times(Times(k, Times(q, unit)), p)
  {
  }
}
