// Hooks whose check and whose commit or rollback are separate steps.  Every check re-derives the
// counter from the slots and so forgets what other hooks have reserved; this bounds the damage.
module Overshoot {
  import opened Arith
  import opened Shmem
  import opened Ledger
  import opened QuotaRuns

  /** An allocation hook: not running, or between its check and its commit or rollback. */
  datatype Hook = Quiet | InFlight(p: int, size: nat)

  /** At most |hooks| allocation hooks run at once. */
  datatype State = State(w: World, hooks: seq<Hook>)

  datatype Step =
    | Start(h: nat, p: int, size: nat)
    | Finish(h: nat, ok: bool, handle: nat)
    | Other(op: Serial)

  function Reserved(h: Hook): nat {
    if h.InFlight? then h.size else 0
  }

  ghost function Flying(hooks: seq<Hook>): (f: seq<nat>)
    ensures |f| == |hooks|
  {
    seq(|hooks|, i requires 0 <= i < |hooks| => Reserved(hooks[i]))
  }

  ghost predicate Enabled(s: State, step: Step) {
    match step
    case Start(h, p, size) =>
      h < |s.hooks| && s.hooks[h].Quiet? && p in s.w.clients && s.w.pod.limit > 0 && size < U64
    case Finish(h, ok, handle) => h < |s.hooks| && s.hooks[h].InFlight? && s.hooks[h].p in s.w.clients
    case Other(op) =>
      QuotaRuns.Enabled(s.w, op) && !op.Malloc?
      && (op.Drop? ==> forall k :: 0 <= k < |s.hooks| && s.hooks[k].InFlight? ==> s.hooks[k].p != op.p)
  }

  /** A crash takes its process's hooks with it. */
  function WithoutHooksOf(hooks: seq<Hook>, p: int): (r: seq<Hook>)
    ensures |r| == |hooks|
  {
    seq(|hooks|, i requires 0 <= i < |hooks| => if hooks[i].InFlight? && hooks[i].p == p then Quiet else hooks[i])
  }

  ghost function Next(s: State, step: Step): (r: State)
    requires Wf(s.w) && Enabled(s, step)
    ensures Wf(r.w) && |r.hooks| == |s.hooks|
  {
    match step
    case Start(h, p, size) =>
      var (pod, admitted) := Check(s.w.pod, s.w.dead, s.w.dev, size);
      State(s.w.(pod := pod), if admitted then s.hooks[h := InFlight(p, size)] else s.hooks)
    case Finish(h, ok, handle) =>
      var f := s.hooks[h];
      State(if ok then Committed(s.w, f.p, handle, f.size)
            else s.w.(pod := Rollback(s.w.pod, s.w.dead, s.w.dev, f.size)),
            s.hooks[h := Quiet])
    case Other(op) =>
      State(QuotaRuns.Next(s.w, op), if op.Crash? then WithoutHooksOf(s.hooks, op.p) else s.hooks)
  }

  /** Committed plus in-flight bytes of live processes. */
  ghost function Claimed(s: State): nat
    requires Wf(s.w)
  {
    LiveTotal(s.w.pod.procs, s.w.dead, s.w.dev) + Total(Flying(s.hooks))
  }

  ghost predicate Bounded(s: State) {
    && Wf(s.w)
    && (forall k :: 0 <= k < |s.hooks| ==> Reserved(s.hooks[k]) <= s.w.pod.limit)
    && Claimed(s) <= |s.hooks| * s.w.pod.limit
  }

  /** The check admits a request whose u64 sum with the live bytes overflows. */
  ghost predicate Wraps(s: State, step: Step)
    requires Wf(s.w)
  {
    step.Start?
    && var sum := LiveTotal(s.w.pod.procs, s.w.dead, s.w.dev) + step.size;
       U64 <= sum && sum % U64 <= s.w.pod.limit
  }

  lemma HookUpdate(hooks: seq<Hook>, h: nat, x: Hook)
    requires h < |hooks|
    ensures Total(Flying(hooks[h := x])) == Total(Flying(hooks)) - Reserved(hooks[h]) + Reserved(x)
    ensures Reserved(hooks[h]) <= Total(Flying(hooks))
  {
    assert Flying(hooks[h := x]) == Flying(hooks)[h := Reserved(x)];
    TotalUpdate(Flying(hooks), h, Reserved(x));
  }

  /** With one hook quiet the others reserve at most a limit each. */
  lemma OthersFly(hooks: seq<Hook>, h: nat, limit: nat)
    requires h < |hooks| && hooks[h].Quiet?
    requires forall k :: 0 <= k < |hooks| ==> Reserved(hooks[k]) <= limit
    ensures Total(Flying(hooks)) + limit <= |hooks| * limit
  {
    var full := Flying(hooks)[h := limit];
    TotalUpdate(Flying(hooks), h, limit);
    TotalBound(full, limit);
  }

  /** Ending processes and cleaning up never add live bytes. */
  lemma OtherShrinks(w: World, op: Serial)
    requires Wf(w) && QuotaRuns.Enabled(w, op) && !op.Malloc?
    ensures var r := QuotaRuns.Next(w, op);
            r.pod.limit == w.pod.limit && LiveTotal(r.pod.procs, r.dead, r.dev) <= LiveTotal(w.pod.procs, w.dead, w.dev)
  {
    var procs := w.pod.procs;
    match op {
      case Register(p) =>
        var i := SlotFor(procs, p, w.dead);
        if i < |procs| {
          LiveUpdate(procs, i, ProcessSlot(p, NoBytes(), true), w.dead, w.dev);
        }
      case Free(p, handle, ok) =>
        var i, size := w.clients[p].idx, HeldSize(w, p, handle);
        LiveUpdate(procs, i, procs[i].(hbm := procs[i].hbm[w.dev := SatSub(procs[i].hbm[w.dev], size)]), w.dead, w.dev);
        CleanedHolds(TakeBytes(procs, i, w.dev, size), w.dead, w.dev);
      case Drop(p) =>
        var i := w.clients[p].idx;
        LiveUpdate(procs, i, procs[i].(pid := 0, active := false), w.dead, w.dev);
      case Crash(p) =>
        TotalMonotone(LiveBytes(procs, w.dead + {p}, w.dev), LiveBytes(procs, w.dead, w.dev));
      case ReapDead =>
        assert LiveBytes(ReapedSlots(procs, w.dead), w.dead, w.dev) == LiveBytes(procs, w.dead, w.dev);
      case Recalculate =>
        CleanedHolds(procs, w.dead, w.dev);
    }
  }

  lemma StartKeepsBoundIff(s: State, h: nat, p: int, size: nat)
    requires Bounded(s) && Enabled(s, Start(h, p, size))
    ensures var s' := Next(s, Start(h, p, size));
            && (!Wraps(s, Start(h, p, size)) ==> Bounded(s'))
            && (Wraps(s, Start(h, p, size)) ==> Claimed(s') >= U64)
  {
    hide Total, LiveTotal;
    var s' := Next(s, Start(h, p, size));
    CleanedHolds(s.w.pod.procs, s.w.dead, s.w.dev);
    HookUpdate(s.hooks, h, InFlight(p, size));
    OthersFly(s.hooks, h, s.w.pod.limit);
    var live := LiveTotal(s.w.pod.procs, s.w.dead, s.w.dev);
    assert LiveTotal(s'.w.pod.procs, s.w.dead, s.w.dev) == live;
  }

  lemma FinishKeepsBound(s: State, h: nat, ok: bool, handle: nat)
    requires Bounded(s) && Enabled(s, Finish(h, ok, handle))
    ensures Bounded(Next(s, Finish(h, ok, handle)))
  {
    hide Total;
    var procs, dead, dev, f := s.w.pod.procs, s.w.dead, s.w.dev, s.hooks[h];
    var i := s.w.clients[f.p].idx;
    HookUpdate(s.hooks, h, Quiet);
    if ok {
      LiveUpdate(procs, i, procs[i].(hbm := procs[i].hbm[dev := procs[i].hbm[dev] + f.size]), dead, dev);
    } else {
      CleanedHolds(procs, dead, dev);
    }
  }

  /** With k hooks every step keeps claimed bytes within k limits, unless it admits a request that
      wraps; that one breaks the bound, and any bound below 2^64. */
  lemma StepKeepsBoundIff(s: State, step: Step)
    requires Bounded(s) && Enabled(s, step)
    ensures !Wraps(s, step) ==> Bounded(Next(s, step))
    ensures Wraps(s, step) ==> Claimed(Next(s, step)) >= U64
    ensures |s.hooks| * s.w.pod.limit < U64 ==> (Bounded(Next(s, step)) <==> !Wraps(s, step))
  {
    match step {
      case Start(h, p, size) => StartKeepsBoundIff(s, h, p, size);
      case Finish(h, ok, handle) => FinishKeepsBound(s, h, ok, handle);
      case Other(op) =>
        hide Total;
        OtherShrinks(s.w, op);
        TotalMonotone(Flying(Next(s, step).hooks), Flying(s.hooks));
    }
  }

  /** A check and its commit or rollback with nothing in between are one allocation of the serial
      model, and a check that is not admitted is all of it. */
  lemma StartThenFinish(s: State, h: nat, p: int, size: nat, ok: bool, handle: nat)
    requires Wf(s.w) && Enabled(s, Start(h, p, size))
    ensures var t := Next(s, Start(h, p, size));
            if t.hooks == s.hooks then t.w == Malloced(s.w, p, size, ok, handle)
            else
              && Enabled(t, Finish(h, ok, handle)) && t.hooks == s.hooks[h := InFlight(p, size)]
              && Next(t, Finish(h, ok, handle)) == State(Malloced(s.w, p, size, ok, handle), s.hooks)
  {
    assert s.hooks[h := InFlight(p, size)][h] != s.hooks[h];
    assert s.hooks[h := InFlight(p, size)][h := Quiet] == s.hooks;
  }

  /** A crash gives up what its process's hooks have reserved and nothing of others. */
  lemma CrashGivesUp(s: State, p: int)
    requires Wf(s.w) && Enabled(s, Other(Crash(p)))
    ensures var t := Next(s, Other(Crash(p)));
            && t.w == Crashed(s.w, p) && |t.hooks| == |s.hooks|
            && forall k :: 0 <= k < |s.hooks| ==>
                 t.hooks[k] == if s.hooks[k].InFlight? && s.hooks[k].p == p then Quiet else s.hooks[k]
  {
  }

  // ----- runs -----

  ghost predicate RunOk(s: State, run: seq<Step>)
    requires Wf(s.w)
    decreases |run|
  {
    run == [] || (Enabled(s, run[0]) && RunOk(Next(s, run[0]), run[1..]))
  }

  ghost function After(s: State, run: seq<Step>): (r: State)
    requires Wf(s.w) && RunOk(s, run)
    ensures Wf(r.w)
    decreases |run|
  {
    if run == [] then s else After(Next(s, run[0]), run[1..])
  }

  ghost predicate NeverWraps(s: State, run: seq<Step>)
    requires Wf(s.w) && RunOk(s, run)
    decreases |run|
  {
    run == [] || (!Wraps(s, run[0]) && NeverWraps(Next(s, run[0]), run[1..]))
  }

  /** The claimed bytes exceed `bound` at some point of the run. */
  ghost predicate Exceeds(s: State, run: seq<Step>, bound: nat)
    requires Wf(s.w) && RunOk(s, run)
    decreases |run|
  {
    Claimed(s) > bound || (run != [] && Exceeds(Next(s, run[0]), run[1..], bound))
  }

  lemma {:induction false} RunKeepsBound(s: State, run: seq<Step>)
    requires Bounded(s) && RunOk(s, run) && NeverWraps(s, run)
    ensures Bounded(After(s, run)) && After(s, run).w.pod.limit == s.w.pod.limit && |After(s, run).hooks| == |s.hooks|
    decreases |run|
  {
    if run != [] {
      StepKeepsBoundIff(s, run[0]);
      LimitStays(s, run[0]);
      RunKeepsBound(Next(s, run[0]), run[1..]);
    }
  }

  lemma LimitStays(s: State, step: Step)
    requires Wf(s.w) && Enabled(s, step)
    ensures Next(s, step).w.pod.limit == s.w.pod.limit
  {
    if step.Other? && !step.op.Malloc? {
      OtherShrinks(s.w, step.op);
    }
  }

  /** A run exceeds k limits at some point if and only if some request in it wraps. */
  lemma {:induction false} RunExceedsIff(s: State, run: seq<Step>)
    requires Bounded(s) && RunOk(s, run) && |s.hooks| * s.w.pod.limit < U64
    ensures Exceeds(s, run, |s.hooks| * s.w.pod.limit) <==> !NeverWraps(s, run)
    decreases |run|
  {
    if run != [] {
      var s' := Next(s, run[0]);
      StepKeepsBoundIff(s, run[0]);
      LimitStays(s, run[0]);
      if Wraps(s, run[0]) {
        assert Exceeds(s', run[1..], |s.hooks| * s.w.pod.limit);
      } else {
        RunExceedsIff(s', run[1..]);
      }
    }
  }

  /** A fresh pod of `n` process slots with `k` hooks that may run at once. */
  ghost function FreshState(limit: nat, n: nat, dev: nat, k: nat): State {
    State(Fresh(limit, n, dev), seq(k, _ => Quiet))
  }

  lemma FreshIsBounded(limit: nat, n: nat, dev: nat, k: nat)
    requires limit < U64 && dev < NPU_DEVICE_MAX
    ensures var s := FreshState(limit, n, dev, k); Bounded(s) && Claimed(s) == 0 && |s.hooks| == k
  {
    var s := FreshState(limit, n, dev, k);
    TotalZero(LiveBytes(s.w.pod.procs, s.w.dead, dev));
    TotalZero(Flying(s.hooks));
  }

  /** With at most k hooks at once and no request that wraps the pod never claims more than k limits;
      with one, never more than its limit. */
  lemma OvershootAtMost(limit: nat, n: nat, dev: nat, k: nat, run: seq<Step>)
    requires limit < U64 && dev < NPU_DEVICE_MAX
    requires Wf(FreshState(limit, n, dev, k).w) && RunOk(FreshState(limit, n, dev, k), run)
    requires NeverWraps(FreshState(limit, n, dev, k), run)
    ensures Claimed(After(FreshState(limit, n, dev, k), run)) <= k * limit
  {
    FreshIsBounded(limit, n, dev, k);
    RunKeepsBound(FreshState(limit, n, dev, k), run);
  }

  /** From a fresh pod a run exceeds k limits at some point if and only if some request in it wraps. */
  lemma OvershootIff(limit: nat, n: nat, dev: nat, k: nat, run: seq<Step>)
    requires limit < U64 && k * limit < U64 && dev < NPU_DEVICE_MAX
    requires Wf(FreshState(limit, n, dev, k).w) && RunOk(FreshState(limit, n, dev, k), run)
    ensures Exceeds(FreshState(limit, n, dev, k), run, k * limit) <==> !NeverWraps(FreshState(limit, n, dev, k), run)
  {
    FreshIsBounded(limit, n, dev, k);
    RunExceedsIff(FreshState(limit, n, dev, k), run);
  }

  // ----- the bound is reached -----

  /** One process registers and `j` of its hooks each check for the whole limit. */
  function Burst(limit: nat, j: nat): seq<Step> {
    if j == 0 then [Other(Register(1))] else Burst(limit, j - 1) + [Start(j - 1, 1, limit)]
  }

  lemma {:induction false} RunExtends(s: State, run: seq<Step>, step: Step)
    requires Wf(s.w) && RunOk(s, run) && Enabled(After(s, run), step)
    ensures RunOk(s, run + [step]) && After(s, run + [step]) == Next(After(s, run), step)
    ensures NeverWraps(s, run) && !Wraps(After(s, run), step) ==> NeverWraps(s, run + [step])
    decreases |run|
  {
    if run == [] {
      assert (run + [step])[1..] == [];
    } else {
      assert (run + [step])[1..] == run[1..] + [step];
      RunExtends(Next(s, run[0]), run[1..], step);
    }
  }

  /** `j` hooks have checked for the whole limit and none has committed. */
  ghost predicate BurstState(s: State, limit: nat, k: nat, j: nat) {
    && Wf(s.w) && |s.hooks| == k && Total(Flying(s.hooks)) == j * limit
    && (forall i :: 0 <= i < k ==> s.hooks[i] == if i < j then InFlight(1, limit) else Quiet)
    && 1 in s.w.clients && s.w.pod.limit == limit && s.w.dead == {} && s.w.dev == 0
    && s.w.pod.procs[s.w.clients[1].idx].pid == 1
    && LiveTotal(s.w.pod.procs, {}, 0) == 0
  }

  lemma BurstBegins(limit: nat, k: nat)
    requires 0 < limit < U64
    ensures var s0 := FreshState(limit, MAX_PROCESSES, 0, k);
            Wf(s0.w) && Enabled(s0, Other(Register(1))) && BurstState(Next(s0, Other(Register(1))), limit, k, 0)
  {
    var s0 := FreshState(limit, MAX_PROCESSES, 0, k);
    FreshIsBounded(limit, MAX_PROCESSES, 0, k);
    OtherShrinks(s0.w, Register(1));
    var procs := s0.w.pod.procs;
    assert OwnSlot(procs, 1, 0) == |procs|;
    assert ClaimableSlot(procs, {}, 0) == 0;
  }

  lemma BurstGoesOn(s: State, limit: nat, k: nat, j: nat)
    requires 0 < limit < U64 && j < k && BurstState(s, limit, k, j)
    ensures Enabled(s, Start(j, 1, limit)) && !Wraps(s, Start(j, 1, limit))
    ensures BurstState(Next(s, Start(j, 1, limit)), limit, k, j + 1)
  {
    hide Total, LiveTotal;
    CleanedHolds(s.w.pod.procs, {}, 0);
    HookUpdate(s.hooks, j, InFlight(1, limit));
    assert (j + 1) * limit == j * limit + limit;
  }

  lemma {:induction false} BurstClaims(limit: nat, k: nat, j: nat)
    requires 0 < limit < U64 && j <= k
    ensures var s0 := FreshState(limit, MAX_PROCESSES, 0, k);
            && Wf(s0.w) && RunOk(s0, Burst(limit, j)) && NeverWraps(s0, Burst(limit, j))
            && BurstState(After(s0, Burst(limit, j)), limit, k, j)
  {
    hide FreshState, BurstState, Next, Enabled;
    var s0 := FreshState(limit, MAX_PROCESSES, 0, k);
    BurstBegins(limit, k);
    if j == 0 {
      RunExtends(s0, [], Other(Register(1)));
      assert [] + [Other(Register(1))] == Burst(limit, 0);
    } else {
      BurstClaims(limit, k, j - 1);
      BurstGoesOn(After(s0, Burst(limit, j - 1)), limit, k, j - 1);
      RunExtends(s0, Burst(limit, j - 1), Start(j - 1, 1, limit));
    }
  }

  /** One hook that has checked for the whole limit commits; its next request then wraps. */
  lemma BurstCommits(s: State, limit: nat, k: nat)
    requires 0 < limit < U64 && k >= 1 && BurstState(s, limit, k, 1)
    ensures Enabled(s, Finish(0, true, 7)) && !Wraps(s, Finish(0, true, 7))
    ensures var s' := Next(s, Finish(0, true, 7));
            Enabled(s', Start(0, 1, U64 - limit)) && Wraps(s', Start(0, 1, U64 - limit))
  {
    hide Total, LiveTotal;
    var procs, i := s.w.pod.procs, s.w.clients[1].idx;
    LiveUpdate(procs, i, procs[i].(hbm := procs[i].hbm[0 := procs[i].hbm[0] + limit]), {}, 0);
  }

  /** A single hook claims more than any bound below 2^64 with a request that wraps: what the pod holds
      is its limit, and the request is 2^64 less that. */
  lemma WrapExceeds(limit: nat, k: nat) returns (run: seq<Step>)
    requires 0 < limit < U64 && k >= 1
    ensures var s0 := FreshState(limit, MAX_PROCESSES, 0, k);
            Wf(s0.w) && RunOk(s0, run) && !NeverWraps(s0, run) && Claimed(After(s0, run)) >= U64
  {
    hide FreshState, Next, Enabled, Wraps, Burst, BurstState;
    var s0 := FreshState(limit, MAX_PROCESSES, 0, k);
    FreshIsBounded(limit, MAX_PROCESSES, 0, k);
    BurstClaims(limit, k, 1);
    BurstCommits(After(s0, Burst(limit, 1)), limit, k);
    var finish, wrap := Finish(0, true, 7), Start(0, 1, U64 - limit);
    RunExtends(s0, Burst(limit, 1), finish);
    var held := Burst(limit, 1) + [finish];
    RunKeepsBound(s0, held);
    RunExtends(s0, held, wrap);
    StepKeepsBoundIff(After(s0, held), wrap);
    run := held + [wrap];
    if NeverWraps(s0, run) {
      WrapShows(s0, held, wrap);
    }
  }

  lemma {:induction false} WrapShows(s: State, run: seq<Step>, step: Step)
    requires Wf(s.w) && RunOk(s, run) && RunOk(s, run + [step]) && Wraps(After(s, run), step)
    ensures !NeverWraps(s, run + [step])
    decreases |run|
  {
    if run != [] {
      assert (run + [step])[1..] == run[1..] + [step];
      WrapShows(Next(s, run[0]), run[1..], step);
    }
  }

  /** Some run from a fresh pod claims more than the limit; without `wraps`, one in which no request
      wraps. */
  ghost predicate Exceedable(limit: nat, k: nat, wraps: bool)
    requires Wf(FreshState(limit, MAX_PROCESSES, 0, k).w)
  {
    exists run :: RunOk(FreshState(limit, MAX_PROCESSES, 0, k), run)
               && (wraps || NeverWraps(FreshState(limit, MAX_PROCESSES, 0, k), run))
               && Claimed(After(FreshState(limit, MAX_PROCESSES, 0, k), run)) > limit
  }

  /** Without requests that wrap, the bound is met with equality for every k, so over all such runs
      the limit is safe exactly when at most one hook runs at a time; with them, only when none runs. */
  lemma ExceedableIff(limit: nat, k: nat)
    requires 0 < limit < U64
    ensures Wf(FreshState(limit, MAX_PROCESSES, 0, k).w)
    ensures RunOk(FreshState(limit, MAX_PROCESSES, 0, k), Burst(limit, k))
         && NeverWraps(FreshState(limit, MAX_PROCESSES, 0, k), Burst(limit, k))
         && Claimed(After(FreshState(limit, MAX_PROCESSES, 0, k), Burst(limit, k))) == k * limit
    ensures Exceedable(limit, k, false) <==> k >= 2
    ensures Exceedable(limit, k, true) <==> k >= 1
  {
    hide FreshState, Burst, Total, LiveTotal;
    var s0 := FreshState(limit, MAX_PROCESSES, 0, k);
    FreshIsBounded(limit, MAX_PROCESSES, 0, k);
    BurstClaims(limit, k, k);
    if k >= 1 {
      var run := WrapExceeds(limit, k);
    } else {
      forall run | RunOk(s0, run)
        ensures Claimed(After(s0, run)) <= limit
      {
        NoHookNoWrap(s0, run);
        OvershootAtMost(limit, MAX_PROCESSES, 0, k, run);
      }
    }
    if k >= 2 {
      MulMono(2, k, limit, limit);
    } else {
      MulMono(k, 1, limit, limit);
      forall run | RunOk(s0, run) && NeverWraps(s0, run)
        ensures Claimed(After(s0, run)) <= limit
      {
        OvershootAtMost(limit, MAX_PROCESSES, 0, k, run);
      }
    }
  }

  lemma {:induction false} NoHookNoWrap(s: State, run: seq<Step>)
    requires Wf(s.w) && RunOk(s, run) && s.hooks == []
    ensures NeverWraps(s, run)
    decreases |run|
  {
    if run != [] {
      NoHookNoWrap(Next(s, run[0]), run[1..]);
    }
  }
}
