// The memory counter at the granularity of single atomic operations: any number of threads check,
// load, compare-and-swap, commit, roll back and release in every interleaving of crash-free runs.
// Re-deriving the counter is one operation.
module InFlight {
  import opened Arith
  import opened Shmem
  import opened QuotaRuns

  /** Where a thread is inside an allocation or release hook. */
  datatype Pc =
    | Quiet
    | Checked(size: nat)
    | Loaded(size: nat, cur: nat)
    | Reserved(size: nat)
    | Removed(size: nat)
    | Subtracted(size: nat, floored: bool)

  datatype Thread = Thread(proc: nat, pc: Pc)

  /** Process p's slot holds slots[p] bytes and its handle map is maps[p]. */
  datatype State = State(limit: nat, used: nat, slots: seq<nat>, maps: seq<map<nat, nat>>, threads: seq<Thread>)

  datatype Op =
    | BeginCheck(size: nat)
    | Load
    | Cas
    | Commit(handle: nat)
    | Rollback
    | BeginFree(handle: nat)
    | SlotSub
    | UsedSub
    | Recalculate

  datatype Step = Step(t: nat, op: Op)

  /** Bytes counted and not in a slot: reserved, or already taken from one. */
  function Outside(pc: Pc): nat {
    if pc.Reserved? || pc.Subtracted? then pc.size else 0
  }

  /** Bytes still in process p's slot whose handle is gone. */
  function Leaving(t: Thread, p: nat): nat {
    if t.pc.Removed? && t.proc == p then t.pc.size else 0
  }

  ghost function OutsideAll(ts: seq<Thread>): (w: seq<nat>)
    ensures |w| == |ts|
  {
    seq(|ts|, i requires 0 <= i < |ts| => Outside(ts[i].pc))
  }

  ghost function LeavingAll(ts: seq<Thread>, p: nat): (w: seq<nat>)
    ensures |w| == |ts|
  {
    seq(|ts|, i requires 0 <= i < |ts| => Leaving(ts[i], p))
  }

  ghost predicate Wf(s: State) {
    |s.slots| == |s.maps| && forall t :: 0 <= t < |s.threads| ==> s.threads[t].proc < |s.slots|
  }

  ghost predicate Enabled(s: State, step: Step)
    requires Wf(s)
  {
    && step.t < |s.threads| && s.limit > 0
    && var t := s.threads[step.t];
       match step.op
       case BeginCheck(size) => t.pc.Quiet? && size < U64
       case Load => t.pc.Checked?
       case Cas => t.pc.Loaded?
       case Commit(handle) => t.pc.Reserved? && handle !in s.maps[t.proc]
       case Rollback => t.pc.Reserved?
       case BeginFree(handle) => t.pc.Quiet?
       case SlotSub => t.pc.Removed?
       case UsedSub => t.pc.Subtracted?
       case Recalculate => t.pc.Quiet?
  }

  ghost function At(s: State, t: nat, pc: Pc): State
    requires t < |s.threads|
  {
    s.(threads := s.threads[t := s.threads[t].(pc := pc)])
  }

  ghost function Next(s: State, step: Step): (r: State)
    requires Wf(s) && Enabled(s, step)
    ensures Wf(r) && r.limit == s.limit
  {
    var t := step.t;
    var p, pc := s.threads[t].proc, s.threads[t].pc;
    match step.op
    case BeginCheck(size) => At(s.(used := Total(s.slots)), t, Checked(size))
    case Load => At(s, t, Loaded(pc.size, s.used))
    case Cas =>
      var sum := (pc.cur + pc.size) % U64;
      if sum > s.limit then At(s, t, Quiet)
      else if s.used == pc.cur then At(s.(used := sum), t, Reserved(pc.size))
      else At(s, t, Loaded(pc.size, s.used))
    case Commit(handle) =>
      var m: map<nat, nat> := s.maps[p][handle := pc.size];
      At(s.(slots := s.slots[p := s.slots[p] + pc.size], maps := s.maps[p := m]), t, Quiet)
    case Rollback => At(s.(used := if s.used < pc.size then Total(s.slots) else s.used - pc.size), t, Quiet)
    case BeginFree(handle) =>
      var size := if handle in s.maps[p] then s.maps[p][handle] else 0;
      At(s.(maps := s.maps[p := s.maps[p] - {handle}]), t, if size > 0 then Removed(size) else Quiet)
    case SlotSub =>
      At(s.(slots := s.slots[p := SatSub(s.slots[p], pc.size)]), t, Subtracted(pc.size, s.slots[p] < pc.size))
    case UsedSub =>
      At(s.(used := if pc.floored || s.used < pc.size then Total(s.slots) else s.used - pc.size), t, Quiet)
    case Recalculate => s.(used := Total(s.slots))
  }

  /** The step takes a branch that re-derives the counter after an underflow. */
  ghost predicate Heals(s: State, step: Step)
    requires Wf(s) && Enabled(s, step)
  {
    var t := s.threads[step.t];
    match step.op
    case Rollback => s.used < t.pc.size
    case SlotSub => s.slots[t.proc] < t.pc.size
    case UsedSub => t.pc.floored || s.used < t.pc.size
    case _ => false
  }

  /** The step reserves a request whose u64 sum with the counter overflows and leaves a remainder
      within the limit. */
  ghost predicate Wraps(s: State, step: Step)
    requires Wf(s) && Enabled(s, step)
  {
    var pc := s.threads[step.t].pc;
    step.op.Cas? && s.used == pc.cur && U64 <= pc.cur + pc.size <= U64 + s.limit
  }

  /** The step re-derives the counter while some thread's bytes are counted and not in a slot: between
      reserve and commit or rollback, or between its slot's and the counter's subtraction. */
  ghost predicate Forgets(s: State, step: Step) {
    && (step.op.BeginCheck? || step.op.Recalculate?)
    && exists t :: 0 <= t < |s.threads| && Outside(s.threads[t].pc) > 0
  }

  ghost predicate Breaks(s: State, step: Step)
    requires Wf(s) && Enabled(s, step)
  {
    Wraps(s, step) || Forgets(s, step)
  }

  /** The counter is the slots plus what is outside them. */
  ghost predicate CounterHolds(s: State) {
    && Wf(s)
    && s.used == Total(s.slots) + Total(OutsideAll(s.threads)) <= s.limit < U64
    && (forall t :: 0 <= t < |s.threads| ==> var pc := s.threads[t].pc;
          && (pc.Checked? ==> pc.size < U64)
          && (pc.Loaded? ==> pc.size < U64 && pc.cur <= s.limit)
          && (pc.Subtracted? ==> !pc.floored))
  }

  /** Each slot is its handle map plus what is leaving it. */
  ghost predicate SlotsHold(s: State) {
    && Wf(s)
    && (forall p :: 0 <= p < |s.slots| ==> s.slots[p] == MapSum(s.maps[p]) + Total(LeavingAll(s.threads, p)))
  }

  ghost predicate Conserved(s: State) {
    CounterHolds(s) && SlotsHold(s)
  }

  lemma ThreadUpdate(ts: seq<Thread>, t: nat, pc: Pc, p: nat)
    requires t < |ts|
    ensures var ts' := ts[t := ts[t].(pc := pc)];
            && Total(OutsideAll(ts')) == Total(OutsideAll(ts)) - Outside(ts[t].pc) + Outside(pc)
            && Outside(ts[t].pc) <= Total(OutsideAll(ts))
            && Total(LeavingAll(ts', p)) == Total(LeavingAll(ts, p)) - Leaving(ts[t], p) + Leaving(ts[t].(pc := pc), p)
            && Leaving(ts[t], p) <= Total(LeavingAll(ts, p))
  {
    var x := ts[t].(pc := pc);
    assert OutsideAll(ts[t := x]) == OutsideAll(ts)[t := Outside(pc)];
    assert LeavingAll(ts[t := x], p) == LeavingAll(ts, p)[t := Leaving(x, p)];
    TotalUpdate(OutsideAll(ts), t, Outside(pc));
    TotalUpdate(LeavingAll(ts, p), t, Leaving(x, p));
  }

  lemma NoneOutsideIff(s: State)
    ensures Total(OutsideAll(s.threads)) == 0 <==> forall t :: 0 <= t < |s.threads| ==> Outside(s.threads[t].pc) == 0
  {
    if forall t :: 0 <= t < |s.threads| ==> Outside(s.threads[t].pc) == 0 {
      TotalZero(OutsideAll(s.threads));
    } else {
      var t :| 0 <= t < |s.threads| && Outside(s.threads[t].pc) != 0;
      TotalUpdate(OutsideAll(s.threads), t, 0);
    }
  }

  /** What one thread's move does to the sums over threads. */
  lemma ThreadMoves(s: State, step: Step)
    requires Wf(s) && Enabled(s, step)
    ensures var a, b := s.threads[step.t], Next(s, step).threads[step.t];
            && |Next(s, step).slots| == |s.slots|
            && Total(OutsideAll(Next(s, step).threads)) == Total(OutsideAll(s.threads)) - Outside(a.pc) + Outside(b.pc)
            && Outside(a.pc) <= Total(OutsideAll(s.threads))
            && (forall q :: 0 <= q < |s.slots| ==>
                  && Total(LeavingAll(Next(s, step).threads, q))
                      == Total(LeavingAll(s.threads, q)) - Leaving(a, q) + Leaving(b, q)
                  && Leaving(a, q) <= Total(LeavingAll(s.threads, q)))
  {
    hide Total;
    var pc := Next(s, step).threads[step.t].pc;
    assert Next(s, step).threads == s.threads[step.t := s.threads[step.t].(pc := pc)];
    forall q | 0 <= q < |s.slots|
      ensures Total(LeavingAll(Next(s, step).threads, q))
           == Total(LeavingAll(s.threads, q)) - Leaving(s.threads[step.t], q)
              + Leaving(Next(s, step).threads[step.t], q)
      ensures Leaving(s.threads[step.t], q) <= Total(LeavingAll(s.threads, q))
    {
      ThreadUpdate(s.threads, step.t, pc, q);
    }
    ThreadUpdate(s.threads, step.t, pc, 0);
  }

  lemma StepKeepsSlots(s: State, step: Step)
    requires SlotsHold(s) && Enabled(s, step)
    ensures SlotsHold(Next(s, step))
    ensures step.op.SlotSub? ==> s.threads[step.t].pc.size <= s.slots[s.threads[step.t].proc]
  {
    hide Total, MapSum, OutsideAll, LeavingAll;
    var p, pc := s.threads[step.t].proc, s.threads[step.t].pc;
    ThreadMoves(s, step);
    match step.op {
      case Commit(handle) =>
        MapSumInsert(s.maps[p], handle, pc.size);
      case BeginFree(handle) =>
        if handle in s.maps[p] {
          MapSumRemove(s.maps[p], handle);
        } else {
          assert s.maps[p] - {handle} == s.maps[p];
        }
      case _ =>
    }
  }

  lemma StepKeepsCounterIff(s: State, step: Step)
    requires CounterHolds(s) && Enabled(s, step)
    requires step.op.SlotSub? ==> s.threads[step.t].pc.size <= s.slots[s.threads[step.t].proc]
    ensures CounterHolds(Next(s, step)) <==> !Breaks(s, step)
    ensures !Heals(s, step)
  {
    hide Total, MapSum, OutsideAll, LeavingAll;
    var p, pc := s.threads[step.t].proc, s.threads[step.t].pc;
    ThreadMoves(s, step);
    NoneOutsideIff(s);
    match step.op {
      case Commit(handle) =>
        TotalUpdate(s.slots, p, s.slots[p] + pc.size);
      case SlotSub =>
        TotalUpdate(s.slots, p, SatSub(s.slots[p], pc.size));
      case _ =>
    }
  }

  /** Conservation: from a state in which counter and slots are accounted for, an atomic step keeps
      them so unless it reserves a request that wraps or re-derives the counter while bytes are outside
      the slots; and it takes no branch that heals an underflow. */
  lemma StepConservesIff(s: State, step: Step)
    requires Conserved(s) && Enabled(s, step)
    ensures Conserved(Next(s, step)) <==> !Breaks(s, step)
    ensures !Heals(s, step)
  {
    hide CounterHolds, SlotsHold, Heals, Breaks;
    StepKeepsSlots(s, step);
    StepKeepsCounterIff(s, step);
  }

  // ----- what an undisturbed thread does -----

  /** A check re-derives the counter and reserves exactly `size` if
      that fits or its u64 sum wraps to something that does; else it is refused and reserves nothing. */
  lemma Reserves(s: State, t: nat, size: nat) returns (run: seq<Step>)
    requires Wf(s) && t < |s.threads| && s.limit > 0 && s.threads[t].pc.Quiet? && size < U64
    ensures RunOk(s, run)
    ensures var sum := (Total(s.slots) + size) % U64;
            After(s, run) == if sum <= s.limit then At(s.(used := sum), t, Reserved(size))
                             else At(s.(used := Total(s.slots)), t, Quiet)
  {
    hide Total, RunOk, After;
    var m := s.(used := Total(s.slots));
    var s1 := At(m, t, Checked(size));
    var s2 := At(m, t, Loaded(size, m.used));
    assert Next(s1, Step(t, Load)) == s2;
    NoSteps(Next(s2, Step(t, Cas)));
    CasReserves(m, t, size);
    run := StepThenRun(s2, Step(t, Cas), []);
    run := StepThenRun(s1, Step(t, Load), run);
    run := StepThenRun(s, Step(t, BeginCheck(size)), run);
  }

  lemma CasReserves(m: State, t: nat, size: nat)
    requires Wf(m) && t < |m.threads| && m.limit > 0 && m.threads[t].pc.Quiet?
    ensures var s := At(m, t, Loaded(size, m.used));
            var sum := (m.used + size) % U64;
            && Wf(s) && Enabled(s, Step(t, Cas))
            && Next(s, Step(t, Cas)) == if sum <= m.limit then At(m.(used := sum), t, Reserved(size))
                                        else At(m, t, Quiet)
  {
  }

  /** A thread whose counter value is stale loads the current one if its own sum fits, and is refused if
      it does not. */
  lemma LosesRace(s: State, t: nat)
    requires Wf(s) && Enabled(s, Step(t, Cas)) && s.used != s.threads[t].pc.cur
    ensures var pc := s.threads[t].pc;
            Next(s, Step(t, Cas)) ==
            At(s, t, if (pc.cur + pc.size) % U64 <= s.limit then Loaded(pc.size, s.used) else Quiet)
  {
  }

  /** A rollback gives back exactly what was reserved. */
  lemma RollsBack(s: State, t: nat)
    requires Conserved(s) && Enabled(s, Step(t, Rollback))
    ensures var size := s.threads[t].pc.size;
            size <= s.used && Next(s, Step(t, Rollback)) == At(s.(used := s.used - size), t, Quiet)
  {
    TotalUpdate(OutsideAll(s.threads), t, 0);
  }

  /** A commit moves exactly what was reserved into the slot and, under its handle, into the map. */
  lemma Commits(s: State, t: nat, handle: nat)
    requires Wf(s) && Enabled(s, Step(t, Commit(handle)))
    ensures var p, size, r := s.threads[t].proc, s.threads[t].pc.size, Next(s, Step(t, Commit(handle)));
            var m: map<nat, nat> := s.maps[p][handle := size];
            && r.used == s.used && r.threads == At(s, t, Quiet).threads
            && r.slots == s.slots[p := s.slots[p] + size]
            && r.maps == s.maps[p := m]
  {
  }

  /** A release takes exactly what the handle held from map, slot and counter. */
  lemma Releases(s: State, t: nat, handle: nat) returns (run: seq<Step>)
    requires Conserved(s) && t < |s.threads| && s.limit > 0 && s.threads[t].pc.Quiet?
    requires handle in s.maps[s.threads[t].proc]
    ensures var p := s.threads[t].proc;
            var held := s.maps[p][handle];
            && held <= s.slots[p] && held <= s.used && RunOk(s, run)
            && After(s, run) == s.(used := s.used - held, slots := s.slots[p := s.slots[p] - held],
                                   maps := s.maps[p := s.maps[p] - {handle}])
  {
    hide Total, MapSum, OutsideAll, LeavingAll;
    var p := s.threads[t].proc;
    var held := s.maps[p][handle];
    MapSumRemove(s.maps[p], handle);
    TotalUpdate(s.slots, p, 0);
    var s1 := Next(s, Step(t, BeginFree(handle)));
    if held == 0 {
      NoSteps(s1);
      assert s.slots[p := s.slots[p]] == s.slots && s1.threads == s.threads;
      run := StepThenRun(s, Step(t, BeginFree(handle)), []);
    } else {
      var s2 := Next(s1, Step(t, SlotSub));
      var s3 := Next(s2, Step(t, UsedSub));
      assert s3.threads == s.threads;
      NoSteps(s3);
      hide RunOk, After;
      run := StepThenRun(s2, Step(t, UsedSub), []);
      run := StepThenRun(s1, Step(t, SlotSub), run);
      run := StepThenRun(s, Step(t, BeginFree(handle)), run);
    }
  }

  lemma NoSteps(s: State)
    requires Wf(s)
    ensures RunOk(s, []) && After(s, []) == s
  {
  }

  // ----- runs -----

  ghost predicate RunOk(s: State, run: seq<Step>)
    requires Wf(s)
    decreases |run|
  {
    run == [] || (Enabled(s, run[0]) && RunOk(Next(s, run[0]), run[1..]))
  }

  ghost function After(s: State, run: seq<Step>): (r: State)
    requires Wf(s) && RunOk(s, run)
    ensures Wf(r) && r.limit == s.limit
    decreases |run|
  {
    if run == [] then s else After(Next(s, run[0]), run[1..])
  }

  /** No step of the run is of either kind. */
  ghost predicate NeverBreaks(s: State, run: seq<Step>)
    requires Wf(s) && RunOk(s, run)
    decreases |run|
  {
    run == [] || (!Breaks(s, run[0]) && NeverBreaks(Next(s, run[0]), run[1..]))
  }

  /** Every state of the run conserves bytes. */
  ghost predicate AlwaysConserved(s: State, run: seq<Step>)
    requires Wf(s) && RunOk(s, run)
    decreases |run|
  {
    Conserved(s) && (run == [] || AlwaysConserved(Next(s, run[0]), run[1..]))
  }

  /** In every interleaving conservation holds throughout if and only if no step breaks it. */
  lemma {:induction false} RunConservesIff(s: State, run: seq<Step>)
    requires Conserved(s) && RunOk(s, run)
    ensures AlwaysConserved(s, run) <==> NeverBreaks(s, run)
    decreases |run|
  {
    if run != [] {
      StepConservesIff(s, run[0]);
      if !Breaks(s, run[0]) {
        RunConservesIff(Next(s, run[0]), run[1..]);
      } else {
        assert !Conserved(Next(s, run[0]));
      }
    }
  }

  /** And then the counter stays within the limit and the next step does not heal. */
  lemma {:induction false} RunConserves(s: State, run: seq<Step>, next: Step)
    requires Conserved(s) && RunOk(s, run) && NeverBreaks(s, run)
    ensures Conserved(After(s, run)) && After(s, run).used <= s.limit
    ensures Enabled(After(s, run), next) ==> !Heals(After(s, run), next)
    decreases |run|
  {
    if run == [] {
      if Enabled(s, next) {
        StepConservesIff(s, next);
      }
    } else {
      StepConservesIff(s, run[0]);
      RunConserves(Next(s, run[0]), run[1..], next);
    }
  }

  /** `n` registered processes that hold nothing, with thread t of process procs[t] doing nothing. */
  ghost function Start(limit: nat, procs: seq<nat>, n: nat): (s: State)
    requires forall t :: 0 <= t < |procs| ==> procs[t] < n
    ensures Wf(s)
  {
    var threads := seq(|procs|, t requires 0 <= t < |procs| => Thread(procs[t], Quiet));
    State(limit, 0, seq(n, _ => 0), seq(n, _ => map[]), threads)
  }

  lemma StartConserves(limit: nat, procs: seq<nat>, n: nat)
    requires limit < U64 && forall t :: 0 <= t < |procs| ==> procs[t] < n
    ensures Conserved(Start(limit, procs, n))
  {
    var s := Start(limit, procs, n);
    TotalZero(s.slots);
    TotalZero(OutsideAll(s.threads));
    forall p | 0 <= p < n
      ensures Total(LeavingAll(s.threads, p)) == 0
    {
      TotalZero(LeavingAll(s.threads, p));
    }
  }

  /** From any number of threads at rest in a pod that holds nothing, an interleaving conserves bytes
      throughout if and only if no step breaks that, and then stays within the limit and never heals. */
  lemma StartedRunConservesIff(limit: nat, procs: seq<nat>, n: nat, run: seq<Step>, next: Step)
    requires limit < U64 && forall t :: 0 <= t < |procs| ==> procs[t] < n
    requires RunOk(Start(limit, procs, n), run)
    ensures AlwaysConserved(Start(limit, procs, n), run) <==> NeverBreaks(Start(limit, procs, n), run)
    ensures var s := After(Start(limit, procs, n), run);
            NeverBreaks(Start(limit, procs, n), run) ==>
              && Conserved(s) && s.used == Total(s.slots) + Total(OutsideAll(s.threads)) <= limit
              && (Enabled(s, next) ==> !Heals(s, next))
  {
    StartConserves(limit, procs, n);
    RunConservesIff(Start(limit, procs, n), run);
    if NeverBreaks(Start(limit, procs, n), run) {
      RunConserves(Start(limit, procs, n), run, next);
    }
  }

  lemma StepThenRun(s: State, step: Step, rest: seq<Step>) returns (run: seq<Step>)
    requires Wf(s) && Enabled(s, step) && RunOk(Next(s, step), rest)
    ensures RunOk(s, run) && After(s, run) == After(Next(s, step), rest)
    ensures NeverBreaks(s, run) ==> !Breaks(s, step) && NeverBreaks(Next(s, step), rest)
  {
    run := [step] + rest;
    assert run[1..] == rest;
  }

  /** One thread of one process, which holds `held` bytes, in state `pc`. */
  ghost function One(limit: nat, used: nat, held: nat, m: map<nat, nat>, pc: Pc): (s: State)
    ensures Wf(s)
  {
    State(limit, used, [held], [m], [Thread(0, pc)])
  }

  /** It checks for `size` bytes and loads the counter; */
  lemma OneLoads(limit: nat, used: nat, held: nat, m: map<nat, nat>, size: nat, rest: seq<Step>)
    returns (run: seq<Step>)
    requires 0 < limit && size < U64 && RunOk(One(limit, held, held, m, Loaded(size, held)), rest)
    ensures var s, t := One(limit, used, held, m, Quiet), One(limit, held, held, m, Loaded(size, held));
            && RunOk(s, run) && After(s, run) == After(t, rest) && (NeverBreaks(s, run) ==> NeverBreaks(t, rest))
  {
    hide Total;
    TotalOfOne(held);
    var s, t := One(limit, used, held, m, Quiet), One(limit, held, held, m, Checked(size));
    assert Next(s, Step(0, BeginCheck(size))) == t;
    assert Next(t, Step(0, Load)) == One(limit, held, held, m, Loaded(size, held));
    run := StepThenRun(t, Step(0, Load), rest);
    run := StepThenRun(s, Step(0, BeginCheck(size)), run);
  }

  /** asks for 2^64 less than what it holds and is admitted; */
  lemma OneWraps(limit: nat, held: nat, m: map<nat, nat>) returns (run: seq<Step>)
    requires 0 < held <= limit < U64
    ensures var s := One(limit, held, held, m, Loaded(U64 - held, held));
            && RunOk(s, run) && !NeverBreaks(s, run)
            && Enabled(After(s, run), Step(0, Rollback)) && Heals(After(s, run), Step(0, Rollback))
  {
    var s := One(limit, held, held, m, Loaded(U64 - held, held));
    assert Next(s, Step(0, Cas)) == One(limit, 0, held, m, Reserved(U64 - held));
    run := StepThenRun(s, Step(0, Cas), []);
  }

  /** reserves and commits in an empty pod. */
  lemma OneCommits(limit: nat, held: nat, rest: seq<Step>) returns (run: seq<Step>)
    requires 0 < held <= limit < U64 && RunOk(One(limit, held, held, map[7 := held], Quiet), rest)
    ensures var s, t := One(limit, 0, 0, map[], Loaded(held, 0)), One(limit, held, held, map[7 := held], Quiet);
            && RunOk(s, run) && After(s, run) == After(t, rest) && (NeverBreaks(s, run) ==> NeverBreaks(t, rest))
  {
    var s, t := One(limit, 0, 0, map[], Loaded(held, 0)), One(limit, held, 0, map[], Reserved(held));
    assert Next(s, Step(0, Cas)) == t;
    assert Next(t, Step(0, Commit(7))) == One(limit, held, held, map[7 := held], Quiet);
    run := StepThenRun(t, Step(0, Commit(7)), rest);
    run := StepThenRun(s, Step(0, Cas), run);
  }

  /** Under every limit one thread alone gets there: it holds `held` bytes, asks for 2^64 - held, is
      admitted and, refused by the device, rolls back below zero. */
  lemma WrapIsReached(limit: nat, held: nat) returns (run: seq<Step>)
    requires 0 < held <= limit < U64
    ensures RunOk(Start(limit, [0], 1), run) && !NeverBreaks(Start(limit, [0], 1), run)
    ensures var s := After(Start(limit, [0], 1), run);
            Enabled(s, Step(0, Rollback)) && Heals(s, Step(0, Rollback))
  {
    assert One(limit, 0, 0, map[], Quiet) == Start(limit, [0], 1);
    hide Start, One, RunOk, After, NeverBreaks, Next, Enabled, Heals;
    run := OneWraps(limit, held, map[7 := held]);
    run := OneLoads(limit, held, held, map[7 := held], U64 - held, run);
    run := OneCommits(limit, held, run);
    run := OneLoads(limit, 0, 0, map[], held, run);
  }

  lemma TotalOfOne(x: nat)
    ensures Total([x]) == x
  {
    assert [x][..0] == [];
  }
}
