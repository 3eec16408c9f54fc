// The baton as a crash-tolerant lock: any number of managers, over the life of the registry,
// register, join, poll, pass, crash and are reclaimed in any order.
module BatonSafety {
  import opened Shmem
  import Ring

  /** Where a manager stands: it owns a slot, waits in the queue, or runs its round. */
  datatype Phase = Registered | Waiting | Holding

  datatype Manager = Manager(idx: nat, phase: Phase, live: bool)

  /** Managers are named by their process id; pods have distinct ones. */
  datatype State = State(g: Ring.Registry, ms: map<int, Manager>)

  datatype Step =
    | Register(pid: int)
    | Join(pid: int)
    | Poll(pid: int, stale: bool)
    | Pass(pid: int)
    | Crash(pid: int)
    | Reclaim(pid: int)

  ghost predicate Is(s: State, pid: int, phase: Phase) {
    pid in s.ms && s.ms[pid].live && s.ms[pid].phase == phase
  }

  /** Some live manager owns slot `i`. */
  ghost predicate LiveAt(s: State, i: nat) {
    exists p :: p in s.ms && s.ms[p].live && s.ms[p].idx == i
  }

  ghost predicate Sane(s: State) {
    && Ring.Wf(s.g)
    && (forall p :: p in s.ms ==> s.ms[p].idx < MAX_MANAGERS)
  }

  /** The watchdog's verdict may be `stale` only about an owner that is no longer live.  A
      predecessor is reclaimed only after it crashed. */
  ghost predicate Enabled(s: State, step: Step) {
    match step
    case Register(p) => p !in s.ms
    case Join(p) => Is(s, p, Registered)
    case Poll(p, stale) => Is(s, p, Waiting) && (stale ==> !LiveAt(s, s.g.owner))
    case Pass(p) => Is(s, p, Holding)
    case Crash(p) => p in s.ms && s.ms[p].live
    case Reclaim(p) => p in s.ms && !s.ms[p].live
  }

  ghost function Moved(s: State, p: int, g: Ring.Registry, phase: Phase): State
    requires p in s.ms
  {
    State(g, s.ms[p := s.ms[p].(phase := phase)])
  }

  ghost function Next(s: State, step: Step): (r: State)
    requires Sane(s) && (step.Register? || step.pid in s.ms)
    ensures Sane(r)
  {
    match step
    case Register(p) =>
      var i := Ring.FirstFree(s.g, 0);
      if i == MAX_MANAGERS then s else State(Ring.Register(s.g, p), s.ms[p := Manager(i, Phase.Registered, true)])
    case Join(p) => Moved(s, p, Ring.Join(s.g, s.ms[p].idx), Waiting)
    case Poll(p, stale) =>
      var (g, won) := Ring.Poll(s.g, s.ms[p].idx, stale);
      Moved(s, p, g, if won then Holding else Waiting)
    case Pass(p) => Moved(s, p, Ring.Pass(s.g, s.ms[p].idx), Waiting)
    case Crash(p) => s.(ms := s.ms[p := s.ms[p].(live := false)])
    case Reclaim(p) =>
      var i := s.ms[p].idx;
      if s.g.slots[i].pid == p then s.(g := Ring.Deactivate(s.g, i)) else s
  }

  /** A live manager's slot is active and carries its pid, and a live holder is the owner. */
  ghost predicate Safe(s: State) {
    && Sane(s)
    && (forall p :: p in s.ms && s.ms[p].live ==>
          s.g.slots[s.ms[p].idx].active && s.g.slots[s.ms[p].idx].pid == p)
    && (forall p :: Is(s, p, Holding) ==> s.g.owner == s.ms[p].idx)
  }

  /** At most one live manager is between its turn and its pass. */
  ghost predicate Exclusive(s: State) {
    forall p, q :: Is(s, p, Holding) && Is(s, q, Holding) ==> p == q
  }

  lemma SafeIsExclusive(s: State)
    requires Safe(s)
    ensures Exclusive(s)
    ensures forall p :: Is(s, p, Holding) ==> s.g.owner == s.ms[p].idx && Ring.Active(s.g, s.g.owner)
  {
    forall p, q | Is(s, p, Holding) && Is(s, q, Holding)
      ensures p == q
    {
      assert s.g.slots[s.ms[p].idx].pid == p && s.g.slots[s.ms[q].idx].pid == q;
    }
  }

  lemma StepIsSafe(s: State, step: Step)
    requires Safe(s) && Enabled(s, step)
    ensures Safe(Next(s, step))
  {
    var s' := Next(s, step);
    SafeIsExclusive(s);
    forall p | p in s'.ms && s'.ms[p].live
      ensures s'.g.slots[s'.ms[p].idx].active && s'.g.slots[s'.ms[p].idx].pid == p
    {
    }
    forall p | Is(s', p, Holding)
      ensures s'.g.owner == s'.ms[p].idx
    {
    }
  }

  // ----- runs -----

  ghost predicate RunOk(s: State, run: seq<Step>)
    requires Sane(s)
    decreases |run|
  {
    run == [] || (Enabled(s, run[0]) && RunOk(Next(s, run[0]), run[1..]))
  }

  ghost function After(s: State, run: seq<Step>): (r: State)
    requires Sane(s) && RunOk(s, run)
    ensures Sane(r)
    decreases |run|
  {
    if run == [] then s else After(Next(s, run[0]), run[1..])
  }

  /** Safety over every run, crashes included. */
  lemma {:induction false} RunIsSafe(s: State, run: seq<Step>)
    requires Safe(s) && RunOk(s, run)
    ensures Safe(After(s, run)) && Exclusive(After(s, run))
    decreases |run|
  {
    SafeIsExclusive(s);
    if run != [] {
      StepIsSafe(s, run[0]);
      RunIsSafe(Next(s, run[0]), run[1..]);
    }
  }

  /** In every state reached from a fresh registry at most one live manager holds the baton,
      and it is the recorded owner with an active slot. */
  lemma MutualExclusion(run: seq<Step>)
    requires RunOk(State(Ring.Initial(), map[]), run)
    ensures var s := After(State(Ring.Initial(), map[]), run);
            && Safe(s) && Exclusive(s)
            && (forall p :: Is(s, p, Holding) ==> s.g.owner == s.ms[p].idx && Ring.Active(s.g, s.g.owner))
  {
    RunIsSafe(State(Ring.Initial(), map[]), run);
    SafeIsExclusive(After(State(Ring.Initial(), map[]), run));
  }

  /** `p` has the baton for the taking: one look gives it its turn. */
  ghost predicate TurnObservable(s: State, p: int)
    requires Sane(s)
  {
    Is(s, p, Waiting) && Is(Next(s, Step.Poll(p, false)), p, Holding)
  }

  ghost predicate ClaimEnabled(s: State, p: int, stale: bool)
    requires Sane(s)
  {
    Enabled(s, Step.Poll(p, stale)) && Is(Next(s, Step.Poll(p, stale)), p, Holding)
  }

  /** The waiter `w` is not stuck: a live manager holds the baton, or has its turn to see, or the
      waiter itself may claim. */
  ghost predicate Unstuck(s: State, w: int)
    requires Sane(s)
  {
    || (exists p :: Is(s, p, Holding))
    || (exists p :: TurnObservable(s, p))
    || ClaimEnabled(s, w, false) || ClaimEnabled(s, w, true)
  }

  /** A live waiter is stuck exactly while a live manager that has not joined yet sits in the slot the
      baton names; once that one joins, it has its turn to see. */
  lemma NoDeadlockIff(s: State, w: int)
    requires Safe(s) && Is(s, w, Waiting)
    ensures Unstuck(s, w) <==> !(exists p :: Is(s, p, Registered) && s.ms[p].idx == s.g.owner)
    ensures forall p :: Is(s, p, Registered) && s.ms[p].idx == s.g.owner ==> TurnObservable(Next(s, Step.Join(p)), p)
  {
    var i := s.ms[w].idx;
    if r :| Is(s, r, Registered) && s.ms[r].idx == s.g.owner {
      assert LiveAt(s, s.g.owner);
      forall p | p in s.ms && s.ms[p].live && s.ms[p].idx == s.g.owner
        ensures p == r
      {
        assert s.g.slots[s.g.owner].pid == p;
      }
    } else if s.g.owner == i || !Ring.Active(s.g, s.g.owner) {
      assert ClaimEnabled(s, w, false);
    } else if LiveAt(s, s.g.owner) {
      var p :| p in s.ms && s.ms[p].live && s.ms[p].idx == s.g.owner;
      match s.ms[p].phase {
        case Waiting => assert TurnObservable(s, p);
        case Holding => assert Is(s, p, Holding);
        case Registered => assert false;
      }
    } else {
      assert ClaimEnabled(s, w, true);
    }
  }

  lemma StepThenRun(s: State, step: Step, rest: seq<Step>) returns (run: seq<Step>)
    requires Sane(s) && Enabled(s, step) && RunOk(Next(s, step), rest)
    ensures RunOk(s, run) && After(s, run) == After(Next(s, step), rest)
  {
    run := [step] + rest;
    assert run[1..] == rest;
  }

  /** Manager 1 has crashed as the holder and been reclaimed, manager 3 has registered in its slot, and
      manager 2 waits. */
  ghost predicate SlotReused(s: State) {
    && Sane(s) && s.g.owner == 0 && Is(s, 2, Waiting) && s.ms[2].idx == 1
    && Is(s, 3, Registered) && s.ms[3].idx == 0
  }

  /** Manager 1 alone has registered, joined and claimed. */
  ghost predicate OneHolds(s: State) {
    && Sane(s) && s.g.owner == 0 && s.ms == map[1 := Manager(0, Holding, true)]
    && s.g.slots == Ring.Initial().slots[0 := ManagerSlot(1, DEFAULT_AVG_US, true)]
  }

  lemma SlotIsReused(s3: State) returns (run: seq<Step>)
    requires OneHolds(s3)
    ensures RunOk(s3, run) && SlotReused(After(s3, run))
  {
    Ring.FirstFreeIs(s3.g, 1);
    var s4 := Next(s3, Register(2));
    var s5 := Next(s4, Step.Join(2));
    var s6 := Next(s5, Crash(1));
    var s7 := Next(s6, Step.Reclaim(1));
    Ring.FirstFreeIs(s7.g, 0);
    run := StepThenRun(s7, Register(3), []);
    run := StepThenRun(s6, Step.Reclaim(1), run);
    run := StepThenRun(s5, Crash(1), run);
    run := StepThenRun(s4, Step.Join(2), run);
    run := StepThenRun(s3, Register(2), run);
  }

  lemma SlotReusedIsReached() returns (run: seq<Step>)
    ensures RunOk(State(Ring.Initial(), map[]), run) && SlotReused(After(State(Ring.Initial(), map[]), run))
  {
    hide After, SlotReused;
    var s0 := State(Ring.Initial(), map[]);
    Ring.FirstFreeIs(s0.g, 0);
    var s1 := Next(s0, Register(1));
    var s2 := Next(s1, Step.Join(1));
    var s3 := Next(s2, Step.Poll(1, false));
    run := SlotIsReused(s3);
    run := StepThenRun(s2, Step.Poll(1, false), run);
    run := StepThenRun(s1, Step.Join(1), run);
    run := StepThenRun(s0, Register(1), run);
  }

  /** Then manager 2 can do nothing until manager 3 joins. */
  lemma WaiterIsStuck() returns (run: seq<Step>)
    ensures RunOk(State(Ring.Initial(), map[]), run)
    ensures var s := After(State(Ring.Initial(), map[]), run); Safe(s) && Is(s, 2, Waiting) && !Unstuck(s, 2)
  {
    run := SlotReusedIsReached();
    MutualExclusion(run);
    NoDeadlockIff(After(State(Ring.Initial(), map[]), run), 2);
  }

  /** A join makes its manager wait, as the last entry of the circle, and moves nobody else. */
  lemma JoinEnqueues(s: State, p: int)
    requires Safe(s) && Is(s, p, Registered)
    ensures var t := Next(s, Step.Join(p));
            && Is(t, p, Waiting) && t.g.owner == s.g.owner && t.g.slots == s.g.slots
            && Ring.Circle(t.g)[|Ring.Circle(t.g)| - 1] == s.ms[p].idx
            && (|Ring.Circle(s.g)| < MAX_MANAGERS ==> Ring.Circle(t.g) == Ring.Circle(s.g) + [s.ms[p].idx])
            && forall o :: o != p ==> (o in t.ms <==> o in s.ms) && (o in s.ms ==> t.ms[o] == s.ms[o])
  {
    hide Ring.Circle;
    Ring.JoinCircle(s.g, s.ms[p].idx);
  }

  /** A pass gives the turn away: the holder waits again, the baton goes to the first active entry of
      the rest of the circle and the holder's own, and a live waiter with that index sees it. */
  lemma PassGivesTurn(s: State, p: int, q: int)
    requires Safe(s) && Is(s, p, Holding)
    ensures var t := Next(s, Step.Pass(p));
            var rest := Ring.DropInactive(s.g, Ring.Circle(s.g)[1..] + [s.ms[p].idx]);
            && Is(t, p, Waiting) && Ring.Circle(t.g) == rest && rest != [] && t.g.owner == rest[0]
            && (Is(t, q, Waiting) && t.ms[q].idx == rest[0] ==> TurnObservable(t, q))
            && forall o :: o != p ==> (o in t.ms <==> o in s.ms) && (o in s.ms ==> t.ms[o] == s.ms[o])
  {
    hide Ring.Circle, Ring.Pass, Ring.Scan;
    assert Ring.Active(s.g, s.ms[p].idx);
    Ring.PassCircle(s.g, s.ms[p].idx);
  }

  /** A watchdog claim evicts the stale owner: it holds neither the baton nor an active slot any more,
      and no other manager's pass hands the baton to its index. */
  lemma StaleClaimEvicts(s: State, w: int, passer: nat)
    requires Safe(s) && Is(s, w, Waiting) && s.g.owner != s.ms[w].idx && passer < MAX_MANAGERS && passer != s.g.owner
    ensures var g := Next(s, Step.Poll(w, true)).g;
            && g.owner == s.ms[w].idx && !Ring.Active(g, s.g.owner)
            && (forall i :: 0 <= i < MAX_MANAGERS && i != s.g.owner ==> g.slots[i] == s.g.slots[i])
            && Ring.Pass(g, passer).owner != s.g.owner
  {
    Ring.PassChoosesActive(Next(s, Step.Poll(w, true)).g, passer);
  }

  /** What the watchdog's premise buys: a steal by a waiter keeps exclusion exactly when no live
      manager was holding. */
  lemma StealKeepsExclusionIff(s: State, w: int)
    requires Safe(s) && Is(s, w, Waiting) && s.g.owner != s.ms[w].idx
    ensures Exclusive(Next(s, Step.Poll(w, true))) <==> forall p :: !Is(s, p, Holding)
  {
    var s' := Next(s, Step.Poll(w, true));
    assert Is(s', w, Holding);
    forall p
      ensures p != w ==> Is(s', p, Holding) == Is(s, p, Holding)
    {
    }
  }
}
