// Electing one manager per pod over the registry shared by all pods, with takeover from crashed
// managers.  Winning, reclaiming the predecessor's global slot and registering are one step, a
// heartbeat is stale only for a crashed manager, and pids are distinct across pods.
module Election {
  import opened Shmem
  import Ring

  datatype Role = Standby | Managing(slot: nat)

  datatype Proc = Proc(pod: nat, live: bool, role: Role)

  /** What a pod's shared region records of its manager. */
  datatype PodRecord = PodRecord(manager_pid: int, global_idx: int)

  datatype State = State(g: Ring.Registry, pods: seq<PodRecord>, procs: map<int, Proc>)

  datatype Step =
    | Spawn(p: int, pod: nat)
    | Elect(p: int)
    | Crash(p: int)
    | Resign(p: int)
    | Watchdog(slot: nat)

  /** `try_become_manager`: the predecessor's pid on a win (0 for none), or nothing on a loss. */
  datatype Outcome = Won(predecessor: int) | Lost

  function TryBecome(r: PodRecord, p: int, ownerAlive: bool): Outcome {
    if r.manager_pid == 0 || r.manager_pid == p then Won(0)
    else if !ownerAlive then Won(r.manager_pid)
    else Lost
  }

  /** `reclaim_stale_global_slot`: only the predecessor's own slot is cleared. */
  function Reclaim(g: Ring.Registry, r: PodRecord, predecessor: int): (h: Ring.Registry)
    requires Ring.Wf(g)
    ensures Ring.Wf(h)
  {
    if predecessor == 0 || r.global_idx < 0 || r.global_idx >= MAX_MANAGERS then g
    else if g.slots[r.global_idx].pid == predecessor then Ring.Deactivate(g, r.global_idx)
    else g
  }

  /** Reclaiming does not look at who is recorded as manager now. */
  lemma ReclaimReadsIndex(g: Ring.Registry, r: PodRecord, p: int, predecessor: int)
    requires Ring.Wf(g)
    ensures Reclaim(g, r.(manager_pid := p), predecessor) == Reclaim(g, r, predecessor)
  {
  }

  ghost predicate Wf(s: State) {
    && Ring.Wf(s.g)
    && (forall p :: p in s.procs ==> p != 0 && s.procs[p].pod < |s.pods|)
    && (forall p :: p in s.procs && s.procs[p].role.Managing? ==> s.procs[p].role.slot < MAX_MANAGERS)
  }

  ghost predicate Alive(s: State, p: int) {
    p in s.procs && s.procs[p].live
  }

  ghost predicate IsManager(s: State, p: int) {
    Alive(s, p) && s.procs[p].role.Managing?
  }

  ghost predicate Enabled(s: State, step: Step) {
    match step
    case Spawn(p, pod) => p != 0 && p !in s.procs && pod < |s.pods|
    case Elect(p) => Alive(s, p) && s.procs[p].role.Standby?
    case Crash(p) => p in s.procs
    case Resign(p) => IsManager(s, p)
    case Watchdog(slot) => slot < MAX_MANAGERS && forall p :: IsManager(s, p) ==> s.procs[p].role.slot != slot
  }

  /** The winner's steps after the election. */
  ghost function TakeOffice(s: State, p: int, predecessor: int): (t: State)
    requires Wf(s) && p in s.procs
    ensures Wf(t)
  {
    var pod := s.procs[p].pod;
    var g := Reclaim(s.g, s.pods[pod], predecessor);
    var i := Ring.FirstFree(g, 0);
    if i == MAX_MANAGERS then State(g, s.pods[pod := s.pods[pod].(manager_pid := 0)], s.procs)
    else State(Ring.Register(g, p), s.pods[pod := PodRecord(p, i)], s.procs[p := s.procs[p].(role := Managing(i))])
  }

  ghost function Next(s: State, step: Step): (t: State)
    requires Wf(s) && Enabled(s, step)
    ensures Wf(t)
  {
    match step
    case Spawn(p, pod) => s.(procs := s.procs[p := Proc(pod, true, Standby)])
    case Elect(p) =>
      var r := s.pods[s.procs[p].pod];
      (match TryBecome(r, p, Alive(s, r.manager_pid))
       case Won(predecessor) => TakeOffice(s, p, predecessor)
       case Lost => s)
    case Crash(p) => s.(procs := s.procs[p := s.procs[p].(live := false)])
    case Resign(p) =>
      var pod := s.procs[p].pod;
      var mp := if s.pods[pod].manager_pid == p then 0 else s.pods[pod].manager_pid;
      State(Ring.Deactivate(s.g, s.procs[p].role.slot), s.pods[pod := PodRecord(mp, -1)],
            s.procs[p := s.procs[p].(role := Standby)])
    case Watchdog(slot) => s.(g := Ring.Deactivate(s.g, slot))
  }

  /** What an election does to the registry and to the record of the pod. */
  lemma ElectMoves(s: State, p: int)
    requires Wf(s) && Enabled(s, Elect(p))
    ensures var r, t := s.pods[s.procs[p].pod], Next(s, Elect(p));
            && p in t.procs && t.procs[p].pod == s.procs[p].pod
            && match TryBecome(r, p, Alive(s, r.manager_pid))
               case Lost => t == s
               case Won(predecessor) =>
                 var g := Reclaim(s.g, r, predecessor);
                 var i := Ring.FirstFree(g, 0);
                 && t.g == Ring.Register(g, p)
                 && t.pods[t.procs[p].pod] == if i == MAX_MANAGERS then PodRecord(0, r.global_idx) else PodRecord(p, i)
  {
    hide Reclaim;
  }

  /** The recorded manager is of the pod, and manages if it lives. */
  ghost predicate PodOk(s: State, pod: nat)
    requires pod < |s.pods|
  {
    var m := s.pods[pod].manager_pid;
    m != 0 ==> m in s.procs && s.procs[m].pod == pod && (s.procs[m].live ==> s.procs[m].role.Managing?)
  }

  /** A live manager is the recorded one and its slot is active under its pid. */
  ghost predicate ManagerOk(s: State, p: int)
    requires Wf(s)
  {
    IsManager(s, p) ==>
      var pod, i := s.procs[p].pod, s.procs[p].role.slot;
      s.pods[pod] == PodRecord(p, i) && s.g.slots[i].active && s.g.slots[i].pid == p
  }

  /** An active slot is that of its pod's recorded manager. */
  ghost predicate SlotOk(s: State, i: nat)
    requires Wf(s) && i < MAX_MANAGERS
  {
    s.g.slots[i].active ==>
      var p := s.g.slots[i].pid;
      p in s.procs && s.pods[s.procs[p].pod] == PodRecord(p, i)
  }

  ghost predicate Inv(s: State) {
    && Wf(s)
    && (forall pod :: 0 <= pod < |s.pods| ==> PodOk(s, pod))
    && (forall p :: p in s.procs ==> ManagerOk(s, p))
    && (forall i :: 0 <= i < MAX_MANAGERS ==> SlotOk(s, i))
  }

  /** On a win, reclaiming leaves the pod without an active slot and every other pod's as it was. */
  lemma ReclaimClearsOwnPod(s: State, pod: nat, predecessor: int)
    requires Inv(s) && pod < |s.pods|
    requires predecessor == s.pods[pod].manager_pid
    requires predecessor in s.procs ==> !s.procs[predecessor].live
    ensures var g := Reclaim(s.g, s.pods[pod], predecessor);
            forall i :: 0 <= i < MAX_MANAGERS && s.g.slots[i].active ==>
              var q := s.g.slots[i].pid;
              q in s.procs && (if s.procs[q].pod == pod then !g.slots[i].active else g.slots[i] == s.g.slots[i])
    ensures forall i :: 0 <= i < MAX_MANAGERS && !s.g.slots[i].active ==>
              !Reclaim(s.g, s.pods[pod], predecessor).slots[i].active
  {
    forall i | 0 <= i < MAX_MANAGERS && s.g.slots[i].active
      ensures var q := s.g.slots[i].pid;
              var g := Reclaim(s.g, s.pods[pod], predecessor);
              q in s.procs && (if s.procs[q].pod == pod then !g.slots[i].active else g.slots[i] == s.g.slots[i])
    {
      assert SlotOk(s, i) && PodOk(s, pod);
    }
  }

  /** The winner's state satisfies the invariant once its own pod's slots are clear. */
  lemma TakeOfficeKeepsInv(s: State, p: int, predecessor: int)
    requires Inv(s) && Enabled(s, Elect(p))
    requires predecessor == s.pods[s.procs[p].pod].manager_pid
    requires predecessor in s.procs ==> !s.procs[predecessor].live
    ensures Inv(TakeOffice(s, p, predecessor))
  {
    hide Reclaim, Ring.FirstFree;
    var pod := s.procs[p].pod;
    var s' := TakeOffice(s, p, predecessor);
    ReclaimClearsOwnPod(s, pod, predecessor);
    assert PodOk(s, pod);
    forall q | q in s'.procs
      ensures ManagerOk(s', q)
    {
      assert ManagerOk(s, q);
    }
    forall i | 0 <= i < MAX_MANAGERS
      ensures SlotOk(s', i)
    {
      assert SlotOk(s, i);
    }
    forall d | 0 <= d < |s'.pods|
      ensures PodOk(s', d)
    {
      assert PodOk(s, d);
    }
  }

  lemma ElectKeepsInv(s: State, p: int)
    requires Inv(s) && Enabled(s, Elect(p))
    ensures Inv(Next(s, Elect(p)))
  {
    hide TakeOffice;
    var r := s.pods[s.procs[p].pod];
    assert PodOk(s, s.procs[p].pod);
    if r.manager_pid == 0 || !s.procs[r.manager_pid].live {
      TakeOfficeKeepsInv(s, p, r.manager_pid);
    }
  }

  /** Who wins: a standby process that runs the election manages its pod afterwards if and only if the
      recorded manager is not alive and some global slot is inactive or active for its own pod. */
  lemma ElectWinsIff(s: State, p: int)
    requires Inv(s) && Enabled(s, Elect(p))
    ensures IsManager(Next(s, Elect(p)), p) <==>
              && !Alive(s, s.pods[s.procs[p].pod].manager_pid)
              && exists i :: 0 <= i < MAX_MANAGERS && RoomFor(s, p, i)
  {
    hide Reclaim;
    var pod := s.procs[p].pod;
    var r := s.pods[pod];
    assert PodOk(s, pod);
    if !Alive(s, r.manager_pid) {
      ReclaimClearsOwnPod(s, pod, r.manager_pid);
      var g := Reclaim(s.g, r, r.manager_pid);
      forall i | 0 <= i < MAX_MANAGERS
        ensures RoomFor(s, p, i) <==> !g.slots[i].active
      {
        assert SlotOk(s, i);
      }
    }
  }

  /** Global slot `i` is inactive, or active under a pid of `p`'s pod. */
  ghost predicate RoomFor(s: State, p: int, i: nat)
    requires Wf(s) && p in s.procs && i < MAX_MANAGERS
  {
    s.g.slots[i].active ==> s.g.slots[i].pid in s.procs && s.procs[s.g.slots[i].pid].pod == s.procs[p].pod
  }

  /** And when it wins, the registry and the record of its pod name it in an active slot, and no other
      pod's record changes; when it does not, its pod has no manager or keeps the one it had. */
  lemma ElectInstalls(s: State, p: int)
    requires Inv(s) && Enabled(s, Elect(p))
    ensures var t, pod := Next(s, Elect(p)), s.procs[p].pod;
            && (IsManager(t, p) ==>
                  var i := t.procs[p].role.slot;
                  t.pods[pod] == PodRecord(p, i) && t.g.slots[i] == ManagerSlot(p, DEFAULT_AVG_US, true))
            && (Alive(s, s.pods[pod].manager_pid) ==> t == s)
            && (!Alive(s, s.pods[pod].manager_pid) && !IsManager(t, p) ==> t.pods[pod].manager_pid == 0)
            && |t.pods| == |s.pods| && forall d :: 0 <= d < |s.pods| && d != pod ==> t.pods[d] == s.pods[d]
  {
    hide Reclaim;
    assert PodOk(s, s.procs[p].pod);
  }

  lemma StepKeepsInv(s: State, step: Step)
    requires Inv(s) && Enabled(s, step)
    ensures Inv(Next(s, step))
  {
    if step.Elect? {
      ElectKeepsInv(s, step.p);
    } else {
      var s' := Next(s, step);
      forall q | q in s'.procs
        ensures ManagerOk(s', q)
      {
        if q in s.procs {
          assert ManagerOk(s, q);
        }
        if step.Resign? {
          assert ManagerOk(s, step.p);
        }
      }
      forall i | 0 <= i < MAX_MANAGERS
        ensures SlotOk(s', i)
      {
        assert SlotOk(s, i);
        if step.Resign? {
          assert ManagerOk(s, step.p);
        }
      }
      forall d | 0 <= d < |s'.pods|
        ensures PodOk(s', d)
      {
        assert PodOk(s, d);
      }
    }
  }

  /** A pod does not stay without a manager: when one crashes or resigns, any standby process of the
      pod that runs the election next becomes manager, however full the registry is. */
  lemma SuccessorWins(s: State, p: int, q: int, step: Step)
    requires Inv(s) && IsManager(s, p) && (step == Crash(p) || step == Resign(p)) && p != q
    requires Enabled(s, Elect(q)) && s.procs[q].pod == s.procs[p].pod
    ensures var t := Next(s, step); Enabled(t, Elect(q)) && IsManager(Next(t, Elect(q)), q)
  {
    hide TakeOffice;
    var t, i := Next(s, step), s.procs[p].role.slot;
    assert ManagerOk(s, p);
    StepKeepsInv(s, step);
    assert RoomFor(t, q, i);
    ElectWinsIff(t, q);
  }

  // ----- runs -----

  ghost predicate RunOk(s: State, run: seq<Step>)
    requires Wf(s)
    decreases |run|
  {
    run == [] || (Enabled(s, run[0]) && RunOk(Next(s, run[0]), run[1..]))
  }

  ghost function After(s: State, run: seq<Step>): (r: State)
    requires Wf(s) && RunOk(s, run)
    ensures Wf(r)
    decreases |run|
  {
    if run == [] then s else After(Next(s, run[0]), run[1..])
  }

  lemma {:induction false} RunKeepsInv(s: State, run: seq<Step>)
    requires Inv(s) && RunOk(s, run)
    ensures Inv(After(s, run))
    decreases |run|
  {
    if run != [] {
      StepKeepsInv(s, run[0]);
      RunKeepsInv(Next(s, run[0]), run[1..]);
    }
  }

  /** `n` pods before any process has started. */
  ghost function Start(n: nat): State {
    State(Ring.Initial(), seq(n, _ => PodRecord(0, 0)), map[])
  }

  /** In every reachable state a pod has at most one live manager and at most one active global slot,
      and every live manager's slot is active under its own pid. */
  lemma OneManagerPerPod(n: nat, run: seq<Step>)
    requires Wf(Start(n)) && RunOk(Start(n), run)
    ensures var s := After(Start(n), run);
            && (forall p, q :: IsManager(s, p) && IsManager(s, q) && s.procs[p].pod == s.procs[q].pod ==> p == q)
            && (forall i, j | 0 <= i < j < MAX_MANAGERS && s.g.slots[i].active && s.g.slots[j].active ::
                  s.g.slots[i].pid in s.procs && s.g.slots[j].pid in s.procs
                  && s.procs[s.g.slots[i].pid].pod != s.procs[s.g.slots[j].pid].pod)
            && (forall p :: IsManager(s, p) ==>
                  s.g.slots[s.procs[p].role.slot].active && s.g.slots[s.procs[p].role.slot].pid == p)
  {
    RunKeepsInv(Start(n), run);
    var s := After(Start(n), run);
    forall p, q | IsManager(s, p) && IsManager(s, q) && s.procs[p].pod == s.procs[q].pod
      ensures p == q
    {
      assert ManagerOk(s, p) && ManagerOk(s, q);
    }
    forall i, j | 0 <= i < j < MAX_MANAGERS && s.g.slots[i].active && s.g.slots[j].active
      ensures s.g.slots[i].pid in s.procs && s.g.slots[j].pid in s.procs
           && s.procs[s.g.slots[i].pid].pod != s.procs[s.g.slots[j].pid].pod
    {
      assert SlotOk(s, i) && SlotOk(s, j);
    }
    forall p | IsManager(s, p)
      ensures s.g.slots[s.procs[p].role.slot].active && s.g.slots[s.procs[p].role.slot].pid == p
    {
      assert ManagerOk(s, p);
    }
  }

  /** An election never changes a slot that is active for another pod, even when it is the one the
      predecessor used to have. */
  lemma ElectionSparesOtherPods(s: State, p: int, i: nat)
    requires Inv(s) && Enabled(s, Elect(p)) && i < MAX_MANAGERS && s.g.slots[i].active
    requires s.g.slots[i].pid in s.procs ==> s.procs[s.g.slots[i].pid].pod != s.procs[p].pod
    ensures Next(s, Elect(p)).g.slots[i] == s.g.slots[i]
  {
    var r := s.pods[s.procs[p].pod];
    assert PodOk(s, s.procs[p].pod) && SlotOk(s, i);
    if r.manager_pid == 0 || !s.procs[r.manager_pid].live {
      ReclaimClearsOwnPod(s, s.procs[p].pod, r.manager_pid);
    }
  }

  /** Why registration has to be one step: between another pod's setting the active flag of slot i
      and storing its pid there, a reclaim clears that flag exactly when the slot still carries the
      predecessor's pid. */
  lemma ReclaimHitsHalfRegisteredIff(g: Ring.Registry, r: PodRecord, predecessor: int, i: nat)
    requires Ring.Wf(g) && i < MAX_MANAGERS && !g.slots[i].active
    ensures var half := g.(slots := g.slots[i := g.slots[i].(active := true)]);
            !Reclaim(half, r, predecessor).slots[i].active <==>
              predecessor != 0 && r.global_idx == i && g.slots[i].pid == predecessor
  {
  }

  lemma StepThenRun(s: State, step: Step, rest: seq<Step>) returns (run: seq<Step>)
    requires Wf(s) && Enabled(s, step) && RunOk(Next(s, step), rest)
    ensures RunOk(s, run) && After(s, run) == After(Next(s, step), rest)
  {
    run := [step] + rest;
    assert run[1..] == rest;
  }

  /** Pod 0's manager has crashed and the watchdog has evicted it; a second process of pod 0 and one
      of pod 1 stand by. */
  ghost function Evicted(): State {
    var g := Ring.Initial();
    State(g.(slots := g.slots[0 := ManagerSlot(10, DEFAULT_AVG_US, false)]), [PodRecord(10, 0), PodRecord(0, 0)],
          map[10 := Proc(0, false, Managing(0)), 20 := Proc(1, true, Standby), 30 := Proc(0, true, Standby)])
  }

  lemma FirstManagerElected(s: State, p: int)
    requires Wf(s) && s.g == Ring.Initial() && Enabled(s, Elect(p)) && s.pods[s.procs[p].pod].manager_pid == 0
    ensures var g := s.g.(slots := s.g.slots[0 := ManagerSlot(p, DEFAULT_AVG_US, true)]);
            && Next(s, Elect(p)).g == g && Next(s, Elect(p)).pods == s.pods[s.procs[p].pod := PodRecord(p, 0)]
            && Next(s, Elect(p)).procs == s.procs[p := s.procs[p].(role := Managing(0))]
  {
    assert Ring.FirstFree(s.g, 0) == 0;
  }

  lemma EvictedIsReached() returns (run: seq<Step>)
    ensures Wf(Start(2)) && RunOk(Start(2), run) && After(Start(2), run) == Evicted()
  {
    hide TakeOffice, TryBecome, Reclaim, Ring.Register;
    var s0 := Start(2);
    var s1 := Next(s0, Spawn(10, 0));
    var s2 := Next(s1, Spawn(20, 1));
    var s3 := Next(s2, Spawn(30, 0));
    FirstManagerElected(s3, 10);
    var s4 := Next(s3, Elect(10));
    var s5 := Next(s4, Crash(10));
    assert Next(s5, Watchdog(0)) == Evicted();
    run := StepThenRun(s5, Watchdog(0), []);
    run := StepThenRun(s4, Crash(10), run);
    run := StepThenRun(s3, Elect(10), run);
    run := StepThenRun(s2, Spawn(30, 0), run);
    run := StepThenRun(s1, Spawn(20, 1), run);
    run := StepThenRun(s0, Spawn(10, 0), run);
  }

  /** There its slot, still under its pid, is the first that pod 1's candidate finds free.  When pod
      0's next winner reclaims between the candidate's two stores, the candidate's flag is gone. */
  lemma HalfRegistrationIsHit() returns (run: seq<Step>)
    ensures Wf(Start(2)) && RunOk(Start(2), run)
    ensures var s := After(Start(2), run);
            var i := Ring.FirstFree(s.g, 0);
            && |s.pods| == 2 && i < MAX_MANAGERS
            && Enabled(s, Elect(20)) && s.procs[20].pod == 1 && s.pods[1].manager_pid == 0
            && Enabled(s, Elect(30)) && s.procs[30].pod == 0 && s.pods[0].manager_pid == 10 && !Alive(s, 10)
            && var half := s.g.(slots := s.g.slots[i := s.g.slots[i].(active := true)]);
               !Reclaim(half, s.pods[0], 10).slots[i].active
  {
    run := EvictedIsReached();
    assert Ring.FirstFree(Evicted().g, 0) == 0;
    ReclaimHitsHalfRegisteredIff(Evicted().g, PodRecord(10, 0), 10, 0);
  }
}
