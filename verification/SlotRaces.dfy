// Process slots at the granularity of single atomic operations.  Registering, cleaning up after
// dead processes and dropping interleave freely and any process may crash between any two of its
// operations.  The scans of the table may visit slots in any order here, the real ones in one.
module SlotRaces {
  import opened Arith

  /** One slot; the pod has one device, so its bytes are one number. */
  datatype Slot = Slot(pid: int, active: bool, bytes: nat)

  /** A process's main thread registers, owns, and drops a slot. */
  datatype Pc =
    | Unregistered
    | SawDead(i: nat, pid: int)       // read a dead pid in slot i, about to compare-and-swap it
    | Claimed(i: nat)                 // set the active flag, about to store the pid
    | Zeroing(i: nat)                 // the slot carries our pid, about to zero it
    | Owner(i: nat)                   // registration has returned
    | Dropping(i: nat)                // stored pid 0, about to clear the active flag
    | Clean                           // a clean-up thread (reaper or recalculation) between slots
    | FoundDead(i: nat, pid: int)     // it read a dead pid in slot i
    | Won(i: nat)                     // its compare-and-swap to 0 succeeded
    | Emptied(i: nat)                 // it swapped the bytes out, about to clear the active flag

  /** `hand` holds what a clean-up thread has taken from slots and not yet subtracted. */
  datatype Thread = Thread(pid: int, pc: Pc, hand: nat)

  /** `added`, `freed`, `subtracted` and `zeroed` total the bytes owners put into slots, owners took
      out, clean-up threads subtracted from the counter, and registrations overwrote. */
  datatype State = State(slots: seq<Slot>, dead: set<int>, threads: seq<Thread>,
                         added: nat, freed: nat, subtracted: nat, zeroed: nat)

  datatype Op =
    | TryActive(i: nat)
    | StorePid
    | FindOwn(i: nat)
    | LookDead(i: nat)
    | SwapDead
    | Zero
    | Add(n: nat)
    | Take(n: nat)
    | DropPid
    | DropActive
    | CleanLook(i: nat)
    | CleanSwap
    | CleanEmpty
    | CleanRelease
    | Subtract
    | Crash

  datatype Step = Step(t: nat, op: Op)

  predicate IsWorker(pc: Pc) {
    !(pc.Clean? || pc.FoundDead? || pc.Won? || pc.Emptied?)
  }

  predicate HasIndex(pc: Pc) {
    !pc.Unregistered? && !pc.Clean?
  }

  ghost predicate Enabled(s: State, step: Step) {
    && step.t < |s.threads| && s.threads[step.t].pid !in s.dead
    && var pc := s.threads[step.t].pc;
       match step.op
       case TryActive(i) => pc.Unregistered? && i < |s.slots|
       case StorePid => pc.Claimed?
       case FindOwn(i) => pc.Unregistered? && i < |s.slots| && s.slots[i].active
                            && s.slots[i].pid == s.threads[step.t].pid
       case LookDead(i) => pc.Unregistered? && i < |s.slots| && s.slots[i].pid != 0 && s.slots[i].pid in s.dead
       case SwapDead => pc.SawDead?
       case Zero => pc.Zeroing?
       case Add(n) => pc.Owner?
       case Take(n) => pc.Owner?
       case DropPid => pc.Owner?
       case DropActive => pc.Dropping?
       case CleanLook(i) => pc.Clean? && i < |s.slots| && s.slots[i].pid != 0 && s.slots[i].pid in s.dead
       case CleanSwap => pc.FoundDead?
       case CleanEmpty => pc.Won?
       case CleanRelease => pc.Emptied?
       case Subtract => pc.Clean?
       case Crash => true
  }

  ghost predicate Wf(s: State) {
    forall t :: 0 <= t < |s.threads| && HasIndex(s.threads[t].pc) ==> s.threads[t].pc.i < |s.slots|
  }

  /** Thread t moves to pc. */
  function Go(s: State, t: nat, pc: Pc): State
    requires t < |s.threads|
  {
    s.(threads := s.threads[t := s.threads[t].(pc := pc)])
  }

  function Put(s: State, i: nat, slot: Slot): State
    requires i < |s.slots|
  {
    s.(slots := s.slots[i := slot])
  }

  ghost function Next(s: State, step: Step): (r: State)
    requires Wf(s) && Enabled(s, step)
    ensures Wf(r) && |r.slots| == |s.slots| && |r.threads| == |s.threads|
  {
    var t := step.t;
    var me, pc, hand := s.threads[t].pid, s.threads[t].pc, s.threads[t].hand;
    match step.op
    case TryActive(i) =>
      if s.slots[i].active then s else Go(Put(s, i, s.slots[i].(active := true)), t, Claimed(i))
    case StorePid => Go(Put(s, pc.i, s.slots[pc.i].(pid := me)), t, Zeroing(pc.i))
    case FindOwn(i) => Go(s, t, Zeroing(i))
    case LookDead(i) => Go(s, t, SawDead(i, s.slots[i].pid))
    case SwapDead =>
      if s.slots[pc.i].pid == pc.pid then Go(Put(s, pc.i, s.slots[pc.i].(pid := me)), t, Zeroing(pc.i))
      else Go(s, t, Unregistered)
    case Zero =>
      Go(Put(s, pc.i, s.slots[pc.i].(bytes := 0)), t, Owner(pc.i)).(zeroed := s.zeroed + s.slots[pc.i].bytes)
    case Add(n) => Put(s, pc.i, s.slots[pc.i].(bytes := s.slots[pc.i].bytes + n)).(added := s.added + n)
    case Take(n) =>
      var held := s.slots[pc.i].bytes;
      Put(s, pc.i, s.slots[pc.i].(bytes := SatSub(held, n))).(freed := s.freed + Min(held, n))
    case DropPid => Go(Put(s, pc.i, s.slots[pc.i].(pid := 0)), t, Dropping(pc.i))
    case DropActive => Go(Put(s, pc.i, s.slots[pc.i].(active := false)), t, Unregistered)
    case CleanLook(i) => Go(s, t, FoundDead(i, s.slots[i].pid))
    case CleanSwap =>
      if s.slots[pc.i].pid == pc.pid then Go(Put(s, pc.i, s.slots[pc.i].(pid := 0)), t, Won(pc.i))
      else Go(s, t, Clean)
    case CleanEmpty =>
      var s' := Put(s, pc.i, s.slots[pc.i].(bytes := 0));
      s'.(threads := s.threads[t := Thread(me, Emptied(pc.i), hand + s.slots[pc.i].bytes)])
    case CleanRelease => Go(Put(s, pc.i, s.slots[pc.i].(active := false)), t, Clean)
    case Subtract => s.(threads := s.threads[t := Thread(me, Clean, 0)], subtracted := s.subtracted + hand)
    case Crash => s.(dead := s.dead + {me})
  }

  // ----- exclusivity -----

  predicate InTransit(pc: Pc) {
    pc.Claimed? || pc.Dropping? || pc.Won? || pc.Emptied?
  }

  predicate IsHolder(pc: Pc) {
    pc.Zeroing? || pc.Owner?
  }

  predicate LiveWorker(s: State, t: nat)
    requires t < |s.threads|
  {
    IsWorker(s.threads[t].pc) && s.threads[t].pid !in s.dead
  }

  /** An inactive slot is free. */
  ghost predicate SlotOk(s: State, i: nat)
    requires i < |s.slots|
  {
    !s.slots[i].active ==> s.slots[i].pid == 0
  }

  /** A slot in transit is active without a pid, a live holder's carries its pid, and what was seen
      dead was a dead process. */
  ghost predicate ThreadOk(s: State, t: nat)
    requires Wf(s) && t < |s.threads|
  {
    var th := s.threads[t];
    && th.pid != 0
    && (InTransit(th.pc) ==> s.slots[th.pc.i].active && s.slots[th.pc.i].pid == 0)
    && (IsHolder(th.pc) && th.pid !in s.dead ==> s.slots[th.pc.i].active && s.slots[th.pc.i].pid == th.pid)
    && (th.pc.SawDead? || th.pc.FoundDead? ==> th.pc.pid != 0 && th.pc.pid in s.dead)
  }

  /** Processes have one main thread, and a slot is in transit with one thread only. */
  ghost predicate PairOk(s: State, t: nat, u: nat)
    requires t < |s.threads| && u < |s.threads|
  {
    var a, b := s.threads[t], s.threads[u];
    && (IsWorker(a.pc) && IsWorker(b.pc) ==> a.pid != b.pid)
    && (InTransit(a.pc) && InTransit(b.pc) ==> a.pc.i != b.pc.i)
  }

  /** A live process's pid is in no slot but the one it holds. */
  ghost predicate PidOk(s: State, t: nat, i: nat)
    requires t < |s.threads| && i < |s.slots|
  {
    LiveWorker(s, t) && s.slots[i].pid == s.threads[t].pid ==> IsHolder(s.threads[t].pc) && s.threads[t].pc.i == i
  }

  ghost predicate Exclusive(s: State) {
    && Wf(s)
    && (forall i :: 0 <= i < |s.slots| ==> SlotOk(s, i))
    && (forall t :: 0 <= t < |s.threads| ==> ThreadOk(s, t))
    && (forall t, u :: 0 <= t < |s.threads| && 0 <= u < |s.threads| && t != u ==> PairOk(s, t, u))
    && (forall t, i :: 0 <= t < |s.threads| && 0 <= i < |s.slots| ==> PidOk(s, t, i))
  }

  lemma KeepsSlots(s: State, step: Step, i: nat)
    requires Exclusive(s) && Enabled(s, step) && i < |s.slots|
    ensures SlotOk(Next(s, step), i)
  {
    assert SlotOk(s, i);
    assert ThreadOk(s, step.t);
  }

  lemma KeepsThreads(s: State, step: Step, u: nat)
    requires Exclusive(s) && Enabled(s, step) && u < |s.threads|
    ensures ThreadOk(Next(s, step), u)
  {
    var pc := s.threads[step.t].pc;
    assert ThreadOk(s, step.t) && ThreadOk(s, u);
    if u != step.t {
      assert PairOk(s, u, step.t);
    }
    if HasIndex(pc) {
      assert SlotOk(s, pc.i);
    }
    if step.op.TryActive? {
      assert SlotOk(s, step.op.i);
    }
  }

  lemma KeepsPairs(s: State, step: Step, t: nat, u: nat)
    requires Exclusive(s) && Enabled(s, step) && t < |s.threads| && u < |s.threads| && t != u
    ensures PairOk(Next(s, step), t, u)
  {
    assert PairOk(s, t, u) && ThreadOk(s, t) && ThreadOk(s, u);
  }

  lemma KeepsPids(s: State, step: Step, t: nat, i: nat)
    requires Exclusive(s) && Enabled(s, step) && t < |s.threads| && i < |s.slots|
    ensures PidOk(Next(s, step), t, i)
  {
    var pc := s.threads[step.t].pc;
    assert PidOk(s, t, i) && ThreadOk(s, t) && ThreadOk(s, step.t);
    if t != step.t {
      assert PairOk(s, t, step.t);
    }
  }

  lemma StepKeepsExclusive(s: State, step: Step)
    requires Exclusive(s) && Enabled(s, step)
    ensures Exclusive(Next(s, step))
  {
    hide Next, SlotOk, ThreadOk, PairOk, PidOk;
    var s' := Next(s, step);
    forall i | 0 <= i < |s.slots|
      ensures SlotOk(s', i)
    {
      KeepsSlots(s, step, i);
    }
    forall t | 0 <= t < |s.threads|
      ensures ThreadOk(s', t)
    {
      KeepsThreads(s, step, t);
    }
    forall t, u | 0 <= t < |s.threads| && 0 <= u < |s.threads| && t != u
      ensures PairOk(s', t, u)
    {
      KeepsPairs(s, step, t, u);
    }
    forall t, i | 0 <= t < |s.threads| && 0 <= i < |s.slots|
      ensures PidOk(s', t, i)
    {
      KeepsPids(s, step, t, i);
    }
  }

  /** Nobody else touches a slot that a live process holds, or that any thread, live or crashed,
      has in transit: not its pid, not its flag, not its bytes. */
  lemma OthersKeepOff(s: State, step: Step, t: nat)
    requires Exclusive(s) && Enabled(s, step) && t < |s.threads| && step.t != t
    requires InTransit(s.threads[t].pc) || (IsHolder(s.threads[t].pc) && s.threads[t].pid !in s.dead)
    ensures Next(s, step).slots[s.threads[t].pc.i] == s.slots[s.threads[t].pc.i]
    ensures Next(s, step).threads[t] == s.threads[t]
  {
    assert ThreadOk(s, t) && ThreadOk(s, step.t) && PairOk(s, t, step.t);
  }

  /** No two live processes hold the same slot. */
  lemma OneLiveHolder(s: State, t: nat, u: nat)
    requires Exclusive(s) && t < |s.threads| && u < |s.threads| && t != u
    requires LiveWorker(s, t) && LiveWorker(s, u) && IsHolder(s.threads[t].pc) && IsHolder(s.threads[u].pc)
    ensures s.threads[t].pc.i != s.threads[u].pc.i
  {
    assert ThreadOk(s, t) && ThreadOk(s, u) && PairOk(s, t, u);
  }

  // ----- every byte is in one place -----

  ghost function SlotBytes(slots: seq<Slot>): (w: seq<nat>)
    ensures |w| == |slots|
  {
    seq(|slots|, i requires 0 <= i < |slots| => slots[i].bytes)
  }

  ghost function Hands(threads: seq<Thread>): (w: seq<nat>)
    ensures |w| == |threads|
  {
    seq(|threads|, t requires 0 <= t < |threads| => threads[t].hand)
  }

  /** Bytes put into slots were taken out by owners, subtracted by a clean-up thread or overwritten
      by a registration, or are still in a slot or in a clean-up thread's hand: each in one place,
      so none is subtracted twice. */
  ghost predicate Balanced(s: State) {
    s.added == s.freed + s.subtracted + s.zeroed + Total(SlotBytes(s.slots)) + Total(Hands(s.threads))
  }

  lemma BytesUpdate(slots: seq<Slot>, i: nat, x: Slot)
    requires i < |slots|
    ensures Total(SlotBytes(slots[i := x])) == Total(SlotBytes(slots)) - slots[i].bytes + x.bytes
    ensures slots[i].bytes <= Total(SlotBytes(slots))
  {
    assert SlotBytes(slots[i := x]) == SlotBytes(slots)[i := x.bytes];
    TotalUpdate(SlotBytes(slots), i, x.bytes);
  }

  lemma HandUpdate(threads: seq<Thread>, t: nat, x: Thread)
    requires t < |threads|
    ensures Total(Hands(threads[t := x])) == Total(Hands(threads)) - threads[t].hand + x.hand
    ensures threads[t].hand <= Total(Hands(threads))
  {
    assert Hands(threads[t := x]) == Hands(threads)[t := x.hand];
    TotalUpdate(Hands(threads), t, x.hand);
  }

  lemma StepKeepsBalance(s: State, step: Step)
    requires Wf(s) && Enabled(s, step) && Balanced(s)
    ensures Balanced(Next(s, step))
  {
    hide Total;
    var t, s' := step.t, Next(s, step);
    HandUpdate(s.threads, t, s'.threads[t]);
    assert s'.threads == s.threads[t := s'.threads[t]];
    var pc := s.threads[t].pc;
    var i := if step.op.TryActive? then step.op.i else if HasIndex(pc) then pc.i else |s.slots|;
    if i < |s.slots| {
      BytesUpdate(s.slots, i, s'.slots[i]);
      assert s'.slots == s.slots[i := s'.slots[i]];
    }
  }

  // ----- runs -----

  ghost predicate RunOk(s: State, run: seq<Step>)
    requires Wf(s)
    decreases |run|
  {
    run == [] || (Enabled(s, run[0]) && RunOk(Next(s, run[0]), run[1..]))
  }

  ghost function After(s: State, run: seq<Step>): (r: State)
    requires Wf(s) && RunOk(s, run)
    ensures Wf(r) && |r.slots| == |s.slots| && |r.threads| == |s.threads|
    decreases |run|
  {
    if run == [] then s else After(Next(s, run[0]), run[1..])
  }

  lemma {:induction false} RunKeepsExclusive(s: State, run: seq<Step>)
    requires Exclusive(s) && Balanced(s) && RunOk(s, run)
    ensures Exclusive(After(s, run)) && Balanced(After(s, run))
    decreases |run|
  {
    if run != [] {
      StepKeepsExclusive(s, run[0]);
      StepKeepsBalance(s, run[0]);
      RunKeepsExclusive(Next(s, run[0]), run[1..]);
    }
  }

  /** Free slots, and threads of processes none of which has registered. */
  ghost predicate Start(s: State) {
    && (forall i :: 0 <= i < |s.slots| ==> s.slots[i] == Slot(0, false, 0))
    && (forall t :: 0 <= t < |s.threads| ==>
          s.threads[t].pid != 0 && (s.threads[t].pc == Unregistered || s.threads[t].pc == Clean)
          && s.threads[t].hand == 0)
    && (forall t, u | 0 <= t < |s.threads| && 0 <= u < |s.threads| && t != u && s.threads[t].pc.Unregistered?
                      && s.threads[u].pc.Unregistered? :: s.threads[t].pid != s.threads[u].pid)
    && s.added == s.freed == s.subtracted == s.zeroed == 0
  }

  /** What holds in every reachable state of every interleaving, crashes included. */
  lemma SlotsStayExclusive(s: State, run: seq<Step>)
    requires Start(s) && Wf(s) && RunOk(s, run)
    ensures var r := After(s, run);
            && (forall i :: 0 <= i < |r.slots| && !r.slots[i].active ==> r.slots[i].pid == 0)
            && (forall t, u | 0 <= t < u < |r.threads| && LiveWorker(r, t) && LiveWorker(r, u)
                              && IsHolder(r.threads[t].pc) && IsHolder(r.threads[u].pc) ::
                  r.threads[t].pc.i != r.threads[u].pc.i)
            && (forall t :: 0 <= t < |r.threads| && LiveWorker(r, t) && r.threads[t].pc.Owner? ==>
                  r.slots[r.threads[t].pc.i].pid == r.threads[t].pid && r.slots[r.threads[t].pc.i].active)
            && r.freed + r.subtracted + r.zeroed <= r.added
  {
    TotalZero(SlotBytes(s.slots));
    TotalZero(Hands(s.threads));
    RunKeepsExclusive(s, run);
    var r := After(s, run);
    forall i | 0 <= i < |r.slots| && !r.slots[i].active
      ensures r.slots[i].pid == 0
    {
      assert SlotOk(r, i);
    }
    forall t, u | 0 <= t < u < |r.threads| && LiveWorker(r, t) && LiveWorker(r, u)
                  && IsHolder(r.threads[t].pc) && IsHolder(r.threads[u].pc)
      ensures r.threads[t].pc.i != r.threads[u].pc.i
    {
      OneLiveHolder(r, t, u);
    }
    forall t | 0 <= t < |r.threads| && LiveWorker(r, t) && r.threads[t].pc.Owner?
      ensures r.slots[r.threads[t].pc.i].pid == r.threads[t].pid && r.slots[r.threads[t].pc.i].active
    {
      assert ThreadOk(r, t);
    }
  }

  /** A thread that crashes with a slot in transit loses it for good: no run brings it back. */
  lemma {:induction false} CrashInTransitLeaks(s: State, run: seq<Step>, t: nat)
    requires Exclusive(s) && RunOk(s, run) && t < |s.threads|
    requires InTransit(s.threads[t].pc) && s.threads[t].pid in s.dead
    ensures After(s, run).slots[s.threads[t].pc.i] == s.slots[s.threads[t].pc.i]
    ensures s.slots[s.threads[t].pc.i].active && s.slots[s.threads[t].pc.i].pid == 0
    decreases |run|
  {
    assert ThreadOk(s, t);
    if run != [] {
      StepKeepsExclusive(s, run[0]);
      OthersKeepOff(s, run[0], t);
      assert s.dead <= Next(s, run[0]).dead;
      CrashInTransitLeaks(Next(s, run[0]), run[1..], t);
    }
  }

  lemma NoSteps(s: State)
    requires Wf(s)
    ensures RunOk(s, []) && After(s, []) == s
  {
  }

  lemma StepThenRun(s: State, step: Step, rest: seq<Step>) returns (run: seq<Step>)
    requires Wf(s) && Enabled(s, step) && RunOk(Next(s, step), rest)
    ensures RunOk(s, run) && After(s, run) == After(Next(s, step), rest)
  {
    run := [step] + rest;
    assert run[1..] == rest;
  }

  /** A clean-up thread that is not disturbed frees any slot that carries a dead pid in four operations
      and subtracts what the slot held in a fifth. */
  lemma CleanerFrees(d: State, u: nat, i: nat) returns (run: seq<Step>)
    requires Wf(d) && u < |d.threads| && d.threads[u].pc == Clean && d.threads[u].pid !in d.dead
    requires i < |d.slots| && d.slots[i].pid != 0 && d.slots[i].pid in d.dead
    ensures RunOk(d, run) && !After(d, run).slots[i].active
    ensures After(d, run) == d.(slots := d.slots[i := Slot(0, false, 0)],
                                threads := d.threads[u := d.threads[u].(hand := 0)],
                                subtracted := d.subtracted + d.threads[u].hand + d.slots[i].bytes)
  {
    hide RunOk, After;
    var d1 := Next(d, Step(u, CleanLook(i)));
    var d2 := Next(d1, Step(u, CleanSwap));
    var d3 := Next(d2, Step(u, CleanEmpty));
    var d4 := Next(d3, Step(u, CleanRelease));
    NoSteps(Next(d4, Step(u, Subtract)));
    run := StepThenRun(d4, Step(u, Subtract), []);
    run := StepThenRun(d3, Step(u, CleanRelease), run);
    run := StepThenRun(d2, Step(u, CleanEmpty), run);
    run := StepThenRun(d1, Step(u, CleanSwap), run);
    run := StepThenRun(d, Step(u, CleanLook(i)), run);
  }

  /** The state after thread t came to own slot i, which then carries its pid and no bytes. */
  ghost function Owned(s: State, t: nat, i: nat): State
    requires t < |s.threads| && i < |s.slots|
  {
    s.(slots := s.slots[i := Slot(s.threads[t].pid, true, 0)],
       threads := s.threads[t := s.threads[t].(pc := Owner(i))], zeroed := s.zeroed + s.slots[i].bytes)
  }

  /** A live process that is not disturbed registers in an inactive slot, in one left by a dead process,
      or again in its own, with its pid stored and the slot's bytes zeroed. */
  lemma Registers(s: State, t: nat, i: nat) returns (run: seq<Step>)
    requires Wf(s) && t < |s.threads| && s.threads[t].pid !in s.dead && s.threads[t].pc.Unregistered?
    requires i < |s.slots|
    requires var slot := s.slots[i];
             || !slot.active || (slot.pid != 0 && slot.pid in s.dead) || slot.pid == s.threads[t].pid
    ensures RunOk(s, run) && After(s, run) == Owned(s, t, i)
  {
    hide RunOk, After;
    NoSteps(Owned(s, t, i));
    if !s.slots[i].active {
      var s1 := Next(s, Step(t, TryActive(i)));
      var s2 := Next(s1, Step(t, StorePid));
      assert Next(s2, Step(t, Zero)) == Owned(s, t, i);
      run := StepThenRun(s2, Step(t, Zero), []);
      run := StepThenRun(s1, Step(t, StorePid), run);
      run := StepThenRun(s, Step(t, TryActive(i)), run);
    } else {
      var look := if s.slots[i].pid == s.threads[t].pid then FindOwn(i) else LookDead(i);
      var s1 := Next(s, Step(t, look));
      var s2 := if look.FindOwn? then s1 else Next(s1, Step(t, SwapDead));
      assert Next(s2, Step(t, Zero)) == Owned(s, t, i);
      run := StepThenRun(s2, Step(t, Zero), []);
      if look.LookDead? {
        run := StepThenRun(s1, Step(t, SwapDead), run);
      }
      run := StepThenRun(s, Step(t, look), run);
    }
  }

  /** Who finds the flag set, or loses a compare-and-swap, changes no slot and looks on. */
  lemma LosersLookOn(s: State, t: nat, i: nat)
    requires Wf(s) && t < |s.threads| && i < |s.slots|
    ensures s.slots[i].active && Enabled(s, Step(t, TryActive(i))) ==> Next(s, Step(t, TryActive(i))) == s
    ensures Enabled(s, Step(t, SwapDead)) && s.slots[s.threads[t].pc.i].pid != s.threads[t].pc.pid ==>
              Next(s, Step(t, SwapDead)) == Go(s, t, Unregistered)
    ensures Enabled(s, Step(t, CleanSwap)) && s.slots[s.threads[t].pc.i].pid != s.threads[t].pc.pid ==>
              Next(s, Step(t, CleanSwap)) == Go(s, t, Clean)
  {
  }

  /** An owner adds and takes exactly what it says, and a drop leaves the slot inactive and free with its
      bytes. */
  lemma OwnerMoves(s: State, t: nat, n: nat) returns (drop: seq<Step>)
    requires Wf(s) && t < |s.threads| && s.threads[t].pid !in s.dead && s.threads[t].pc.Owner?
    ensures var i := s.threads[t].pc.i;
            var slot, bytes := s.slots[i], s.slots[i].bytes;
            && Next(s, Step(t, Add(n))) == s.(slots := s.slots[i := slot.(bytes := bytes + n)], added := s.added + n)
            && (n <= bytes ==>
                  Next(s, Step(t, Take(n)))
                  == s.(slots := s.slots[i := slot.(bytes := bytes - n)], freed := s.freed + n))
            && RunOk(s, drop)
            && After(s, drop) == s.(slots := s.slots[i := Slot(0, false, bytes)],
                                    threads := s.threads[t := s.threads[t].(pc := Unregistered)])
  {
    hide RunOk, After;
    var s1 := Next(s, Step(t, DropPid));
    NoSteps(Next(s1, Step(t, DropActive)));
    drop := StepThenRun(s1, Step(t, DropActive), []);
    drop := StepThenRun(s, Step(t, DropPid), drop);
  }

  /** When a process crashes while it holds slot i or has it in transit, and a clean-up thread of another
      process lives, some continuation frees the slot exactly when it was not in transit. */
  lemma CrashRecoverableIff(s: State, t: nat, u: nat)
    requires Exclusive(s) && t < |s.threads| && s.threads[t].pid !in s.dead
    requires IsHolder(s.threads[t].pc) || InTransit(s.threads[t].pc)
    requires u < |s.threads| && s.threads[u].pc == Clean && s.threads[u].pid !in s.dead + {s.threads[t].pid}
    ensures var d, i := Next(s, Step(t, Crash)), s.threads[t].pc.i;
            (exists run :: RunOk(d, run) && !After(d, run).slots[i].active) <==> !InTransit(s.threads[t].pc)
  {
    var d, i := Next(s, Step(t, Crash)), s.threads[t].pc.i;
    assert ThreadOk(s, t);
    StepKeepsExclusive(s, Step(t, Crash));
    if InTransit(s.threads[t].pc) {
      forall run | RunOk(d, run)
        ensures After(d, run).slots[i].active
      {
        CrashInTransitLeaks(d, run, t);
      }
    } else {
      var run := CleanerFrees(d, u, i);
    }
  }
}
