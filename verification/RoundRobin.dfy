// Baton rotation without crashes of the holder: from a state whose owner's entry is at the
// front of the queue, the queue keeps every joined active manager exactly once and each gets
// its turn in order.
module RoundRobin {
  import opened Arith
  import opened Shmem
  import Ring

  /** `pending` are the managers that hold a slot and have not yet joined the queue. */
  datatype State = State(g: Ring.Registry, pending: set<nat>)

  datatype Step = Register(pid: int) | Join(i: nat) | Pass | Depart(i: nat)

  ghost predicate Distinct(w: seq<nat>) {
    forall j, k :: 0 <= j < k < |w| ==> w[j] != w[k]
  }

  /** The queue holds distinct indices, among them every joined active manager. */
  ghost predicate Queued(s: State) {
    && Ring.Wf(s.g)
    && var w := Ring.Window(s.g);
       && Distinct(w) && (forall i :: i in w ==> i < MAX_MANAGERS)
       && (forall i :: i in s.pending ==> i !in w && Ring.Active(s.g, i))
       && (forall i :: Ring.Active(s.g, i) ==> i in w || i in s.pending)
  }

  /** And the owner's entry is at the front. */
  ghost predicate Rotating(s: State) {
    && Queued(s) && Ring.Active(s.g, s.g.owner)
    && Ring.Window(s.g) != [] && Ring.Window(s.g)[0] == s.g.owner
  }

  /** A registration must not reuse an index whose old entry is still queued, and the holder
      does not depart. */
  ghost predicate Enabled(s: State, step: Step)
    requires Ring.Wf(s.g)
  {
    match step
    case Register(pid) => Ring.FirstFree(s.g, 0) !in Ring.Window(s.g)
    case Join(i) => i in s.pending
    case Pass => Ring.Active(s.g, s.g.owner)
    case Depart(i) => i != s.g.owner && Ring.Active(s.g, i)
  }

  function Next(s: State, step: Step): (r: State)
    requires Ring.Wf(s.g)
    ensures Ring.Wf(r.g)
  {
    match step
    case Register(pid) =>
      var i := Ring.FirstFree(s.g, 0);
      State(Ring.Register(s.g, pid), if i == MAX_MANAGERS then s.pending else s.pending + {i})
    case Join(i) => State(Ring.Join(s.g, i), s.pending - {i})
    case Pass => if s.g.owner < MAX_MANAGERS then State(Ring.Pass(s.g, s.g.owner), s.pending) else s
    case Depart(i) => State(Ring.Deactivate(s.g, i), s.pending - {i})
  }

  /** Distinct indices below `n` are at most `n` many. */
  lemma {:induction false} DistinctIsShort(w: seq<nat>, n: nat)
    requires Distinct(w) && forall i :: i in w ==> i < n
    ensures |w| <= n
  {
    if w == [] {
    } else if n - 1 in w {
      assert w[0] in w;
      var k :| 0 <= k < |w| && w[k] == n - 1;
      var u := w[..k] + w[k + 1..];
      forall i | i in u
        ensures i < n - 1
      {
        assert i in w && i != w[k];
      }
      DistinctIsShort(u, n - 1);
    } else {
      assert w[0] in w;
      DistinctIsShort(w, n - 1);
    }
  }

  lemma {:induction false} DropKeeps(g: Ring.Registry, w: seq<nat>)
    requires Ring.Wf(g) && Distinct(w)
    ensures var d := Ring.DropInactive(g, w);
            Distinct(d) && (forall i :: i in d ==> i in w) && (forall i :: i in w && Ring.Active(g, i) ==> i in d)
  {
    if w != [] && !Ring.Active(g, w[0]) {
      DropKeeps(g, w[1..]);
      assert forall i :: i in w ==> i == w[0] || i in w[1..];
    }
  }

  /** Rotating the front entry to the back keeps entries distinct and keeps every one. */
  lemma RotateKeeps(w: seq<nat>)
    requires w != [] && Distinct(w)
    ensures Distinct(w[1..] + [w[0]])
    ensures forall i :: i in w[1..] + [w[0]] <==> i in w
  {
    assert forall i :: i in w <==> i == w[0] || i in w[1..];
    assert forall i :: i in w[1..] + [w[0]] <==> i in w[1..] || i == w[0];
  }

  lemma StepKeepsQueued(s: State, step: Step)
    requires Queued(s) && Enabled(s, step) && (step.Pass? ==> Rotating(s))
    ensures Queued(Next(s, step))
  {
    hide Ring.Window, Ring.Pass, Ring.Scan;
    var w, s' := Ring.Window(s.g), Next(s, step);
    DistinctIsShort(w, MAX_MANAGERS);
    match step {
      case Register(pid) =>
        Ring.SameWindow(s.g, s'.g);
      case Join(i) =>
        var j := w + [i];
        assert Distinct(j) && forall k :: k in j <==> k in w || k == i;
        DistinctIsShort(j, MAX_MANAGERS);
        Ring.JoinWindow(s.g, i);
      case Pass =>
        Ring.PassWindow(s.g, s.g.owner);
        RotateKeeps(w);
        DropKeeps(s.g, w[1..] + [w[0]]);
      case Depart(i) =>
        Ring.SameWindow(s.g, s'.g);
    }
  }

  lemma StepKeepsRotation(s: State, step: Step)
    requires Rotating(s) && Enabled(s, step)
    ensures Rotating(Next(s, step))
  {
    hide Ring.Window, Ring.Pass, Ring.Scan;
    var w, s' := Ring.Window(s.g), Next(s, step);
    StepKeepsQueued(s, step);
    DistinctIsShort(w, MAX_MANAGERS);
    match step {
      case Register(pid) =>
        Ring.SameWindow(s.g, s'.g);
      case Join(i) =>
        DistinctIsShort(w + [i], MAX_MANAGERS);
        Ring.JoinWindow(s.g, i);
      case Pass =>
        Ring.PassWindow(s.g, s.g.owner);
      case Depart(i) =>
        Ring.SameWindow(s.g, s'.g);
    }
  }

  // ----- runs -----

  ghost predicate RunOk(s: State, run: seq<Step>)
    requires Ring.Wf(s.g)
    decreases |run|
  {
    run == [] || (Enabled(s, run[0]) && RunOk(Next(s, run[0]), run[1..]))
  }

  ghost function After(s: State, run: seq<Step>): (r: State)
    requires Ring.Wf(s.g)
    ensures Ring.Wf(r.g)
    decreases |run|
  {
    if run == [] then s else After(Next(s, run[0]), run[1..])
  }

  ghost function Passes(run: seq<Step>): nat {
    if run == [] then 0 else (if run[0].Pass? then 1 else 0) + Passes(run[1..])
  }

  /** Every run keeps the rotation: the queue holds each joined active manager exactly once. */
  lemma {:induction false} RunKeepsRotation(s: State, run: seq<Step>)
    requires Rotating(s) && RunOk(s, run)
    ensures Rotating(After(s, run))
    ensures var t := After(s, run);
            forall i :: Ring.Active(t.g, i) && i !in t.pending ==>
              exists k :: 0 <= k < |Ring.Window(t.g)| && Ring.Window(t.g)[k] == i
                && forall l :: 0 <= l < |Ring.Window(t.g)| && Ring.Window(t.g)[l] == i ==> l == k
    decreases |run|
  {
    hide Ring.Window, Next;
    if run != [] {
      StepKeepsRotation(s, run[0]);
      RunKeepsRotation(Next(s, run[0]), run[1..]);
    }
  }

  // ----- how rotation begins -----

  /** A fresh registry, before any manager has registered. */
  function Fresh(): State {
    State(Ring.Initial(), {})
  }

  /** Until the first claim nobody owns the baton, so nobody passes it. */
  lemma {:induction false} UnclaimedStaysQueued(s: State, run: seq<Step>)
    requires Queued(s) && s.g.owner == MAX_MANAGERS && RunOk(s, run)
    ensures var t := After(s, run); Queued(t) && t.g.owner == MAX_MANAGERS
    decreases |run|
  {
    if run != [] {
      StepKeepsQueued(s, run[0]);
      UnclaimedStaysQueued(Next(s, run[0]), run[1..]);
    }
  }

  // ----- waiting time -----

  /** Active entries queued in front of `i`. */
  ghost function Ahead(g: Ring.Registry, w: seq<nat>, i: nat): nat
    requires Ring.Wf(g)
  {
    if w == [] || w[0] == i then 0 else (if Ring.Active(g, w[0]) then 1 else 0) + Ahead(g, w[1..], i)
  }

  lemma {:induction false} AheadAppend(g: Ring.Registry, w: seq<nat>, x: nat, i: nat)
    requires Ring.Wf(g) && i in w
    ensures Ahead(g, w + [x], i) == Ahead(g, w, i)
  {
    if w[0] != i {
      assert (w + [x])[1..] == w[1..] + [x];
      AheadAppend(g, w[1..], x, i);
    }
  }

  lemma {:induction false} AheadDrop(g: Ring.Registry, w: seq<nat>, i: nat)
    requires Ring.Wf(g) && i in w && Ring.Active(g, i)
    ensures Ahead(g, Ring.DropInactive(g, w), i) == Ahead(g, w, i)
  {
    if !Ring.Active(g, w[0]) {
      AheadDrop(g, w[1..], i);
    }
  }

  /** Only slots that are queued count, and fewer active ones count for less. */
  lemma {:induction false} AheadFewer(g: Ring.Registry, g': Ring.Registry, w: seq<nat>, i: nat)
    requires Ring.Wf(g) && Ring.Wf(g')
    requires forall k :: k in w && Ring.Active(g', k) ==> Ring.Active(g, k)
    ensures Ahead(g', w, i) <= Ahead(g, w, i)
  {
    if w != [] && w[0] != i {
      AheadFewer(g, g', w[1..], i);
    }
  }

  /** A pass takes exactly one active manager from in front of a queued one. */
  lemma PassAdvances(g: Ring.Registry, i: nat)
    requires Ring.Wf(g) && Distinct(Ring.Window(g)) && 1 <= |Ring.Window(g)| <= MAX_MANAGERS
    requires g.owner == Ring.Window(g)[0] && Ring.Active(g, g.owner)
    requires i in Ring.Window(g) && Ring.Active(g, i) && g.owner != i
    ensures var p := Ring.Pass(g, g.owner);
            && i in Ring.Window(p) && Ring.Active(p, i)
            && Ahead(p, Ring.Window(p), i) + 1 <= Ahead(g, Ring.Window(g), i)
  {
    hide Ring.Window, Ring.Pass, Ring.Scan;
    var w, p := Ring.Window(g), Ring.Pass(g, g.owner);
    Ring.PassWindow(g, w[0]);
    assert i in w[1..];
    AheadAppend(g, w[1..], w[0], i);
    RotateKeeps(w);
    DropKeeps(g, w[1..] + [w[0]]);
    AheadDrop(g, w[1..] + [w[0]], i);
    AheadFewer(g, p, Ring.Window(p), i);
  }

  /** One step brings a queued active manager no further from its turn, and a pass one closer. */
  lemma StepAdvances(s: State, step: Step, i: nat)
    requires Rotating(s) && Enabled(s, step)
    requires i in Ring.Window(s.g) && Ring.Active(s.g, i) && step != Depart(i)
    requires s.g.owner != i
    ensures var s' := Next(s, step);
            && i in Ring.Window(s'.g) && Ring.Active(s'.g, i)
            && Ahead(s'.g, Ring.Window(s'.g), i) + (if step.Pass? then 1 else 0) <= Ahead(s.g, Ring.Window(s.g), i)
  {
    hide Ring.Window, Ring.Pass, Ring.Scan;
    var w, s' := Ring.Window(s.g), Next(s, step);
    DistinctIsShort(w, MAX_MANAGERS);
    match step {
      case Register(pid) =>
        Ring.SameWindow(s.g, s'.g);
        AheadFewer(s.g, s'.g, w, i);
      case Join(j) =>
        DistinctIsShort(w + [j], MAX_MANAGERS);
        Ring.JoinWindow(s.g, j);
        AheadAppend(s.g, w, j, i);
        AheadFewer(s.g, s'.g, w + [j], i);
      case Pass =>
        PassAdvances(s.g, i);
      case Depart(j) =>
        Ring.SameWindow(s.g, s'.g);
        AheadFewer(s.g, s'.g, w, i);
    }
  }

  /** A queued manager that stays active owns the baton after at most as many passes as there
      are active managers in front of it, in every run that contains that many. */
  lemma {:induction false} TurnWithin(s: State, run: seq<Step>, i: nat) returns (k: nat)
    requires Rotating(s) && RunOk(s, run)
    requires i in Ring.Window(s.g) && Ring.Active(s.g, i) && Depart(i) !in run
    requires Ahead(s.g, Ring.Window(s.g), i) <= Passes(run)
    ensures k <= |run| && RunOk(s, run[..k]) && After(s, run[..k]).g.owner == i
    ensures Passes(run[..k]) <= Ahead(s.g, Ring.Window(s.g), i)
    decreases |run|
  {
    if s.g.owner == i {
      k := 0;
    } else {
      var s' := Next(s, run[0]);
      StepKeepsRotation(s, run[0]);
      StepAdvances(s, run[0], i);
      k := TurnWithin(s', run[1..], i);
      assert run[1..][..k] == run[..k + 1][1..];
      k := k + 1;
    }
  }

  lemma {:induction false} AheadIsCount(g: Ring.Registry, w: seq<nat>, i: nat)
    requires Ring.Wf(g) && Distinct(w) && i !in w
    ensures Ahead(g, w + [i], i) == |set j | j in w && Ring.Active(g, j)|
  {
    if w != [] {
      var rest := set j | j in w[1..] && Ring.Active(g, j);
      assert (w + [i])[1..] == w[1..] + [i];
      AheadIsCount(g, w[1..], i);
      assert w[0] !in rest;
      assert (set j | j in w && Ring.Active(g, j)) == if Ring.Active(g, w[0]) then rest + {w[0]} else rest;
    }
  }

  /** A manager that joins while `n` others are queued and active has exactly `n` turns ahead. */
  lemma NewcomerWaits(s: State, i: nat)
    requires Rotating(s) && Enabled(s, Join(i))
    ensures var s' := Next(s, Join(i));
            && Rotating(s') && Ring.Window(s'.g) == Ring.Window(s.g) + [i] && s'.pending == s.pending - {i}
            && Ahead(s'.g, Ring.Window(s'.g), i) == |set j | j in Ring.Window(s.g) && Ring.Active(s.g, j)|
  {
    var w, s' := Ring.Window(s.g), Next(s, Join(i));
    StepKeepsRotation(s, Join(i));
    DistinctIsShort(w + [i], MAX_MANAGERS);
    Ring.JoinWindow(s.g, i);
    AheadFewer(s.g, s'.g, w + [i], i);
    AheadFewer(s'.g, s.g, w + [i], i);
    AheadIsCount(s.g, w, i);
  }

  /** A registration makes the first free slot active under its pid, with the default average, and its
      manager may join. */
  lemma RegisteredMayJoin(s: State, pid: int)
    requires Rotating(s) && Enabled(s, Register(pid)) && Ring.FirstFree(s.g, 0) < MAX_MANAGERS
    ensures var t, i := Next(s, Register(pid)), Ring.FirstFree(s.g, 0);
            && t.g == s.g.(slots := s.g.slots[i := ManagerSlot(pid, DEFAULT_AVG_US, true)])
            && i in t.pending && Enabled(t, Join(i))
  {
  }

  /** A manager that departs is never handed the baton by any number of passes. */
  lemma DepartedIsSkipped(s: State, i: nat, n: nat)
    requires Queued(s) && Ring.Active(s.g, s.g.owner) && Enabled(s, Depart(i))
    ensures var g := Next(s, Depart(i)).g; !Ring.Active(g, i) && PassedOn(g, n).owner != i
  {
    hide Ring.Window;
    NeverInactive(Next(s, Depart(i)).g, i, n);
  }

  lemma {:induction false} NeverInactive(g: Ring.Registry, i: nat, n: nat)
    requires Ring.Wf(g) && Ring.Active(g, g.owner) && !Ring.Active(g, i)
    ensures PassedOn(g, n).owner != i
    decreases n
  {
    hide Ring.Pass;
    if n > 0 {
      Ring.PassCircle(g, g.owner);
      NeverInactive(Ring.Pass(g, g.owner), i, n - 1);
    }
  }

  // ----- the premise is needed -----

  /** Whoever holds the baton, passing it keeps the queue free of duplicates exactly when the
      holder's own entry was at the front. */
  lemma PassKeepsDistinctIff(g: Ring.Registry)
    requires Ring.Wf(g) && Distinct(Ring.Window(g)) && g.owner in Ring.Window(g) && Ring.Active(g, g.owner)
    requires forall i :: i in Ring.Window(g) ==> i < MAX_MANAGERS
    ensures Distinct(Ring.Window(Ring.Pass(g, g.owner))) <==> Ring.Window(g)[0] == g.owner
  {
    var w, me := Ring.Window(g), g.owner;
    DistinctIsShort(w, MAX_MANAGERS);
    Ring.PassWindow(g, me);
    if w[0] == me {
      RotateKeeps(w);
      DropKeeps(g, w[1..] + [me]);
    } else {
      assert me in w[1..];
      DropKeepsTwice(g, w[1..], me);
    }
  }

  lemma {:induction false} DropKeepsTwice(g: Ring.Registry, w: seq<nat>, me: nat)
    requires Ring.Wf(g) && me in w && Ring.Active(g, me)
    ensures !Distinct(Ring.DropInactive(g, w + [me]))
  {
    var v := w + [me];
    if Ring.Active(g, w[0]) {
      var k :| 0 <= k < |w| && w[k] == me;
      assert v[k] == v[|w|];
    } else {
      assert v[1..] == w[1..] + [me];
      DropKeepsTwice(g, w[1..], me);
    }
  }

  /** The registry after `n` further passes by whoever owns the baton. */
  function PassedOn(g: Ring.Registry, n: nat): (r: Ring.Registry)
    requires Ring.Wf(g)
    ensures Ring.Wf(r)
    decreases n
  {
    if n == 0 || g.owner >= MAX_MANAGERS then g else PassedOn(Ring.Pass(g, g.owner), n - 1)
  }

  lemma {:induction false} DropWithin(g: Ring.Registry, w: seq<nat>, i: nat)
    requires Ring.Wf(g) && i !in w
    ensures i !in Ring.DropInactive(g, w) && |Ring.DropInactive(g, w)| <= |w|
  {
    if w != [] && !Ring.Active(g, w[0]) {
      DropWithin(g, w[1..], i);
    }
  }

  /** `i` does not own the baton and has no entry behind the front one in the circle. */
  ghost predicate Lost(g: Ring.Registry, i: nat) {
    Ring.Wf(g) && Ring.Active(g, g.owner) && i != g.owner && i !in Ring.Circle(g)[1..]
  }

  lemma PassKeepsLost(g: Ring.Registry, i: nat)
    requires Lost(g, i)
    ensures Lost(Ring.Pass(g, g.owner), i)
  {
    hide Ring.Circle, Ring.Pass, Ring.Scan;
    Ring.PassCircle(g, g.owner);
    DropWithin(g, Ring.Circle(g)[1..] + [g.owner], i);
  }

  /** A waiting manager without such an entry never gets the baton passed to it. */
  lemma {:induction false} LostEntryStarves(g: Ring.Registry, i: nat, n: nat)
    requires Lost(g, i)
    ensures PassedOn(g, n).owner != i
    decreases n
  {
    hide Ring.Circle, Ring.Pass, Ring.Scan;
    if n > 0 {
      PassKeepsLost(g, i);
      LostEntryStarves(Ring.Pass(g, g.owner), i, n - 1);
    }
  }

  /** Manager `i` does not join, and the holder stays. */
  ghost predicate Spares(s: State, step: Step, i: nat) {
    step != Join(i) && step != Depart(s.g.owner)
  }

  ghost predicate RunSpares(s: State, run: seq<Step>, i: nat)
    requires Ring.Wf(s.g)
    decreases |run|
  {
    run == [] || (Spares(s, run[0], i) && RunSpares(Next(s, run[0]), run[1..], i))
  }

  lemma StepKeepsLost(s: State, step: Step, i: nat)
    requires Lost(s.g, i) && Spares(s, step, i)
    ensures Lost(Next(s, step).g, i)
  {
    hide Ring.Circle, Ring.Pass, Ring.Scan;
    match step {
      case Register(pid) =>
        Ring.SameCircle(s.g, Next(s, step).g);
      case Join(j) =>
        Ring.JoinCircle(s.g, j);
      case Pass =>
        PassKeepsLost(s.g, i);
      case Depart(j) =>
        Ring.SameCircle(s.g, Next(s, step).g);
    }
  }

  /** Nor does any run of registrations, joins, passes and departures give it the baton, reuse of
      indices included, until it joins again or the holder departs. */
  lemma {:induction false} LostEntryStarvesOnRuns(s: State, run: seq<Step>, i: nat)
    requires Lost(s.g, i) && RunSpares(s, run, i)
    ensures After(s, run).g.owner != i
    decreases |run|
  {
    hide Next;
    if run != [] {
      StepKeepsLost(s, run[0], i);
      LostEntryStarvesOnRuns(Next(s, run[0]), run[1..], i);
    }
  }

  lemma {:induction false} DropHolds(g: Ring.Registry, w: seq<nat>, i: nat)
    requires Ring.Wf(g) && i in w && Ring.Active(g, i)
    ensures i in Ring.DropInactive(g, w)
  {
    if !Ring.Active(g, w[0]) {
      DropHolds(g, w[1..], i);
    }
  }

  /** Once the owner is at the front of the circle every active manager in it gets its turn. */
  lemma {:induction false} FrontOwnerServes(g: Ring.Registry, i: nat) returns (n: nat)
    requires Ring.Wf(g) && g.owner == Ring.Circle(g)[0] && Ring.Active(g, g.owner)
    requires i in Ring.Circle(g) && Ring.Active(g, i)
    ensures PassedOn(g, n).owner == i
    decreases Ahead(g, Ring.Circle(g), i)
  {
    hide Ring.Circle, Ring.Pass, Ring.Scan;
    n := 0;
    if g.owner != i {
      var w, p := Ring.Circle(g), Ring.Pass(g, g.owner);
      Ring.PassCircle(g, w[0]);
      AheadAppend(g, w[1..], w[0], i);
      AheadDrop(g, w[1..] + [w[0]], i);
      DropHolds(g, w[1..] + [w[0]], i);
      AheadFewer(g, p, Ring.Circle(p), i);
      n := FrontOwnerServes(p, i);
      n := n + 1;
    }
  }

  /** In every registry passes hand the baton to an active manager if and only if it owns it already
      or has an entry behind the front one in the circle. */
  lemma ServedIff(g: Ring.Registry, i: nat)
    requires Ring.Wf(g) && Ring.Active(g, g.owner) && Ring.Active(g, i)
    ensures (exists n :: PassedOn(g, n).owner == i) <==> i == g.owner || i in Ring.Circle(g)[1..]
  {
    hide Ring.Circle, Ring.Pass, Ring.Scan;
    if i == g.owner {
      assert exists n :: PassedOn(g, n).owner == i by {
        var none: nat := 0;
        assert PassedOn(g, none).owner == i;
      }
    } else if i in Ring.Circle(g)[1..] {
      Ring.PassCircle(g, g.owner);
      DropHolds(g, Ring.Circle(g)[1..] + [g.owner], i);
      var n := FrontOwnerServes(Ring.Pass(g, g.owner), i);
      var m := n + 1;
      assert PassedOn(g, m).owner == i;
    } else {
      forall n: nat
        ensures PassedOn(g, n).owner != i
      {
        LostEntryStarves(g, i, n);
      }
    }
  }

  /** Every queued active manager is handed the baton after some number of passes. */
  ghost predicate EveryoneServed(g: Ring.Registry)
    requires Ring.Wf(g)
  {
    forall i :: i in Ring.Window(g) && Ring.Active(g, i) ==> exists n :: PassedOn(g, n).owner == i
  }

  /** Whoever holds the baton and however long the queue, every queued active manager gets its turn
      if and only if each but the holder has an entry behind the front of the circle. */
  lemma EveryoneServedIff(g: Ring.Registry)
    requires Ring.Wf(g) && Ring.Active(g, g.owner)
    ensures EveryoneServed(g) <==>
              forall i :: i in Ring.Window(g) && Ring.Active(g, i) && i != g.owner ==> i in Ring.Circle(g)[1..]
  {
    hide Ring.Circle, Ring.Window, PassedOn;
    forall i | i in Ring.Window(g) && Ring.Active(g, i)
      ensures (exists n :: PassedOn(g, n).owner == i) <==> i == g.owner || i in Ring.Circle(g)[1..]
    {
      ServedIff(g, i);
    }
  }

  /** With up to 64 entries that means the front entry is the holder's, or inactive, or queued a second
      time; for distinct active entries, the first. */
  lemma ShortQueueServedIff(g: Ring.Registry)
    requires Ring.Wf(g) && Ring.Active(g, g.owner) && 1 <= |Ring.Window(g)| <= MAX_MANAGERS
    ensures var w := Ring.Window(g);
            && (EveryoneServed(g) <==> w[0] == g.owner || !Ring.Active(g, w[0]) || w[0] in w[1..])
            && (Distinct(w) && Ring.Active(g, w[0]) ==> (EveryoneServed(g) <==> w[0] == g.owner))
  {
    hide Ring.Circle, Ring.Window, EveryoneServed;
    var w := Ring.Window(g);
    Ring.CircleIsWindow(g);
    EveryoneServedIff(g);
    assert w[0] in w && forall i :: i in w ==> i == w[0] || i in w[1..];
  }

  /** With 65 entries nobody but the holder is ever served: its own entry overwrites the next one. */
  lemma {:induction false} OverfullQueueSticks(g: Ring.Registry, n: nat)
    requires Ring.Wf(g) && Ring.Active(g, g.owner) && |Ring.Circle(g)| == 1
    ensures PassedOn(g, n).owner == g.owner
    decreases n
  {
    hide Ring.Circle, Ring.Pass, Ring.Scan;
    if n > 0 {
      Ring.PassCircle(g, g.owner);
      assert Ring.Circle(g)[1..] + [g.owner] == [g.owner];
      OverfullQueueSticks(Ring.Pass(g, g.owner), n - 1);
    }
  }

  /** Once managers have registered and joined a fresh registry in any order, the first claim starts
      the rotation if and only if the claimant is at the front of the queue, and serves everyone if
      and only if the claimant is there or the front has departed. */
  lemma FirstClaimRotatesIff(run: seq<Step>, me: nat, stale: bool)
    requires RunOk(Fresh(), run)
    requires me in Ring.Window(After(Fresh(), run).g) && Ring.Active(After(Fresh(), run).g, me)
    ensures var s := After(Fresh(), run);
            var (g, won) := Ring.Poll(s.g, me, stale);
            var front := Ring.Window(s.g)[0];
            && won && (Rotating(State(g, s.pending)) <==> front == me)
            && (EveryoneServed(g) <==> front == me || !Ring.Active(s.g, front))
  {
    hide Ring.Window;
    UnclaimedStaysQueued(Fresh(), run);
    var s := After(Fresh(), run);
    var g := Ring.Poll(s.g, me, stale).0;
    Ring.SameWindow(s.g, g);
    DistinctIsShort(Ring.Window(s.g), MAX_MANAGERS);
    ShortQueueServedIff(g);
  }

  /** And when it is there, every further run from a fresh registry keeps the rotation. */
  lemma FreshRegistryRotates(run: seq<Step>, more: seq<Step>, stale: bool)
    requires RunOk(Fresh(), run) && Ring.Window(After(Fresh(), run).g) != []
    requires Ring.Active(After(Fresh(), run).g, Ring.Window(After(Fresh(), run).g)[0])
    ensures var s := After(Fresh(), run);
            var claimed := State(Ring.Poll(s.g, Ring.Window(s.g)[0], stale).0, s.pending);
            Rotating(claimed) && (RunOk(claimed, more) ==> Rotating(After(claimed, more)))
  {
    hide Ring.Window;
    var s := After(Fresh(), run);
    var me := Ring.Window(s.g)[0];
    var claimed := State(Ring.Poll(s.g, me, stale).0, s.pending);
    FirstClaimRotatesIff(run, me, stale);
    if RunOk(claimed, more) {
      RunKeepsRotation(claimed, more);
    }
  }

  /** Two managers register and join a fresh registry. */
  function TwoWaiting(): (g: Ring.Registry)
    ensures Ring.Wf(g)
  {
    Ring.Join(Ring.Join(Ring.Register(Ring.Register(Ring.Initial(), 10), 20), 0), 1)
  }

  lemma TwoAreWaiting()
    ensures var g := TwoWaiting();
            Ring.Window(g) == [0, 1] && g.owner == MAX_MANAGERS && Ring.Active(g, 0) && Ring.Active(g, 1)
  {
    var g0 := Ring.Initial();
    Ring.FirstFreeIs(g0, 0);
    var g1 := Ring.Register(g0, 10);
    Ring.FirstFreeIs(g1, 1);
    var g2 := Ring.Register(g1, 20);
    assert Ring.Window(g2) == [];
    Ring.JoinWindow(g2, 0);
    Ring.JoinWindow(Ring.Join(g2, 0), 1);
  }

  /** One of the two is the first to claim the ownerless baton. */
  function Claimed(me: nat): (g: Ring.Registry)
    requires me < MAX_MANAGERS
    ensures Ring.Wf(g)
  {
    Ring.Poll(TwoWaiting(), me, false).0
  }

  lemma ClaimedIs(me: nat)
    requires me <= 1
    ensures var g := Claimed(me);
            Ring.Window(g) == [0, 1] && g.owner == me && Ring.Active(g, 0) && Ring.Active(g, 1)
  {
    hide Ring.Window, TwoWaiting;
    TwoAreWaiting();
    Ring.SameWindow(TwoWaiting(), Claimed(me));
  }

  /** If it is the second to join, the first, though active and waiting, is never handed the baton. */
  lemma OutOfOrderClaimStarves(n: nat)
    ensures var g := Claimed(1);
            Ring.Active(g, 0) && Ring.Window(g) == [0, 1] && g.owner == 1 && PassedOn(g, n).owner != 0
  {
    hide Ring.Window, Ring.Circle, Claimed;
    ClaimedIs(1);
    Ring.CircleIsWindow(Claimed(1));
    LostEntryStarves(Claimed(1), 0, n);
  }

  // ----- an index whose old entry is still queued -----

  /** A join keeps the entries distinct exactly when the index is not queued already. */
  lemma JoinKeepsDistinctIff(g: Ring.Registry, i: nat)
    requires Ring.Wf(g) && Distinct(Ring.Window(g)) && |Ring.Window(g)| < MAX_MANAGERS
    ensures Distinct(Ring.Window(Ring.Join(g, i))) <==> i !in Ring.Window(g)
  {
    hide Ring.Window;
    var w := Ring.Window(g);
    Ring.JoinWindow(g, i);
    if i in w {
      var k :| 0 <= k < |w| && w[k] == i;
      assert (w + [i])[k] == (w + [i])[|w|];
    }
  }

  /** A waiting manager's slot is given up, by a crash and a reclaim or by departing; a successor
      registers and joins. */
  function Replace(g: Ring.Registry, i: nat, pid: int): (r: Ring.Registry)
    requires Ring.Wf(g)
    ensures Ring.Wf(r)
  {
    var h := Ring.Deactivate(g, i);
    Ring.Join(Ring.Register(h, pid), Ring.FirstFree(h, 0))
  }

  /** The position whose turn it is after `k` passes of `n` entries. */
  function Turn(k: nat, n: nat): (pos: nat)
    requires n > 0
    ensures pos < n
  {
    k % n
  }

  lemma NextTurn(k: nat, n: nat)
    requires k > 0 && n > 0
    ensures Turn(k, n) == if Turn(k - 1, n) == n - 1 then 0 else Turn(k - 1, n) + 1
    ensures Turn(0, n) == 0
  {
    var q, r := (k - 1) / n, (k - 1) % n;
    assert k == if r == n - 1 then (q + 1) * n + 0 else q * n + (r + 1);
    if r == n - 1 {
      RemainderIs(k, n, q + 1, 0);
    } else {
      RemainderIs(k, n, q, r + 1);
    }
  }

  lemma RemainderIs(k: nat, n: nat, q: nat, r: nat)
    requires r < n && k == q * n + r
    ensures Turn(k, n) == r
  {
    var d := k / n - q;
    assert d * n == k / n * n - q * n == r - k % n;
    if d >= 1 {
      MulMono(1, d, n, n);
    }
  }

  /** While everyone queued is active, a pass takes the front entry to the back. */
  lemma PassTurns(g: Ring.Registry)
    requires Ring.Wf(g) && 1 <= |Ring.Window(g)| <= MAX_MANAGERS && g.owner == Ring.Window(g)[0]
    requires forall i :: i in Ring.Window(g) ==> Ring.Active(g, i)
    ensures g.owner < MAX_MANAGERS
    ensures var w, p := Ring.Window(g), Ring.Pass(g, g.owner);
            Ring.Window(p) == w[1..] + [w[0]] && p.owner == Ring.Window(p)[0] && p.slots == g.slots
  {
    hide Ring.Window, Ring.Pass, Ring.Scan;
    var w := Ring.Window(g);
    assert Ring.Active(g, w[0]);
    Ring.PassWindow(g, w[0]);
    assert (w[1..] + [w[0]])[0] in w;
  }

  /** The k-th pass from the front entry's turn on serves the k-th entry, round and round, whether or
      not entries repeat. */
  lemma {:induction false} TurnOrder(g: Ring.Registry, k: nat)
    requires Ring.Wf(g) && 1 <= |Ring.Window(g)| <= MAX_MANAGERS && g.owner == Ring.Window(g)[0]
    requires forall i :: i in Ring.Window(g) ==> Ring.Active(g, i)
    ensures PassedOn(g, k).owner == Ring.Window(g)[Turn(k, |Ring.Window(g)|)]
    decreases k
  {
    hide Ring.Window, Ring.Pass, Ring.Scan, Turn;
    if k == 0 {
      NextTurn(1, |Ring.Window(g)|);
    } else {
      PassTurns(g);
      assert forall i :: i in Ring.Window(Ring.Pass(g, g.owner)) ==> i in Ring.Window(g);
      TurnOrder(Ring.Pass(g, g.owner), k - 1);
      NextTurn(k, |Ring.Window(g)|);
    }
  }

  lemma ReplaceIs(g: Ring.Registry, i: nat, pid: int)
    requires Ring.Wf(g) && forall k :: 0 <= k <= i ==> Ring.Active(g, k)
    ensures i < MAX_MANAGERS
    ensures var slots := g.slots[i := ManagerSlot(pid, DEFAULT_AVG_US, true)];
            Replace(g, i, pid) == Ring.Join(g.(slots := slots), i)
  {
    assert Ring.Active(g, i);
    var h := Ring.Deactivate(g, i);
    forall k | 0 <= k < i
      ensures h.slots[k].active
    {
      assert Ring.Active(g, k);
    }
    Ring.FirstFreeIs(h, i);
  }

  /** A successor that finds every lower index taken gets that of the manager it replaces, and then
      is queued under it a second time. */
  lemma ReplaceQueuesTwice(g: Ring.Registry, i: nat, pid: int)
    requires Ring.Wf(g) && |Ring.Window(g)| < MAX_MANAGERS
    requires forall k :: 0 <= k <= i ==> Ring.Active(g, k)
    ensures var r := Replace(g, i, pid);
            && i < MAX_MANAGERS && Ring.Window(r) == Ring.Window(g) + [i] && r.owner == g.owner
            && r.slots == g.slots[i := ManagerSlot(pid, DEFAULT_AVG_US, true)]
  {
    hide Ring.Window, Replace;
    ReplaceIs(g, i, pid);
    var h := g.(slots := g.slots[i := ManagerSlot(pid, DEFAULT_AVG_US, true)]);
    Ring.SameWindow(g, h);
    Ring.JoinWindow(h, i);
  }

  /** `m` managers one after another replace each other at index `i`, each while it waits. */
  function Replaced(g: Ring.Registry, i: nat, pid: int, m: nat): (r: Ring.Registry)
    requires Ring.Wf(g)
    ensures Ring.Wf(r)
  {
    if m == 0 then g else Replace(Replaced(g, i, pid, m - 1), i, pid + m)
  }

  lemma ReplaceGrows(g: Ring.Registry, i: nat, pid: int)
    requires Ring.Wf(g) && |Ring.Window(g)| + 1 < U32
    requires forall k :: 0 <= k <= i ==> Ring.Active(g, k)
    ensures var r := Replace(g, i, pid);
            && |Ring.Window(r)| == |Ring.Window(g)| + 1 && r.owner == g.owner
            && forall k :: Ring.Active(g, k) <==> Ring.Active(r, k)
  {
    hide Replace;
    ReplaceIs(g, i, pid);
    Ring.LengthAfterJoin(g.head, g.tail);
    assert Ring.Active(g, i);
  }

  /** Every replacement makes the queue longer by an entry. */
  lemma {:induction false} ReplacementsGrow(g: Ring.Registry, i: nat, pid: int, m: nat)
    requires Ring.Wf(g) && i != g.owner && Ring.Active(g, g.owner) && |Ring.Window(g)| + m < U32
    requires forall k :: 0 <= k <= i ==> Ring.Active(g, k)
    ensures var r := Replaced(g, i, pid, m);
            && |Ring.Window(r)| == |Ring.Window(g)| + m && r.owner == g.owner
            && forall k :: Ring.Active(g, k) <==> Ring.Active(r, k)
  {
    hide Ring.Window, Replace;
    if m > 0 {
      ReplacementsGrow(g, i, pid, m - 1);
      ReplaceGrows(Replaced(g, i, pid, m - 1), i, pid + m);
    }
  }

  /** So from any rotation, when the replacements have made 65 entries of the queue, passing never
      hands the baton to anyone but the holder. */
  lemma ReplacementsEndRotation(g: Ring.Registry, i: nat, pid: int, n: nat)
    requires Ring.Wf(g) && i != g.owner && Ring.Active(g, g.owner) && |Ring.Window(g)| <= MAX_MANAGERS
    requires forall k :: 0 <= k <= i ==> Ring.Active(g, k)
    ensures var r := Replaced(g, i, pid, MAX_MANAGERS + 1 - |Ring.Window(g)|);
            && |Ring.Window(r)| == MAX_MANAGERS + 1 && (forall k :: Ring.Active(g, k) <==> Ring.Active(r, k))
            && PassedOn(r, n).owner == g.owner
  {
    hide Ring.Window, Ring.Circle, Replaced, PassedOn;
    var m := MAX_MANAGERS + 1 - |Ring.Window(g)|;
    ReplacementsGrow(g, i, pid, m);
    Ring.CircleWithinWindow(Replaced(g, i, pid, m));
    OverfullQueueSticks(Replaced(g, i, pid, m), n);
  }

  /** Two managers get there: the first of them claims in order, and the other is replaced 63 times. */
  lemma TwoManagersStick(n: nat)
    ensures var r := Replaced(Claimed(0), 1, 20, 63);
            Ring.Active(r, 0) && Ring.Active(r, 1) && |Ring.Window(r)| == 65 && PassedOn(r, n).owner == 0
  {
    hide Ring.Window, Replaced, PassedOn, Claimed;
    ClaimedIs(0);
    ReplacementsEndRotation(Claimed(0), 1, 20, n);
  }

  /** The pass at position `pos` of a rotation of `n` after `rounds` whole ones. */
  function Lap(rounds: nat, n: nat, pos: nat): nat {
    rounds * n + pos
  }

  /** It has two turns in every rotation. */
  lemma ReplacementHasTwoTurns(g: Ring.Registry, i: nat, pid: int, rounds: nat) returns (pos: nat)
    requires Ring.Wf(g) && |Ring.Window(g)| < MAX_MANAGERS && i in Ring.Window(g) && Ring.Window(g)[0] == g.owner
    requires forall k :: k in Ring.Window(g) || 0 <= k <= i ==> Ring.Active(g, k)
    ensures var r, n := Replace(g, i, pid), |Ring.Window(g)| + 1;
            && Ring.Window(r) == Ring.Window(g) + [i] && pos < n - 1
            && PassedOn(r, Lap(rounds, n, pos)).owner == i && PassedOn(r, Lap(rounds, n, n - 1)).owner == i
  {
    hide Ring.Window, PassedOn, Turn, Replace;
    var w, r, n := Ring.Window(g), Replace(g, i, pid), |Ring.Window(g)| + 1;
    ReplaceQueuesTwice(g, i, pid);
    pos :| 0 <= pos < |w| && w[pos] == i;
    forall k | k in w + [i]
      ensures Ring.Active(r, k)
    {
      assert Ring.Active(g, k);
    }
    RemainderIs(Lap(rounds, n, pos), n, rounds, pos);
    RemainderIs(Lap(rounds, n, n - 1), n, rounds, n - 1);
    TurnOrder(r, Lap(rounds, n, pos));
    TurnOrder(r, Lap(rounds, n, n - 1));
  }
}
