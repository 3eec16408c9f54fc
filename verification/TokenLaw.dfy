// The token bucket at the granularity of single atomic operations.  A draw subtracts first and
// looks at the old value afterwards; a failed draw is undone by an addition.  A process's draws are
// serialised by its lock, so one entry of `draws` stands for one process.
module TokenLaw {
  import opened Arith
  import opened Shmem

  /** Between draws; or seen a non-empty bucket; or drawn from an empty one, in batch `epoch`, with
      the undo still to come. */
  datatype Draw = Resting | Willing | Failed(epoch: nat)

  /** Since the bucket was last stored with `size`: `grants` successful draws, and `late` undos of
      draws that had failed before. */
  datatype State = State(tokens: nat, epoch: nat, size: nat, grants: nat, late: nat, draws: seq<Draw>)

  /** The manager stores a bucket at the start of a batch and a zero at its end. */
  datatype Step = Store(size: nat) | Look(k: nat) | Subtract(k: nat) | Undo(k: nat)

  ghost predicate Enabled(s: State, step: Step) {
    match step
    case Store(size) => size < U64
    case Look(k) => k < |s.draws| && s.draws[k].Resting? && s.tokens != 0
    case Subtract(k) => k < |s.draws| && s.draws[k].Willing?
    case Undo(k) => k < |s.draws| && s.draws[k].Failed?
  }

  function Next(s: State, step: Step): State
    requires !step.Store? ==> step.k < |s.draws|
  {
    match step
    case Store(size) => State(size, s.epoch + 1, size, 0, 0, s.draws)
    case Look(k) => s.(draws := s.draws[k := Willing])
    case Subtract(k) =>
      var left := (s.tokens - 1) % U64;
      if s.tokens > 0 then s.(tokens := left, grants := s.grants + 1, draws := s.draws[k := Resting])
      else s.(tokens := left, draws := s.draws[k := Failed(s.epoch)])
    case Undo(k) =>
      var s' := s.(tokens := (s.tokens + 1) % U64, draws := s.draws[k := Resting]);
      if s.draws[k] == Failed(s.epoch) then s' else s'.(late := s.late + 1)
  }

  /** The failed draws of the current batch that await their undo. */
  ghost function Pending(draws: seq<Draw>, epoch: nat): (w: seq<nat>)
    ensures |w| == |draws|
  {
    seq(|draws|, k requires 0 <= k < |draws| => if draws[k] == Failed(epoch) then 1 else 0)
  }

  /** The bucket in unbounded integers. */
  ghost function Balance(s: State): int {
    s.size - s.grants - Total(Pending(s.draws, s.epoch)) + s.late
  }

  ghost predicate Lawful(s: State) {
    && s.tokens == Balance(s) % U64
    && forall k :: 0 <= k < |s.draws| && s.draws[k].Failed? ==> s.draws[k].epoch <= s.epoch
  }

  lemma ModShift(a: int, b: int)
    ensures (a % U64 + b) % U64 == (a + b) % U64
  {
    var q := a / U64;
    assert a == q * U64 + a % U64;
    assert a + b == q * U64 + (a % U64 + b);
  }

  /** The token law: in every interleaving the bucket is the stored size less grants, less failed
      draws awaiting their undo, plus undos from before the store, modulo 2^64. */
  lemma StepIsLawful(s: State, step: Step)
    requires Lawful(s) && Enabled(s, step)
    ensures Lawful(Next(s, step))
  {
    ModShift(Balance(s), 1);
    ModShift(Balance(s), -1);
    var s' := Next(s, step);
    if step.Store? {
      TotalZero(Pending(s'.draws, s'.epoch));
    } else {
      var x := if s'.draws[step.k] == Failed(s.epoch) then 1 else 0;
      assert Pending(s'.draws, s.epoch) == Pending(s.draws, s.epoch)[step.k := x];
      TotalUpdate(Pending(s.draws, s.epoch), step.k, x);
    }
  }

  // ----- runs -----

  ghost predicate RunOk(s: State, run: seq<Step>)
    decreases |run|
  {
    run == [] || (Enabled(s, run[0]) && RunOk(Next(s, run[0]), run[1..]))
  }

  ghost function After(s: State, run: seq<Step>): State
    requires RunOk(s, run)
    decreases |run|
  {
    if run == [] then s else After(Next(s, run[0]), run[1..])
  }

  lemma {:induction false} RunIsLawful(s: State, run: seq<Step>)
    requires Lawful(s) && RunOk(s, run)
    ensures Lawful(After(s, run))
    decreases |run|
  {
    if run != [] {
      StepIsLawful(s, run[0]);
      RunIsLawful(Next(s, run[0]), run[1..]);
    }
  }

  // ----- how many launches a batch can grant -----

  ghost predicate AnyFailed(s: State) {
    exists k :: 0 <= k < |s.draws| && s.draws[k].Failed?
  }

  /** No draw happens while a failed one awaits its undo. */
  ghost predicate Polite(s: State, run: seq<Step>)
    requires RunOk(s, run)
    decreases |run|
  {
    run == [] || ((run[0].Subtract? ==> !AnyFailed(s)) && Polite(Next(s, run[0]), run[1..]))
  }

  /** At most one draw awaits its undo; one that failed in this batch found the bucket at zero; and
      undos from before the batch are at most one in all. */
  ghost predicate Calm(s: State) {
    && Lawful(s) && s.size < U64 - 1
    && (forall j, k :: 0 <= j < k < |s.draws| ==> !(s.draws[j].Failed? && s.draws[k].Failed?))
    && (forall k :: 0 <= k < |s.draws| && s.draws[k] == Failed(s.epoch) ==> s.grants == s.size + s.late)
    && s.late <= 1 && s.grants <= s.size + s.late
    && (forall k :: 0 <= k < |s.draws| && s.draws[k].Failed? && s.draws[k].epoch < s.epoch ==> s.late == 0)
  }

  lemma StepStaysCalm(s: State, step: Step)
    requires Calm(s) && Enabled(s, step) && (step.Subtract? ==> !AnyFailed(s))
    requires step.Store? ==> step.size < U64 - 1
    ensures Calm(Next(s, step))
  {
    StepIsLawful(s, step);
    var s' := Next(s, step);
    match step {
      case Store(size) =>
      case Look(k) =>
        assert forall j :: 0 <= j < |s.draws| && s'.draws[j].Failed? ==> s'.draws[j] == s.draws[j];
        assert forall j :: 0 <= j < |s.draws| && s.draws[j].Failed? ==> s'.draws[j] == s.draws[j];
      case Subtract(k) =>
        assert forall j :: 0 <= j < |s.draws| ==> !s.draws[j].Failed?;
        TotalZero(Pending(s.draws, s.epoch));
      case Undo(k) =>
        assert forall j :: 0 <= j < |s.draws| ==> !s'.draws[j].Failed?;
    }
  }

  lemma {:induction false} PoliteRunStaysCalm(s: State, run: seq<Step>)
    requires Calm(s) && RunOk(s, run) && Polite(s, run)
    requires forall i :: 0 <= i < |run| && run[i].Store? ==> run[i].size < U64 - 1
    ensures Calm(After(s, run))
    decreases |run|
  {
    if run != [] {
      StepStaysCalm(s, run[0]);
      PoliteRunStaysCalm(Next(s, run[0]), run[1..]);
    }
  }

  /** An empty bucket and `n` processes at rest. */
  function Start(n: nat): State {
    State(0, 0, 0, 0, 0, seq(n, _ => Resting))
  }

  /** If no draw happens while a failed one awaits its undo, a batch grants at most its tokens plus
      the undos that straddled its start, of which there is at most one. */
  lemma PoliteGrants(n: nat, run: seq<Step>)
    requires RunOk(Start(n), run) && Polite(Start(n), run)
    requires forall i :: 0 <= i < |run| && run[i].Store? ==> run[i].size < U64 - 1
    ensures var s := After(Start(n), run);
            s.grants <= s.size + s.late && s.late <= 1
  {
    TotalZero(Pending(Start(n).draws, 0));
    PoliteRunStaysCalm(Start(n), run);
  }

  lemma {:induction false} AloneIsPolite(s: State, run: seq<Step>)
    requires |s.draws| <= 1 && RunOk(s, run)
    ensures Polite(s, run)
    decreases |run|
  {
    if run != [] {
      AloneIsPolite(Next(s, run[0]), run[1..]);
    }
  }

  /** A pod of one process grants at most T + 1 launches a batch in every interleaving with the
      manager, and at most T if no undo straddles the batch's start. */
  lemma OneProcessGrants(run: seq<Step>)
    requires RunOk(Start(1), run)
    requires forall i :: 0 <= i < |run| && run[i].Store? ==> run[i].size < U64 - 1
    ensures var s := After(Start(1), run);
            s.grants <= s.size + 1 && (s.late == 0 ==> s.grants <= s.size)
  {
    AloneIsPolite(Start(1), run);
    PoliteGrants(1, run);
  }

  // ----- the bound is reached, and fails without its premise -----

  lemma {:induction false} PathIsRun(states: seq<State>, run: seq<Step>)
    requires |states| == |run| + 1
    requires forall i :: 0 <= i < |run| ==> Enabled(states[i], run[i]) && Next(states[i], run[i]) == states[i + 1]
    ensures RunOk(states[0], run) && After(states[0], run) == states[|run|]
    decreases |run|
  {
    if run != [] {
      PathIsRun(states[1..], run[1..]);
    }
  }

  lemma {:induction false} RunsJoin(s: State, run: seq<Step>, more: seq<Step>)
    requires RunOk(s, run) && RunOk(After(s, run), more)
    ensures RunOk(s, run + more) && After(s, run + more) == After(After(s, run), more)
    decreases |run|
  {
    if run == [] {
      assert run + more == more;
    } else {
      assert (run + more)[1..] == run[1..] + more;
      RunsJoin(Next(s, run[0]), run[1..], more);
    }
  }

  ghost predicate NoStore(run: seq<Step>) {
    forall step :: step in run ==> !step.Store?
  }

  /** While the bucket stays positive one process can draw again and again. */
  lemma {:induction false} DrawsOn(s: State, k: nat, n: nat) returns (run: seq<Step>)
    requires k < |s.draws| && !s.draws[k].Failed? && n <= s.tokens < U64
    ensures RunOk(s, run) && NoStore(run)
    ensures var r := After(s, run);
            && |r.draws| == |s.draws| && !r.draws[k].Failed?
            && r == s.(tokens := s.tokens - n, grants := s.grants + n, draws := s.draws[k := r.draws[k]])
    decreases n
  {
    run := [];
    if n > 0 {
      var looked := Next(s, Look(k));
      var drawn := Next(looked, Subtract(k));
      var one := [Look(k), Subtract(k)];
      if s.draws[k].Willing? {
        one := [Subtract(k)];
        assert looked == s;
        PathIsRun([s, drawn], one);
      } else {
        PathIsRun([s, looked, drawn], one);
      }
      var rest := DrawsOn(drawn, k, n - 1);
      RunsJoin(s, one, rest);
      run := one + rest;
    }
  }

  /** For every batch size the bound of one more is reached: one process looks at a bucket that is
      emptied under it, fails, and its undo arrives after the next batch has started. */
  lemma StraddlingUndoGrantsOneMore(size: nat) returns (run: seq<Step>)
    requires size < U64 - 1
    ensures RunOk(Start(1), run)
    ensures var s := After(Start(1), run); s.size == size && s.grants == size + 1 && s.late == 1
  {
    var late := [Store(1), Look(0), Store(0), Subtract(0), Store(size), Undo(0)];
    var s0 := Start(1);
    var s1 := Next(s0, late[0]);
    var s2 := Next(s1, late[1]);
    var s3 := Next(s2, late[2]);
    var s4 := Next(s3, late[3]);
    var s5 := Next(s4, late[4]);
    var s6 := Next(s5, late[5]);
    PathIsRun([s0, s1, s2, s3, s4, s5, s6], late);
    var rest := DrawsOn(s6, 0, size + 1);
    RunsJoin(s0, late, rest);
    run := late + rest;
  }

  /** Process `w` looks at a bucket that process `o` empties before `w` subtracts, and while the undo
      of `w` is pending `o` draws on: for every n below 2^64 a batch can grant n more. */
  lemma PendingUndoOvergrants(s: State, w: nat, o: nat, n: nat) returns (run: seq<Step>)
    requires s.tokens == s.size && s.grants == 0 && s.size < U64 && n < U64
    requires w < |s.draws| && o < |s.draws| && w != o && !s.draws[w].Failed? && !s.draws[o].Failed?
    requires s.size >= 1 || s.draws[w].Willing?
    ensures RunOk(s, run) && NoStore(run) && After(s, run).grants == s.size + n
  {
    var s1 := s.(draws := s.draws[w := Willing]);
    var look := if s.draws[w].Willing? then [] else [Look(w)];
    if s.draws[w].Willing? {
      assert s1 == s;
    } else {
      PathIsRun([s, s1], look);
    }
    var empty := DrawsOn(s1, o, s.size);
    var s2 := After(s1, empty);
    var s3 := Next(s2, Subtract(w));
    PathIsRun([s2, s3], [Subtract(w)]);
    var rest := DrawsOn(s3, o, n);
    RunsJoin(s2, [Subtract(w)], rest);
    RunsJoin(s1, empty, [Subtract(w)] + rest);
    RunsJoin(s, look, empty + ([Subtract(w)] + rest));
    run := look + (empty + ([Subtract(w)] + rest));
  }

  /** Draws of this batch alone are undone in it. */
  lemma {:induction false} NoLateUndo(s: State, run: seq<Step>)
    requires RunOk(s, run) && NoStore(run) && s.late == 0
    requires forall k :: 0 <= k < |s.draws| && s.draws[k].Failed? ==> s.draws[k].epoch == s.epoch
    ensures var r := After(s, run); r.late == 0 && r.size == s.size
    decreases |run|
  {
    if run != [] {
      assert run[0] in run;
      NoLateUndo(Next(s, run[0]), run[1..]);
    }
  }

  ghost predicate Overgrants(s: State, run: seq<Step>) {
    RunOk(s, run) && NoStore(run) && After(s, run).grants > s.size
  }

  /** A batch can grant more launches than its tokens if and only if, when its bucket is stored, a
      failed draw awaits its undo, or there are two processes and a token or one of them has looked
      already. */
  lemma OvergrantIff(s0: State, size: nat)
    requires size < U64 - 1
    ensures (exists run :: Overgrants(Next(s0, Store(size)), run))
       <==> AnyFailed(s0)
            || (|s0.draws| >= 2 && (size >= 1 || exists k :: 0 <= k < |s0.draws| && s0.draws[k].Willing?))
  {
    var s := Next(s0, Store(size));
    if AnyFailed(s0) {
      StraddlerOvergrants(s0, size);
    } else if |s.draws| >= 2 && (size >= 1 || exists k :: 0 <= k < |s.draws| && s.draws[k].Willing?) {
      var w :| 0 <= w < |s.draws| && (size >= 1 || s.draws[w].Willing?);
      var run := PendingUndoOvergrants(s, w, if w == 0 then 1 else 0, 1);
      assert Overgrants(s, run);
    } else if run :| Overgrants(s, run) {
      if |s.draws| <= 1 {
        TotalZero(Pending(s.draws, s.epoch));
        AloneIsPolite(s, run);
        PoliteRunStaysCalm(s, run);
        NoLateUndo(s, run);
      }
      assert false;
    }
  }

  lemma StraddlerOvergrants(s0: State, size: nat)
    requires size < U64 - 1 && AnyFailed(s0)
    ensures exists run :: Overgrants(Next(s0, Store(size)), run)
  {
    var k :| 0 <= k < |s0.draws| && s0.draws[k].Failed?;
    var s := Next(s0, Store(size));
    var undone := Next(s, Undo(k));
    PathIsRun([s, undone], [Undo(k)]);
    var rest := DrawsOn(undone, k, size + 1);
    RunsJoin(s, [Undo(k)], rest);
    assert Overgrants(s, [Undo(k)] + rest);
  }
}
