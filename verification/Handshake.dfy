// One batch after another: workers draw their first token, the manager switches to measuring, and
// workers report.  A report is one step, or a begin and a finish between which anything may happen.
module Handshake {
  import opened Shmem

  /** `on` and `batch` are the worker's active batch; `busy` while it is measuring. */
  datatype Worker = Worker(on: bool, batch: nat, busy: bool)

  /** Worker k reports in slot k.  `drawn` maps each worker that drew in the current batch to the
      time of its first token, `measured` each that reported to its duration, and `late` counts
      reports of earlier batches that finished in this one. */
  datatype State = State(st: LocalState, batch: nat, active: nat, reported: nat,
                         reports: seq<WorkerReport>, workers: seq<Worker>,
                         drawn: map<nat, nat>, measured: map<nat, nat>, late: nat)

  datatype Step =
    | StartBatch
    | Draw(k: nat, now: nat)
    | Measure
    | Report(k: nat, duration: nat)
    | BeginReport(k: nat)
    | FinishReport(k: nat, duration: nat)
    | Stop
    | Takeover

  /** The pod's shared region holds what the model says of the batch. */
  ghost predicate Shows(s: State, local: LocalContainerShmem)
    reads local, local.reports
  {
    && s.st == local.state && s.batch == local.batch_id && s.active == local.active_workers
    && s.reported == local.reported_count && s.reports == local.reports[..] && |s.workers| == |s.reports|
  }

  /** And worker k's own record, of batch `batch` while `on`, agrees on whether it owes a report. */
  ghost predicate ShowsWorker(s: State, local: LocalContainerShmem, k: nat, on: bool, batch: nat)
    reads local, local.reports
  {
    Shows(s, local) && k < |s.workers| && !s.workers[k].busy && (Owes(s, k) <==> on && batch == s.batch)
  }

  /** The worker's batch is the current one and it has not reported. */
  predicate Owes(s: State, k: nat)
    requires k < |s.workers|
  {
    s.workers[k].on && s.workers[k].batch == s.batch
  }

  ghost predicate Enabled(s: State, step: Step) {
    match step
    case StartBatch => s.st.Idle?
    case Draw(k, now) => k < |s.workers| && s.st.Running? && !s.workers[k].busy
    case Measure => s.st.Running?
    case Report(k, duration) => k < |s.workers| && s.st.Measuring? && Owes(s, k) && !s.workers[k].busy
    case BeginReport(k) => k < |s.workers| && s.st.Measuring? && Owes(s, k) && !s.workers[k].busy
    case FinishReport(k, duration) => k < |s.workers| && s.workers[k].busy
    case Stop => s.st.Measuring?
    case Takeover => true
  }

  /** Publish under the worker's own batch id. */
  function Published(s: State, k: nat, duration: nat): State
    requires k < |s.workers| == |s.reports|
  {
    var b := s.workers[k].batch;
    var s' := s.(reports := s.reports[k := WorkerReport(b, s.reports[k].start, duration)],
                 reported := s.reported + 1,
                 workers := s.workers[k := Worker(false, b, false)]);
    if b == s.batch then s'.(measured := s.measured[k := duration]) else s'.(late := s.late + 1)
  }

  function Next(s: State, step: Step): (r: State)
    requires |s.workers| == |s.reports|
    requires step.Draw? || step.Report? || step.BeginReport? || step.FinishReport? ==> step.k < |s.workers|
    ensures |r.workers| == |r.reports| == |s.reports|
  {
    match step
    case StartBatch =>
      s.(st := Running, batch := s.batch + 1, active := 0, reported := 0, drawn := map[], measured := map[], late := 0)
    case Draw(k, now) =>
      if Owes(s, k) then s else
        s.(workers := s.workers[k := Worker(true, s.batch, false)],
           active := s.active + 1,
           reports := s.reports[k := s.reports[k].(start := now)],
           drawn := s.drawn[k := now])
    case Measure => s.(st := Measuring)
    case Report(k, duration) => Published(s, k, duration)
    case BeginReport(k) => s.(workers := s.workers[k := s.workers[k].(busy := true)])
    case FinishReport(k, duration) => Published(s, k, duration)
    case Stop => s.(st := Idle)
    case Takeover => s.(st := Idle)
  }

  ghost predicate WorkerOk(s: State, k: nat)
    requires k < |s.workers| == |s.reports|
  {
    var w, r := s.workers[k], s.reports[k];
    && (w.busy ==> w.on && (w.batch < s.batch ==> k !in s.drawn)) && (w.on ==> 0 < w.batch <= s.batch)
    && r.batch <= s.batch
    && (Owes(s, k) ==> k in s.drawn && k !in s.measured && r.start == s.drawn[k] && r.batch < s.batch)
    && (k in s.drawn && !Owes(s, k) ==> k in s.measured)
    && (k in s.measured ==> k in s.drawn && r == WorkerReport(s.batch, s.drawn[k], s.measured[k]))
    && (s.batch > 0 && r.batch == s.batch ==> k in s.measured)
    && (s.st.Running? ==> k !in s.measured && (w.busy ==> w.batch < s.batch))
  }

  /** Counters count: the drawers, and the reports of this batch and of earlier ones. */
  ghost predicate Inv(s: State) {
    && |s.workers| == |s.reports|
    && (forall k :: 0 <= k < |s.workers| ==> WorkerOk(s, k))
    && (forall k :: k in s.drawn ==> k < |s.workers|)
    && s.measured.Keys <= s.drawn.Keys
    && s.active == |s.drawn| && s.reported == |s.measured| + s.late
    && (s.st.Running? ==> s.batch > 0)
  }

  lemma InsertSize(m: map<nat, nat>, k: nat, v: nat)
    requires k !in m
    ensures |m[k := v]| == |m| + 1
  {
    assert m[k := v].Keys == m.Keys + {k};
    assert |m.Keys| == |m| && |m[k := v].Keys| == |m[k := v]|;
  }

  lemma StepKeepsInv(s: State, step: Step)
    requires Inv(s) && Enabled(s, step)
    ensures Inv(Next(s, step))
  {
    var s' := Next(s, step);
    if step.Draw? || step.Report? || step.BeginReport? || step.FinishReport? {
      assert WorkerOk(s, step.k);
    }
    if step.Draw? && !Owes(s, step.k) {
      InsertSize(s.drawn, step.k, step.now);
    }
    if (step.Report? || step.FinishReport?) && s.workers[step.k].batch == s.batch {
      InsertSize(s.measured, step.k, step.duration);
    }
    forall k | 0 <= k < |s.workers|
      ensures WorkerOk(s', k)
    {
      assert WorkerOk(s, k);
    }
  }

  // ----- runs -----

  ghost predicate RunOk(s: State, run: seq<Step>)
    requires |s.workers| == |s.reports|
    decreases |run|
  {
    run == [] || (Enabled(s, run[0]) && RunOk(Next(s, run[0]), run[1..]))
  }

  ghost function After(s: State, run: seq<Step>): (r: State)
    requires |s.workers| == |s.reports| && RunOk(s, run)
    ensures |r.workers| == |r.reports|
    decreases |run|
  {
    if run == [] then s else After(Next(s, run[0]), run[1..])
  }

  lemma {:induction false} RunKeepsCounts(s: State, run: seq<Step>)
    requires Inv(s) && RunOk(s, run)
    ensures Inv(After(s, run))
    decreases |run|
  {
    if run != [] {
      StepKeepsInv(s, run[0]);
      RunKeepsCounts(Next(s, run[0]), run[1..]);
    }
  }

  /** `n` idle workers before the first batch. */
  function Start(n: nat): (s: State)
    ensures |s.workers| == |s.reports| == n
  {
    State(Idle, 0, 0, 0, seq(n, _ => WorkerReport(0, 0, 0)), seq(n, _ => Worker(false, 0, false)), map[], map[], 0)
  }

  lemma StartInv(n: nat)
    ensures Inv(Start(n))
  {
  }

  lemma {:induction false} SameSizeSameKeys(a: map<nat, nat>, b: map<nat, nat>)
    requires a.Keys <= b.Keys && |a| >= |b|
    ensures a.Keys == b.Keys
  {
    assert |b.Keys - a.Keys| == |b.Keys| - |a.Keys|;
  }

  /** Reports never outnumber drawers by more than the late ones.  Without late ones, once they are as
      many every drawer has published, and the slots with the current batch id are exactly the
      drawers', with the start and duration of this batch. */
  lemma CountMeansAllReported(s: State)
    requires Inv(s)
    ensures s.reported <= s.active + s.late
    ensures s.late == 0 && s.batch > 0 && s.reported >= s.active ==>
      forall k :: 0 <= k < |s.workers| ==>
        && (k in s.drawn <==> s.reports[k].batch == s.batch)
        && (k in s.drawn ==> k in s.measured && s.reports[k] == WorkerReport(s.batch, s.drawn[k], s.measured[k]))
  {
    assert |s.measured.Keys| <= |s.drawn.Keys| by { KeysSubset(s.measured.Keys, s.drawn.Keys); }
    if s.late == 0 && s.batch > 0 && s.reported >= s.active {
      SameSizeSameKeys(s.measured, s.drawn);
      forall k | 0 <= k < |s.workers|
        ensures (k in s.drawn <==> s.reports[k].batch == s.batch)
        ensures k in s.drawn ==> k in s.measured && s.reports[k] == WorkerReport(s.batch, s.drawn[k], s.measured[k])
      {
        assert WorkerOk(s, k);
      }
    }
  }

  lemma KeysSubset(a: set<nat>, b: set<nat>)
    requires a <= b
    ensures |a| <= |b|
  {
    assert b == a + (b - a);
  }

  predicate Split(step: Step) {
    step.BeginReport? || step.FinishReport?
  }

  lemma {:induction false} WholeReportsAreNeverLate(s: State, run: seq<Step>)
    requires Inv(s) && RunOk(s, run) && s.late == 0
    requires forall k :: 0 <= k < |s.workers| ==> !s.workers[k].busy
    requires forall i :: 0 <= i < |run| ==> !Split(run[i])
    ensures After(s, run).late == 0
    decreases |run|
  {
    if run != [] {
      assert !Split(run[0]);
      StepKeepsInv(s, run[0]);
      WholeReportsAreNeverLate(Next(s, run[0]), run[1..]);
    }
  }

  /** The handshake over every run whose reports are single steps. */
  lemma HandshakeIsSound(n: nat, run: seq<Step>)
    requires RunOk(Start(n), run) && forall i :: 0 <= i < |run| ==> !Split(run[i])
    ensures var s := After(Start(n), run);
            && s.reported <= s.active && |s.reports| == n
            && (s.batch > 0 && s.reported >= s.active ==> forall k :: 0 <= k < n ==>
                  (k in s.drawn <==> s.reports[k].batch == s.batch)
                  && (k in s.drawn ==>
                        k in s.measured && s.reports[k] == WorkerReport(s.batch, s.drawn[k], s.measured[k])))
  {
    StartInv(n);
    RunKeepsCounts(Start(n), run);
    WholeReportsAreNeverLate(Start(n), run);
    CountMeansAllReported(After(Start(n), run));
    SizeStays(Start(n), run);
  }

  lemma {:induction false} SizeStays(s: State, run: seq<Step>)
    requires |s.workers| == |s.reports| && RunOk(s, run)
    ensures |After(s, run).workers| == |s.workers|
    decreases |run|
  {
    if run != [] {
      SizeStays(Next(s, run[0]), run[1..]);
    }
  }

  // ----- what the run itself says of the batch -----

  /** The time of worker `k`'s first draw since the last start of a batch. */
  function DrawnIn(run: seq<Step>, k: nat): Option<nat> {
    if run == [] then None else
      var before := DrawnIn(run[..|run| - 1], k);
      match run[|run| - 1]
      case StartBatch => None
      case Draw(j, now) => if j == k && before.None? then Some(now) else before
      case _ => before
  }

  /** Has worker `k` begun a report since then and not finished it? */
  predicate BegunIn(run: seq<Step>, k: nat) {
    run != [] &&
    match run[|run| - 1]
    case StartBatch => false
    case BeginReport(j) => j == k || BegunIn(run[..|run| - 1], k)
    case FinishReport(j, duration) => j != k && BegunIn(run[..|run| - 1], k)
    case _ => BegunIn(run[..|run| - 1], k)
  }

  /** The duration worker `k` reported since then, in one step or in a begin and a finish. */
  function ReportedIn(run: seq<Step>, k: nat): Option<nat> {
    if run == [] then None else
      var before := ReportedIn(run[..|run| - 1], k);
      match run[|run| - 1]
      case StartBatch => None
      case Report(j, duration) => if j == k then Some(duration) else before
      case FinishReport(j, duration) => if j == k && BegunIn(run[..|run| - 1], k) then Some(duration) else before
      case _ => before
  }

  lemma {:induction false} LastStep(s: State, run: seq<Step>)
    requires |s.workers| == |s.reports| && RunOk(s, run) && run != []
    ensures var last := |run| - 1;
            && RunOk(s, run[..last]) && Enabled(After(s, run[..last]), run[last])
            && After(s, run) == Next(After(s, run[..last]), run[last])
    decreases |run|
  {
    if |run| > 1 {
      LastStep(Next(s, run[0]), run[1..]);
      assert run[1..][..|run| - 2] == run[..|run| - 1][1..];
    }
  }

  ghost predicate HistoryOk(s: State, run: seq<Step>, k: nat)
    requires k < |s.workers|
  {
    && (if k in s.drawn then DrawnIn(run, k) == Some(s.drawn[k]) else DrawnIn(run, k) == None)
    && (if k in s.measured then ReportedIn(run, k) == Some(s.measured[k]) else ReportedIn(run, k) == None)
    && (BegunIn(run, k) <==> s.workers[k].busy && s.workers[k].batch == s.batch)
  }

  lemma HistoryGrows(s: State, run: seq<Step>, step: Step, k: nat)
    requires Inv(s) && Enabled(s, step) && k < |s.workers| && HistoryOk(s, run, k)
    ensures HistoryOk(Next(s, step), run + [step], k)
  {
    assert WorkerOk(s, k);
    assert (run + [step])[..|run|] == run;
  }

  /** What the model records of a worker's batch is what the run says. */
  lemma {:induction false} HistoryIs(n: nat, run: seq<Step>, k: nat)
    requires RunOk(Start(n), run) && k < n
    ensures var s := After(Start(n), run); Inv(s) && |s.workers| == n && HistoryOk(s, run, k)
    decreases |run|
  {
    StartInv(n);
    RunKeepsCounts(Start(n), run);
    SizeStays(Start(n), run);
    if run != [] {
      hide Inv, Next, Enabled, HistoryOk, RunOk, After, Start;
      var last := |run| - 1;
      LastStep(Start(n), run);
      HistoryIs(n, run[..last], k);
      HistoryGrows(After(Start(n), run[..last]), run[..last], run[last], k);
      assert run[..last] + [run[last]] == run;
    }
  }

  /** However reports are split, a slot that carries the current batch id holds what its worker drew
      and measured in this batch, by the run's own steps: the time of its first draw and the duration
      of its report.  Nothing of an earlier batch enters it. */
  lemma NoStaleReport(n: nat, run: seq<Step>, k: nat)
    requires RunOk(Start(n), run) && k < n
    ensures var s := After(Start(n), run);
            && |s.reports| == n
            && (s.batch > 0 && s.reports[k].batch == s.batch ==>
                  && k in s.drawn && k in s.measured && s.reports[k] == WorkerReport(s.batch, s.drawn[k], s.measured[k])
                  && DrawnIn(run, k) == Some(s.reports[k].start) && ReportedIn(run, k) == Some(s.reports[k].duration))
  {
    HistoryIs(n, run, k);
    assert WorkerOk(After(Start(n), run), k);
  }

  lemma {:induction false} PathIsRun(states: seq<State>, run: seq<Step>)
    requires |states| == |run| + 1 && |states[0].workers| == |states[0].reports|
    requires forall i :: 0 <= i < |run| ==>
               && |states[i].workers| == |states[i].reports|
               && Enabled(states[i], run[i]) && Next(states[i], run[i]) == states[i + 1]
    ensures RunOk(states[0], run) && After(states[0], run) == states[|run|]
    decreases |run|
  {
    if run != [] {
      PathIsRun(states[1..], run[1..]);
    }
  }

  lemma {:induction false} RunsJoin(s: State, run: seq<Step>, more: seq<Step>)
    requires |s.workers| == |s.reports| && RunOk(s, run) && RunOk(After(s, run), more)
    ensures RunOk(s, run + more) && After(s, run + more) == After(After(s, run), more)
    decreases |run|
  {
    if run == [] {
      assert run + more == more;
    } else {
      assert (run + more)[1..] == run[1..] + more;
      RunsJoin(Next(s, run[0]), run[1..], more);
    }
  }

  /** Batch 1 has been given up while worker 0 is still measuring. */
  function GivenUp(): State {
    State(Idle, 1, 1, 0, [WorkerReport(0, 10, 0), WorkerReport(0, 0, 0)],
          [Worker(true, 1, true), Worker(false, 0, false)],
          map[0 := 10], map[], 0)
  }

  lemma GivenUpIsReached() returns (run: seq<Step>)
    ensures RunOk(Start(2), run) && After(Start(2), run) == GivenUp()
  {
    run := [StartBatch, Draw(0, 10), Measure, BeginReport(0), Stop];
    var s0 := Start(2);
    assert s0.workers == [Worker(false, 0, false), Worker(false, 0, false)];
    assert s0.reports == [WorkerReport(0, 0, 0), WorkerReport(0, 0, 0)];
    var s1 := Next(s0, run[0]);
    var s2 := Next(s1, run[1]);
    var s3 := Next(s2, run[2]);
    var s4 := Next(s3, run[3]);
    PathIsRun([s0, s1, s2, s3, s4, GivenUp()], run);
  }

  /** A report that begins in one batch and finishes in the next is counted there, so the manager can
      stop waiting although the only drawer has published nothing. */
  lemma LateReportEndsWaitEarly() returns (run: seq<Step>)
    ensures RunOk(Start(2), run)
    ensures var s := After(Start(2), run);
            && |s.reports| == 2 && s.st.Measuring? && s.reported >= s.active == 1
            && 1 in s.drawn && 1 !in s.measured && s.reports[1].batch < s.batch
  {
    var first := GivenUpIsReached();
    var more := [StartBatch, Draw(1, 20), FinishReport(0, 5), Measure];
    var s5 := GivenUp();
    var s6 := Next(s5, more[0]);
    var s7 := Next(s6, more[1]);
    var s8 := Next(s7, more[2]);
    PathIsRun([s5, s6, s7, s8, Next(s8, more[3])], more);
    RunsJoin(Start(2), first, more);
    run := first + more;
  }

  /** The run stays in one batch and ends with the counts matching although a drawer has published
      nothing. */
  ghost predicate EndsWaitEarly(s: State, run: seq<Step>)
    requires |s.workers| == |s.reports|
  {
    && RunOk(s, run) && StartBatch !in run
    && var r := After(s, run);
       r.st.Measuring? && r.reported >= r.active && exists k :: k in r.drawn && k !in r.measured
  }

  lemma {:induction false} OwnReportsAreNeverLate(s: State, run: seq<Step>)
    requires Inv(s) && RunOk(s, run) && StartBatch !in run && s.late == 0
    requires forall k :: 0 <= k < |s.workers| && s.workers[k].busy ==> s.workers[k].batch == s.batch
    ensures var r := After(s, run); r.late == 0 && r.batch == s.batch
    decreases |run|
  {
    if run != [] {
      assert run[0] in run;
      StepKeepsInv(s, run[0]);
      OwnReportsAreNeverLate(Next(s, run[0]), run[1..]);
    }
  }

  /** A batch's wait can end before every drawer has published if and only if a worker is still
      measuring when the batch starts. */
  lemma EarlyEndIff(s0: State)
    requires Inv(s0) && s0.st.Idle?
    ensures (exists run :: EndsWaitEarly(Next(s0, StartBatch), run))
       <==> exists k :: 0 <= k < |s0.workers| && s0.workers[k].busy
  {
    var s := Next(s0, StartBatch);
    StepKeepsInv(s0, StartBatch);
    if k :| 0 <= k < |s0.workers| && s0.workers[k].busy {
      assert WorkerOk(s0, k);
      var run := [FinishReport(k, 0), Draw(k, 0), Measure];
      var s1 := Next(s, run[0]);
      var s2 := Next(s1, run[1]);
      PathIsRun([s, s1, s2, Next(s2, run[2])], run);
      assert k in s2.drawn && k !in s2.measured;
      assert EndsWaitEarly(s, run);
    } else if run :| EndsWaitEarly(s, run) {
      OwnReportsAreNeverLate(s, run);
      RunKeepsCounts(s, run);
      CountMeansAllReported(After(s, run));
      assert false;
    }
  }

  // ----- aggregation -----

  /** A report on batch `b` that took time. */
  predicate Counts(r: WorkerReport, b: nat) {
    r.batch == b && r.duration > 0
  }

  /** The interval [lo, hi] holds every report that counts. */
  ghost predicate Holds(reports: seq<WorkerReport>, b: nat, lo: int, hi: int) {
    forall k :: 0 <= k < |reports| && Counts(reports[k], b) ==>
      lo <= reports[k].start && reports[k].start + reports[k].duration <= hi
  }

  /** `length` is that of the smallest interval that holds every report that counts. */
  ghost predicate Spans(reports: seq<WorkerReport>, b: nat, length: nat) {
    && (exists lo, hi :: Holds(reports, b, lo, hi) && hi - lo == length)
    && (forall lo, hi :: Holds(reports, b, lo, hi) ==> length <= hi - lo)
  }

  /** When the manager stops because the counts match, every worker that drew in the batch has reported
      in it, and what is aggregated is the interval of exactly these: from the time of its first draw,
      for the duration of its report when that is not zero, both as the run has them. */
  lemma AggregateCoversDrawers(n: nat, run: seq<Step>, lo: int, hi: int)
    requires RunOk(Start(n), run) && forall i :: 0 <= i < |run| ==> !Split(run[i])
    ensures var s := After(Start(n), run);
            s.batch > 0 && s.reported >= s.active ==>
              && (forall k :: 0 <= k < n && DrawnIn(run, k).Some? ==> ReportedIn(run, k).Some?)
              && (Holds(s.reports, s.batch, lo, hi) <==>
                    forall k :: 0 <= k < n && DrawnIn(run, k).Some? && ReportedIn(run, k).Some? ==>
                      InInterval(DrawnIn(run, k).value, ReportedIn(run, k).value, lo, hi))
  {
    hide RunOk, After, DrawnIn, ReportedIn;
    HandshakeIsSound(n, run);
    var s := After(Start(n), run);
    if s.batch > 0 && s.reported >= s.active {
      forall k | 0 <= k < n
        ensures DrawnIn(run, k).Some? ==> ReportedIn(run, k).Some?
        ensures Counts(s.reports[k], s.batch) ==> DrawnIn(run, k).Some?
        ensures DrawnIn(run, k).Some? ==>
                  s.reports[k] == WorkerReport(s.batch, DrawnIn(run, k).value, ReportedIn(run, k).value)
      {
        HistoryIs(n, run, k);
      }
      HoldsIff(s.reports, s.batch, run, lo, hi);
    }
  }

  lemma HoldsIff(reports: seq<WorkerReport>, b: nat, run: seq<Step>, lo: int, hi: int)
    requires forall k :: 0 <= k < |reports| && Counts(reports[k], b) ==> DrawnIn(run, k).Some?
    requires forall k :: 0 <= k < |reports| && DrawnIn(run, k).Some? ==>
               && ReportedIn(run, k).Some?
               && reports[k] == WorkerReport(b, DrawnIn(run, k).value, ReportedIn(run, k).value)
    ensures Holds(reports, b, lo, hi) <==>
              forall k :: 0 <= k < |reports| && DrawnIn(run, k).Some? && ReportedIn(run, k).Some? ==>
                InInterval(DrawnIn(run, k).value, ReportedIn(run, k).value, lo, hi)
  {
    hide DrawnIn, ReportedIn;
    if Holds(reports, b, lo, hi) {
      forall k | 0 <= k < |reports| && DrawnIn(run, k).Some? && ReportedIn(run, k).Some?
        ensures InInterval(DrawnIn(run, k).value, ReportedIn(run, k).value, lo, hi)
      {
        assert reports[k].duration > 0 ==> Counts(reports[k], b);
      }
    } else {
      var k :| 0 <= k < |reports| && Counts(reports[k], b)
               && !(lo <= reports[k].start && reports[k].start + reports[k].duration <= hi);
      assert !InInterval(DrawnIn(run, k).value, ReportedIn(run, k).value, lo, hi);
    }
  }

  /** A measurement that took time lies in [lo, hi]. */
  predicate InInterval(start: nat, duration: nat, lo: int, hi: int) {
    duration > 0 ==> lo <= start && start + duration <= hi
  }
}
