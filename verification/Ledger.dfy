// The pod's memory ledger as values: per-process slots, the counter `used` that summarises
// them, and what each operation does to both.
module Ledger {
  import opened Arith
  import opened Shmem

  datatype Pod = Pod(limit: nat, used: nat, procs: seq<ProcessSlot>)

  /** The value of a pod's shared ledger. */
  ghost function PodOf(local: LocalContainerShmem): Pod
    reads local, local.procs
  {
    Pod(local.memory_limit, local.memory_used, local.procs[..])
  }

  ghost predicate WfSlots(procs: seq<ProcessSlot>) {
    forall i :: 0 <= i < |procs| ==> |procs[i].hbm| == NPU_DEVICE_MAX
  }

  /** A slot left behind by a process that is no longer alive. */
  predicate IsDead(s: ProcessSlot, dead: set<int>) {
    s.pid != 0 && s.pid in dead
  }

  predicate IsLive(s: ProcessSlot, dead: set<int>) {
    s.pid != 0 && s.pid !in dead
  }

  function NoBytes(): seq<nat> {
    seq(NPU_DEVICE_MAX, _ => 0)
  }

  // ----- sums over slots -----

  ghost function LiveOf(s: ProcessSlot, dead: set<int>, dev: nat): nat
    requires dev < |s.hbm|
  {
    if IsLive(s, dead) then s.hbm[dev] else 0
  }

  ghost function DeadOf(s: ProcessSlot, dead: set<int>, dev: nat): nat
    requires dev < |s.hbm|
  {
    if IsDead(s, dead) then s.hbm[dev] else 0
  }

  /** Bytes of an occupied slot, whether its process lives or not. */
  ghost function HeldOf(s: ProcessSlot, dev: nat): nat
    requires dev < |s.hbm|
  {
    if s.pid != 0 then s.hbm[dev] else 0
  }

  ghost function LiveBytes(procs: seq<ProcessSlot>, dead: set<int>, dev: nat): (w: seq<nat>)
    requires WfSlots(procs) && dev < NPU_DEVICE_MAX
    ensures |w| == |procs|
  {
    seq(|procs|, i requires 0 <= i < |procs| => LiveOf(procs[i], dead, dev))
  }

  ghost function DeadBytes(procs: seq<ProcessSlot>, dead: set<int>, dev: nat): (w: seq<nat>)
    requires WfSlots(procs) && dev < NPU_DEVICE_MAX
    ensures |w| == |procs|
  {
    seq(|procs|, i requires 0 <= i < |procs| => DeadOf(procs[i], dead, dev))
  }

  ghost function HeldBytes(procs: seq<ProcessSlot>, dev: nat): (w: seq<nat>)
    requires WfSlots(procs) && dev < NPU_DEVICE_MAX
    ensures |w| == |procs|
  {
    seq(|procs|, i requires 0 <= i < |procs| => HeldOf(procs[i], dev))
  }

  /** What the reaper finds in dead slots, over all devices. */
  ghost function LeakedBytes(procs: seq<ProcessSlot>, dead: set<int>): (w: seq<nat>)
    requires WfSlots(procs)
    ensures |w| == |procs|
  {
    seq(|procs|, i requires 0 <= i < |procs| => if IsDead(procs[i], dead) then Total(procs[i].hbm) else 0)
  }

  ghost function LiveTotal(procs: seq<ProcessSlot>, dead: set<int>, dev: nat): nat
    requires WfSlots(procs) && dev < NPU_DEVICE_MAX
  {
    Total(LiveBytes(procs, dead, dev))
  }

  ghost function DeadTotal(procs: seq<ProcessSlot>, dead: set<int>, dev: nat): nat
    requires WfSlots(procs) && dev < NPU_DEVICE_MAX
  {
    Total(DeadBytes(procs, dead, dev))
  }

  ghost function HeldTotal(procs: seq<ProcessSlot>, dev: nat): nat
    requires WfSlots(procs) && dev < NPU_DEVICE_MAX
  {
    Total(HeldBytes(procs, dev))
  }

  ghost function LeakedTotal(procs: seq<ProcessSlot>, dead: set<int>): nat
    requires WfSlots(procs)
  {
    Total(LeakedBytes(procs, dead))
  }

  lemma HeldSplits(procs: seq<ProcessSlot>, dead: set<int>, dev: nat)
    requires WfSlots(procs) && dev < NPU_DEVICE_MAX
    ensures HeldTotal(procs, dev) == LiveTotal(procs, dead, dev) + DeadTotal(procs, dead, dev)
  {
    TotalAdd(LiveBytes(procs, dead, dev), DeadBytes(procs, dead, dev), HeldBytes(procs, dev));
  }

  lemma HeldUpdate(procs: seq<ProcessSlot>, i: nat, s: ProcessSlot, dev: nat)
    requires WfSlots(procs) && dev < NPU_DEVICE_MAX && i < |procs| && |s.hbm| == NPU_DEVICE_MAX
    ensures WfSlots(procs[i := s])
    ensures HeldOf(procs[i], dev) <= HeldTotal(procs, dev)
    ensures HeldTotal(procs[i := s], dev) == HeldTotal(procs, dev) - HeldOf(procs[i], dev) + HeldOf(s, dev)
  {
    assert HeldBytes(procs[i := s], dev) == HeldBytes(procs, dev)[i := HeldOf(s, dev)];
    TotalUpdate(HeldBytes(procs, dev), i, HeldOf(s, dev));
  }

  lemma LiveUpdate(procs: seq<ProcessSlot>, i: nat, s: ProcessSlot, dead: set<int>, dev: nat)
    requires WfSlots(procs) && dev < NPU_DEVICE_MAX && i < |procs| && |s.hbm| == NPU_DEVICE_MAX
    ensures WfSlots(procs[i := s])
    ensures LiveOf(procs[i], dead, dev) <= LiveTotal(procs, dead, dev)
    ensures LiveTotal(procs[i := s], dead, dev)
         == LiveTotal(procs, dead, dev) - LiveOf(procs[i], dead, dev) + LiveOf(s, dead, dev)
  {
    assert LiveBytes(procs[i := s], dead, dev) == LiveBytes(procs, dead, dev)[i := LiveOf(s, dead, dev)];
    TotalUpdate(LiveBytes(procs, dead, dev), i, LiveOf(s, dead, dev));
  }

  // ----- clean-up -----

  function Reaped(s: ProcessSlot, dead: set<int>): ProcessSlot {
    if IsDead(s, dead) then ProcessSlot(0, NoBytes(), false) else s
  }

  function Cleaned(s: ProcessSlot, dead: set<int>, dev: nat): ProcessSlot
    requires |s.hbm| == NPU_DEVICE_MAX && dev < NPU_DEVICE_MAX
  {
    if IsDead(s, dead) then ProcessSlot(0, s.hbm[dev := 0], false) else s
  }

  ghost function ReapedSlots(procs: seq<ProcessSlot>, dead: set<int>): (r: seq<ProcessSlot>)
    requires WfSlots(procs)
    ensures |r| == |procs| && WfSlots(r)
  {
    seq(|procs|, i requires 0 <= i < |procs| => Reaped(procs[i], dead))
  }

  ghost function CleanedSlots(procs: seq<ProcessSlot>, dead: set<int>, dev: nat): (r: seq<ProcessSlot>)
    requires WfSlots(procs) && dev < NPU_DEVICE_MAX
    ensures |r| == |procs| && WfSlots(r)
  {
    seq(|procs|, i requires 0 <= i < |procs| => Cleaned(procs[i], dead, dev))
  }

  /** The reaper subtracts what dead slots held and frees them. */
  ghost function Reap(pod: Pod, dead: set<int>): Pod
    requires WfSlots(pod.procs)
  {
    Pod(pod.limit, SatSub(pod.used, LeakedTotal(pod.procs, dead)), ReapedSlots(pod.procs, dead))
  }

  /** Recalculation frees dead slots and makes the counter the sum over live ones. */
  ghost function Recalc(pod: Pod, dead: set<int>, dev: nat): Pod
    requires WfSlots(pod.procs) && dev < NPU_DEVICE_MAX
  {
    Pod(pod.limit, LiveTotal(pod.procs, dead, dev), CleanedSlots(pod.procs, dead, dev))
  }

  // ----- allocation and release -----

  /** One reservation against the counter; the u64 sum wraps. */
  function Reserve(pod: Pod, size: nat): (Pod, bool) {
    var sum := (pod.used + size) % U64;
    if sum > pod.limit then (pod, false) else (pod.(used := sum), true)
  }

  /** `check_memory_quota`: without a limit nothing is checked or recorded. */
  ghost function Check(pod: Pod, dead: set<int>, dev: nat, size: nat): (Pod, bool)
    requires WfSlots(pod.procs) && dev < NPU_DEVICE_MAX
  {
    if pod.limit == 0 then (pod, true) else Reserve(Recalc(pod, dead, dev), size)
  }

  function AddBytes(procs: seq<ProcessSlot>, i: nat, dev: nat, size: nat): seq<ProcessSlot>
    requires i < |procs| && dev < |procs[i].hbm|
  {
    procs[i := procs[i].(hbm := procs[i].hbm[dev := procs[i].hbm[dev] + size])]
  }

  function TakeBytes(procs: seq<ProcessSlot>, i: nat, dev: nat, size: nat): seq<ProcessSlot>
    requires i < |procs| && dev < |procs[i].hbm|
  {
    procs[i := procs[i].(hbm := procs[i].hbm[dev := SatSub(procs[i].hbm[dev], size)])]
  }

  function Commit(pod: Pod, i: nat, dev: nat, size: nat): Pod
    requires i < |pod.procs| && dev < |pod.procs[i].hbm|
  {
    pod.(procs := AddBytes(pod.procs, i, dev, size))
  }

  /** Undo a reservation; hitting the floor re-derives the counter. */
  ghost function Rollback(pod: Pod, dead: set<int>, dev: nat, size: nat): Pod
    requires WfSlots(pod.procs) && dev < NPU_DEVICE_MAX
  {
    var p := pod.(used := SatSub(pod.used, size));
    if pod.used < size then Recalc(p, dead, dev) else p
  }

  ghost function Release(pod: Pod, dead: set<int>, i: nat, dev: nat, size: nat): Pod
    requires WfSlots(pod.procs) && dev < NPU_DEVICE_MAX && i < |pod.procs|
  {
    if size == 0 then pod else
      var p := Pod(pod.limit, SatSub(pod.used, size), TakeBytes(pod.procs, i, dev, size));
      if pod.procs[i].hbm[dev] < size || pod.used < size then Recalc(p, dead, dev) else p
  }

  // ----- registration -----

  /** First slot from `i` on that already belongs to `pid`, or |procs|. */
  function OwnSlot(procs: seq<ProcessSlot>, pid: int, i: nat): (r: nat)
    requires i <= |procs|
    ensures i <= r <= |procs|
    ensures forall k :: i <= k < r ==> !(procs[k].active && procs[k].pid == pid)
    ensures r < |procs| ==> procs[r].active && procs[r].pid == pid
    decreases |procs| - i
  {
    if i == |procs| || (procs[i].active && procs[i].pid == pid) then i else OwnSlot(procs, pid, i + 1)
  }

  predicate Claimable(s: ProcessSlot, dead: set<int>) {
    !s.active || IsDead(s, dead)
  }

  /** First slot from `i` on that is inactive or left by a dead process, or |procs|. */
  function ClaimableSlot(procs: seq<ProcessSlot>, dead: set<int>, i: nat): (r: nat)
    requires i <= |procs|
    ensures i <= r <= |procs|
    ensures forall k :: i <= k < r ==> !Claimable(procs[k], dead)
    ensures r < |procs| ==> Claimable(procs[r], dead)
    decreases |procs| - i
  {
    if i == |procs| || Claimable(procs[i], dead) then i else ClaimableSlot(procs, dead, i + 1)
  }

  /** The slot `pid` registers in, |procs| when the table is full. */
  function SlotFor(procs: seq<ProcessSlot>, pid: int, dead: set<int>): (r: nat)
    ensures r <= |procs|
  {
    var own := OwnSlot(procs, pid, 0);
    if own < |procs| then own else ClaimableSlot(procs, dead, 0)
  }

  function RegisterProc(procs: seq<ProcessSlot>, pid: int, dead: set<int>): seq<ProcessSlot> {
    var i := SlotFor(procs, pid, dead);
    if i == |procs| then procs else procs[i := ProcessSlot(pid, NoBytes(), true)]
  }

  function DropProc(procs: seq<ProcessSlot>, i: nat): seq<ProcessSlot>
    requires i < |procs|
  {
    procs[i := procs[i].(pid := 0, active := false)]
  }

  /** A slot given up, by its owner or by either clean-up, can be registered again. */
  lemma FreedCanRegister(pod: Pod, dead: set<int>, dev: nat, i: nat, pid: int)
    requires WfSlots(pod.procs) && dev < NPU_DEVICE_MAX && i < |pod.procs|
    ensures SlotFor(DropProc(pod.procs, i), pid, dead) < |pod.procs|
    ensures IsDead(pod.procs[i], dead) ==>
              SlotFor(Reap(pod, dead).procs, pid, dead) < |pod.procs|
              && SlotFor(Recalc(pod, dead, dev).procs, pid, dead) < |pod.procs|
  {
    assert Claimable(DropProc(pod.procs, i)[i], dead);
    if IsDead(pod.procs[i], dead) {
      assert Claimable(Reap(pod, dead).procs[i], dead) && Claimable(Recalc(pod, dead, dev).procs[i], dead);
    }
  }

  // ----- self-stabilisation and confluence -----

  /** From any counter and any slots, one recalculation leaves no dead slot occupied, keeps live
      slots, makes the counter the live sum, and doing it again changes nothing. */
  lemma RecalcStabilises(pod: Pod, dead: set<int>, dev: nat)
    requires WfSlots(pod.procs) && dev < NPU_DEVICE_MAX
    ensures var r := Recalc(pod, dead, dev);
            && (forall i :: 0 <= i < |r.procs| ==> !IsDead(r.procs[i], dead))
            && (forall i :: 0 <= i < |r.procs| && IsDead(pod.procs[i], dead) ==>
                  r.procs[i].pid == 0 && !r.procs[i].active && r.procs[i].hbm[dev] == 0)
            && (forall i :: 0 <= i < |r.procs| && IsLive(pod.procs[i], dead) ==> r.procs[i] == pod.procs[i])
            && r.used == LiveTotal(r.procs, dead, dev)
            && Recalc(r, dead, dev) == r
  {
    var r := Recalc(pod, dead, dev);
    assert LiveBytes(r.procs, dead, dev) == LiveBytes(pod.procs, dead, dev);
    assert CleanedSlots(r.procs, dead, dev) == r.procs;
  }

  /** Cleaning up leaves exactly the live bytes. */
  lemma CleanedHolds(procs: seq<ProcessSlot>, dead: set<int>, dev: nat)
    requires WfSlots(procs) && dev < NPU_DEVICE_MAX
    ensures HeldTotal(CleanedSlots(procs, dead, dev), dev) == LiveTotal(procs, dead, dev)
    ensures LiveTotal(CleanedSlots(procs, dead, dev), dead, dev) == LiveTotal(procs, dead, dev)
    ensures HeldTotal(ReapedSlots(procs, dead), dev) == LiveTotal(procs, dead, dev)
  {
    assert HeldBytes(CleanedSlots(procs, dead, dev), dev) == LiveBytes(procs, dead, dev);
    assert LiveBytes(CleanedSlots(procs, dead, dev), dead, dev) == LiveBytes(procs, dead, dev);
    assert HeldBytes(ReapedSlots(procs, dead), dev) == LiveBytes(procs, dead, dev);
  }

  /** Dead slots hold nothing outside `dev`. */
  ghost predicate DeadOnlyOn(procs: seq<ProcessSlot>, dead: set<int>, dev: nat)
    requires WfSlots(procs)
  {
    forall i, d :: 0 <= i < |procs| && 0 <= d < NPU_DEVICE_MAX && d != dev && IsDead(procs[i], dead) ==>
      procs[i].hbm[d] == 0
  }

  /** Reaping first makes no difference to counter, pids, active flags and live slots after a
      recalculation, and none at all exactly when dead slots hold nothing on other devices. */
  lemma ReapThenRecalc(pod: Pod, dead: set<int>, dev: nat)
    requires WfSlots(pod.procs) && dev < NPU_DEVICE_MAX
    ensures var a, b := Recalc(Reap(pod, dead), dead, dev), Recalc(pod, dead, dev);
            && a.used == b.used
            && (forall i :: 0 <= i < |pod.procs| ==>
                  a.procs[i].pid == b.procs[i].pid && a.procs[i].active == b.procs[i].active)
            && (forall i :: 0 <= i < |pod.procs| && IsLive(pod.procs[i], dead) ==>
                  a.procs[i] == b.procs[i] == pod.procs[i])
            && (a == b <==> DeadOnlyOn(pod.procs, dead, dev))
  {
    var reaped := Reap(pod, dead);
    var a, b := Recalc(reaped, dead, dev), Recalc(pod, dead, dev);
    assert LiveBytes(reaped.procs, dead, dev) == LiveBytes(pod.procs, dead, dev);
    if DeadOnlyOn(pod.procs, dead, dev) {
      forall i | 0 <= i < |pod.procs|
        ensures a.procs[i] == b.procs[i]
      {
        if IsDead(pod.procs[i], dead) {
          assert pod.procs[i].hbm[dev := 0] == NoBytes();
        }
      }
      assert a.procs == b.procs;
    } else {
      var i, d :| 0 <= i < |pod.procs| && 0 <= d < NPU_DEVICE_MAX && d != dev && IsDead(pod.procs[i], dead)
        && pod.procs[i].hbm[d] != 0;
      assert a.procs[i].hbm[d] == 0 && b.procs[i].hbm[d] != 0;
    }
  }

  /** A counter that covers live and leaked bytes still covers the live ones after reaping, and
      the reaper's subtraction does not hit the floor. */
  lemma ReapCovers(pod: Pod, dead: set<int>, dev: nat)
    requires WfSlots(pod.procs) && dev < NPU_DEVICE_MAX
    requires LiveTotal(pod.procs, dead, dev) + LeakedTotal(pod.procs, dead) <= pod.used
    ensures var r := Reap(pod, dead);
            && LiveTotal(r.procs, dead, dev) == LiveTotal(pod.procs, dead, dev) <= r.used
            && r.used == pod.used - LeakedTotal(pod.procs, dead)
            && (forall i :: 0 <= i < |r.procs| ==>
                  if IsDead(pod.procs[i], dead) then r.procs[i] == ProcessSlot(0, NoBytes(), false)
                  else r.procs[i] == pod.procs[i])
  {
    assert LiveBytes(Reap(pod, dead).procs, dead, dev) == LiveBytes(pod.procs, dead, dev);
  }

  /** A recalculation that falls anywhere between the reaper's claim of slot `i`, after which the slot
      is `claimed`, with pid 0 and whatever bytes are still to be swapped out, and its subtraction
      has already forgotten the slot's bytes, so the subtraction takes them a second time: the counter
      ends below the live sum if and only if slot and live processes held any. */
  lemma OverlappedReapUndercountsIff(pod: Pod, i: nat, claimed: ProcessSlot, dead: set<int>, dev: nat)
    requires WfSlots(pod.procs) && dev < NPU_DEVICE_MAX && i < |pod.procs| && IsDead(pod.procs[i], dead)
    requires claimed.pid == 0 && |claimed.hbm| == NPU_DEVICE_MAX
    ensures var held := Total(pod.procs[i].hbm);
            var m := Recalc(pod.(procs := pod.procs[i := claimed]), dead, dev);
            var r := Pod(m.limit, SatSub(m.used, held), m.procs[i := Reaped(pod.procs[i], dead)]);
            var live := LiveTotal(pod.procs, dead, dev);
            && WfSlots(r.procs) && LiveTotal(r.procs, dead, dev) == live
            && r.used == SatSub(live, held) && (r.used < live <==> held > 0 && live > 0)
  {
    LiveUpdate(pod.procs, i, claimed, dead, dev);
    var claimedSlots := pod.procs[i := claimed];
    CleanedHolds(claimedSlots, dead, dev);
    LiveUpdate(CleanedSlots(claimedSlots, dead, dev), i, Reaped(pod.procs[i], dead), dead, dev);
  }

  /** What a reservation lets through: exactly the requests that fit, or that overflow the u64
      sum and leave a remainder that fits. */
  lemma ReserveAdmitsIff(pod: Pod, size: nat)
    requires pod.used < U64 && pod.limit < U64 && size < U64
    ensures Reserve(pod, size).1 <==> pod.used + size <= pod.limit || U64 <= pod.used + size <= U64 + pod.limit
  {
  }
}
