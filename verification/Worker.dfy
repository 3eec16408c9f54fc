// The worker's side: registering a process, the memory quota, and drawing and reporting, in place
// on the pod's shared region.  Liveness of other processes is the set `dead`.
module Worker {
  import opened Arith
  import opened Shmem
  import opened Ledger
  import Handshake
  import QuotaRuns

  predicate IsOwn(s: ProcessSlot, pid: int) {
    s.active && s.pid == pid
  }

  ghost predicate HasOwn(procs: seq<ProcessSlot>, pid: int) {
    exists k :: 0 <= k < |procs| && IsOwn(procs[k], pid)
  }

  /** First the process's own slot, else the first inactive one or one left by a dead process;
      none when the table is full. */
  method RegisterProcSlot(shmem: LocalContainerShmem, pid: int, dead: set<int>) returns (idx: Option<nat>)
    requires pid != 0 && pid !in dead
    modifies shmem.procs
    ensures shmem.procs[..] == RegisterProc(old(shmem.procs[..]), pid, dead)
    ensures var i := SlotFor(old(shmem.procs[..]), pid, dead);
            idx == if i == shmem.procs.Length then None else Some(i)
    ensures match idx
            case Some(i) =>
              && i < shmem.procs.Length
              && shmem.procs[..] == old(shmem.procs[..])[i := ProcessSlot(pid, NoBytes(), true)]
              && (if HasOwn(old(shmem.procs[..]), pid) then
                    IsOwn(old(shmem.procs[i]), pid) && forall k :: 0 <= k < i ==> !IsOwn(old(shmem.procs[k]), pid)
                  else
                    Claimable(old(shmem.procs[i]), dead)
                    && forall k :: 0 <= k < i ==> !Claimable(old(shmem.procs[k]), dead))
            case None =>
              && shmem.procs[..] == old(shmem.procs[..])
              && forall k :: 0 <= k < shmem.procs.Length ==>
                   !IsOwn(old(shmem.procs[k]), pid) && !Claimable(old(shmem.procs[k]), dead)
  {
    ghost var before := shmem.procs[..];
    var i := 0;
    while i < shmem.procs.Length
      invariant 0 <= i <= shmem.procs.Length && shmem.procs[..] == before
      invariant OwnSlot(before, pid, 0) == OwnSlot(before, pid, i)
    {
      if shmem.procs[i].active && shmem.procs[i].pid == pid {
        shmem.procs[i] := shmem.procs[i].(hbm := NoBytes());
        return Some(i);
      }
      i := i + 1;
    }
    i := 0;
    while i < shmem.procs.Length
      invariant 0 <= i <= shmem.procs.Length && shmem.procs[..] == before
      invariant ClaimableSlot(before, dead, 0) == ClaimableSlot(before, dead, i)
    {
      var s := shmem.procs[i];
      if !s.active {
        shmem.procs[i] := ProcessSlot(pid, NoBytes(), true);
        return Some(i);
      }
      if s.pid != 0 && s.pid in dead {
        shmem.procs[i] := ProcessSlot(pid, NoBytes(), s.active);
        return Some(i);
      }
      i := i + 1;
    }
    idx := None;
  }

  class SchedulerClient {
    const shmem: LocalContainerShmem
    const my_slot_idx: nat
    const my_proc_idx: nat
    const device_id: nat
    var batch_active: bool
    var current_batch: nat
    var handles: map<nat, nat>

    constructor (shmem: LocalContainerShmem, slotIdx: nat, procIdx: nat, device: nat)
      ensures this.shmem == shmem && my_slot_idx == slotIdx && my_proc_idx == procIdx && device_id == device
      ensures !batch_active && current_batch == 0 && handles == map[]
    {
      this.shmem, my_slot_idx, my_proc_idx, device_id := shmem, slotIdx, procIdx, device;
      batch_active, current_batch, handles := false, 0, map[];
    }

    ghost predicate Valid()
      reads this, shmem, shmem.procs, shmem.reports
    {
      && my_slot_idx < shmem.reports.Length && my_proc_idx < shmem.procs.Length
      && device_id < NPU_DEVICE_MAX && WfSlots(shmem.procs[..])
    }

    /** The world of the quota model as this client sees it. */
    ghost function WorldOf(pid: int, dead: set<int>): (w: QuotaRuns.World)
      requires Valid()
      reads this, shmem, shmem.procs, shmem.reports
      ensures QuotaRuns.Wf(w)
    {
      QuotaRuns.World(PodOf(shmem), dead, map[pid := QuotaRuns.Client(my_proc_idx, handles)], device_id)
    }

    /** Frees dead slots, sums live ones, and corrects the counter to that sum. */
    method RecalculateUsage(dead: set<int>) returns (total: nat)
      requires Valid()
      modifies shmem`memory_used, shmem.procs
      ensures Valid() && PodOf(shmem) == Recalc(old(PodOf(shmem)), dead, device_id)
      ensures total == LiveTotal(old(shmem.procs[..]), dead, device_id) == shmem.memory_used
    {
      ghost var before := shmem.procs[..];
      ghost var live := LiveBytes(before, dead, device_id);
      total := 0;
      var cleaned := 0;
      var i := 0;
      while i < shmem.procs.Length
        invariant 0 <= i <= shmem.procs.Length
        invariant forall k :: 0 <= k < i ==> shmem.procs[k] == Cleaned(before[k], dead, device_id)
        invariant forall k :: i <= k < shmem.procs.Length ==> shmem.procs[k] == before[k]
        invariant total == Total(live[..i])
      {
        var s := shmem.procs[i];
        TotalPrefix(live, i);
        if s.pid != 0 {
          if s.pid in dead {
            shmem.procs[i] := ProcessSlot(0, s.hbm[device_id := 0], false);
            cleaned := cleaned + s.hbm[device_id];
          } else {
            total := total + s.hbm[device_id];
          }
        }
        i := i + 1;
      }
      assert live[..i] == live;
      assert shmem.procs[..] == CleanedSlots(before, dead, device_id);
      if cleaned > 0 {
        shmem.memory_used := SatSub(shmem.memory_used, cleaned);
      }
      var current := shmem.memory_used;
      if total > current {
        shmem.memory_used := shmem.memory_used + (total - current);
      } else if total < current {
        shmem.memory_used := SatSub(shmem.memory_used, current - total);
      }
    }

    /** Re-derives the counter, then reserves `size` if the sum stays within the limit. */
    method CheckMemoryQuota(size: nat, dead: set<int>) returns (admitted: bool)
      requires Valid()
      modifies shmem`memory_used, shmem.procs
      ensures Valid() && (PodOf(shmem), admitted) == Check(old(PodOf(shmem)), dead, device_id, size)
      ensures shmem.memory_limit == 0 ==> admitted && PodOf(shmem) == old(PodOf(shmem))
      ensures shmem.memory_limit != 0 ==>
                var live := LiveTotal(old(shmem.procs[..]), dead, device_id);
                && (admitted <==> (live + size) % U64 <= shmem.memory_limit)
                && shmem.memory_used == if admitted then (live + size) % U64 else live
    {
      if shmem.memory_limit == 0 {
        return true;
      }
      var _ := RecalculateUsage(dead);
      var sum := (shmem.memory_used + size) % U64;
      if sum > shmem.memory_limit {
        return false;
      }
      shmem.memory_used := sum;
      return true;
    }

    /** After the device call: record the allocation, or give the reservation back. */
    method PostAllocHbm(p: nat, size: nat, ok: bool, dead: set<int>)
      requires Valid()
      modifies this`handles, shmem`memory_used, shmem.procs
      ensures Valid()
      ensures ok ==>
                && PodOf(shmem) == Commit(old(PodOf(shmem)), my_proc_idx, device_id, size)
                && handles == old(handles)[p := size]
      ensures !ok ==> PodOf(shmem) == Rollback(old(PodOf(shmem)), dead, device_id, size) && handles == old(handles)
      ensures shmem.memory_used ==
              if ok then old(shmem.memory_used)
              else if size <= old(shmem.memory_used) then old(shmem.memory_used) - size
              else LiveTotal(old(shmem.procs[..]), dead, device_id)
      ensures ok ==>
                var was := old(shmem.procs[my_proc_idx]);
                shmem.procs[..] == old(shmem.procs[..])[my_proc_idx :=
                  was.(hbm := was.hbm[device_id := was.hbm[device_id] + size])]
    {
      if ok {
        handles := handles[p := size];
        var s := shmem.procs[my_proc_idx];
        shmem.procs[my_proc_idx] := s.(hbm := s.hbm[device_id := s.hbm[device_id] + size]);
      } else {
        var floored := shmem.memory_used < size;
        shmem.memory_used := SatSub(shmem.memory_used, size);
        if floored {
          var _ := RecalculateUsage(dead);
        }
      }
    }

    /** After the device call: a successful one releases what the handle held. */
    method PostFreeHbm(handle: nat, ok: bool, dead: set<int>)
      requires Valid()
      modifies this`handles, shmem`memory_used, shmem.procs
      ensures Valid()
      ensures forall pid :: WorldOf(pid, dead) == QuotaRuns.Freed(old(WorldOf(pid, dead)), pid, handle, ok)
      ensures handles == if ok then old(handles) - {handle} else old(handles)
      ensures var held := if ok && handle in old(handles) then old(handles)[handle] else 0;
              var was := old(shmem.procs[my_proc_idx]);
              if held <= was.hbm[device_id] && held <= old(shmem.memory_used) then
                && shmem.memory_used == old(shmem.memory_used) - held
                && shmem.procs[..] == old(shmem.procs[..])[my_proc_idx :=
                     was.(hbm := was.hbm[device_id := was.hbm[device_id] - held])]
              else
                shmem.memory_used == LiveTotal(shmem.procs[..], dead, device_id)
    {
      ghost var was := shmem.procs[my_proc_idx].hbm;
      assert was[device_id := was[device_id]] == was;
      if ok {
        var size := if handle in handles then handles[handle] else 0;
        handles := handles - {handle};
        if size > 0 {
          var s := shmem.procs[my_proc_idx];
          var slotFloored := s.hbm[device_id] < size;
          shmem.procs[my_proc_idx] := s.(hbm := s.hbm[device_id := SatSub(s.hbm[device_id], size)]);
          var usedFloored := shmem.memory_used < size;
          shmem.memory_used := SatSub(shmem.memory_used, size);
          if slotFloored || usedFloored {
            CleanedHolds(shmem.procs[..], dead, device_id);
            var _ := RecalculateUsage(dead);
          }
        }
      }
    }

    /** Frees the slot; its bytes stay for the next recalculation or registration. */
    method Drop()
      requires Valid()
      modifies shmem.procs
      ensures Valid() && shmem.procs[..] == DropProc(old(shmem.procs[..]), my_proc_idx)
      ensures shmem.procs[my_proc_idx] == ProcessSlot(0, old(shmem.procs[my_proc_idx].hbm), false)
    {
      shmem.procs[my_proc_idx] := shmem.procs[my_proc_idx].(pid := 0);
      shmem.procs[my_proc_idx] := shmem.procs[my_proc_idx].(active := false);
    }

    /** One undisturbed look at the batch: in a running batch with tokens left it draws one, and a
        worker's first of the batch registers it with the manager.  In the model of the handshake a
        granted look is a draw step and any other look changes nothing. */
    method DrawToken(now: nat) returns (granted: bool)
      requires Valid()
      modifies this`batch_active, this`current_batch, shmem`tokens_remaining, shmem`active_workers, shmem.reports
      ensures Valid() && (granted <==> shmem.state == Running && old(shmem.tokens_remaining) > 0)
      ensures shmem.tokens_remaining == old(shmem.tokens_remaining) - (if granted then 1 else 0)
      ensures granted ==> batch_active && current_batch == shmem.batch_id
      ensures var first := granted && !(old(batch_active) && old(current_batch) == shmem.batch_id);
              && shmem.active_workers == old(shmem.active_workers) + (if first then 1 else 0)
              && shmem.reports[..] ==
                 if first then old(shmem.reports[..])[my_slot_idx := old(shmem.reports[my_slot_idx]).(start := now)]
                 else old(shmem.reports[..])
      ensures forall s :: old(Handshake.ShowsWorker(s, shmem, my_slot_idx, batch_active, current_batch)) ==>
                var draw := Handshake.Draw(my_slot_idx, now);
                && (granted ==> Handshake.Enabled(s, draw))
                && var s' := if granted then Handshake.Next(s, draw) else s;
                   Handshake.ShowsWorker(s', shmem, my_slot_idx, batch_active, current_batch)
    {
      if batch_active && shmem.batch_id != current_batch {
        batch_active := false;
      }
      granted := false;
      if shmem.state == Running && shmem.tokens_remaining != 0 {
        shmem.tokens_remaining := shmem.tokens_remaining - 1;
        if !batch_active {
          current_batch := shmem.batch_id;
          batch_active := true;
          shmem.active_workers := shmem.active_workers + 1;
          shmem.reports[my_slot_idx] := shmem.reports[my_slot_idx].(start := now);
        }
        granted := true;
      }
    }

    /** In the measuring state a worker that drew in this batch publishes once: a report step. */
    method ReportBatch(duration: nat) returns (reported: bool)
      requires Valid()
      modifies this`batch_active, shmem`reported_count, shmem.reports
      ensures Valid()
      ensures reported <==> shmem.state == Measuring && old(batch_active) && current_batch == shmem.batch_id
      ensures reported ==> !batch_active && shmem.reported_count == old(shmem.reported_count) + 1
      ensures reported ==>
                var start := old(shmem.reports[my_slot_idx].start);
                shmem.reports[..] == old(shmem.reports[..])[my_slot_idx := WorkerReport(current_batch, start, duration)]
      ensures !reported ==>
                && batch_active == old(batch_active) && shmem.reported_count == old(shmem.reported_count)
                && shmem.reports[..] == old(shmem.reports[..])
      ensures forall s :: old(Handshake.ShowsWorker(s, shmem, my_slot_idx, batch_active, current_batch)) ==>
                var report := Handshake.Report(my_slot_idx, duration);
                && (reported <==> Handshake.Enabled(s, report))
                && var s' := if reported then Handshake.Next(s, report) else s;
                   Handshake.ShowsWorker(s', shmem, my_slot_idx, batch_active, current_batch)
    {
      reported := shmem.state == Measuring && batch_active && shmem.batch_id == current_batch;
      if reported {
        var r := shmem.reports[my_slot_idx];
        shmem.reports[my_slot_idx] := WorkerReport(current_batch, r.start, duration);
        shmem.reported_count := shmem.reported_count + 1;
        batch_active := false;
      }
    }
  }
}
