// The manager's operations on the shared regions, in place, each proved to do what the models of
// the ring, the plan, the average, the batch and the ledger say.
module Manager {
  import opened Arith
  import opened Shmem
  import FairShare
  import Average
  import Handshake
  import Ledger
  import Ring

  /** Takes the first inactive slot, or none when all are taken. */
  method RegisterGlobalSlot(g: GlobalRegistry, pid: int) returns (idx: Option<nat>)
    requires Ring.Mapped(g)
    modifies g.slots
    ensures Ring.Mapped(g) && Ring.Snap(g) == Ring.Register(old(Ring.Snap(g)), pid)
    ensures var i := Ring.FirstFree(old(Ring.Snap(g)), 0); idx == if i == MAX_MANAGERS then None else Some(i)
    ensures match idx
            case Some(i) =>
              && i < MAX_MANAGERS && !old(g.slots[i].active) && (forall k :: 0 <= k < i ==> old(g.slots[k].active))
              && g.slots[..] == old(g.slots[..])[i := ManagerSlot(pid, DEFAULT_AVG_US, true)]
            case None =>
              (forall k :: 0 <= k < MAX_MANAGERS ==> old(g.slots[k].active)) && g.slots[..] == old(g.slots[..])
  {
    ghost var before := Ring.Snap(g);
    var i := 0;
    while i < g.slots.Length
      invariant 0 <= i <= MAX_MANAGERS && Ring.Snap(g) == before
      invariant Ring.FirstFree(before, 0) == Ring.FirstFree(before, i)
    {
      if !g.slots[i].active {
        g.slots[i] := ManagerSlot(pid, DEFAULT_AVG_US, true);
        return Some(i);
      }
      i := i + 1;
    }
    idx := None;
  }

  /** Frees every slot a dead process left behind, then takes what it held off the counter. */
  method ReapDeadSlots(local: LocalContainerShmem, dead: set<int>)
    requires Ledger.WfSlots(local.procs[..])
    modifies local`memory_used, local.procs
    ensures Ledger.WfSlots(old(local.procs[..])) && Ledger.PodOf(local) == Ledger.Reap(old(Ledger.PodOf(local)), dead)
    ensures local.memory_used == SatSub(old(local.memory_used), Ledger.LeakedTotal(old(local.procs[..]), dead))
    ensures forall k :: 0 <= k < local.procs.Length ==>
              local.procs[k] == if Ledger.IsDead(old(local.procs[k]), dead) then ProcessSlot(0, Ledger.NoBytes(), false)
                                else old(local.procs[k])
  {
    ghost var before := local.procs[..];
    ghost var leaks := Ledger.LeakedBytes(before, dead);
    var i := 0;
    while i < local.procs.Length
      invariant 0 <= i <= local.procs.Length
      invariant forall k :: 0 <= k < i ==> local.procs[k] == Ledger.Reaped(before[k], dead)
      invariant forall k :: i <= k < local.procs.Length ==> local.procs[k] == before[k]
      invariant local.memory_used == SatSub(old(local.memory_used), Total(leaks[..i]))
    {
      var s := local.procs[i];
      TotalPrefix(leaks, i);
      if s.pid != 0 && s.pid in dead {
        var leaked := SumDevices(s.hbm);
        local.procs[i] := ProcessSlot(0, Ledger.NoBytes(), false);
        local.memory_used := SatSub(local.memory_used, leaked);
      }
      i := i + 1;
    }
    assert leaks[..i] == leaks;
    assert local.procs[..] == Ledger.ReapedSlots(before, dead);
  }

  method SumDevices(hbm: seq<nat>) returns (sum: nat)
    ensures sum == Total(hbm)
  {
    sum := 0;
    var d := 0;
    while d < |hbm|
      invariant 0 <= d <= |hbm| && sum == Total(hbm[..d])
    {
      TotalPrefix(hbm, d);
      sum := sum + hbm[d];
      d := d + 1;
    }
    assert hbm[..d] == hbm;
  }

  class ContainerManager {
    const global: GlobalRegistry
    const local: LocalContainerShmem
    const my_pid: int
    const my_global_idx: nat
    var current_avg_us: nat
    const my_priority: real
    const token_scale: real
    const ema_alpha: real
    const fixed_share: bool

    constructor (global: GlobalRegistry, local: LocalContainerShmem, pid: int, idx: nat,
                 priority: real, scale: real, alpha: real, fixed: bool)
      requires idx < MAX_MANAGERS && 0.0 < alpha < 1.0
      ensures this.global == global && this.local == local && my_pid == pid && my_global_idx == idx
      ensures my_priority == priority && token_scale == scale && ema_alpha == alpha && fixed_share == fixed
      ensures current_avg_us == DEFAULT_AVG_US
      ensures Valid() && global.slots[idx].avg == DEFAULT_AVG_US ==> Published()
    {
      this.global, this.local, my_pid, my_global_idx := global, local, pid, idx;
      my_priority, token_scale, ema_alpha, fixed_share := priority, scale, alpha, fixed;
      current_avg_us := DEFAULT_AVG_US;
    }

    ghost predicate Valid()
      reads this, global, global.queue, global.slots
    {
      Ring.Mapped(global) && my_global_idx < MAX_MANAGERS && 0.0 < ema_alpha < 1.0
    }

    /** The average others read in one's slot is the one the next plan uses. */
    ghost predicate Published()
      requires Valid()
      reads this, global, global.queue, global.slots
    {
      global.slots[my_global_idx].avg == current_avg_us
    }

    method JoinGlobalQueue()
      requires Valid()
      modifies global`queue_tail, global.queue
      ensures Valid() && Ring.Snap(global) == Ring.Join(old(Ring.Snap(global)), my_global_idx)
      ensures global.queue_tail == (old(global.queue_tail) + 1) % U32
      ensures global.queue[..] == old(global.queue[..])[old(global.queue_tail) % MAX_MANAGERS := my_global_idx]
    {
      var tail := global.queue_tail;
      global.queue_tail := (global.queue_tail + 1) % U32;
      global.queue[tail % MAX_MANAGERS] := my_global_idx;
    }

    /** One look of the waiting loop; `stale` is the watchdog's verdict on the owner's heartbeat. */
    method PollGlobalTurn(stale: bool) returns (won: bool)
      requires Valid()
      modifies global`lock_owner, global.slots
      ensures Valid() && (Ring.Snap(global), won) == Ring.Poll(old(Ring.Snap(global)), my_global_idx, stale)
      ensures var owner := old(global.lock_owner);
              var ownerActive := owner < MAX_MANAGERS && old(global.slots[..])[owner].active;
              && (won <==> owner == my_global_idx || !ownerActive || stale)
              && global.lock_owner == (if won then my_global_idx else owner)
              && global.slots[..] ==
                 if won && owner != my_global_idx && ownerActive
                 then old(global.slots[..])[owner := old(global.slots[..])[owner].(active := false)]
                 else old(global.slots[..])
    {
      var owner := global.lock_owner;
      if owner == my_global_idx {
        return true;
      }
      var ownerActive := owner < MAX_MANAGERS && global.slots[owner].active;
      if !ownerActive {
        global.lock_owner := my_global_idx;
        return true;
      }
      if stale {
        global.slots[owner] := global.slots[owner].(active := false);
        global.lock_owner := my_global_idx;
        return true;
      }
      return false;
    }

    /** The first queue position from `first` on that holds an active manager, and that manager;
        after a full turn of the ring without one, oneself. */
    method FindNext(first: nat) returns (next: nat, chosen: nat)
      requires Valid()
      ensures next == Ring.Scan(Ring.Snap(global), first, MAX_MANAGERS)
      ensures chosen == if next < first + MAX_MANAGERS then global.queue[next % MAX_MANAGERS] else my_global_idx
    {
      next, chosen := first, my_global_idx;
      var tries := 0;
      while tries < MAX_MANAGERS
        invariant tries <= MAX_MANAGERS && next == first + tries && chosen == my_global_idx
        invariant Ring.Scan(Ring.Snap(global), first, MAX_MANAGERS)
               == Ring.Scan(Ring.Snap(global), next, MAX_MANAGERS - tries)
      {
        var candidate := global.queue[next % MAX_MANAGERS];
        if candidate < MAX_MANAGERS && global.slots[candidate].active {
          return next, candidate;
        }
        next := next + 1;
        tries := tries + 1;
      }
    }

    /** `next` is the first of the 64 positions from `first` on that holds an active manager, or the one
        after them. */
    ghost predicate StopsAt(first: nat, next: nat)
      requires Valid()
      reads this, global, global.queue, global.slots
    {
      && first <= next <= first + MAX_MANAGERS
      && (forall k :: first <= k < next ==> !Ring.Active(Ring.Snap(global), global.queue[k % MAX_MANAGERS]))
      && (next < first + MAX_MANAGERS ==> Ring.Active(Ring.Snap(global), global.queue[next % MAX_MANAGERS]))
    }

    /** The head has moved on from `head` to where the scan stops, and the manager found there owns the
        baton, or this one if none was found. */
    ghost predicate HandedOver(head: nat)
      requires Valid()
      reads this, global, global.queue, global.slots
    {
      exists next: nat :: StopsAt(head + 1, next) && global.queue_head == next % U32
        && global.lock_owner == if next <= head + MAX_MANAGERS then global.queue[next % MAX_MANAGERS] else my_global_idx
    }

    /** Re-enqueue, skip departed managers, hand over. */
    method PassBaton()
      requires Valid()
      modifies global`queue_tail, global`queue_head, global`lock_owner, global.queue
      ensures Valid() && Ring.Snap(global) == Ring.Pass(old(Ring.Snap(global)), my_global_idx)
      ensures global.queue_tail == (old(global.queue_tail) + 1) % U32
      ensures global.queue[..] == old(global.queue[..])[old(global.queue_tail) % MAX_MANAGERS := my_global_idx]
      ensures HandedOver(old(global.queue_head))
    {
      hide Ring.Scan;
      JoinGlobalQueue();
      var next, chosen := FindNext(global.queue_head + 1);
      assert StopsAt(global.queue_head + 1, next);
      global.queue_head := next % U32;
      global.lock_owner := chosen;
    }

    /** The round's plan, from the slowest active manager's average and one's own. */
    method CalculateFairShare() returns (plan: FairShare.Plan)
      requires Valid()
      ensures var anchor := FairShare.Anchor(global.slots[..]);
              plan == FairShare.MakePlan(anchor, current_avg_us, my_priority, token_scale, fixed_share)
    {
      var anchor := 1;
      var i := 0;
      while i < global.slots.Length
        invariant 0 <= i <= global.slots.Length && anchor == FairShare.Anchor(global.slots[..i])
      {
        assert global.slots[..i + 1][..i] == global.slots[..i];
        if global.slots[i].active && global.slots[i].avg > anchor {
          anchor := global.slots[i].avg;
        }
        i := i + 1;
      }
      assert global.slots[..i] == global.slots[..];
      plan := FairShare.MakePlan(anchor, current_avg_us, my_priority, token_scale, fixed_share);
    }

    /** Folds a measurement into the average and publishes it in this manager's slot. */
    method UpdateLocalStats(duration: nat, tokens: nat)
      requires Valid() && 1 <= current_avg_us < U64
      modifies this`current_avg_us, global.slots
      ensures Valid() && current_avg_us == Average.NextAvg(old(current_avg_us), duration, tokens, ema_alpha) >= 1
      ensures global.slots[..] ==
              if tokens == 0 then old(global.slots[..])
              else old(global.slots[..])[my_global_idx := old(global.slots[my_global_idx]).(avg := current_avg_us)]
      ensures old(Published()) ==> Published()
    {
      if tokens == 0 {
        return;
      }
      var sample := duration / tokens;
      var lower := Max(current_avg_us / 4, 1);
      var upper := Max(Min(current_avg_us * 4, U64 - 1), 1);
      var clamped := Clamp(sample, lower, upper);
      Average.BlendBetween(current_avg_us, clamped, ema_alpha);
      current_avg_us := Average.Blend(current_avg_us, clamped, ema_alpha);
      global.slots[my_global_idx] := global.slots[my_global_idx].(avg := current_avg_us);
    }

    /** Opens batch `batch`: in the model of the handshake, its next start step. */
    method StartLocalBatch(batch: nat, tokens: nat)
      modifies local`batch_id, local`tokens_remaining, local`active_workers, local`reported_count, local`state
      ensures local.batch_id == batch && local.tokens_remaining == tokens
      ensures local.active_workers == local.reported_count == 0 && local.state == Running
      ensures batch == old(local.batch_id) + 1 ==>
                forall s :: old(Handshake.Shows(s, local)) ==>
                  Handshake.Shows(Handshake.Next(s, Handshake.StartBatch), local)
    {
      local.batch_id := batch;
      local.tokens_remaining := tokens;
      local.active_workers := 0;
      local.reported_count := 0;
      local.state := Running;
    }

    /** Empties the bucket and asks for reports. */
    method EnterMeasuringState()
      modifies local`tokens_remaining, local`state
      ensures local.tokens_remaining == 0 && local.state == Measuring
      ensures forall s :: old(Handshake.Shows(s, local)) ==>
                Handshake.Shows(Handshake.Next(s, Handshake.Measure), local)
    {
      local.tokens_remaining := 0;
      local.state := Measuring;
    }

    /** The length of the smallest interval that holds every report on the batch that took time. */
    method AggregateLocalTimes(batch: nat, tokens: nat) returns (duration: nat, used: nat)
      requires forall k :: 0 <= k < local.reports.Length ==> local.reports[k].start + local.reports[k].duration < U64
      ensures (forall k :: 0 <= k < local.reports.Length ==> !Handshake.Counts(local.reports[k], batch)) ==>
                (duration, used) == (0, 0)
      ensures (exists k :: 0 <= k < local.reports.Length && Handshake.Counts(local.reports[k], batch)) ==>
                used == tokens && Handshake.Spans(local.reports[..], batch, duration)
    {
      var start, end, participants := U64 - 1, 0, 0;
      ghost var first, last := 0, 0;
      var i := 0;
      while i < local.reports.Length
        invariant 0 <= i <= local.reports.Length
        invariant participants == 0 ==> forall k :: 0 <= k < i ==> !Handshake.Counts(local.reports[k], batch)
        invariant participants == 0 ==> start == U64 - 1 && end == 0
        invariant participants > 0 ==>
          && 0 <= first < i && Handshake.Counts(local.reports[first], batch) && local.reports[first].start == start
          && 0 <= last < i && Handshake.Counts(local.reports[last], batch)
          && local.reports[last].start + local.reports[last].duration == end
        invariant forall k :: 0 <= k < i && Handshake.Counts(local.reports[k], batch) ==>
          start <= local.reports[k].start && local.reports[k].start + local.reports[k].duration <= end
      {
        var r := local.reports[i];
        if r.batch == batch && r.duration > 0 {
          var e := r.start + r.duration;
          if r.start < start { start := r.start; first := i; }
          if e > end { end := e; last := i; }
          participants := participants + 1;
        }
        i := i + 1;
      }
      if participants == 0 {
        return 0, 0;
      }
      duration := SatSub(end, start);
      used := tokens;
      assert Handshake.Holds(local.reports[..], batch, start, end);
      assert local.reports[..][first] == local.reports[first] && local.reports[..][last] == local.reports[last];
    }

    /** Gives up the slot and the pod's manager role. */
    method Drop()
      requires Valid()
      modifies global.slots, local`manager_pid, local`manager_global_idx
      ensures Valid() && Ring.Snap(global) == Ring.Deactivate(old(Ring.Snap(global)), my_global_idx)
      ensures global.slots[..] ==
              old(global.slots[..])[my_global_idx := old(global.slots[my_global_idx]).(active := false)]
      ensures local.manager_pid == (if old(local.manager_pid) == my_pid then 0 else old(local.manager_pid))
      ensures local.manager_global_idx == -1
    {
      global.slots[my_global_idx] := global.slots[my_global_idx].(active := false);
      if local.manager_pid == my_pid {
        local.manager_pid := 0;
      }
      local.manager_global_idx := -1;
    }
  }
}
