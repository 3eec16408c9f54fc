// The supervisor's two steps on the shared regions: winning the pod's election and clearing the
// predecessor's global slot.
module Supervisor {
  import opened Shmem
  import Election
  import Handshake
  import Manager
  import Ring

  ghost function RecordOf(local: LocalContainerShmem): Election.PodRecord
    reads local
  {
    Election.PodRecord(local.manager_pid, local.manager_global_idx)
  }

  /** The registry and the region of process `pid`'s pod hold what the model says of them. */
  ghost predicate Shows(s: Election.State, pid: int, global: GlobalRegistry, local: LocalContainerShmem)
    reads global, global.queue, global.slots, local
  {
    && Election.Wf(s) && pid in s.procs
    && s.g == Ring.Snap(global) && s.pods[s.procs[pid].pod] == RecordOf(local)
  }

  /** Claims the role when it is vacant, one's own, or held by a manager that is not alive. */
  method TryBecomeManager(local: LocalContainerShmem, pid: int, ownerAlive: bool) returns (r: Election.Outcome)
    modifies local`manager_pid
    ensures r == Election.TryBecome(old(RecordOf(local)), pid, ownerAlive)
    ensures local.manager_pid == if r.Won? then pid else old(local.manager_pid)
    ensures r == if old(local.manager_pid) == 0 || old(local.manager_pid) == pid then Election.Won(0)
                 else if ownerAlive then Election.Lost else Election.Won(old(local.manager_pid))
  {
    if local.manager_pid == 0 {
      local.manager_pid := pid;
      return Election.Won(0);
    }
    var owner := local.manager_pid;
    if owner == pid {
      return Election.Won(0);
    }
    if !ownerAlive {
      local.manager_pid := pid;
      return Election.Won(owner);
    }
    return Election.Lost;
  }

  method ReclaimStaleGlobalSlot(global: GlobalRegistry, local: LocalContainerShmem, predecessor: int)
    requires Ring.Mapped(global)
    modifies global.slots
    ensures Ring.Mapped(global) && Ring.Snap(global)
         == Election.Reclaim(old(Ring.Snap(global)), RecordOf(local), predecessor)
    ensures forall k :: 0 <= k < MAX_MANAGERS ==>
              var slot := old(global.slots[k]);
              global.slots[k] == slot.(active := slot.active &&
                !(predecessor != 0 && k == local.manager_global_idx && slot.pid == predecessor))
  {
    if predecessor == 0 {
      return;
    }
    var idx := local.manager_global_idx;
    if idx < 0 || idx >= MAX_MANAGERS {
      return;
    }
    if global.slots[idx].pid == predecessor {
      global.slots[idx] := global.slots[idx].(active := false);
    }
  }

  /** One pass of the election loop: on a win, clear the predecessor's slot, reset the batch state and
      register; without a free global slot, give the role back.  In every state of the election model
      that the regions show, that is the election step of `pid`. */
  method Contend(global: GlobalRegistry, local: LocalContainerShmem, pid: int, ownerAlive: bool)
    returns (r: Election.Outcome)
    requires Ring.Mapped(global)
    modifies global.slots, local`manager_pid, local`manager_global_idx, local`state
    ensures Ring.Mapped(global) && r == Election.TryBecome(old(RecordOf(local)), pid, ownerAlive)
    ensures r.Won? <==> old(local.manager_pid) == 0 || old(local.manager_pid) == pid || !ownerAlive
    ensures forall s :: old(Shows(s, pid, global, local)) && Election.Enabled(s, Election.Elect(pid))
              && ownerAlive == Election.Alive(s, old(local.manager_pid))
              ==> Shows(Election.Next(s, Election.Elect(pid)), pid, global, local)
    ensures r.Won? ==>
              forall s :: old(Handshake.Shows(s, local)) ==>
                Handshake.Shows(Handshake.Next(s, Handshake.Takeover), local)
    ensures r.Lost? ==>
              && Ring.Snap(global) == old(Ring.Snap(global))
              && RecordOf(local) == old(RecordOf(local)) && local.state == old(local.state)
    ensures r.Won? ==>
              var g := Election.Reclaim(old(Ring.Snap(global)), old(RecordOf(local)), r.predecessor);
              var i := Ring.FirstFree(g, 0);
              && Ring.Snap(global) == Ring.Register(g, pid) && local.state == Idle
              && RecordOf(local) == if i == MAX_MANAGERS then Election.PodRecord(0, old(local.manager_global_idx))
                 else Election.PodRecord(pid, i)
  {
    hide Election.Next, Election.Reclaim, Election.TryBecome, Ring.Register, Ring.FirstFree;
    r := TryBecomeManager(local, pid, ownerAlive);
    if r.Won? {
      Election.ReclaimReadsIndex(Ring.Snap(global), old(RecordOf(local)), pid, r.predecessor);
      ReclaimStaleGlobalSlot(global, local, r.predecessor);
      local.state := Idle;
      var idx := Manager.RegisterGlobalSlot(global, pid);
      match idx {
        case Some(i) =>
          local.manager_global_idx := i;
        case None =>
          if local.manager_pid == pid {
            local.manager_pid := 0;
          }
      }
    }
    forall s | old(Shows(s, pid, global, local)) && Election.Enabled(s, Election.Elect(pid))
               && ownerAlive == Election.Alive(s, old(local.manager_pid))
      ensures Shows(Election.Next(s, Election.Elect(pid)), pid, global, local)
    {
      Election.ElectMoves(s, pid);
    }
  }
}
