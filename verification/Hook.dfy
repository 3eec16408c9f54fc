// The intercepted allocation calls: what the hook does around the device's own call.  `deviceOk`
// and `handle` are what that call returns.
module Hook {
  import opened Ledger
  import QuotaRuns
  import Worker

  /** `rtMalloc` and `rtMallocPhysical`: reserve, call the device, commit or roll back. */
  method RtMalloc(client: Worker.SchedulerClient, size: nat, deviceOk: bool, handle: nat, dead: set<int>)
    returns (ok: bool)
    requires client.Valid()
    modifies client`handles, client.shmem`memory_used, client.shmem.procs
    ensures client.Valid()
    ensures forall pid ::
              client.WorldOf(pid, dead)
              == QuotaRuns.Malloced(old(client.WorldOf(pid, dead)), pid, size, deviceOk, handle)
    ensures var quota := client.shmem.memory_limit;
            ok == (deviceOk && (quota == 0 || Check(old(PodOf(client.shmem)), dead, client.device_id, size).1))
    ensures client.shmem.memory_limit == 0 ==>
              PodOf(client.shmem) == old(PodOf(client.shmem)) && client.handles == old(client.handles)
    ensures client.shmem.memory_limit != 0 && ok ==> client.handles == old(client.handles)[handle := size]
    ensures !ok ==> client.handles == old(client.handles)
  {
    if client.shmem.memory_limit > 0 {
      var admitted := client.CheckMemoryQuota(size, dead);
      if !admitted {
        return false;
      }
      client.PostAllocHbm(if deviceOk then handle else 0, size, deviceOk, dead);
      return deviceOk;
    }
    return deviceOk;
  }

  /** `rtFree` and `rtFreePhysical`: call the device, then release. */
  method RtFree(client: Worker.SchedulerClient, handle: nat, deviceOk: bool, dead: set<int>) returns (ok: bool)
    requires client.Valid()
    modifies client`handles, client.shmem`memory_used, client.shmem.procs
    ensures client.Valid() && ok == deviceOk
    ensures forall pid :: client.WorldOf(pid, dead) ==
              if client.shmem.memory_limit == 0 then old(client.WorldOf(pid, dead))
              else QuotaRuns.Freed(old(client.WorldOf(pid, dead)), pid, handle, deviceOk)
  {
    if client.shmem.memory_limit > 0 {
      client.PostFreeHbm(handle, deviceOk, dead);
    }
    return deviceOk;
  }
}
