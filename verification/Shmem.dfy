// The shared regions: their sizes, the records kept in them, and the two objects whose
// atomic fields every process and thread updates in place.
module Shmem {

  const MAX_MANAGERS: nat := 64
  const MAX_WORKERS: nat := 32
  const MAX_PROCESSES: nat := 64
  const NPU_DEVICE_MAX: nat := 8

  /** Average a manager starts from, in microseconds per token. */
  const DEFAULT_AVG_US: nat := 500

  /** Number of values of a u32 and of a u64. */
  const U32: nat := 0x1_0000_0000
  const U64: nat := 0x1_0000_0000_0000_0000

  datatype Option<T> = None | Some(value: T)

  datatype LocalState = Idle | Running | Measuring

  /** One manager's entry in the registry shared by all pods. */
  datatype ManagerSlot = ManagerSlot(pid: int, avg: nat, active: bool)

  /** One worker's report on the batch `batch`. */
  datatype WorkerReport = WorkerReport(batch: nat, start: nat, duration: nat)

  /** One process's entry in its pod: `pid == 0` means free, `hbm` holds bytes per device. */
  datatype ProcessSlot = ProcessSlot(pid: int, hbm: seq<nat>, active: bool)

  class GlobalRegistry {
    var lock_owner: nat
    var queue_head: nat
    var queue_tail: nat
    const queue: array<nat>
    const slots: array<ManagerSlot>

    /** A zeroed region whose owner is the one invalid index. */
    constructor ()
      ensures fresh(queue) && fresh(slots)
      ensures queue.Length == slots.Length == MAX_MANAGERS
      ensures lock_owner == MAX_MANAGERS && queue_head == queue_tail == 0
      ensures forall k :: 0 <= k < MAX_MANAGERS ==> queue[k] == 0 && slots[k] == ManagerSlot(0, 0, false)
    {
      queue := new nat[MAX_MANAGERS](_ => 0);
      slots := new ManagerSlot[MAX_MANAGERS](_ => ManagerSlot(0, 0, false));
      lock_owner, queue_head, queue_tail := MAX_MANAGERS, 0, 0;
    }
  }

  class LocalContainerShmem {
    var memory_limit: nat
    var memory_used: nat
    const procs: array<ProcessSlot>

    var state: LocalState
    var batch_id: nat
    var tokens_remaining: nat
    var active_workers: nat
    var reported_count: nat
    const reports: array<WorkerReport>

    var manager_pid: int
    var manager_global_idx: int

    constructor (limit: nat)
      ensures fresh(procs) && fresh(reports)
      ensures procs.Length == MAX_PROCESSES && reports.Length == MAX_WORKERS
      ensures memory_limit == limit && memory_used == 0
      ensures forall k :: 0 <= k < MAX_PROCESSES ==> procs[k] == ProcessSlot(0, seq(NPU_DEVICE_MAX, _ => 0), false)
      ensures state == Idle && batch_id == tokens_remaining == active_workers == reported_count == 0
      ensures forall k :: 0 <= k < MAX_WORKERS ==> reports[k] == WorkerReport(0, 0, 0)
      ensures manager_pid == 0 && manager_global_idx == 0
    {
      procs := new ProcessSlot[MAX_PROCESSES](_ => ProcessSlot(0, seq(NPU_DEVICE_MAX, _ => 0), false));
      reports := new WorkerReport[MAX_WORKERS](_ => WorkerReport(0, 0, 0));
      memory_limit, memory_used := limit, 0;
      state, batch_id, tokens_remaining, active_workers, reported_count := Idle, 0, 0, 0, 0;
      manager_pid, manager_global_idx := 0, 0;
    }
  }
}
