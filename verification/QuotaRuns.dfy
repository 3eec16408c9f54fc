// Whole runs of the memory quota with hook calls one after another: allocations that succeed or
// fail, releases, registrations, exits, crashes, reaping and recalculation in any order.
module QuotaRuns {
  import opened Arith
  import opened Shmem
  import opened Ledger

  /** One process's client: its slot and the size of every allocation it holds. */
  datatype Client = Client(idx: nat, handles: map<nat, nat>)

  /** `dead` only grows; `dev` is the pod's one device. */
  datatype World = World(pod: Pod, dead: set<int>, clients: map<int, Client>, dev: nat)

  ghost function MapSum(m: map<nat, nat>): nat
    decreases |m|
  {
    if m == map[] then 0 else
      var k :| k in m;
      assert |m - {k}| < |m|;
      m[k] + MapSum(m - {k})
  }

  lemma {:induction false} MapSumRemove(m: map<nat, nat>, k: nat)
    requires k in m
    ensures MapSum(m) == m[k] + MapSum(m - {k})
    decreases |m|
  {
    var c :| c in m && MapSum(m) == m[c] + MapSum(m - {c});
    if c != k {
      MapSumRemove(m - {c}, k);
      MapSumRemove(m - {k}, c);
      assert m - {c} - {k} == m - {k} - {c};
    }
  }

  lemma MapSumInsert(m: map<nat, nat>, k: nat, v: nat)
    requires k !in m
    ensures MapSum(m[k := v]) == MapSum(m) + v
  {
    MapSumRemove(m[k := v], k);
    assert m[k := v] - {k} == m;
  }

  // ----- the ledger's invariant -----

  ghost predicate Wf(w: World) {
    && WfSlots(w.pod.procs) && w.dev < NPU_DEVICE_MAX
    && forall p :: p in w.clients ==> w.clients[p].idx < |w.pod.procs|
  }

  ghost predicate OneDevice(procs: seq<ProcessSlot>, dev: nat)
    requires WfSlots(procs)
  {
    forall i, d :: 0 <= i < |procs| && 0 <= d < NPU_DEVICE_MAX && d != dev ==> procs[i].hbm[d] == 0
  }

  /** A live client's slot carries its pid and its bytes. */
  ghost predicate Owns(w: World, p: int)
    requires Wf(w) && p in w.clients
  {
    var c := w.clients[p];
    && p != 0 && p !in w.dead
    && w.pod.procs[c.idx].active && w.pod.procs[c.idx].pid == p
    && w.pod.procs[c.idx].hbm[w.dev] == MapSum(c.handles)
  }

  /** The slots are in order: live ones belong to clients, inactive ones to nobody. */
  ghost predicate Tidy(w: World) {
    && Wf(w) && w.pod.limit < U64
    && OneDevice(w.pod.procs, w.dev)
    && (forall p :: p in w.clients ==> Owns(w, p))
    && (forall i :: 0 <= i < |w.pod.procs| ==> var s := w.pod.procs[i];
          (!s.active ==> s.pid == 0)
          && (IsLive(s, w.dead) ==> s.pid in w.clients && w.clients[s.pid].idx == i))
  }

  ghost predicate Inv(w: World) {
    && Tidy(w)
    && HeldTotal(w.pod.procs, w.dev) <= w.pod.used <= w.pod.limit
  }

  /** What the ledger is for: live slots agree with the handle maps, and the counter covers the
      live bytes without exceeding the limit. */
  ghost predicate Agrees(w: World) {
    && Wf(w)
    && (forall p :: p in w.clients ==> Owns(w, p))
    && LiveTotal(w.pod.procs, w.dead, w.dev) <= w.pod.used <= w.pod.limit
  }

  // ----- moves on the world -----

  ghost function Registered(w: World, p: int): (r: World)
    requires Wf(w)
    ensures Wf(r)
  {
    var i := SlotFor(w.pod.procs, p, w.dead);
    if i == |w.pod.procs| then w
    else w.(pod := w.pod.(procs := RegisterProc(w.pod.procs, p, w.dead)), clients := w.clients[p := Client(i, map[])])
  }

  ghost function Committed(w: World, p: int, handle: nat, size: nat): (r: World)
    requires Wf(w) && p in w.clients
    ensures Wf(r)
  {
    var c := w.clients[p];
    w.(pod := Commit(w.pod, c.idx, w.dev, size), clients := w.clients[p := c.(handles := c.handles[handle := size])])
  }

  ghost function HeldSize(w: World, p: int, handle: nat): nat
    requires p in w.clients
  {
    if handle in w.clients[p].handles then w.clients[p].handles[handle] else 0
  }

  /** `post_free_hbm`: only a successful device call releases anything. */
  ghost function Freed(w: World, p: int, handle: nat, ok: bool): (r: World)
    requires Wf(w) && p in w.clients
    ensures Wf(r)
  {
    if !ok then w else
      var c := w.clients[p];
      w.(pod := Release(w.pod, w.dead, c.idx, w.dev, HeldSize(w, p, handle)),
         clients := w.clients[p := c.(handles := c.handles - {handle})])
  }

  ghost function Dropped(w: World, p: int): (r: World)
    requires Wf(w) && p in w.clients
    ensures Wf(r)
  {
    w.(pod := w.pod.(procs := DropProc(w.pod.procs, w.clients[p].idx)), clients := w.clients - {p})
  }

  ghost function Crashed(w: World, p: int): (r: World)
    requires Wf(w)
    ensures Wf(r)
  {
    w.(dead := w.dead + {p}, clients := w.clients - {p})
  }

  ghost function ReapedWorld(w: World): (r: World)
    requires Wf(w)
    ensures Wf(r)
  {
    w.(pod := Reap(w.pod, w.dead))
  }

  ghost function Recalced(w: World): (r: World)
    requires Wf(w)
    ensures Wf(r)
  {
    w.(pod := Recalc(w.pod, w.dead, w.dev))
  }

  // ----- serial steps -----

  datatype Serial =
    | Register(p: int)
    | Malloc(p: int, size: nat, ok: bool, handle: nat)
    | Free(p: int, handle: nat, ok: bool)
    | Drop(p: int)
    | Crash(p: int)
    | ReapDead
    | Recalculate

  /** The device hands out handles the process does not hold, and never satisfies a request so large
      that the u64 sum with the counter overflows. */
  ghost predicate Enabled(w: World, step: Serial) {
    match step
    case Register(p) => p != 0 && p !in w.dead
    case Malloc(p, size, ok, handle) =>
      p in w.clients && handle !in w.clients[p].handles && size < U64 && (ok ==> w.pod.limit + size < U64)
    case Free(p, handle, ok) => p in w.clients
    case Drop(p) => p in w.clients
    case Crash(p) => p != 0
    case ReapDead => true
    case Recalculate => true
  }

  /** `rtMalloc`: with a limit, check, device call, then commit or rollback; without, the device
      call alone. */
  ghost function Malloced(w: World, p: int, size: nat, ok: bool, handle: nat): (r: World)
    requires Wf(w) && p in w.clients
    ensures Wf(r)
  {
    if w.pod.limit == 0 then w else
      var (pod, admitted) := Check(w.pod, w.dead, w.dev, size);
      if !admitted then w.(pod := pod)
      else if ok then Committed(w.(pod := pod), p, handle, size)
      else w.(pod := Rollback(pod, w.dead, w.dev, size))
  }

  ghost function Next(w: World, step: Serial): (r: World)
    requires Wf(w) && Enabled(w, step)
    ensures Wf(r)
  {
    match step
    case Register(p) => Registered(w, p)
    case Malloc(p, size, ok, handle) => Malloced(w, p, size, ok, handle)
    case Free(p, handle, ok) => if w.pod.limit == 0 then w else Freed(w, p, handle, ok)
    case Drop(p) => Dropped(w, p)
    case Crash(p) => Crashed(w, p)
    case ReapDead => ReapedWorld(w)
    case Recalculate => Recalced(w)
  }

  /** Some saturating subtraction of the step would hit its floor. */
  ghost predicate Floors(w: World, step: Serial)
    requires Wf(w) && Enabled(w, step)
  {
    match step
    case Malloc(p, size, ok, handle) =>
      w.pod.limit != 0
      && (w.pod.used < DeadTotal(w.pod.procs, w.dead, w.dev)
          || (var (pod, admitted) := Check(w.pod, w.dead, w.dev, size); admitted && !ok && pod.used < size))
    case Free(p, handle, ok) =>
      w.pod.limit != 0 && ok
      && (w.pod.used < HeldSize(w, p, handle) || w.pod.procs[w.clients[p].idx].hbm[w.dev] < HeldSize(w, p, handle))
    case ReapDead => w.pod.used < LeakedTotal(w.pod.procs, w.dead)
    case Recalculate => w.pod.used < DeadTotal(w.pod.procs, w.dead, w.dev)
    case _ => false
  }

  // ----- every step keeps the invariant and meets no floor -----

  lemma {:induction false} SingleTotal(s: seq<nat>, d: nat)
    requires d < |s| && forall k :: 0 <= k < |s| && k != d ==> s[k] == 0
    ensures Total(s) == s[d]
  {
    TotalUpdate(s, d, 0);
    TotalZero(s[d := 0]);
  }

  lemma LeakIsDead(w: World)
    requires Tidy(w)
    ensures LeakedTotal(w.pod.procs, w.dead) == DeadTotal(w.pod.procs, w.dead, w.dev)
  {
    var procs := w.pod.procs;
    forall i | 0 <= i < |procs|
      ensures LeakedBytes(procs, w.dead)[i] == DeadBytes(procs, w.dead, w.dev)[i]
    {
      SingleTotal(procs[i].hbm, w.dev);
    }
    assert LeakedBytes(procs, w.dead) == DeadBytes(procs, w.dead, w.dev);
  }

  lemma RecalcKeepsInv(w: World)
    requires Inv(w)
    ensures Inv(Recalced(w)) && Recalced(w).pod.used == LiveTotal(w.pod.procs, w.dead, w.dev)
    ensures DeadTotal(w.pod.procs, w.dead, w.dev) <= w.pod.used
  {
    HeldSplits(w.pod.procs, w.dead, w.dev);
    CleanedHolds(w.pod.procs, w.dead, w.dev);
  }

  lemma ReapKeepsInv(w: World)
    requires Inv(w)
    ensures Inv(ReapedWorld(w)) && LeakedTotal(w.pod.procs, w.dead) <= w.pod.used
  {
    HeldSplits(w.pod.procs, w.dead, w.dev);
    CleanedHolds(w.pod.procs, w.dead, w.dev);
    LeakIsDead(w);
  }

  lemma RegisterKeepsInv(w: World, p: int)
    requires Inv(w) && p != 0 && p !in w.dead
    ensures Inv(Registered(w, p))
  {
    var procs := w.pod.procs;
    var i := SlotFor(procs, p, w.dead);
    if i < |procs| {
      HeldUpdate(procs, i, ProcessSlot(p, NoBytes(), true), w.dev);
      var w' := Registered(w, p);
      forall q | q in w'.clients
        ensures Owns(w', q)
      {
        if q != p {
          assert Owns(w, q);
        }
      }
    }
  }

  lemma CommitKeepsInv(w: World, p: int, handle: nat, size: nat)
    requires Tidy(w) && HeldTotal(w.pod.procs, w.dev) + size <= w.pod.used <= w.pod.limit
    requires p in w.clients && handle !in w.clients[p].handles
    ensures Inv(Committed(w, p, handle, size))
  {
    assert Owns(w, p);
    var c := w.clients[p];
    var s := w.pod.procs[c.idx];
    HeldUpdate(w.pod.procs, c.idx, s.(hbm := s.hbm[w.dev := s.hbm[w.dev] + size]), w.dev);
    MapSumInsert(c.handles, handle, size);
    var w' := Committed(w, p, handle, size);
    forall q | q in w'.clients
      ensures Owns(w', q)
    {
      assert Owns(w, q);
    }
  }

  lemma FreeKeepsInv(w: World, p: int, handle: nat)
    requires Inv(w) && p in w.clients
    ensures Inv(Freed(w, p, handle, true))
    ensures HeldSize(w, p, handle) <= w.pod.procs[w.clients[p].idx].hbm[w.dev] <= w.pod.used
  {
    assert Owns(w, p);
    var c, size := w.clients[p], HeldSize(w, p, handle);
    var s := w.pod.procs[c.idx];
    HeldUpdate(w.pod.procs, c.idx, s.(hbm := s.hbm[w.dev := SatSub(s.hbm[w.dev], size)]), w.dev);
    if handle in c.handles {
      MapSumRemove(c.handles, handle);
    } else {
      assert c.handles - {handle} == c.handles;
    }
    var w' := Freed(w, p, handle, true);
    forall q | q in w'.clients
      ensures Owns(w', q)
    {
      assert Owns(w, q);
    }
  }

  lemma DropKeepsInv(w: World, p: int)
    requires Inv(w) && p in w.clients
    ensures Inv(Dropped(w, p))
  {
    assert Owns(w, p);
    var i := w.clients[p].idx;
    HeldUpdate(w.pod.procs, i, w.pod.procs[i].(pid := 0, active := false), w.dev);
    var w' := Dropped(w, p);
    forall q | q in w'.clients
      ensures Owns(w', q)
    {
      assert Owns(w, q);
    }
  }

  lemma CrashKeepsInv(w: World, p: int)
    requires Inv(w)
    ensures Inv(Crashed(w, p))
  {
    var w' := Crashed(w, p);
    forall q | q in w'.clients
      ensures Owns(w', q)
    {
      assert Owns(w, q);
    }
  }

  /** A request the device refuses, so large that its u64 sum with the live bytes wraps around to
      something that fits: the one case in which a subtraction hits its floor. */
  ghost predicate Wraps(w: World, step: Serial)
    requires Wf(w)
  {
    && step.Malloc? && w.pod.limit != 0 && !step.ok
    && U64 <= LiveTotal(w.pod.procs, w.dead, w.dev) + step.size <= U64 + w.pod.limit
  }

  lemma MallocKeepsInv(w: World, p: int, size: nat, ok: bool, handle: nat)
    requires Inv(w) && Enabled(w, Malloc(p, size, ok, handle))
    ensures Inv(Malloced(w, p, size, ok, handle))
    ensures Floors(w, Malloc(p, size, ok, handle)) <==> Wraps(w, Malloc(p, size, ok, handle))
  {
    RecalcKeepsInv(w);
    if w.pod.limit != 0 {
      var r := Recalced(w);
      CleanedHolds(w.pod.procs, w.dead, w.dev);
      RecalcStabilises(w.pod, w.dead, w.dev);
      var (pod, admitted) := Check(w.pod, w.dead, w.dev, size);
      if admitted {
        if ok {
          assert pod == r.pod.(used := r.pod.used + size);
          CommitKeepsInv(r.(pod := pod), p, handle, size);
        } else {
          assert Malloced(w, p, size, ok, handle) == r;
        }
      }
    }
  }

  lemma StepKeepsInv(w: World, step: Serial)
    requires Inv(w) && Enabled(w, step)
    ensures Inv(Next(w, step)) && (Floors(w, step) <==> Wraps(w, step))
  {
    RecalcKeepsInv(w);
    match step {
      case Register(p) => RegisterKeepsInv(w, p);
      case Malloc(p, size, ok, handle) => MallocKeepsInv(w, p, size, ok, handle);
      case Free(p, handle, ok) => FreeKeepsInv(w, p, handle);
      case Drop(p) => DropKeepsInv(w, p);
      case Crash(p) => CrashKeepsInv(w, p);
      case ReapDead => ReapKeepsInv(w);
      case Recalculate =>
    }
  }

  // ----- what one call takes, and what another gives back -----

  /** An allocation with a limit re-derives the counter and is admitted if its u64 sum with the live
      bytes fits; one the device then grants adds exactly its size to the counter, to the live bytes,
      to the process's slot and, under its handle, to the process's map, and one that is not admitted
      or not granted leaves the re-derived pod. */
  lemma MallocMoves(w: World, p: int, size: nat, ok: bool, handle: nat)
    requires Inv(w) && Enabled(w, Malloc(p, size, ok, handle)) && w.pod.limit != 0
    ensures var w', i := Next(w, Malloc(p, size, ok, handle)), w.clients[p].idx;
            var live := LiveTotal(w.pod.procs, w.dead, w.dev);
            if ok && live + size <= w.pod.limit then
              && w'.pod.used == live + size == LiveTotal(w'.pod.procs, w.dead, w.dev)
              && w'.pod.procs[i].hbm[w.dev] == w.pod.procs[i].hbm[w.dev] + size
              && w'.clients == w.clients[p := Client(i, w.clients[p].handles[handle := size])]
            else
              w' == Next(w, Recalculate) && w'.pod.used == live
  {
    RecalcKeepsInv(w);
    assert Owns(w, p);
    var m, i := Recalced(w), w.clients[p].idx;
    CleanedHolds(w.pod.procs, w.dead, w.dev);
    RecalcStabilises(w.pod, w.dead, w.dev);
    assert m.pod.procs[i] == w.pod.procs[i];
    var s := m.pod.procs[i];
    LiveUpdate(m.pod.procs, i, s.(hbm := s.hbm[w.dev := s.hbm[w.dev] + size]), w.dead, w.dev);
  }

  /** A release the device performs takes exactly what the handle held from the counter, from the slot
      and from the map, and re-derives nothing; a failed one changes nothing. */
  lemma FreeMoves(w: World, p: int, handle: nat, ok: bool)
    requires Inv(w) && p in w.clients
    ensures var w', c := Freed(w, p, handle, ok), w.clients[p];
            var held := if ok && handle in c.handles then c.handles[handle] else 0;
            && held <= w.pod.procs[c.idx].hbm[w.dev] && held <= w.pod.used
            && var s := w.pod.procs[c.idx];
               var slot := s.(hbm := s.hbm[w.dev := s.hbm[w.dev] - held]);
               w' == w.(pod := Pod(w.pod.limit, w.pod.used - held, w.pod.procs[c.idx := slot]),
                        clients := w.clients[p := c.(handles := if ok then c.handles - {handle} else c.handles)])
  {
    FreeKeepsInv(w, p, handle);
    assert Owns(w, p);
    var c := w.clients[p];
    var s := w.pod.procs[c.idx];
    assert s.(hbm := s.hbm[w.dev := s.hbm[w.dev]]) == s;
    assert w.clients[p := c] == w.clients;
  }

  /** Round trip: an allocation followed by its release, and an allocation refused by the quota or by
      the device, leave the pod and every handle map as one recalculation would, with the counter at
      the live sum. */
  lemma MallocThenFree(w: World, p: int, size: nat, handle: nat)
    requires Inv(w) && Enabled(w, Malloc(p, size, true, handle)) && w.pod.limit != 0
    ensures var w' := Next(w, Malloc(p, size, true, handle));
            Enabled(w', Free(p, handle, true)) && Next(w', Free(p, handle, true)) == Next(w, Recalculate)
    ensures Next(w, Malloc(p, size, false, handle)) == Next(w, Recalculate)
    ensures Next(w, Recalculate).pod.used == LiveTotal(w.pod.procs, w.dead, w.dev)
  {
    hide Freed, Malloced;
    var w1, m, c := Malloced(w, p, size, true, handle), Recalced(w), w.clients[p];
    MallocMoves(w, p, size, true, handle);
    MallocMoves(w, p, size, false, handle);
    MallocKeepsInv(w, p, size, true, handle);
    RecalcKeepsInv(w);
    FreeMoves(w1, p, handle, true);
    assert w.clients[p := c] == w.clients;
    if LiveTotal(w.pod.procs, w.dead, w.dev) + size <= w.pod.limit {
      AllocatedSlots(w, p, size, handle);
      var w2 := Freed(w1, p, handle, true);
      assert w2.pod.procs[c.idx].hbm == m.pod.procs[c.idx].hbm;
      assert w2.pod.procs == m.pod.procs;
      assert c.handles[handle := size] - {handle} == c.handles;
      assert w2.clients == w.clients[p := c];
    } else {
      assert c.handles - {handle} == c.handles;
      var was := m.pod.procs[c.idx];
      assert was.(hbm := was.hbm[w.dev := was.hbm[w.dev]]) == was;
    }
  }

  lemma AllocatedSlots(w: World, p: int, size: nat, handle: nat)
    requires Inv(w) && Enabled(w, Malloc(p, size, true, handle)) && w.pod.limit != 0
    requires LiveTotal(w.pod.procs, w.dead, w.dev) + size <= w.pod.limit
    ensures var w1, m, i := Malloced(w, p, size, true, handle), Recalced(w), w.clients[p].idx;
            w1.pod.procs == AddBytes(m.pod.procs, i, w.dev, size) && w1.pod.limit == w.pod.limit && w1.dead == w.dead
            && w1.dev == w.dev
  {
  }

  /** Without a limit neither call touches the ledger. */
  lemma NoLimitNoLedger(w: World, step: Serial)
    requires Wf(w) && Enabled(w, step) && w.pod.limit == 0 && (step.Malloc? || step.Free?)
    ensures Next(w, step) == w
  {
  }

  /** A registration finds room exactly when a slot is the process's own, inactive or dead; then the
      process holds nothing, its slot nothing, and the counter is as before. */
  lemma RegisterMoves(w: World, p: int)
    requires Inv(w) && Enabled(w, Register(p))
    ensures var w' := Next(w, Register(p));
            if exists i :: 0 <= i < |w.pod.procs| && (Claimable(w.pod.procs[i], w.dead) || w.pod.procs[i].pid == p) then
              && p in w'.clients && w'.clients == w.clients[p := Client(w'.clients[p].idx, map[])]
              && w'.pod.procs == w.pod.procs[w'.clients[p].idx := ProcessSlot(p, NoBytes(), true)]
              && w'.pod.used == w.pod.used
            else w' == w
  {
    if i :| 0 <= i < |w.pod.procs| && (Claimable(w.pod.procs[i], w.dead) || w.pod.procs[i].pid == p) {
      assert SlotFor(w.pod.procs, p, w.dead) < |w.pod.procs|;
    } else {
      assert OwnSlot(w.pod.procs, p, 0) == |w.pod.procs|;
    }
  }

  /** Reaping frees every dead slot and takes exactly the dead bytes from the counter, which then covers
      the live ones by as much as it covered all. */
  lemma ReapMoves(w: World)
    requires Inv(w)
    ensures var w' := Next(w, ReapDead);
            && w'.clients == w.clients
            && w'.pod.used == w.pod.used - DeadTotal(w.pod.procs, w.dead, w.dev)
            && HeldTotal(w'.pod.procs, w.dev) == LiveTotal(w.pod.procs, w.dead, w.dev)
            && forall i :: 0 <= i < |w.pod.procs| ==>
                 w'.pod.procs[i] == if IsDead(w.pod.procs[i], w.dead) then ProcessSlot(0, NoBytes(), false)
                                    else w.pod.procs[i]
  {
    ReapKeepsInv(w);
    LeakIsDead(w);
    CleanedHolds(w.pod.procs, w.dead, w.dev);
  }

  /** When a process exits or crashes, what it held returns to the quota with the next recalculation,
      and not before. */
  lemma LeavingReturnsBytes(w: World, p: int, step: Serial)
    requires Inv(w) && p in w.clients && (step == Drop(p) || step == Crash(p))
    ensures var w', i := Next(w, step), w.clients[p].idx;
            && w'.clients == w.clients - {p} && w'.pod.used == w.pod.used
            && Recalced(w').pod.used
               == LiveTotal(w.pod.procs, w.dead, w.dev) - MapSum(w.clients[p].handles)
  {
    assert Owns(w, p);
    var i := w.clients[p].idx;
    if step.Drop? {
      LiveUpdate(w.pod.procs, i, w.pod.procs[i].(pid := 0, active := false), w.dead, w.dev);
    } else {
      var left := LiveBytes(w.pod.procs, w.dead, w.dev)[i := 0];
      forall k | 0 <= k < |w.pod.procs|
        ensures LiveBytes(w.pod.procs, w.dead + {p}, w.dev)[k] == left[k]
      {
        var s := w.pod.procs[k];
        if IsLive(s, w.dead) {
          assert Owns(w, s.pid);
        }
      }
      assert LiveBytes(w.pod.procs, w.dead + {p}, w.dev) == left;
      TotalUpdate(LiveBytes(w.pod.procs, w.dead, w.dev), i, 0);
    }
  }

  // ----- serial runs -----

  ghost predicate RunOk(w: World, run: seq<Serial>)
    requires Wf(w)
    decreases |run|
  {
    run == [] || (Enabled(w, run[0]) && RunOk(Next(w, run[0]), run[1..]))
  }

  ghost function After(w: World, run: seq<Serial>): (r: World)
    requires Wf(w) && RunOk(w, run)
    ensures Wf(r)
    decreases |run|
  {
    if run == [] then w else After(Next(w, run[0]), run[1..])
  }

  /** After every serial run the ledger agrees with the handle maps and the limit holds. */
  lemma {:induction false} SerialRunAgrees(w: World, run: seq<Serial>)
    requires Inv(w) && RunOk(w, run)
    ensures Inv(After(w, run)) && Agrees(After(w, run))
    decreases |run|
  {
    HeldSplits(w.pod.procs, w.dead, w.dev);
    if run != [] {
      StepKeepsInv(w, run[0]);
      SerialRunAgrees(Next(w, run[0]), run[1..]);
    }
  }

  /** And a saturating subtraction on the way hits its floor exactly when a request wraps. */
  lemma {:induction false} SerialRunFloorsIff(w: World, run: seq<Serial>, k: nat)
    requires Inv(w) && RunOk(w, run) && k < |run|
    ensures RunOk(w, run[..k])
    ensures var v := After(w, run[..k]);
            Enabled(v, run[k]) && (Floors(v, run[k]) <==> Wraps(v, run[k]))
    decreases |run|
  {
    StepKeepsInv(w, run[0]);
    if k > 0 {
      SerialRunFloorsIff(Next(w, run[0]), run[1..], k - 1);
      assert run[1..][..k - 1] == run[..k][1..];
    }
  }

  /** A fresh pod: zeroed slots, nothing used. */
  ghost function Fresh(limit: nat, n: nat, dev: nat): World {
    World(Pod(limit, 0, seq(n, _ => ProcessSlot(0, NoBytes(), false))), {}, map[], dev)
  }

  lemma FreshInv(limit: nat, n: nat, dev: nat)
    requires limit < U64 && dev < NPU_DEVICE_MAX
    ensures Inv(Fresh(limit, n, dev))
  {
    TotalZero(HeldBytes(Fresh(limit, n, dev).pod.procs, dev));
  }

  /** From a fresh pod, whatever hooks, exits, crashes, reaping and recalculations follow one another,
      the ledger agrees with the handle maps, and the next step hits a floor if and only if it is a
      refused request that wraps. */
  lemma FreshPodAgrees(limit: nat, n: nat, dev: nat, run: seq<Serial>, next: Serial)
    requires limit < U64 && dev < NPU_DEVICE_MAX && RunOk(Fresh(limit, n, dev), run)
    ensures var w := After(Fresh(limit, n, dev), run);
            && Agrees(w) && w.pod.limit == limit
            && (Enabled(w, next) ==> Agrees(Next(w, next)) && (Floors(w, next) <==> Wraps(w, next)))
  {
    var w0 := Fresh(limit, n, dev);
    FreshInv(limit, n, dev);
    SerialRunAgrees(w0, run);
    LimitStays(w0, run);
    var w := After(w0, run);
    if Enabled(w, next) {
      StepKeepsInv(w, next);
      SerialRunAgrees(Next(w, next), []);
    }
  }

  lemma {:induction false} LimitStays(w: World, run: seq<Serial>)
    requires Wf(w) && RunOk(w, run)
    ensures After(w, run).pod.limit == w.pod.limit
    decreases |run|
  {
    if run != [] {
      LimitStays(Next(w, run[0]), run[1..]);
    }
  }

  /** A request that wraps is reached: process 1 registers and allocates `held` bytes. */
  lemma WrapIsReached(limit: nat, held: nat) returns (run: seq<Serial>)
    requires 0 < held <= limit && limit + held < U64
    ensures RunOk(Fresh(limit, MAX_PROCESSES, 0), run)
    ensures var w, next := After(Fresh(limit, MAX_PROCESSES, 0), run), Malloc(1, U64 - held, false, 2);
            Agrees(w) && Enabled(w, next) && Wraps(w, next) && Floors(w, next)
  {
    hide Next, Idle1, Floors, Fresh;
    var w0 := Fresh(limit, MAX_PROCESSES, 0);
    var register, malloc := Register(1), Malloc(1, held, true, 1);
    FreshInv(limit, MAX_PROCESSES, 0);
    FirstRegisters(limit);
    var w1 := Next(w0, register);
    HoldsAfterMalloc(w1, held);
    var w2 := Next(w1, malloc);
    run := StepThenRun(w1, malloc, []);
    run := StepThenRun(w0, register, run);
    SerialRunAgrees(w0, run);
    StepKeepsInv(w2, Malloc(1, U64 - held, false, 2));
  }

  lemma StepThenRun(w: World, step: Serial, rest: seq<Serial>) returns (run: seq<Serial>)
    requires Wf(w) && Enabled(w, step) && RunOk(Next(w, step), rest)
    ensures RunOk(w, run) && After(w, run) == After(Next(w, step), rest)
  {
    run := [step] + rest;
    assert run[1..] == rest;
  }

  /** Process 1 holds no handle, nothing is live, and nobody has died. */
  ghost predicate Idle1(w: World) {
    && Inv(w) && w.dead == {} && w.dev == 0 && LiveTotal(w.pod.procs, {}, 0) == 0
    && 1 in w.clients && w.clients[1].handles == map[]
  }

  lemma FirstRegisters(limit: nat)
    requires limit < U64
    ensures var w0 := Fresh(limit, MAX_PROCESSES, 0);
            && Wf(w0) && Enabled(w0, Register(1))
            && Idle1(Next(w0, Register(1))) && Next(w0, Register(1)).pod.limit == limit
  {
    var w0 := Fresh(limit, MAX_PROCESSES, 0);
    FreshInv(limit, MAX_PROCESSES, 0);
    StepKeepsInv(w0, Register(1));
    assert OwnSlot(w0.pod.procs, 1, 0) == MAX_PROCESSES;
    assert ClaimableSlot(w0.pod.procs, {}, 0) == 0;
    TotalZero(LiveBytes(w0.pod.procs, {}, 0));
    LiveUpdate(w0.pod.procs, 0, ProcessSlot(1, NoBytes(), true), {}, 0);
  }

  lemma HoldsAfterMalloc(w: World, held: nat)
    requires Idle1(w) && 0 < held <= w.pod.limit && w.pod.limit + held < U64
    ensures Enabled(w, Malloc(1, held, true, 1))
    ensures var w' := Next(w, Malloc(1, held, true, 1));
            && Inv(w') && w'.dead == {} && w'.dev == 0 && w'.pod.limit == w.pod.limit
            && 1 in w'.clients && w'.clients[1].handles == map[1 := held] && LiveTotal(w'.pod.procs, {}, 0) == held
  {
    StepKeepsInv(w, Malloc(1, held, true, 1));
    var procs, i := CleanedSlots(w.pod.procs, {}, 0), w.clients[1].idx;
    assert Owns(w, 1);
    assert procs == w.pod.procs;
    LiveUpdate(procs, i, procs[i].(hbm := procs[i].hbm[0 := procs[i].hbm[0] + held]), {}, 0);
  }
}
