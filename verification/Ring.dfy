// The 64-entry ring of waiting managers, as values: what joining, passing, polling and
// registering do to the registry, and the queue (`Window`) the ring stands for.
module Ring {
  import opened Shmem

  datatype Registry = Registry(owner: nat, head: nat, tail: nat, queue: seq<nat>, slots: seq<ManagerSlot>)

  /** Every field fits its storage. */
  ghost predicate Wf(g: Registry) {
    && |g.queue| == |g.slots| == MAX_MANAGERS
    && g.owner < U32 && g.head < U32 && g.tail < U32
  }

  /** The value of the shared registry. */
  ghost function Snap(g: GlobalRegistry): Registry
    reads g, g.queue, g.slots
  {
    Registry(g.lock_owner, g.queue_head, g.queue_tail, g.queue[..], g.slots[..])
  }

  ghost predicate Mapped(g: GlobalRegistry)
    reads g, g.queue, g.slots
  {
    g.queue.Length == g.slots.Length == MAX_MANAGERS && Wf(Snap(g))
  }

  /** The registry as first mapped. */
  function Initial(): Registry {
    Registry(MAX_MANAGERS, 0, 0, seq(MAX_MANAGERS, _ => 0), seq(MAX_MANAGERS, _ => ManagerSlot(0, 0, false)))
  }

  predicate Active(g: Registry, c: nat)
    requires |g.slots| == MAX_MANAGERS
  {
    c < MAX_MANAGERS && g.slots[c].active
  }

  /** The queued entries, oldest first.  Head and tail are u32 counters that wrap. */
  ghost function Window(g: Registry): (w: seq<nat>)
    requires Wf(g)
    ensures |w| == (g.tail - g.head) % U32
  {
    seq((g.tail - g.head) % U32, k requires 0 <= k => g.queue[(g.head + k) % MAX_MANAGERS])
  }

  function Join(g: Registry, me: nat): (r: Registry)
    requires Wf(g)
    ensures Wf(r)
  {
    g.(queue := g.queue[g.tail % MAX_MANAGERS := me], tail := (g.tail + 1) % U32)
  }

  /** First of the `n` positions from `h` on that holds an active candidate, else `h + n`. */
  function Scan(g: Registry, h: nat, n: nat): (r: nat)
    requires Wf(g)
    ensures h <= r <= h + n
    ensures forall k :: h <= k < r ==> !Active(g, g.queue[k % MAX_MANAGERS])
    ensures r < h + n ==> Active(g, g.queue[r % MAX_MANAGERS])
    decreases n
  {
    if n == 0 || Active(g, g.queue[h % MAX_MANAGERS]) then h else Scan(g, h + 1, n - 1)
  }

  function Pass(g: Registry, me: nat): (r: Registry)
    requires Wf(g) && me < MAX_MANAGERS
    ensures Wf(r)
  {
    var j := Join(g, me);
    var h := Scan(j, j.head + 1, MAX_MANAGERS);
    var c := j.queue[h % MAX_MANAGERS];
    j.(head := h % U32, owner := if h < j.head + 1 + MAX_MANAGERS then c else me)
  }

  /** Index of the first inactive slot from `i` on, or MAX_MANAGERS when all are taken. */
  function FirstFree(g: Registry, i: nat): (r: nat)
    requires Wf(g) && i <= MAX_MANAGERS
    ensures i <= r <= MAX_MANAGERS
    ensures forall k :: i <= k < r ==> g.slots[k].active
    ensures r < MAX_MANAGERS ==> !g.slots[r].active
    decreases MAX_MANAGERS - i
  {
    if i == MAX_MANAGERS || !g.slots[i].active then i else FirstFree(g, i + 1)
  }

  lemma FirstFreeIs(g: Registry, i: nat)
    requires Wf(g) && i < MAX_MANAGERS && !g.slots[i].active
    requires forall k :: 0 <= k < i ==> g.slots[k].active
    ensures FirstFree(g, 0) == i
  {
  }

  /** Registration takes the first free slot; a full registry is left as it is. */
  function Register(g: Registry, pid: int): (r: Registry)
    requires Wf(g)
    ensures Wf(r)
  {
    var i := FirstFree(g, 0);
    if i == MAX_MANAGERS then g else g.(slots := g.slots[i := ManagerSlot(pid, DEFAULT_AVG_US, true)])
  }

  function Deactivate(g: Registry, i: nat): (r: Registry)
    requires Wf(g)
    ensures Wf(r)
  {
    if i < MAX_MANAGERS then g.(slots := g.slots[i := g.slots[i].(active := false)]) else g
  }

  /** One look at the baton: does the poller now hold it?  `stale` is the watchdog's verdict
      on the owner's heartbeat. */
  function Poll(g: Registry, me: nat, stale: bool): (r: (Registry, bool))
    requires Wf(g) && me < MAX_MANAGERS
    ensures Wf(r.0)
  {
    if g.owner == me then (g, true)
    else if !Active(g, g.owner) then (g.(owner := me), true)
    else if stale then (Deactivate(g, g.owner).(owner := me), true)
    else (g, false)
  }

  /** A pass hands the baton to an active manager, or keeps it. */
  lemma PassChoosesActive(g: Registry, me: nat)
    requires Wf(g) && me < MAX_MANAGERS
    ensures Pass(g, me).owner == me || Active(g, Pass(g, me).owner)
  {
    hide Scan;
  }

  // ----- what the ring stands for -----

  ghost function DropInactive(g: Registry, s: seq<nat>): seq<nat>
    requires Wf(g)
  {
    if s == [] || Active(g, s[0]) then s else DropInactive(g, s[1..])
  }

  /** What passes make of the ring: the cells from the head to the tail, at most one turn and at least
      one cell.  Beyond 64 entries older ones are overwritten; an empty queue still has 64 cells. */
  ghost function Circle(g: Registry): (w: seq<nat>)
    requires Wf(g)
    ensures |w| == (g.tail - g.head - 1) % MAX_MANAGERS + 1
    ensures 1 <= |w| <= MAX_MANAGERS
  {
    seq((g.tail - g.head - 1) % MAX_MANAGERS + 1, k requires 0 <= k => g.queue[(g.head + k) % MAX_MANAGERS])
  }

  /** The circle depends on the ring alone. */
  lemma SameCircle(g: Registry, g': Registry)
    requires Wf(g) && Wf(g') && g.head == g'.head && g.tail == g'.tail && g.queue == g'.queue
    ensures Circle(g) == Circle(g')
  {
  }

  /** Up to 64 entries that is the queue. */
  lemma CircleIsWindow(g: Registry)
    requires Wf(g) && 1 <= |Window(g)| <= MAX_MANAGERS
    ensures Circle(g) == Window(g)
  {
  }

  lemma SlotOfWrapped(h: nat, k: nat)
    ensures (h % U32 + k) % MAX_MANAGERS == (h + k) % MAX_MANAGERS
  {
    var q := h / U32;
    assert h == q * U32 + h % U32;
    assert (h + k) % 64 == (h % 0x1_0000_0000 + k) % 64;
  }

  /** The window depends on the ring alone. */
  lemma SameWindow(g: Registry, g': Registry)
    requires Wf(g) && Wf(g') && g.head == g'.head && g.tail == g'.tail && g.queue == g'.queue
    ensures Window(g) == Window(g')
  {
  }

  /** A registry whose head is `h` and whose ring holds `v` from there on has the window `v`. */
  lemma WindowIs(g: Registry, h: nat, v: seq<nat>)
    requires Wf(g) && g.head == h % U32 && (g.tail - g.head) % U32 == |v|
    requires forall k :: 0 <= k < |v| ==> v[k] == g.queue[(h + k) % MAX_MANAGERS]
    ensures Window(g) == v
  {
    forall k | 0 <= k < |v|
      ensures Window(g)[k] == v[k]
    {
      SlotOfWrapped(h, k);
    }
  }

  lemma TailPosition(head: nat, tail: nat)
    requires head < U32 && tail < U32
    ensures (head + (tail - head) % U32) % MAX_MANAGERS == tail % MAX_MANAGERS
  {
  }

  lemma PositionsDiffer(head: nat, a: nat, b: nat)
    requires a < b < a + MAX_MANAGERS
    ensures (head + a) % MAX_MANAGERS != (head + b) % MAX_MANAGERS
  {
  }

  lemma WindowAt(g: Registry, k: nat)
    requires Wf(g) && k < |Window(g)|
    ensures Window(g)[k] == g.queue[(g.head + k) % MAX_MANAGERS]
  {
  }

  lemma LengthAfterJoin(head: nat, tail: nat)
    requires head < U32 && tail < U32 && (tail - head) % U32 < U32 - 1
    ensures ((tail + 1) % U32 - head) % U32 == (tail - head) % U32 + 1
  {
  }

  lemma JoinWindow(g: Registry, me: nat)
    requires Wf(g) && |Window(g)| < MAX_MANAGERS
    ensures Window(Join(g, me)) == Window(g) + [me]
  {
    hide Window;
    LengthAfterJoin(g.head, g.tail);
    var w, j := Window(g), Join(g, me);
    TailPosition(g.head, g.tail);
    forall k | 0 <= k < |w|
      ensures w[k] == j.queue[(g.head + k) % MAX_MANAGERS]
    {
      WindowAt(g, k);
      PositionsDiffer(g.head, k, |w|);
    }
    WindowIs(j, g.head, w + [me]);
  }

  lemma FullCell(g: Registry, me: nat, k: nat)
    requires Wf(g) && |Window(g)| == MAX_MANAGERS && k <= MAX_MANAGERS
    ensures ([me] + Window(g)[1..] + [me])[k] == Join(g, me).queue[(g.head + k) % MAX_MANAGERS]
  {
    hide Window;
    TailPosition(g.head, g.tail);
    if 0 < k < MAX_MANAGERS {
      WindowAt(g, k);
      PositionsDiffer(g.head, k, MAX_MANAGERS);
    }
  }

  /** A join on a full ring overwrites the front entry. */
  lemma JoinFullWindow(g: Registry, me: nat)
    requires Wf(g) && |Window(g)| == MAX_MANAGERS
    ensures Window(Join(g, me)) == [me] + Window(g)[1..] + [me]
  {
    hide Window, Join;
    LengthAfterJoin(g.head, g.tail);
    JoinKeepsHead(g, me);
    var v := [me] + Window(g)[1..] + [me];
    forall k | 0 <= k < |v|
      ensures v[k] == Join(g, me).queue[(g.head + k) % MAX_MANAGERS]
    {
      FullCell(g, me, k);
    }
    WindowIs(Join(g, me), g.head, v);
  }

  lemma JoinKeepsHead(g: Registry, me: nat)
    requires Wf(g)
    ensures Join(g, me).head == g.head && Join(g, me).tail == (g.tail + 1) % U32
  {
  }

  lemma {:induction false} DropInactiveIs(g: Registry, s: seq<nat>, d: nat)
    requires Wf(g) && d < |s| && Active(g, s[d])
    requires forall k :: 0 <= k < d ==> !Active(g, s[k])
    ensures DropInactive(g, s) == s[d..]
  {
    if d > 0 {
      DropInactiveIs(g, s[1..], d - 1);
    }
  }

  lemma CircleAt(g: Registry, k: nat)
    requires Wf(g) && k < |Circle(g)|
    ensures Circle(g)[k] == g.queue[(g.head + k) % MAX_MANAGERS]
  {
  }

  /** Of a longer queue it is some of the entries, the front one first. */
  lemma CircleWithinWindow(g: Registry)
    requires Wf(g) && Window(g) != []
    ensures |Circle(g)| == (|Window(g)| - 1) % MAX_MANAGERS + 1 <= |Window(g)|
    ensures forall k :: 0 <= k < |Circle(g)| ==> Circle(g)[k] == Window(g)[k]
  {
    hide Circle, Window;
    CircleLength(g.head, g.tail);
    forall k | 0 <= k < |Circle(g)|
      ensures Circle(g)[k] == Window(g)[k]
    {
      CircleAt(g, k);
      WindowAt(g, k);
    }
  }

  lemma CircleLength(head: nat, tail: nat)
    requires head < U32 && tail < U32 && head != tail
    ensures (tail - head - 1) % MAX_MANAGERS == ((tail - head) % U32 - 1) % MAX_MANAGERS <= (tail - head) % U32 - 1
  {
  }

  /** A registry whose head is `h` and whose ring holds `v` from there to the tail has the circle `v`. */
  lemma CircleIs(g: Registry, h: nat, v: seq<nat>)
    requires Wf(g) && g.head == h % U32 && |Circle(g)| == |v|
    requires forall k :: 0 <= k < |v| ==> v[k] == g.queue[(h + k) % MAX_MANAGERS]
    ensures Circle(g) == v
  {
    forall k | 0 <= k < |v|
      ensures Circle(g)[k] == v[k]
    {
      SlotOfWrapped(h, k);
    }
  }

  lemma CircleTail(head: nat, tail: nat)
    requires head < U32 && tail < U32
    ensures (head + ((tail - head - 1) % MAX_MANAGERS + 1)) % MAX_MANAGERS == tail % MAX_MANAGERS
  {
  }

  /** After the append, the ring holds the rest of the circle and the passing manager. */
  lemma JoinedRest(g: Registry, me: nat, k: nat)
    requires Wf(g) && k < |Circle(g)|
    ensures (Circle(g)[1..] + [me])[k] == Join(g, me).queue[(g.head + 1 + k) % MAX_MANAGERS]
  {
    hide Circle;
    CircleTail(g.head, g.tail);
    if k + 1 < |Circle(g)| {
      PositionsDiffer(g.head, k + 1, |Circle(g)|);
      CircleAt(g, k + 1);
    }
  }

  /** Where the pass stops: the first active entry of the rest of the circle. */
  lemma PassStops(g: Registry, me: nat) returns (d: nat)
    requires Wf(g) && Active(g, me)
    ensures d < |Circle(g)|
    ensures Scan(Join(g, me), g.head + 1, MAX_MANAGERS) == g.head + 1 + d
    ensures DropInactive(g, Circle(g)[1..] + [me]) == (Circle(g)[1..] + [me])[d..]
    ensures Active(g, (Circle(g)[1..] + [me])[d])
  {
    hide Circle;
    var j, v, n := Join(g, me), Circle(g)[1..] + [me], |Circle(g)|;
    var h := Scan(j, g.head + 1, MAX_MANAGERS);
    d := h - (g.head + 1);
    JoinedRest(g, me, n - 1);
    assert Active(j, j.queue[(g.head + 1 + (n - 1)) % MAX_MANAGERS]);
    JoinedRest(g, me, d);
    forall k | 0 <= k < d
      ensures !Active(g, v[k])
    {
      JoinedRest(g, me, k);
      assert !Active(j, j.queue[(g.head + 1 + k) % MAX_MANAGERS]);
    }
    DropInactiveIs(g, v, d);
  }

  /** The registry after a pass that stops `d` entries further than the next one. */
  ghost function Landed(g: Registry, me: nat, d: nat): Registry
    requires Wf(g)
  {
    var j := Join(g, me);
    j.(head := (g.head + 1 + d) % U32, owner := j.queue[(g.head + 1 + d) % MAX_MANAGERS])
  }

  lemma PassLands(g: Registry, me: nat, d: nat)
    requires Wf(g) && me < MAX_MANAGERS && d < MAX_MANAGERS
    requires Scan(Join(g, me), g.head + 1, MAX_MANAGERS) == g.head + 1 + d
    ensures Pass(g, me) == Landed(g, me, d)
  {
    hide Scan;
  }

  lemma LengthAfterPass(head: nat, tail: nat, d: nat)
    requires head < U32 && tail < U32
    requires d < (tail - head) % U32
    ensures ((tail + 1) % U32 - (head + 1 + d) % U32) % U32 == (tail - head) % U32 - d
  {
  }

  lemma CircleAfterPass(head: nat, tail: nat, d: nat)
    requires head < U32 && tail < U32
    requires d <= (tail - head - 1) % MAX_MANAGERS
    ensures ((tail + 1) % U32 - (head + 1 + d) % U32 - 1) % MAX_MANAGERS == (tail - head - 1) % MAX_MANAGERS - d
  {
  }

  lemma LandedCircle(g: Registry, me: nat, d: nat)
    requires Wf(g) && d < |Circle(g)| && Wf(Landed(g, me, d))
    ensures Circle(Landed(g, me, d)) == (Circle(g)[1..] + [me])[d..]
  {
    hide Circle;
    var v, p, h := Circle(g)[1..] + [me], Landed(g, me, d), g.head + 1 + d;
    forall k | 0 <= k < |v| - d
      ensures v[d..][k] == p.queue[(h + k) % MAX_MANAGERS]
    {
      JoinedRest(g, me, d + k);
      assert g.head + 1 + (d + k) == h + k;
    }
    CircleAfterPass(g.head, g.tail, d);
    CircleIs(p, h, v[d..]);
  }

  /** A pass refines a simple queue in every registry: the front entry of the circle leaves, the
      passing manager is appended, inactive entries at the front are skipped, and the new front owns
      the baton. */
  lemma PassCircle(g: Registry, me: nat)
    requires Wf(g) && Active(g, me)
    ensures var w := DropInactive(g, Circle(g)[1..] + [me]);
            var p := Pass(g, me);
            Circle(p) == w && w != [] && p.owner == w[0] && Active(p, p.owner) && p.slots == g.slots
  {
    hide Circle, Scan, Pass;
    var d := PassStops(g, me);
    PassLands(g, me, d);
    JoinedRest(g, me, d);
    LandedCircle(g, me, d);
  }

  /** With up to 64 entries, also when the ring is full and the append overwrites the entry that
      leaves, the circle is the queue before and after the pass. */
  lemma PassWindow(g: Registry, me: nat)
    requires Wf(g) && Active(g, me)
    requires 1 <= |Window(g)| <= MAX_MANAGERS
    ensures var w := DropInactive(g, Window(g)[1..] + [me]);
            var p := Pass(g, me);
            Window(p) == w && w != [] && p.owner == w[0] && Active(p, p.owner) && p.slots == g.slots
  {
    hide Circle, Window, Scan, Pass;
    CircleIsWindow(g);
    var d := PassStops(g, me);
    PassLands(g, me, d);
    LengthAfterPass(g.head, g.tail, d);
    PassCircle(g, me);
    CircleIsWindow(Pass(g, me));
  }

  /** A join appends to the circle, and when it is full leaves only the new entry of it. */
  lemma JoinCircle(g: Registry, me: nat)
    requires Wf(g)
    ensures Circle(Join(g, me)) == if |Circle(g)| < MAX_MANAGERS then Circle(g) + [me] else [me]
  {
    hide Circle;
    var w, j := Circle(g), Join(g, me);
    var v := if |w| < MAX_MANAGERS then w + [me] else [me];
    CircleTail(g.head, g.tail);
    CircleAfterJoin(g.head, g.tail);
    forall k | 0 <= k < |v|
      ensures v[k] == j.queue[(g.head + k) % MAX_MANAGERS]
    {
      if k + 1 < |v| {
        CircleAt(g, k);
        PositionsDiffer(g.head, k, |w|);
      } else {
        LastCell(g.head, |w|, k);
      }
    }
    CircleIs(j, g.head, v);
  }

  lemma LastCell(head: nat, n: nat, k: nat)
    requires 1 <= n <= MAX_MANAGERS && k == (if n < MAX_MANAGERS then n else 0)
    ensures (head + k) % MAX_MANAGERS == (head + n) % MAX_MANAGERS
  {
  }

  lemma CircleAfterJoin(head: nat, tail: nat)
    requires head < U32 && tail < U32
    ensures var n := (tail - head - 1) % MAX_MANAGERS;
            ((tail + 1) % U32 - head - 1) % MAX_MANAGERS == if n < MAX_MANAGERS - 1 then n + 1 else 0
  {
  }
}
