/**
  Runs of the cache under callers who give back what they hold.

  Beside the cache, a world records who holds what: for every item the times at which the references
  to it that are still held were obtained.  A step is one public operation, or time passing.  Tail
  repair revokes all references to the item it removes, and a revoked reference is not used again;
  CacheGuarantees shows that no reference is revoked before it is MAX_HOLD seconds old.
 */
module CacheRuns {
  import opened Basics
  import opened Items
  import opened SizeClasses
  import opened SlabModel
  import opened CacheModel
  import opened CacheInv
  import opened CacheOps
  import opened CacheEvict
  import opened CacheAllocProofs

  /** TAIL_REPAIR_TIME - ITEM_UPDATE_INTERVAL: 10740 seconds. */
  const MAX_HOLD: nat := TAIL_REPAIR_TIME - ITEM_UPDATE_INTERVAL

  datatype World = World(
    c: Cache,
    now: nat,
    held: map<Ptr, multiset<nat>>,   // the times at which the references still held were obtained
    last: map<Ptr, nat>)             // the time of the last get or store of an item

  datatype Op =
    | Tick(to: nat)
    | OpAlloc(key: seq<byte>, nbytes: nat, ans: Answers)
    | OpWrite(p: Ptr, data: seq<byte>)
    | OpGet(key: seq<byte>, found: Option<Ptr>)
    | OpRelease(p: Ptr, since: nat, grow: bool)
    | OpUnlink(p: Ptr, grow: bool)
    | OpStore(p: Ptr, found: Option<Ptr>, grow: bool)

  function Held(w: World, p: Ptr): multiset<nat> {
    if p in w.held then w.held[p] else multiset{}
  }

  /** 32-bit time does not wrap, in either direction, in what the operations compute. */
  predicate ClockOk(now: nat) {
    ITEM_UPDATE_INTERVAL <= now && now + TAIL_REPAIR_TIME < 0x1_0000_0000
  }

  /** Somebody holds a reference to p that is not too old. */
  ghost predicate HeldInTime(w: World, p: Ptr) {
    exists t :: t in Held(w, p) && w.now <= t + MAX_HOLD
  }

  /** No reference is held too long. */
  ghost predicate Timely(w: World) {
    forall p <- w.held, t <- w.held[p] :: w.now <= t + MAX_HOLD
  }

  ghost predicate AllocAllowed(w: World, key: seq<byte>, nbytes: nat, ans: Answers) {
    |w.c.slabs.classes| >= 2 && |key| < 0x1_0000 &&
    var id := ClassFor(ClassSizes(w.c.slabs), HEADER + |key| + nbytes);
    id != 0 ==> AnswersOk(w.c, HEADER + |key| + nbytes, id, w.now, ans)
  }

  ghost predicate WriteAllowed(w: World, p: Ptr, data: seq<byte>) {
    Held(w, p) != multiset{} && p in w.c.items && |data| == w.c.items[p].nbytes
    && w.c.items[p].nkey + |data| <= |w.c.items[p].payload|
    && (p in w.c.table ==> NotTaken(w.c, p, Written(w.c.items[p], data)))
  }

  ghost predicate GetAllowed(w: World, key: seq<byte>, found: Option<Ptr>) {
    FoundIn(w.c, found, Hash(key), key) && (found.Some? ==> Known(w.c, found.value) && |Held(w, found.value)| < 0xffff)
  }

  ghost predicate StoreAllowed(w: World, p: Ptr, found: Option<Ptr>) {
    Held(w, p) != multiset{} && Known(w.c, p) && w.c.items[p].nkey <= |w.c.items[p].payload| &&
    var c1, key := SetHash(w.c, p), w.c.items[p].Key();
    && Distinguishable(c1, p) && FoundIn(c1, found, Hash(key), key)
    && (found.Some? ==> Known(w.c, found.value) && |Held(w, found.value)| < 0xffff)
  }

  /** What an operation needs: callers use only what they hold, fewer than 65535 references to one item,
      and keys shorter than 65536 bytes; no item becomes indistinguishable from another one by what is
      stored or written; malloc is sane. */
  ghost predicate Allowed(w: World, op: Op) {
    match op
    case Tick(to) => w.now <= to && ClockOk(to)
    case OpAlloc(key, nbytes, ans) => AllocAllowed(w, key, nbytes, ans)
    case OpWrite(p, data) => WriteAllowed(w, p, data)
    case OpGet(key, found) => GetAllowed(w, key, found)
    case OpRelease(p, since, _) => since in Held(w, p) && Known(w.c, p)
    case OpUnlink(p, _) => Held(w, p) != multiset{} && Known(w.c, p)
    case OpStore(p, found, _) => StoreAllowed(w, p, found)
  }

  /** The caller fills in the data behind the key. */
  function Written(it: Item, data: seq<byte>): Item
    requires it.nkey + |data| <= |it.payload|
  {
    it.(payload := it.payload[..it.nkey] + data + it.payload[it.nkey + |data|..])
  }

  function WriteData(c: Cache, p: Ptr, data: seq<byte>): Cache
    requires p in c.items && c.items[p].nkey + |data| <= |c.items[p].payload|
  {
    Put(c, p, Written(c.items[p], data))
  }

  /** The references to what has been evicted are void. */
  ghost function AfterAlloc(w: World, e: Cache, r: Option<Ptr>): World {
    var held := w.held - (w.c.table - e.table);
    w.(c := e, held := if r == None then held else held[r.value := multiset{w.now}])
  }

  ghost function AfterGet(w: World, found: Option<Ptr>): World
    requires found.Some? ==> Known(w.c, found.value)
  {
    if found == None then w
    else
      var p := found.value;
      w.(c := Get(w.c, found, w.now), held := w.held[p := Held(w, p) + multiset{w.now}], last := w.last[p := w.now])
  }

  ghost function AfterStore(w: World, p: Ptr, found: Option<Ptr>, grow: bool): World
    requires Known(w.c, p) && w.c.items[p].nkey <= |w.c.items[p].payload| && (found.Some? ==> Known(w.c, found.value))
  {
    w.(c := Store(SetHash(w.c, p), p, found, w.now, grow), last := w.last[p := w.now])
  }

  ghost function Step(w: World, op: Op): World
    requires Allowed(w, op)
  {
    match op
    case Tick(to) => w.(now := to)
    case OpAlloc(key, nbytes, ans) => var (e, r) := ItemAlloc(w.c, key, nbytes, w.now, ans); AfterAlloc(w, e, r)
    case OpWrite(p, data) => w.(c := WriteData(w.c, p, data))
    case OpGet(key, found) => AfterGet(w, found)
    case OpRelease(p, since, grow) =>
      w.(c := Release(w.c, p, grow), held := w.held[p := Held(w, p) - multiset{since}])
    case OpUnlink(p, grow) => w.(c := Unlink(w.c, p, grow))
    case OpStore(p, found, grow) => AfterStore(w, p, found, grow)
  }

  // ---------------------------------------------------------------- the invariant

  /** The reference count of an item is the number of references that are held, and none of them is
      from the future. */
  ghost predicate Counted(refcount: nat, refs: multiset<nat>, now: nat) {
    refcount == |refs| && forall t <- refs :: t <= now
  }

  /** A stored item's time is at most 60 seconds behind its last use, and so at most 60 seconds behind
      the time any reference to it was obtained. */
  ghost predicate UpToDate(time: nat, refs: multiset<nat>, lastUse: nat, now: nat) {
    && time <= lastUse <= time + 60 && lastUse <= now
    && forall t <- refs :: t <= time + 60
  }

  ghost predicate ItemInv(w: World, p: Ptr)
    requires p in w.c.items
  {
    && Counted(w.c.items[p].refcount, Held(w, p), w.now)
    && (p in w.c.table ==> p in w.last && UpToDate(w.c.items[p].time, Held(w, p), w.last[p], w.now))
  }

  ghost predicate WorldInv(w: World) {
    && Inv(w.c) && w.c.clock <= w.now && ClockOk(w.now) && w.held.Keys <= w.c.items.Keys
    && forall p <- w.c.items :: ItemInv(w, p)
  }

  // ---------------------------------------------------------------- consequences

  /** Tail repair never applies to an item somebody holds in time. */
  lemma NotExpired(w: World, p: Ptr)
    requires WorldInv(w) && HeldInTime(w, p) && p in w.c.table && p in w.c.items
    ensures !Expired(w.c.items[p], w.now) && w.c.items[p].refcount > 0
  {
    hide Inv;
    assert ItemInv(w, p);
    var t :| t in Held(w, p) && w.now <= t + MAX_HOLD;
    assert t <= w.c.items[p].time + ITEM_UPDATE_INTERVAL;
  }

  lemma HeldIsLive(w: World, p: Ptr)
    requires WorldInv(w) && Held(w, p) != multiset{}
    ensures IsLive(w.c, p) && w.c.items[p].refcount == |Held(w, p)| > 0
  {
    assert p in w.held;
    assert ItemInv(w, p);
    LiveIs(w.c, p);
    hide Inv;
  }

  /** An item is out of the allocator exactly while it is stored or somebody holds it. */
  lemma LiveIs(c: Cache, p: Ptr)
    requires Inv(c) && p in c.items
    ensures c.items[p].clsid != 0 <==> p in c.table || c.items[p].refcount > 0
  {
    hide SlabInv, Homes, Sized, Keys, Sorted, Distinct;
  }

  // ---------------------------------------------------------------- each operation keeps the invariant

  lemma HeldCount(m: multiset<nat>, t: nat)
    ensures |m + multiset{t}| == |m| + 1
    ensures t in m ==> |m - multiset{t}| == |m| - 1
    ensures forall u <- m + multiset{t} :: u in m || u == t
    ensures forall u <- m - multiset{t} :: u in m
  {
    if t in m {
      assert m == (m - multiset{t}) + multiset{t};
    }
  }

  lemma InvCore(c: Cache)
    requires Inv(c)
    ensures Core(c)
  {
  }

  /** The 60-second rule. */
  function Repositioned(time: nat, now: nat): nat {
    if time < now - 60 then now else time
  }

  /** What a get does to the item it finds. */
  lemma GetEffect(c: Cache, p: Ptr, now: nat)
    requires Known(c, p) && c.items[p].linked && c.items[p].refcount < 0xffff && c.items[p].time <= now && ClockOk(now)
    ensures var d := Get(c, Some(p), now); var it := c.items[p];
      && d.table == c.table && d.clock == now && |d.queues| == |c.queues|
      && d.items == c.items[p := it.(refcount := it.refcount + 1, time := if it.time + 60 < now then now else it.time)]
  {
    hide Without;
  }

  /** A step that changes, as far as the invariant is concerned, only the item p. */
  ghost predicate OnlyTouches(w: World, v: World, p: Ptr) {
    && v.now == w.now && v.c.items.Keys == w.c.items.Keys && p in w.c.items && v.held.Keys <= w.held.Keys + {p}
    && (forall x <- w.c.items :: x != p ==> SameFor(w, v, x))
  }

  ghost predicate SameFor(w: World, v: World, x: Ptr)
    requires x in w.c.items && x in v.c.items
  {
    && Held(v, x) == Held(w, x) && v.c.items[x].refcount == w.c.items[x].refcount
    && (x in v.c.table ==> x in w.c.table && v.c.items[x].time == w.c.items[x].time)
    && (x in w.last ==> x in v.last && v.last[x] == w.last[x])
  }

  lemma TouchesTable(w: World, v: World, p: Ptr)
    requires p in w.c.items && v.now == w.now && v.c.items.Keys == w.c.items.Keys && v.held == w.held
    requires forall x <- w.c.items :: x != p ==>
      && v.c.items[x].refcount == w.c.items[x].refcount
      && (x in v.c.table ==> x in w.c.table && v.c.items[x].time == w.c.items[x].time)
    requires p in v.last && v.last == w.last[p := v.last[p]]
    ensures OnlyTouches(w, v, p)
  {
  }

  lemma Touches(w: World, v: World, p: Ptr)
    requires p in w.c.items && v.now == w.now && v.c.items.Keys == w.c.items.Keys
    requires forall x <- w.c.items :: x != p ==> v.c.items[x] == w.c.items[x]
    requires v.c.table <= w.c.table + {p}
    requires v.held == w.held || (p in v.held && v.held == w.held[p := v.held[p]])
    requires v.last == w.last || (p in v.last && v.last == w.last[p := v.last[p]])
    ensures OnlyTouches(w, v, p)
  {
  }

  lemma SameForKeeps(w: World, v: World, x: Ptr)
    requires x in w.c.items && x in v.c.items && v.now == w.now && ItemInv(w, x) && SameFor(w, v, x)
    ensures ItemInv(v, x)
  {
    hide Counted, UpToDate, Held;
  }

  lemma TouchKeeps(w: World, v: World, p: Ptr)
    requires WorldInv(w) && OnlyTouches(w, v, p) && Inv(v.c) && v.c.clock <= v.now && ItemInv(v, p)
    ensures WorldInv(v)
  {
    hide Inv, ItemInv, SameFor;
    forall x <- v.c.items ensures ItemInv(v, x) {
      if x != p {
        SameForKeeps(w, v, x);
      }
    }
  }

  lemma StepGet(w: World, op: Op)
    requires WorldInv(w) && Allowed(w, op) && op.OpGet?
    ensures WorldInv(Step(w, op))
  {
    hide Inv, Hash, Get, WorldInv;
    if op.found.Some? {
      GetOneKeeps(w, op.found.value, op.key);
    }
  }

  lemma GetOneKeeps(w: World, p: Ptr, key: seq<byte>)
    requires WorldInv(w) && GetAllowed(w, key, Some(p))
    ensures WorldInv(AfterGet(w, Some(p)))
  {
    hide Inv, Core, Hash, Get;
    assert ItemInv(w, p);
    InvCore(w.c);
    TableLinked(w.c, p);
    GetKeeps(w.c, Some(p), Hash(key), key, w.now);
    GetEffect(w.c, p, w.now);
    var v := AfterGet(w, Some(p));
    GetItem(w.c.items[p], v.c.items[p], Held(w, p), w.last[p], w.now);
    hide Counted, UpToDate, Known;
    assert Held(v, p) == Held(w, p) + multiset{w.now};
    Touches(w, v, p);
    hide OnlyTouches;
    TouchKeeps(w, v, p);
  }

  lemma GetItem(it: Item, it': Item, refs: multiset<nat>, lastUse: nat, now: nat)
    requires ClockOk(now) && Counted(it.refcount, refs, now) && UpToDate(it.time, refs, lastUse, now)
    requires it'.refcount == it.refcount + 1 && it'.time == Repositioned(it.time, now)
    ensures Counted(it'.refcount, refs + multiset{now}, now) && UpToDate(it'.time, refs + multiset{now}, now, now)
  {
    HeldCount(refs, now);
  }

  /** What a release does. */
  lemma ReleaseEffect(c: Cache, p: Ptr, grow: bool)
    requires Known(c, p) && c.items[p].refcount > 0
    ensures var d := Release(c, p, grow);
      && d.table == c.table && d.clock == c.clock && d.items.Keys == c.items.Keys
      && (forall x <- c.items :: x != p ==> d.items[x] == c.items[x])
      && d.items[p].refcount == c.items[p].refcount - 1 && d.items[p].time == c.items[p].time
      && d.items[p].nkey == c.items[p].nkey && d.items[p].nbytes == c.items[p].nbytes
      && d.items[p].payload == c.items[p].payload
      && (d.items[p].clsid != c.items[p].clsid ==> d.items[p].refcount == 0)
  {
    hide Free;
  }

  lemma ReleaseItem(it: Item, refs: multiset<nat>, since: nat, lastUse: nat, now: nat)
    requires Counted(it.refcount, refs, now) && since in refs
    ensures it.refcount > 0 && Counted(it.refcount - 1, refs - multiset{since}, now)
    ensures UpToDate(it.time, refs, lastUse, now) ==> UpToDate(it.time, refs - multiset{since}, lastUse, now)
  {
    HeldCount(refs, since);
  }

  lemma StepRelease(w: World, op: Op)
    requires WorldInv(w) && Allowed(w, op) && op.OpRelease?
    ensures WorldInv(Step(w, op))
  {
    hide Inv, Release, ItemInv, OnlyTouches;
    HeldIsLive(w, op.p);
    ReleaseKeeps(w.c, op.p, op.grow);
    ReleaseEffect(w.c, op.p, op.grow);
    ReleasedItem(w, op.p, op.since, Release(w.c, op.p, op.grow));
    TouchKeeps(w, Step(w, op), op.p);
  }

  lemma ReleasedItem(w: World, p: Ptr, since: nat, d: Cache)
    requires p in w.c.items && ItemInv(w, p) && since in Held(w, p)
    requires d.table == w.c.table && d.items.Keys == w.c.items.Keys && d.items[p].time == w.c.items[p].time
    requires d.items[p].refcount == w.c.items[p].refcount - 1
    requires forall x <- w.c.items :: x != p ==> d.items[x] == w.c.items[x]
    ensures var v := w.(c := d, held := w.held[p := Held(w, p) - multiset{since}]);
      OnlyTouches(w, v, p) && ItemInv(v, p)
  {
    hide Counted, UpToDate, OnlyTouches;
    var v := w.(c := d, held := w.held[p := Held(w, p) - multiset{since}]);
    assert Held(v, p) == Held(w, p) - multiset{since};
    ReleaseItem(w.c.items[p], Held(w, p), since, if p in w.last then w.last[p] else 0, w.now);
    Touches(w, v, p);
  }

  /** Unlinking an item that is held only takes it out of the table. */
  lemma UnlinkEffect(c: Cache, p: Ptr, grow: bool)
    requires Known(c, p) && c.items[p].refcount > 0 && (p in c.table <==> c.items[p].linked)
    ensures var d := Unlink(c, p, grow);
      d.table == c.table - {p} && d.clock == c.clock && d.items == c.items[p := c.items[p].(linked := false)]
  {
    hide Without;
  }

  lemma StepUnlink(w: World, op: Op)
    requires WorldInv(w) && Allowed(w, op) && op.OpUnlink?
    ensures WorldInv(Step(w, op))
  {
    hide Core, LiveBut;
    HeldIsLive(w, op.p);
    UnlinkKeeps(w.c, op.p, op.grow);
    InvCore(w.c);
    LiveKnown(w.c, op.p);
    UnlinkEffect(w.c, op.p, op.grow);
    hide Inv, Unlink, Counted, UpToDate, Known;
    assert ItemInv(w, op.p);
    Touches(w, Step(w, op), op.p);
    hide OnlyTouches;
    TouchKeeps(w, Step(w, op), op.p);
  }

  /** Writing data keeps the invariants exactly if it does not make a stored item be taken for another. */
  lemma WriteKeeps(c: Cache, p: Ptr, data: seq<byte>)
    requires Inv(c) && IsLive(c, p) && c.items[p].nkey + |data| <= |c.items[p].payload|
    ensures Inv(WriteData(c, p, data)) <==> (p in c.table ==> NotTaken(c, p, Written(c.items[p], data)))
  {
    hide Homes, Members, Keys, Sorted, Config, Sized, NotTaken, LiveBut;
    LiveKnown(c, p);
    var d := WriteData(c, p, data);
    assert d.items[p].payload[..c.items[p].nkey] == c.items[p].payload[..c.items[p].nkey];
    if p in c.table ==> NotTaken(c, p, Written(c.items[p], data)) {
      PutKeeps(c, p, d.items[p]);
      WriteLive(c, p, data);
    } else if Inv(d) {
      WrittenApart(c, p, data);
    }
  }

  lemma WriteLive(c: Cache, p: Ptr, data: seq<byte>)
    requires p in c.items && c.items[p].nkey + |data| <= |c.items[p].payload|
    requires LiveBut(c, {})
    ensures LiveBut(WriteData(c, p, data), {})
  {
  }

  lemma WrittenApart(c: Cache, p: Ptr, data: seq<byte>)
    requires p in c.items && c.items[p].nkey + |data| <= |c.items[p].payload| && p in c.table
    requires Keys(WriteData(c, p, data))
    ensures NotTaken(c, p, Written(c.items[p], data))
  {
    hide Hash, StopsAt, Keys;
    var d := WriteData(c, p, data);
    forall q <- c.table | q in c.items && q != p ensures !StopsAt(c.items[q], Written(c.items[p], data)) {
      KeysApart(d, p, q);
    }
  }

  lemma StepWrite(w: World, op: Op)
    requires WorldInv(w) && Allowed(w, op) && op.OpWrite?
    ensures WorldInv(Step(w, op))
  {
    hide Inv, Counted, UpToDate;
    HeldIsLive(w, op.p);
    WriteKeeps(w.c, op.p, op.data);
    assert ItemInv(w, op.p);
    Touches(w, Step(w, op), op.p);
    hide OnlyTouches;
    TouchKeeps(w, Step(w, op), op.p);
  }

  /** What is left of a store after the get of the item that it replaces. */
  lemma ReplaceEffect(c: Cache, p: Ptr, o: Ptr, now: nat, grow: bool)
    requires Known(c, p) && Known(c, o) && o in c.table && c.items[o].linked && c.items[o].refcount > 0
    ensures Known(Unlink(c, o, grow), p) && Known(Link(Unlink(c, o, grow), p, now), o)
    ensures var d := Release(Link(Unlink(c, o, grow), p, now), o, grow); var n := c.items[o].refcount - 1;
      && d.table == c.table - {o} + {p} && d.clock == now && d.items.Keys == c.items.Keys && |d.queues| == |c.queues|
      && d.queues[c.items[p].clsid] != [] && d.queues[c.items[p].clsid][0] == p
      && (forall x <- c.items :: x != p && x != o ==> d.items[x] == c.items[x])
      && d.items[p] == c.items[p].(linked := true, time := now, refcount := d.items[p].refcount)
      && d.items[p].refcount == (if p == o then n else c.items[p].refcount)
      && (p != o ==>
            d.items[o] == if n == 0 then c.items[o].(refcount := 0, linked := false, clsid := 0, slabbed := true)
                          else c.items[o].(refcount := n, linked := false))
  {
    hide Free, Without;
  }

  lemma LinkEffect(c: Cache, p: Ptr, now: nat, grow: bool)
    requires Known(c, p)
    ensures var d := Store(c, p, None, now, grow);
      && d.table == c.table + {p} && d.clock == now && |d.queues| == |c.queues|
      && d.queues[c.items[p].clsid] == [p] + c.queues[c.items[p].clsid]
      && d.items == c.items[p := c.items[p].(linked := true, time := now)]
  {
  }

  lemma StoreIsReplace(c: Cache, p: Ptr, o: Ptr, now: nat, grow: bool)
    requires Known(c, p) && Known(c, o) && Known(Get(c, Some(o), now), o)
    requires Known(Unlink(Get(c, Some(o), now), o, grow), p)
    requires Known(Link(Unlink(Get(c, Some(o), now), o, grow), p, now), o)
    ensures Store(c, p, Some(o), now, grow) == Release(Link(Unlink(Get(c, Some(o), now), o, grow), p, now), o, grow)
  {
    hide Get, Unlink, Link, Release, Known;
  }

  /** What a store does: the item is in the table with the current time, the one it replaces is not,
      and everybody's references are counted as before. */
  lemma StoreEffect(c: Cache, p: Ptr, found: Option<Ptr>, now: nat, grow: bool)
    requires Known(c, p) && (p in c.table <==> c.items[p].linked) && c.items[p].refcount > 0
    requires found.Some? ==>
      && Known(c, found.value) && found.value in c.table
      && c.items[found.value].linked && c.items[found.value].refcount < 0xffff
    requires found.Some? ==> c.items[found.value].time <= now && ClockOk(now)
    requires found == None ==> p !in c.table
    ensures var d := Store(c, p, found, now, grow);
      && d.table == (if found == None then c.table else c.table - {found.value}) + {p}
      && d.clock == now && d.items.Keys == c.items.Keys
      && (forall x <- c.items :: x != p && Some(x) != found ==> d.items[x] == c.items[x])
      && (forall x <- c.items ::
            && d.items[x].refcount == c.items[x].refcount && d.items[x].nkey == c.items[x].nkey
            && d.items[x].nbytes == c.items[x].nbytes && d.items[x].payload == c.items[x].payload)
      && d.items[p].time == now && d.items[p].clsid == c.items[p].clsid && d.items[p].linked
      && |d.queues| == |c.queues| && d.queues[c.items[p].clsid] != [] && d.queues[c.items[p].clsid][0] == p
      && (found.Some? && found.value != p ==>
            d.items[found.value].clsid == if c.items[found.value].refcount == 0 then 0 else c.items[found.value].clsid)
  {
    hide Get, Unlink, Link, Release, Store;
    if found == None {
      LinkEffect(c, p, now, grow);
    } else {
      GetEffect(c, found.value, now);
      ReplaceEffect(Get(c, found, now), p, found.value, now, grow);
      StoreIsReplace(c, p, found.value, now, grow);
    }
  }

  /** A get keeps the count of references exact exactly if fewer than 65535 are held: the next one makes
      the 16-bit count 0. */
  lemma GetCountsExactly(w: World, key: seq<byte>, p: Ptr)
    requires WorldInv(w) && FoundIn(w.c, Some(p), Hash(key), key) && Known(w.c, p)
    ensures WorldInv(AfterGet(w, Some(p))) <==> |Held(w, p)| < 0xffff
  {
    hide Inv, Hash, Get, FoundIn;
    if |Held(w, p)| < 0xffff {
      GetOneKeeps(w, p, key);
    } else {
      FoundLive(w.c, p, Hash(key), key);
      StoreLive(w.c, p);
      GetOnly(w.c, p, w.now);
      assert ItemInv(w, p);
      HeldCount(Held(w, p), w.now);
      assert !ItemInv(AfterGet(w, Some(p)), p);
    }
  }

  /** At 65535 references the store that replaces an item frees it although all of them are still held.
      The invariants of the cache itself survive. */
  lemma FullCountIsFreed(w: World, p: Ptr, o: Ptr, grow: bool)
    requires WorldInv(w) && Held(w, p) != multiset{} && Known(w.c, p) && w.c.items[p].nkey <= |w.c.items[p].payload|
    requires Distinguishable(SetHash(w.c, p), p) && p != o && Known(w.c, o) && |Held(w, o)| == 0xffff
    requires FoundIn(SetHash(w.c, p), Some(o), Hash(w.c.items[p].Key()), w.c.items[p].Key())
    ensures var v := AfterStore(w, p, Some(o), grow);
      && Inv(v.c) && o in v.c.items && o !in v.c.table && v.c.items[o].clsid == 0 && |Held(v, o)| == 0xffff
      && !WorldInv(v)
  {
    hide Inv, Core, Hash, LiveBut, Distinguishable, FoundIn, Store;
    HeldIsLive(w, p);
    SetHashKeeps(w.c, p);
    var c := SetHash(w.c, p);
    assert c.items[p].Key() == w.c.items[p].Key();
    FoundLive(c, o, c.items[p].hv, c.items[p].Key());
    StoreKeeps(c, p, Some(o), w.now, grow);
    assert ItemInv(w, o);
    StoreAtFullCount(c, p, o, w.now, grow);
    assert !ItemInv(AfterStore(w, p, Some(o), grow), o);
  }

  lemma StoreAtFullCount(c: Cache, p: Ptr, o: Ptr, now: nat, grow: bool)
    requires Known(c, p) && Known(c, o) && o in c.table && c.items[o].linked && p != o && c.items[o].refcount == 0xffff
    ensures var d := Store(c, p, Some(o), now, grow);
      o in d.items && d.items[o].clsid == 0 && d.items[o].refcount == 0 && o !in d.table
  {
    hide Free, Without;
  }

  lemma StepStore(w: World, op: Op)
    requires WorldInv(w) && Allowed(w, op) && op.OpStore?
    ensures WorldInv(Step(w, op))
  {
    hide Inv, WorldInv;
    StoreStepKeeps(w, op.p, op.found, op.grow);
  }

  /** The cache as do_store_item finds it, the hash value having been set. */
  lemma BeforeStore(w: World, p: Ptr, found: Option<Ptr>)
    requires WorldInv(w) && StoreAllowed(w, p, found)
    ensures
      var c := SetHash(w.c, p);
      && Inv(c) && IsLive(c, p) && c.items[p].refcount > 0 && c.clock <= w.now && Known(c, p)
      && c.items[p].nkey <= |c.items[p].payload| && c.items[p].hv == Hash(c.items[p].Key())
      && c.items[p].Key() == w.c.items[p].Key() && (p in c.table <==> c.items[p].linked)
      && (found == None ==> p !in c.table)
      && (found.Some? ==>
            Known(c, found.value) && found.value in c.table && c.items[found.value].linked
            && c.items[found.value].refcount < 0xffff && c.items[found.value].time <= w.now)
  {
    hide Inv, Core, Hash, LiveBut, Distinguishable;
    HeldIsLive(w, p);
    SetHashKeeps(w.c, p);
    var c := SetHash(w.c, p);
    InvCore(c);
    LiveKnown(c, p);
    if found == None {
      NoneIsFree(c, p);
    }
    if found.Some? {
      var o := found.value;
      TableLinked(c, o);
      assert ItemInv(w, o);
    }
  }

  lemma StoreTouches(w: World, p: Ptr, found: Option<Ptr>, grow: bool)
    requires WorldInv(w) && StoreAllowed(w, p, found)
    ensures var v := AfterStore(w, p, found, grow);
      && Inv(v.c) && v.c.clock == w.now && OnlyTouches(w, v, p) && p in v.c.table
      && v.c.items[p].refcount == w.c.items[p].refcount && v.c.items[p].time == w.now
  {
    hide Inv, Core, Hash, LiveBut, Store, ItemInv;
    BeforeStore(w, p, found);
    var c := SetHash(w.c, p);
    StoreKeeps(c, p, found, w.now, grow);
    StoreEffect(c, p, found, w.now, grow);
    hide Distinguishable, FoundIn, Known;
    TouchesTable(w, AfterStore(w, p, found, grow), p);
  }

  lemma StoreStepKeeps(w: World, p: Ptr, found: Option<Ptr>, grow: bool)
    requires WorldInv(w) && StoreAllowed(w, p, found)
    ensures WorldInv(AfterStore(w, p, found, grow))
  {
    hide Inv, Hash, Store, UpToDate, OnlyTouches, Counted, Distinguishable, FoundIn;
    StoreTouches(w, p, found, grow);
    var v := AfterStore(w, p, found, grow);
    assert ItemInv(w, p);
    StoredIsUpToDate(Held(w, p), w.c.items[p].refcount, w.now);
    assert Held(v, p) == Held(w, p);
    TouchKeeps(w, v, p);
  }

  lemma StoredIsUpToDate(refs: multiset<nat>, refcount: nat, now: nat)
    requires Counted(refcount, refs, now)
    ensures UpToDate(now, refs, now, now)
  {
  }

  // ---------------------------------------------------------------- allocation

  lemma FreeIsUnused(c: Cache, p: Ptr)
    requires Inv(c) && p in c.items && c.items[p].clsid == 0
    ensures p !in c.table && c.items[p].refcount == 0
  {
    LiveIs(c, p);
    hide Inv;
  }

  lemma NoReferences(w: World, x: Ptr)
    requires WorldInv(w) && (x in w.c.items ==> w.c.items[x].refcount == 0)
    ensures Held(w, x) == multiset{}
  {
    hide Inv, UpToDate;
    if x in w.c.items {
      assert ItemInv(w, x);
    }
  }

  lemma NewItemIs(c: Cache, e: Cache, p: Ptr, id: nat, key: seq<byte>, nbytes: nat)
    requires NewItem(c, e, p, id, key, nbytes)
    ensures p in e.items && p !in e.table && e.items[p].refcount == 1
  {
  }

  lemma StaysFree(c: Cache, d: Cache, but: set<Ptr>, x: Ptr)
    requires FreeStays(c, d, but) && x in d.items && x !in but
    requires x !in c.items || c.items[x].clsid == 0 || x in c.table - d.table
    ensures d.items[x].clsid == 0
  {
  }

  lemma AllocItemKeeps(
    w: World, key: seq<byte>, nbytes: nat, ans: Answers, e: Cache, r: Option<Ptr>, x: Ptr)
    requires WorldInv(w) && |w.c.slabs.classes| >= 2 && x in e.items
    requires Inv(e) && AllocEffect(w.c, key, nbytes, w.now, ans, e, r)
    ensures ItemInv(AfterAlloc(w, e, r), x)
  {
    hide Inv, ClassFor, UpToDate, Evictable, Empty, CanGrow, FreeStays, NewItem;
    if Some(x) == r {
      NewItemIs(w.c, e, x, ClassFor(ClassSizes(w.c.slabs), HEADER + |key| + nbytes), key, nbytes);
    } else if x !in w.c.items || w.c.items[x].clsid == 0 || x in w.c.table - e.table {
      StaysFree(w.c, e, if r.Some? then {r.value} else {}, x);
      FreeIsUnused(e, x);
      if x in w.c.items && w.c.items[x].clsid == 0 {
        FreeIsUnused(w.c, x);
      }
      if x !in w.c.table - e.table {
        NoReferences(w, x);
      }
    } else {
      assert ItemInv(w, x);
    }
  }

  lemma StepAlloc(w: World, op: Op)
    requires WorldInv(w) && Allowed(w, op) && op.OpAlloc?
    ensures WorldInv(Step(w, op))
  {
    hide Inv, ItemAlloc, AnswersOk, ClassFor, ItemInv, Evictable, FreeStays, NewHeader;
    ItemAllocCorrect(w.c, op.key, op.nbytes, w.now, op.ans);
    var (e, r) := ItemAlloc(w.c, op.key, op.nbytes, w.now, op.ans);
    forall x <- e.items ensures ItemInv(AfterAlloc(w, e, r), x) {
      AllocItemKeeps(w, op.key, op.nbytes, op.ans, e, r, x);
    }
  }

  lemma StepTick(w: World, op: Op)
    requires WorldInv(w) && Allowed(w, op) && op.Tick?
    ensures WorldInv(Step(w, op))
  {
    hide Inv;
    forall x <- w.c.items ensures ItemInv(Step(w, op), x) {
      assert ItemInv(w, x);
    }
  }

  /** Every operation keeps the world invariant. */
  lemma StepKeeps(w: World, op: Op)
    requires WorldInv(w) && Allowed(w, op)
    ensures WorldInv(Step(w, op))
  {
    hide WorldInv, Allowed, Step;
    match op
    case Tick(_) => StepTick(w, op);
    case OpAlloc(_, _, _) => StepAlloc(w, op);
    case OpWrite(_, _) => StepWrite(w, op);
    case OpGet(_, _) => StepGet(w, op);
    case OpRelease(_, _, _) => StepRelease(w, op);
    case OpUnlink(_, _) => StepUnlink(w, op);
    case OpStore(_, _, _) => StepStore(w, op);
  }
}
