/** do_item_alloc as a whole: it keeps the invariants, and evicts as little as it can. */
module CacheAllocProofs {
  import opened Basics
  import opened Items
  import opened SizeClasses
  import opened SlabModel
  import opened SlabProofs
  import opened CacheModel
  import opened CacheInv
  import opened CacheAlloc
  import opened CacheEvict

  /** The pages that malloc grants during one allocation are new each time. */
  ghost predicate AnswersOk(c: Cache, ntotal: nat, id: nat, now: nat, ans: Answers) {
    && Granted(c, id, ans.grant1)
    && Granted(Stage2(c, ntotal, id, ans), id, ans.grant2)
    && Granted(Stage3(c, ntotal, id, now, ans), id, ans.grant3)
  }

  /** The cache before the second slabs_alloc, and before the third. */
  ghost function Stage2(c: Cache, ntotal: nat, id: nat, ans: Answers): (d: Cache)
    requires id < |c.slabs.classes|
    ensures id < |d.slabs.classes|
  {
    Evict(SlabsAlloc(c, ntotal, id, ans.grant1).0, id, ans.grow1)
  }

  ghost function Stage3(c: Cache, ntotal: nat, id: nat, now: nat, ans: Answers): (d: Cache)
    requires id < |c.slabs.classes|
    ensures id < |d.slabs.classes|
  {
    Repair(SlabsAlloc(Stage2(c, ntotal, id, ans), ntotal, id, ans.grant2).0, id, now, ans.grow2)
  }

  /** The free list of the class can take the first chunk that comes back to it: it has an array
      already, or realloc provides one. */
  predicate CanGrow(c: Cache, id: nat, ans: Answers) {
    id < |c.slabs.classes| && (c.slabs.classes[id].slTotal > 0 || (ans.grow1 && ans.grow2))
  }

  /** From c to d some items may have been unlinked and freed; nothing that is still in use has
      changed. */
  ghost predicate Stage(c: Cache, d: Cache, id: nat) {
    Using(c, d, id) && FreeStays(c, d, {})
  }

  /** Chunks that were free, are new, or have been evicted are free. */
  ghost predicate FreeStays(c: Cache, d: Cache, but: set<Ptr>) {
    forall x <- d.items :: x !in but && (x !in c.items || c.items[x].clsid == 0 || x in c.table - d.table) ==>
      d.items[x].clsid == 0
  }

  ghost predicate Using(c: Cache, d: Cache, id: nat) {
    && Inv(d) && d.table <= c.table && SameElsewhere(c.slabs, d.slabs, id)
    && (d.table == c.table ==> d.queues == c.queues)
    && (forall x <- c.items :: x in d.items)
    && (forall x <- c.items :: c.items[x].clsid != 0 && x !in c.table - d.table ==> d.items[x] == c.items[x])
  }

  lemma StageRefl(c: Cache, id: nat)
    requires Inv(c) && id < |c.slabs.classes|
    ensures Stage(c, c, id)
  {
    hide Inv;
  }

  lemma StageFail(c: Cache, d: Cache, e: Cache, id: nat)
    requires Stage(c, d, id) && Inv(e) && SameTable(d, e) && SameElsewhere(d.slabs, e.slabs, id)
    requires exists room :: Extends(d, e, room)
    ensures Stage(c, e, id)
  {
    hide Inv;
  }

  lemma StageRemove(c: Cache, d: Cache, d': Cache, e: Cache, id: nat, v: Ptr, grow: bool)
    requires Stage(c, d, id) && Inv(e) && v in d.items && d.items[v].clsid == id && id < |d.slabs.classes|
    requires d'.items.Keys == d.items.Keys && (forall x <- d.items :: x != v ==> d'.items[x] == d.items[x])
    requires d'.items[v].clsid == id && d'.slabs == d.slabs && d'.table == d.table
    requires Removed(d', e, v, grow)
    ensures Stage(c, e, id) && c.table - e.table == (c.table - d.table) + {v}
  {
    hide Inv, Without;
  }

  lemma StageTake(c: Cache, d: Cache, f: Cache, e: Cache, id: nat, p: Ptr, key: seq<byte>, nbytes: nat)
    requires Stage(c, d, id) && Allocated(d, f, e, p, id, key, nbytes) && SameElsewhere(d.slabs, f.slabs, id)
    ensures Using(c, e, id) && FreeStays(c, e, {p}) && e.table == d.table
    ensures p in c.items && c.items[p].clsid != 0 ==> p in c.table - d.table
  {
    hide Inv, FreshItem;
  }

  /** A class whose free list is not empty gives out the chunk that came back last. */
  lemma AllocPops(s: Slabs, size: nat, id: nat, g: Grant)
    requires 1 <= id < |s.classes| && s.classes[id].slots != []
    ensures Alloc(s, size, id, g).1 == Some(s.classes[id].slots[|s.classes[id].slots| - 1])
  {
  }

  /** Position i of a queue is what the first search finds: an idle item among the last 50, such that
      everything nearer the head was positioned at the same time or later, held or not, and everything
      nearer the tail is held. */
  ghost predicate LeastRecentAt(c: Cache, q: seq<Ptr>, i: nat)
    requires i < |q|
  {
    && (forall p <- q :: p in c.items)
    && c.items[q[i]].refcount == 0 && |q| <= i + 50
    && (forall j :: 0 <= j < i ==> c.items[q[j]].time >= c.items[q[i]].time)
    && (forall j :: i < j < |q| ==> c.items[q[j]].refcount > 0)
  }

  ghost predicate LeastRecent(c: Cache, id: nat, v: Ptr) {
    id < |c.queues| && exists i :: 0 <= i < |c.queues[id]| && c.queues[id][i] == v && LeastRecentAt(c, c.queues[id], i)
  }

  /** Who may be evicted. */
  ghost predicate Evictable(c: Cache, id: nat, v: Ptr, now: nat) {
    v in c.items && c.items[v].clsid == id && (LeastRecent(c, id, v) || Expired(c.items[v], now))
  }

  lemma EvictOrder(d: Cache, id: nat)
    requires Inv(d) && id < |d.queues| && QueueKnown(d, id)
    requires LastIdle(d.items, d.queues[id], SEARCH_ITEMS).Some?
    ensures LeastRecent(d, id, d.queues[id][LastIdle(d.items, d.queues[id], SEARCH_ITEMS).value])
  {
    hide Inv, LastIdle;
    LastIdleIs(d.items, d.queues[id], SEARCH_ITEMS);
    QueueSorted(d, id);
    assert LeastRecentAt(d, d.queues[id], LastIdle(d.items, d.queues[id], SEARCH_ITEMS).value);
  }

  lemma QueueSorted(d: Cache, id: nat)
    requires Inv(d) && id < |d.queues|
    ensures SortedQueue(d.items, d.queues[id])
  {
    hide SlabInv, Homes, Sized, Keys, Members;
  }

  /** What is true of an item of c's queue is true of it now, while nothing has been removed. */
  lemma LeastRecentThen(c: Cache, d: Cache, id: nat, v: Ptr)
    requires Inv(c) && Stage(c, d, id) && d.table == c.table && LeastRecent(d, id, v)
    ensures LeastRecent(c, id, v)
  {
    hide Inv, SameElsewhere;
    assert Inv(c);
    MembersLength(c);
    var q := c.queues[id];
    forall x <- q ensures x in c.items && x in d.items && c.items[x] == d.items[x] {
      QueueMember(c, id, x);
      StageItem(c, d, id, x);
    }
    var i :| 0 <= i < |q| && q[i] == v && LeastRecentAt(d, q, i);
    assert LeastRecentAt(c, q, i);
  }

  lemma QueueMember(c: Cache, id: nat, x: Ptr)
    requires Inv(c) && id < |c.queues| && x in c.queues[id]
    ensures x in c.table
  {
    hide SlabInv, Homes, Sized, Keys, Sorted, Distinct;
  }

  ghost predicate Progress(c: Cache, s: Cache, id: nat, now: nat) {
    && Stage(c, s, id) && (s.clock == c.clock || s.clock == now)
    && (forall v <- c.table - s.table :: Evictable(c, id, v, now))
  }

  /** A class that has nothing to give. */
  ghost predicate Empty(s: Slabs, id: nat) {
    1 <= id < |s.classes| && s.classes[id].slots == [] && s.classes[id].tail == []
  }

  /** A slabs_alloc that fails leaves the class empty and everything in use as it was. */
  lemma FailStage(c: Cache, d: Cache, ntotal: nat, id: nat, g: Grant)
    requires Stage(c, d, id) && 1 <= id && Granted(d, id, g) && SlabsAlloc(d, ntotal, id, g).1 == None
    ensures var e := SlabsAlloc(d, ntotal, id, g).0;
      && Stage(c, e, id) && Empty(d.slabs, id) && Empty(e.slabs, id) && e.table == d.table && e.clock == d.clock
      && e.slabs.classes[id].slTotal == d.slabs.classes[id].slTotal
  {
    hide Inv, SlabsAlloc, SameElsewhere, GrantOk;
    FailKeeps(d, ntotal, id, g);
    StageFail(c, d, SlabsAlloc(d, ntotal, id, g).0, id);
  }

  /** An item that is still linked is as it was. */
  lemma StageItem(c: Cache, d: Cache, id: nat, v: Ptr)
    requires Inv(c) && Stage(c, d, id) && v in d.table
    ensures v in c.table && v in c.items && v in d.items && d.items[v] == c.items[v]
  {
    TableLinked(c, v);
    hide Inv;
  }

  lemma EvictStage(c: Cache, d: Cache, id: nat, now: nat, grow: bool)
    requires Inv(c) && Stage(c, d, id) && d.table == c.table && d.clock == c.clock && Empty(d.slabs, id)
    ensures var s := Evict(d, id, grow);
      && Progress(c, s, id, now) && s.clock == c.clock && 1 <= id < |s.slabs.classes| && |c.table - s.table| <= 1
      && (grow || d.slabs.classes[id].slTotal > 0 ==> forall v <- c.table - s.table :: s.slabs.classes[id].slots == [v])
      && (c.table == s.table ==> s == d)
  {
    hide Inv, SameElsewhere, LastIdle, Without, Evict, Unlink;
    assert Inv(d);
    MembersLength(d);
    EvictKeeps(d, id, grow);
    var i := LastIdle(d.items, d.queues[id], SEARCH_ITEMS);
    if i.Some? {
      var v := d.queues[id][i.value];
      EvictOrder(d, id);
      EvictStageOne(c, d, Evict(d, id, grow), id, now, v, grow);
    }
  }

  lemma EvictStageOne(c: Cache, d: Cache, e: Cache, id: nat, now: nat, v: Ptr, grow: bool)
    requires Inv(c) && Stage(c, d, id) && d.table == c.table && d.clock == c.clock && Empty(d.slabs, id)
    requires Inv(e) && Removed(d, e, v, grow) && d.items[v].clsid == id && LeastRecent(d, id, v) && e.clock == d.clock
    ensures Progress(c, e, id, now) && e.clock == c.clock && id < |e.slabs.classes| && c.table - e.table == {v}
    ensures grow || d.slabs.classes[id].slTotal > 0 ==> e.slabs.classes[id].slots == [v]
  {
    hide Inv, Without, SameElsewhere, Stage;
    StageRemove(c, d, d, e, id, v, grow);
    StageItem(c, d, id, v);
    LeastRecentThen(c, d, id, v);
    RemovedSlots(d, e, v, grow);
    hide Removed, LeastRecent;
    assert c.table - e.table == {v};
  }

  lemma RemovedSlots(d: Cache, e: Cache, v: Ptr, grow: bool)
    requires Removed(d, e, v, grow) && Empty(d.slabs, d.items[v].clsid)
    ensures Known(d, v) && v in d.table && d.items[v].clsid < |e.slabs.classes|
    ensures grow || d.slabs.classes[d.items[v].clsid].slTotal > 0 ==> e.slabs.classes[d.items[v].clsid].slots == [v]
  {
    hide Without;
  }

  lemma MembersLength(c: Cache)
    requires Inv(c)
    ensures |c.queues| == POWER_LARGEST && 2 <= |c.slabs.classes| <= POWER_LARGEST && Config(c)
  {
    hide SlabInv, Homes, Sized, Keys, Sorted, Distinct;
    AtLeastTwo(c.slabs);
  }

  lemma AtLeastTwo(s: Slabs)
    requires SlabInv(s)
    ensures |s.classes| >= 2
  {
    hide ClassInv, Separate, Memory;
  }

  lemma RepairStage(c: Cache, d: Cache, id: nat, now: nat, grow: bool)
    requires Inv(c) && Progress(c, d, id, now) && d.clock == c.clock <= now && Empty(d.slabs, id)
    ensures var s := Repair(d, id, now, grow);
      && Progress(c, s, id, now) && 1 <= id < |s.slabs.classes|
      && (d.table == c.table ==> |c.table - s.table| <= 1)
      && (d.table == c.table && (grow || d.slabs.classes[id].slTotal > 0) ==>
            forall v <- c.table - s.table :: s.slabs.classes[id].slots == [v])
  {
    hide Inv, SameElsewhere, LastExpired, Without, Repair, Unlink, Expired;
    assert Inv(d);
    MembersLength(d);
    RepairKeeps(d, id, now, grow);
    var s := Repair(d, id, now, grow);
    var i := LastExpired(d.items, d.queues[id], SEARCH_ITEMS, now);
    if i == None {
      StageClock(c, d, s, id, now);
    } else {
      var v := d.queues[id][i.value];
      RepairStageOne(c, d, Zero(d.(clock := now), v), s, id, now, v, grow);
    }
  }

  lemma StageClock(c: Cache, d: Cache, s: Cache, id: nat, now: nat)
    requires Stage(c, d, id) && s == d.(clock := now) && Inv(s)
    ensures Stage(c, s, id)
  {
    hide Inv;
  }

  lemma RepairStageOne(c: Cache, d: Cache, d': Cache, e: Cache, id: nat, now: nat, v: Ptr, grow: bool)
    requires Inv(c) && Progress(c, d, id, now) && d.clock == c.clock && Empty(d.slabs, id)
    requires v in d.items && d' == Zero(d.(clock := now), v)
    requires Inv(e) && Removed(d', e, v, grow) && d.items[v].clsid == id && Expired(d.items[v], now) && e.clock == now
    ensures Progress(c, e, id, now) && id < |e.slabs.classes| && c.table - e.table == (c.table - d.table) + {v}
    ensures grow || d.slabs.classes[id].slTotal > 0 ==> e.slabs.classes[id].slots == [v]
  {
    hide Inv, Without, SameElsewhere, Stage, Expired;
    StageRemove(c, d, d', e, id, v, grow);
    RemovedSlots(d', e, v, grow);
    hide Removed;
    StageItem(c, d, id, v);
  }

  // ---------------------------------------------------------------- the whole of do_item_alloc

  /** Everything before the last slabs_alloc, made in state s, has removed at most one item, and the
      chunk of that item is what the class gives out next. */
  ghost predicate Ready(c: Cache, s: Cache, id: nat, now: nat, canGrow: bool) {
    && Progress(c, s, id, now) && id < |s.slabs.classes|
    && (c.table != s.table ==> Empty(c.slabs, id))
    && (canGrow && c.table != s.table ==>
          |s.slabs.classes[id].slots| == 1 && c.table - s.table == {s.slabs.classes[id].slots[0]})
  }

  lemma OneSlot(t: set<Ptr>, u: set<Ptr>, slots: seq<Ptr>)
    requires u <= t && |t - u| <= 1 && t != u && forall v <- t - u :: slots == [v]
    ensures |slots| == 1 && t - u == {slots[0]}
  {
    var v :| v in t - u;
    assert |t - u - {v}| == 0;
  }

  lemma StageInv(c: Cache, d: Cache, id: nat)
    requires Stage(c, d, id)
    ensures Inv(d) && |d.queues| == POWER_LARGEST && d.table <= c.table
  {
    MembersLength(d);
  }

  lemma SecondReady(c: Cache, c1: Cache, id: nat, now: nat, grow: bool)
    requires Inv(c) && Stage(c, c1, id) && c1.table == c.table && c1.clock == c.clock && Empty(c1.slabs, id)
    requires Empty(c.slabs, id)
    ensures var s := Evict(c1, id, grow);
      && Ready(c, s, id, now, grow || c1.slabs.classes[id].slTotal > 0) && s.clock == c.clock
      && (c.table == s.table ==> s == c1)
  {
    hide Inv, Stage, Evict, SameElsewhere;
    EvictStage(c, c1, id, now, grow);
    var s := Evict(c1, id, grow);
    StageInv(c, s, id);
    if s.table != c.table && (grow || c1.slabs.classes[id].slTotal > 0) {
      OneSlot(c.table, s.table, s.slabs.classes[id].slots);
    }
  }

  /** After a second failure, tail repair; if the first search removed an item there was no failure. */
  lemma ThirdReady(c: Cache, s: Cache, c3: Cache, id: nat, now: nat, canGrow: bool, grow: bool)
    requires Inv(c) && Ready(c, s, id, now, canGrow) && Empty(s.slabs, id) && c.clock <= now && Empty(c.slabs, id)
    requires Stage(c, c3, id) && c3.table == s.table && c3.clock == s.clock == c.clock && Empty(c3.slabs, id)
    requires canGrow ==> grow || c3.slabs.classes[id].slTotal > 0
    ensures Ready(c, Repair(c3, id, now, grow), id, now, canGrow)
  {
    hide Inv, Stage, Repair, SameElsewhere;
    RepairStage(c, c3, id, now, grow);
    var t := Repair(c3, id, now, grow);
    StageInv(c, t, id);
    if canGrow && t.table != c.table {
      OneSlot(c.table, t.table, t.slabs.classes[id].slots);
    }
  }

  /** Where the last slabs_alloc of an allocation was made, and what it was granted. */
  lemma AllocChunkStage(c: Cache, ntotal: nat, id: nat, now: nat, ans: Answers) returns (s: Cache, g: Grant)
    requires Inv(c) && c.clock <= now && 1 <= id && AnswersOk(c, ntotal, id, now, ans)
    ensures Ready(c, s, id, now, CanGrow(c, id, ans)) && Granted(s, id, g)
    ensures AllocChunk(c, ntotal, id, now, ans) == SlabsAlloc(s, ntotal, id, g)
  {
    hide Inv, Stage, SameElsewhere, GrantOk, SlabsAlloc, Evict, Repair;
    StageRefl(c, id);
    MembersLength(c);
    s, g := c, ans.grant1;
    var (c1, r1) := SlabsAlloc(c, ntotal, id, ans.grant1);
    if r1 == None {
      FailStage(c, c, ntotal, id, ans.grant1);
      StageInv(c, c1, id);
      if c1.queues[id] != [] {
        s, g := AllocAgain(c, c1, ntotal, id, now, ans);
      }
    }
  }

  lemma AllocAgain(c: Cache, c1: Cache, ntotal: nat, id: nat, now: nat, ans: Answers) returns (s: Cache, g: Grant)
    requires Inv(c) && c.clock <= now && 1 <= id && AnswersOk(c, ntotal, id, now, ans)
    requires SlabsAlloc(c, ntotal, id, ans.grant1) == (c1, None)
    requires Stage(c, c1, id) && c1.table == c.table && c1.clock == c.clock && Empty(c1.slabs, id) && Empty(c.slabs, id)
    requires c1.slabs.classes[id].slTotal == c.slabs.classes[id].slTotal
    ensures Ready(c, s, id, now, CanGrow(c, id, ans)) && Granted(s, id, g)
    ensures
      var c2 := Evict(c1, id, ans.grow1); var (c3, r3) := SlabsAlloc(c2, ntotal, id, ans.grant2);
      (if r3.Some? then (c3, r3) else SlabsAlloc(Repair(c3, id, now, ans.grow2), ntotal, id, ans.grant3))
        == SlabsAlloc(s, ntotal, id, g)
  {
    hide Inv, Stage, SameElsewhere, GrantOk, SlabsAlloc, Evict, Repair;
    SecondReady(c, c1, id, now, ans.grow1);
    s, g := Evict(c1, id, ans.grow1), ans.grant2;
    var (c3, r3) := SlabsAlloc(s, ntotal, id, g);
    if r3 == None {
      FailStage(c, s, ntotal, id, g);
      ThirdReady(c, s, c3, id, now, CanGrow(c, id, ans), ans.grow2);
      s, g := Repair(c3, id, now, ans.grow2), ans.grant3;
    }
  }

  /** The item do_item_alloc returns: held once, in no table, with the caller's key, the length of which is
      cut to 16 bits, in a chunk nobody else uses. */
  ghost predicate NewItem(c: Cache, e: Cache, p: Ptr, id: nat, key: seq<byte>, nbytes: nat) {
    && p in e.items && p !in e.table
    && (p in c.items && c.items[p].clsid != 0 ==> p in c.table - e.table)
    && NewHeader(e.items[p], id, key, nbytes)
  }

  ghost predicate NewHeader(it: Item, id: nat, key: seq<byte>, nbytes: nat) {
    && it.refcount == 1 && !it.linked && !it.slabbed && it.clsid == id && id != 0 && it.nbytes == nbytes
    && it.nkey == |key| % 0x1_0000 && |key| + nbytes <= |it.payload| && it.payload[..|key|] == key
  }

  /** What do_item_alloc guarantees: it evicts as little as possible, namely only from the requested class,
      only when that class had nothing left, only the least recently used idle item (or an expired one),
      at most one, and then the chunk that is returned is that item's.  Nothing else that is in use
      changes.  (Only when the class's free list has no array yet and realloc fails can an evicted chunk
      be lost; CacheExact says exactly what is evicted and returned.) */
  ghost predicate AllocEffect(
    c: Cache, key: seq<byte>, nbytes: nat, now: nat, ans: Answers, e: Cache, r: Option<Ptr>)
    requires |c.slabs.classes| >= 2
  {
    var id := ClassFor(ClassSizes(c.slabs), HEADER + |key| + nbytes);
    var removed := c.table - e.table;
    && (e.clock == c.clock || e.clock == now) && e.table <= c.table
    && (id == 0 ==> e == c && r == None)
    && (forall v <- removed :: Evictable(c, id, v, now))
    && (removed != {} ==> Empty(c.slabs, id))
    && (forall x <- c.items :: x in e.items && (c.items[x].clsid != 0 && x !in removed ==> e.items[x] == c.items[x]))
    && FreeStays(c, e, if r.Some? then {r.value} else {})
    && (r.Some? ==> NewItem(c, e, r.value, id, key, nbytes))
    && (id != 0 && CanGrow(c, id, ans) ==> removed == {} || (r.Some? && removed == {r.value}))
  }

  lemma LastAlloc(c: Cache, s: Cache, key: seq<byte>, nbytes: nat, id: nat, now: nat, g: Grant, canGrow: bool)
    requires Inv(c) && Ready(c, s, id, now, canGrow) && 1 <= id && Granted(s, id, g) && |key| < 0x1_0000
    requires id == ClassFor(ClassSizes(c.slabs), HEADER + |key| + nbytes)
    ensures
      var (d, r) := SlabsAlloc(s, HEADER + |key| + nbytes, id, g);
      var e := if r.Some? && r.value in d.items then Init(d, r.value, id, key, nbytes) else d;
      && (r.Some? ==> r.value in d.items && NewItem(c, e, r.value, id, key, nbytes))
      && Using(c, e, id) && FreeStays(c, e, if r.Some? then {r.value} else {})
      && e.table == s.table && e.clock == s.clock
      && (canGrow && c.table != s.table ==> r.Some? && c.table - s.table == {r.value})
  {
    hide Inv, SlabsAlloc, Evictable, Init;
    var (d, r) := SlabsAlloc(s, HEADER + |key| + nbytes, id, g);
    if r == None {
      FailStage(c, s, HEADER + |key| + nbytes, id, g);
    } else {
      SameClassSizes(c, s, id);
      ItemTakeKeeps(s, key, nbytes, id, g);
      var e := Init(d, r.value, id, key, nbytes);
      assert r.value in e.items by { InitKnows(d, r.value, id, key, nbytes); }
      assert s.table == e.table && r.value !in s.table;
      StageTake(c, s, d, e, id, r.value, key, nbytes);
      DataFits(e, r.value);
      FreshIsNew(e.items[r.value], d.items[r.value], id, key, nbytes);
    }
    if s.slabs.classes[id].slots != [] {
      SlabsAllocPops(s, HEADER + |key| + nbytes, id, g);
    }
  }

  lemma InitKnows(d: Cache, p: Ptr, id: nat, key: seq<byte>, nbytes: nat)
    requires p in d.items
    ensures p in Init(d, p, id, key, nbytes).items
  {
  }

  lemma DataFits(c: Cache, p: Ptr)
    requires Inv(c) && p in c.items && c.items[p].clsid != 0
    ensures c.items[p].nkey + c.items[p].nbytes <= |c.items[p].payload|
  {
    hide Homes, Members, Keys, Sorted, Config, LiveBut, ClassFor;
  }

  lemma FreshIsNew(it: Item, was: Item, id: nat, key: seq<byte>, nbytes: nat)
    requires FreshItem(it, was, id, key, nbytes) && id != 0 && |key| < 0x1_0000 && it.nkey + it.nbytes <= |it.payload|
    ensures NewHeader(it, id, key, nbytes)
  {
  }

  lemma SlabsAllocPops(s: Cache, size: nat, id: nat, g: Grant)
    requires 1 <= id < |s.slabs.classes| && s.slabs.classes[id].slots != []
    ensures SlabsAlloc(s, size, id, g).1 == Some(s.slabs.classes[id].slots[|s.slabs.classes[id].slots| - 1])
  {
    AllocPops(s.slabs, size, id, g);
  }

  lemma SameClassSizes(c: Cache, s: Cache, id: nat)
    requires SameElsewhere(c.slabs, s.slabs, id)
    ensures ClassSizes(s.slabs) == ClassSizes(c.slabs)
  {
  }

  lemma ShortKeyAlloc(c: Cache, key: seq<byte>, nbytes: nat, now: nat, ans: Answers)
    requires Inv(c) && c.clock <= now && |c.slabs.classes| >= 2 && |key| < 0x1_0000
    requires var id := ClassFor(ClassSizes(c.slabs), HEADER + |key| + nbytes);
      id != 0 ==> AnswersOk(c, HEADER + |key| + nbytes, id, now, ans)
    ensures var (e, r) := ItemAlloc(c, key, nbytes, now, ans);
      Inv(e) && AllocEffect(c, key, nbytes, now, ans, e, r)
  {
    hide Inv, SlabsAlloc, ClassFor, Evictable, AllocChunk, CanGrow, SameElsewhere;
    var ntotal := HEADER + |key| + nbytes;
    var id := ClassFor(ClassSizes(c.slabs), ntotal);
    if id != 0 {
      var s, g := AllocChunkStage(c, ntotal, id, now, ans);
      LastAlloc(c, s, key, nbytes, id, now, g, CanGrow(c, id, ans));
    }
  }

  /** Two caches after the same allocation, but for what was written into the chunk and its length. */
  ghost predicate SameButData(
    e: Cache, f: Cache, r: Option<Ptr>, key: seq<byte>, short: seq<byte>, nbytes: nat)
  {
    && f.table == e.table && f.clock == e.clock && f.items.Keys == e.items.Keys && (r == None ==> f == e)
    && (forall x <- e.items :: Some(x) != r ==> e.items[x] == f.items[x])
    && (r.Some? ==> r.value in e.items && exists b ::
          && f.items[r.value].payload == Overwrite(b, short)
          && e.items[r.value] == f.items[r.value].(payload := Overwrite(b, key), nbytes := nbytes))
  }

  /** A call with a key that is too long for the header does what a call with the key that the header
      records and the rest as data does, but for the data and its length. */
  lemma LongKeyAlloc(c: Cache, key: seq<byte>, nbytes: nat, now: nat, ans: Answers)
    requires |c.slabs.classes| >= 2
    ensures var n := |key| % 0x1_0000;
      var (e, r) := ItemAlloc(c, key, nbytes, now, ans);
      var (f, q) := ItemAlloc(c, key[..n], nbytes + |key| - n, now, ans);
      q == r && SameButData(e, f, r, key, key[..n], nbytes)
  {
    hide ClassFor, AllocChunk;
    var n := |key| % 0x1_0000;
    assert |key[..n]| % 0x1_0000 == n;
    var ntotal := HEADER + |key| + nbytes;
    var id := ClassFor(ClassSizes(c.slabs), ntotal);
    assert HEADER + |key[..n]| + (nbytes + |key| - n) == ntotal;
    if id != 0 {
      var (d, r) := AllocChunk(c, ntotal, id, now, ans);
      if r.Some? && r.value in d.items {
        var b := d.items[r.value].payload;
        assert Init(d, r.value, id, key[..n], nbytes + |key| - n).items[r.value].payload == Overwrite(b, key[..n]);
      }
    }
  }

  lemma SameEffect(
    c: Cache, key: seq<byte>, nbytes: nat, short: seq<byte>, rest: nat, now: nat, ans: Answers, e: Cache, f: Cache,
    r: Option<Ptr>)
    requires |c.slabs.classes| >= 2 && AllocEffect(c, short, rest, now, ans, f, r)
    requires |short| == |key| % 0x1_0000 < |key| && |short| + rest == |key| + nbytes
    requires SameButData(e, f, r, key, short, nbytes)
    ensures AllocEffect(c, key, nbytes, now, ans, e, r)
  {
    hide ClassFor, Evictable, CanGrow, Empty;
    assert HEADER + |short| + rest == HEADER + |key| + nbytes;
  }

  /** do_item_alloc does all that for keys of every length, and keeps every invariant if the key's length
      fits the header. */
  lemma ItemAllocCorrect(c: Cache, key: seq<byte>, nbytes: nat, now: nat, ans: Answers)
    requires Inv(c) && c.clock <= now && |c.slabs.classes| >= 2
    requires var id := ClassFor(ClassSizes(c.slabs), HEADER + |key| + nbytes);
      id != 0 ==> AnswersOk(c, HEADER + |key| + nbytes, id, now, ans)
    ensures var (e, r) := ItemAlloc(c, key, nbytes, now, ans);
      AllocEffect(c, key, nbytes, now, ans, e, r) && (|key| < 0x1_0000 ==> Inv(e))
  {
    hide Inv, ItemAlloc, ClassFor, Evictable, CanGrow, AnswersOk, AllocEffect, SameButData;
    if |key| < 0x1_0000 {
      ShortKeyAlloc(c, key, nbytes, now, ans);
    } else {
      var n := |key| % 0x1_0000;
      var rest := nbytes + |key| - n;
      assert HEADER + |key[..n]| + rest == HEADER + |key| + nbytes;
      ShortKeyAlloc(c, key[..n], rest, now, ans);
      LongKeyAlloc(c, key, nbytes, now, ans);
      var (e, r) := ItemAlloc(c, key, nbytes, now, ans);
      var (f, _) := ItemAlloc(c, key[..n], rest, now, ans);
      SameEffect(c, key, nbytes, key[..n], rest, now, ans, e, f, r);
    }
  }
}
