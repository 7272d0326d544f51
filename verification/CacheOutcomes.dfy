/** What do_item_alloc comes to, in plain terms and numbers: which chunk it returns, and when it returns
    none. */
module CacheOutcomes {
  import opened Basics
  import opened Items
  import opened SizeClasses
  import opened SlabModel
  import opened CacheModel
  import opened CacheInv
  import opened CacheAllocProofs
  import opened CacheEvict
  import opened CacheExact

  /** A call that finds a class. */
  ghost predicate Call(c: Cache, key: seq<byte>, nbytes: nat, id: nat, now: nat, ans: Answers) {
    && Inv(c) && c.clock <= now && |c.slabs.classes| >= 2 && 0 < id < |c.queues|
    && id == ClassFor(ClassSizes(c.slabs), 48 + |key| + nbytes) && AnswersOk(c, 48 + |key| + nbytes, id, now, ans)
  }

  lemma CallIs(c: Cache, key: seq<byte>, nbytes: nat, id: nat, now: nat, ans: Answers)
    requires Call(c, key, nbytes, id, now, ans)
    ensures id == ClassFor(ClassSizes(c.slabs), 48 + |key| + nbytes)
    ensures 0 < id < |c.slabs.classes| && 0 < id < |c.queues| && forall p <- c.queues[id] :: p in c.items
    ensures var (e, r) := ItemAlloc(c, key, nbytes, now, ans); Outcome(c, id, now, ans, e, r)
  {
    hide Inv, ItemAlloc, AnswersOk, ClassFor, Outcome;
    ItemAllocExactly(c, key, nbytes, now, ans);
    InvMembers(c);
    QueueIsKnown(c, id);
  }

  lemma InvMembers(c: Cache)
    requires Inv(c)
    ensures Members(c)
  {
    hide Homes, Sized, Keys, Sorted, Config, LiveBut, Members;
  }

  // ---------------------------------------------------------------- the searches

  /** Of the last 50 items of q, it is the one nearest to the tail that nobody holds, or null if all are
      held. */
  ghost predicate NearestIdle(items: map<Ptr, Item>, q: seq<Ptr>, it: HashItem?) {
    && (forall p <- q :: p in items)
    && if it == null then forall j :: 0 <= j < |q| <= j + 50 ==> items[q[j]].refcount != 0
       else
         exists i ::
           && 0 <= i < |q| <= i + 50 && q[i] == it && items[q[i]].refcount == 0
           && forall j :: i < j < |q| ==> items[q[j]].refcount != 0
  }

  /** The same for an item that is held and was positioned more than 10800 seconds ago. */
  ghost predicate NearestExpired(items: map<Ptr, Item>, q: seq<Ptr>, now: nat, it: HashItem?) {
    && (forall p <- q :: p in items)
    && if it == null then
         forall j :: 0 <= j < |q| <= j + 50 ==>
           items[q[j]].refcount == 0 || (items[q[j]].time + 10800) % 0x1_0000_0000 >= now
       else
         exists i ::
           && 0 <= i < |q| <= i + 50 && q[i] == it
           && items[q[i]].refcount != 0 && (items[q[i]].time + 10800) % 0x1_0000_0000 < now
           && forall j :: i < j < |q| ==>
                items[q[j]].refcount == 0 || (items[q[j]].time + 10800) % 0x1_0000_0000 >= now
  }

  lemma IdleIsNearest(items: map<Ptr, Item>, q: seq<Ptr>)
    requires forall p <- q :: p in items
    ensures var i := LastIdle(items, q, SEARCH_ITEMS); NearestIdle(items, q, if i == None then null else q[i.value])
  {
    LastIdleIs(items, q, 50);
  }

  lemma ExpiredIsNearest(items: map<Ptr, Item>, q: seq<Ptr>, now: nat)
    requires forall p <- q :: p in items
    ensures var i := LastExpired(items, q, SEARCH_ITEMS, now);
      NearestExpired(items, q, now, if i == None then null else q[i.value])
  {
    LastExpiredIs(items, q, 50, now);
  }

  lemma IdleIs(items: map<Ptr, Item>, q: seq<Ptr>, it: HashItem?)
    requires NearestIdle(items, q, it)
    ensures IdleIn(items, q) == if it == null then None else Some(it)
  {
    LastIdleIs(items, q, 50);
  }

  lemma ExpiredIs(items: map<Ptr, Item>, q: seq<Ptr>, now: nat, it: HashItem?)
    requires NearestExpired(items, q, now, it)
    ensures ExpiredIn(items, q, now) == if it == null then None else Some(it)
  {
    LastExpiredIs(items, q, 50, now);
  }

  // ---------------------------------------------------------------- the outcomes

  /** A class that has a chunk gives it, the one that came back last first, and nothing is evicted. */
  lemma ChunkServes(c: Cache, key: seq<byte>, nbytes: nat, id: nat, now: nat, ans: Answers)
    requires Call(c, key, nbytes, id, now, ans)
    requires c.slabs.classes[id].slots != [] || c.slabs.classes[id].tail != []
    ensures var (e, r) := ItemAlloc(c, key, nbytes, now, ans); var k := c.slabs.classes[id];
      e.table == c.table && r == Some(if k.slots != [] then k.slots[|k.slots| - 1] else k.tail[0])
  {
    hide Call, ItemAlloc, IdleIn, ExpiredIn, PageComes, Outcome;
    CallIs(c, key, nbytes, id, now, ans);
    DirectOutcome(c, id, now, ans, ItemAlloc(c, key, nbytes, now, ans).0, ItemAlloc(c, key, nbytes, now, ans).1);
    ChunkReturned(c, key, nbytes, id, now, ans);
  }

  lemma DirectOutcome(c: Cache, id: nat, now: nat, ans: Answers, e: Cache, r: Option<Ptr>)
    requires id < |c.slabs.classes| && id < |c.queues| && Outcome(c, id, now, ans, e, r) && Direct(c, id, ans)
    ensures e.table == c.table && r.Some?
  {
    hide Direct, IdleIn, ExpiredIn;
  }

  lemma ChunkReturned(c: Cache, key: seq<byte>, nbytes: nat, id: nat, now: nat, ans: Answers)
    requires |c.slabs.classes| >= 2 && 0 < id && id == ClassFor(ClassSizes(c.slabs), 48 + |key| + nbytes)
    requires c.slabs.classes[id].slots != [] || c.slabs.classes[id].tail != []
    requires ItemAlloc(c, key, nbytes, now, ans).1.Some?
    ensures var k := c.slabs.classes[id];
      ItemAlloc(c, key, nbytes, now, ans).1 == Some(if k.slots != [] then k.slots[|k.slots| - 1] else k.tail[0])
  {
    hide ClassFor, Evict, Repair, Init;
  }

  /** A class that has none gives the first chunk of a new page if malloc has one and the limit allows it;
      the limit refuses no class its first page.  Nothing is evicted. */
  lemma PageServes(c: Cache, key: seq<byte>, nbytes: nat, id: nat, now: nat, ans: Answers)
    requires Call(c, key, nbytes, id, now, ans)
    requires ans.grant1.NewPage?
    requires var k := c.slabs.classes[id];
      c.slabs.memLimit == 0 || c.slabs.memMalloced + k.size * k.perslab <= c.slabs.memLimit || k.pages == []
    ensures var (e, r) := ItemAlloc(c, key, nbytes, now, ans); e.table == c.table && r.Some?
  {
    hide Call, ItemAlloc, IdleIn, ExpiredIn, Outcome;
    CallIs(c, key, nbytes, id, now, ans);
    DirectOutcome(c, id, now, ans, ItemAlloc(c, key, nbytes, now, ans).0, ItemAlloc(c, key, nbytes, now, ans).1);
  }

  /** The class has nothing left, and gets no page. */
  ghost predicate NothingLeft(c: Cache, id: nat, g: Grant)
    requires id < |c.slabs.classes|
  {
    var k := c.slabs.classes[id];
    && k.slots == [] && k.tail == []
    && (g.NewPage? ==>
          c.slabs.memLimit != 0 && c.slabs.memMalloced + k.size * k.perslab > c.slabs.memLimit && k.pages != [])
  }

  /** Then the item that nobody holds and that is nearest to the tail, among the last 50, is evicted, and
      its chunk returned, if the free list has an array or can get one. */
  lemma IdleServes(c: Cache, key: seq<byte>, nbytes: nat, id: nat, now: nat, ans: Answers, v: Ptr)
    requires Call(c, key, nbytes, id, now, ans) && NothingLeft(c, id, ans.grant1)
    requires (c.slabs.classes[id].slTotal > 0 || ans.grow1) && NearestIdle(c.items, c.queues[id], v)
    ensures var (e, r) := ItemAlloc(c, key, nbytes, now, ans); e.table == c.table - {v} && r == Some(v)
  {
    hide Call, ItemAlloc, IdleIn, ExpiredIn, NearestIdle;
    CallIs(c, key, nbytes, id, now, ans);
    IdleIs(c.items, c.queues[id], v);
    assert Only(None) == {} && c.table - ({v} + {}) == c.table - {v};
  }

  /** If somebody holds each of the last 50, and again there is no page, tail repair does the same for the
      one nearest to the tail that was positioned more than three hours ago. */
  lemma ExpiredServes(c: Cache, key: seq<byte>, nbytes: nat, id: nat, now: nat, ans: Answers, v: Ptr)
    requires Call(c, key, nbytes, id, now, ans) && NothingLeft(c, id, ans.grant1) && NothingLeft(c, id, ans.grant2)
    requires c.slabs.classes[id].slTotal > 0 || ans.grow2
    requires NearestIdle(c.items, c.queues[id], null) && NearestExpired(c.items, c.queues[id], now, v)
    ensures var (e, r) := ItemAlloc(c, key, nbytes, now, ans); e.table == c.table - {v} && r == Some(v)
  {
    hide Call, ItemAlloc, IdleIn, ExpiredIn, NearestIdle, NearestExpired;
    CallIs(c, key, nbytes, id, now, ans);
    IdleIs(c.items, c.queues[id], null);
    ExpiredIs(c.items, c.queues[id], now, v);
    QueueNotEmpty(c.items, c.queues[id], now, v);
    assert Only(None) == {} && c.table - ({} + {v}) == c.table - {v};
  }

  lemma QueueNotEmpty(items: map<Ptr, Item>, q: seq<Ptr>, now: nat, v: Ptr)
    requires NearestExpired(items, q, now, v)
    ensures q != []
  {
  }

  /** If none of the last 50 is idle or expired, and there is no page at any time, the call returns NULL and
      evicts nothing. */
  lemma NothingServes(c: Cache, key: seq<byte>, nbytes: nat, id: nat, now: nat, ans: Answers)
    requires Call(c, key, nbytes, id, now, ans)
    requires NothingLeft(c, id, ans.grant1) && NothingLeft(c, id, ans.grant2) && NothingLeft(c, id, ans.grant3)
    requires NearestIdle(c.items, c.queues[id], null) && NearestExpired(c.items, c.queues[id], now, null)
    ensures var (e, r) := ItemAlloc(c, key, nbytes, now, ans); e.table == c.table && r == None
  {
    hide Call, ItemAlloc, IdleIn, ExpiredIn, NearestIdle, NearestExpired;
    CallIs(c, key, nbytes, id, now, ans);
    IdleIs(c.items, c.queues[id], null);
    ExpiredIs(c.items, c.queues[id], now, null);
  }
}
