/**
  The whole cache (src/cache/lru.cpp) on values: the item headers, the set of items in the hash table,
  the LRU queues and the slab allocator, and what each operation does to them.
 */
module CacheModel {
  import opened Basics
  import opened Items
  import opened SizeClasses
  import opened SlabModel
  import Jenkins

  datatype Cache = Cache(
    items: map<Ptr, Item>,      // the header of every chunk of every page
    table: set<Ptr>,            // what is in the hash table
    queues: seq<seq<Ptr>>,      // the LRU queues, head first, by slab class
    slabs: Slabs,
    clock: nat)                 // history: the latest time any operation has read

  /** What the constructors make. */
  function Fresh(chunkSize: nat, max: nat, memLimit: nat): Cache {
    Cache(map[], {}, seq(POWER_LARGEST, _ => []), Initial(chunkSize, max, memLimit), 0)
  }

  // ---------------------------------------------------------------- small parts

  /** hash(key, nkey) */
  function Hash(key: seq<byte>): nat {
    Jenkins.Value(key, 0) as nat
  }

  /** Times are 32-bit numbers. */
  function Minus32(t: nat, d: nat): nat { (t - d) % 0x1_0000_0000 }
  function Plus32(t: nat, d: nat): nat { (t + d) % 0x1_0000_0000 }

  function Without(q: seq<Ptr>, p: Ptr): seq<Ptr> {
    if q == [] then [] else if q[0] == p then q[1..] else [q[0]] + Without(q[1..], p)
  }

  function Put(c: Cache, p: Ptr, it: Item): Cache { c.(items := c.items[p := it]) }

  predicate Known(c: Cache, p: Ptr) { p in c.items && c.items[p].clsid < |c.queues| }

  // ---------------------------------------------------------------- the parts of the operations

  /** do_item_unlink up to its last test: out of the table and out of the queue. */
  function Detach(c: Cache, p: Ptr): Cache
    requires Known(c, p)
  {
    var it := c.items[p];
    Put(c, p, it.(linked := false)).(table := c.table - {p},
      queues := c.queues[it.clsid := Without(c.queues[it.clsid], p)])
  }

  /** item_free */
  function Drop(c: Cache, p: Ptr, grow: bool): Cache
    requires Known(c, p)
  {
    var it := c.items[p];
    Put(c, p, it.(clsid := 0, slabbed := true)).(slabs := Free(c.slabs, p, it.Total(), it.clsid, grow))
  }

  /** do_item_unlink */
  function Unlink(c: Cache, p: Ptr, grow: bool): Cache
    requires Known(c, p)
  {
    if !c.items[p].linked then c
    else if c.items[p].refcount == 0 then Drop(Detach(c, p), p, grow)
    else Detach(c, p)
  }

  /** do_item_link */
  function Link(c: Cache, p: Ptr, now: nat): Cache
    requires Known(c, p)
  {
    var it := c.items[p];
    Put(c, p, it.(linked := true, time := now)).(table := c.table + {p},
      queues := c.queues[it.clsid := [p] + c.queues[it.clsid]], clock := now)
  }

  /** do_item_release */
  function Release(c: Cache, p: Ptr, grow: bool): Cache
    requires Known(c, p)
  {
    var it := c.items[p];
    var c1 := if it.refcount != 0 then Put(c, p, it.(refcount := it.refcount - 1)) else c;
    if c1.items[p].refcount == 0 && !it.linked then Drop(c1, p, grow) else c1
  }

  /** do_item_update: to the front of its queue, unless that was done within the last 60 seconds. */
  function Update(c: Cache, p: Ptr, now: nat): Cache
    requires Known(c, p)
  {
    var it := c.items[p];
    if it.time < Minus32(now, ITEM_UPDATE_INTERVAL) && it.linked then Bump(c, p, now) else c.(clock := now)
  }

  function Bump(c: Cache, p: Ptr, now: nat): Cache
    requires Known(c, p)
  {
    var it := c.items[p];
    Put(c, p, it.(time := now)).(clock := now,
      queues := c.queues[it.clsid := [p] + Without(c.queues[it.clsid], p)])
  }

  /** The reference count is 16 bits wide. */
  function Hold(c: Cache, p: Ptr): Cache
    requires Known(c, p)
  {
    Put(c, p, c.items[p].(refcount := (c.items[p].refcount + 1) % 0x1_0000))
  }

  /** do_item_get, given what assoc_find returned. */
  function Get(c: Cache, found: Option<Ptr>, now: nat): Cache
    requires found.Some? ==> Known(c, found.value)
  {
    if found == None then c else Update(Hold(c, found.value), found.value, now)
  }

  /** do_store_item, given what assoc_find returned. */
  function Store(c: Cache, p: Ptr, found: Option<Ptr>, now: nat, grow: bool): Cache
    requires Known(c, p) && (found.Some? ==> Known(c, found.value))
  {
    if found == None then Link(c, p, now)
    else
      var old_ := found.value;
      Release(Link(Unlink(Get(c, found, now), old_, grow), p, now), old_, grow)
  }

  /** store_item sets the hash value before it takes the lock. */
  function SetHash(c: Cache, p: Ptr): Cache
    requires p in c.items && c.items[p].nkey <= |c.items[p].payload|
  {
    Put(c, p, c.items[p].(hv := Hash(c.items[p].Key())))
  }

  // ---------------------------------------------------------------- allocation

  function ZeroedPage(chunks: seq<Ptr>, room: nat): map<Ptr, Item> {
    map p | p in chunks :: Zeroed(room)
  }

  /** A new page, if there is one, is zeroed. */
  function WithSlabs(c: Cache, s: Slabs, id: nat): Cache
    requires id < |s.classes| && |s.classes| == |c.slabs.classes|
  {
    var pages := s.classes[id].pages;
    if |pages| > |c.slabs.classes[id].pages| then
      c.(slabs := s, items := c.items + ZeroedPage(pages[|pages| - 1].chunks, Room(s.classes[id].size)))
    else c.(slabs := s)
  }

  /** slabs_alloc */
  function SlabsAlloc(c: Cache, ntotal: nat, id: nat, g: Grant): (r: (Cache, Option<Ptr>))
    requires id < |c.slabs.classes|
    ensures |r.0.slabs.classes| == |c.slabs.classes|
  {
    var (s, r) := Alloc(c.slabs, ntotal, id, g);
    (WithSlabs(c, s, id), r)
  }

  /** The index, at most `tries` places from the end, of the last item of q that nobody holds. */
  function LastIdle(items: map<Ptr, Item>, q: seq<Ptr>, tries: nat): (i: Option<nat>)
    requires forall p <- q :: p in items
    ensures i.Some? ==> i.value < |q|
  {
    if q == [] || tries == 0 then None
    else if items[q[|q| - 1]].refcount == 0 then Some(|q| - 1)
    else LastIdle(items, q[..|q| - 1], tries - 1)
  }

  /** The same for an item that is held and was last used more than three hours ago. */
  function LastExpired(items: map<Ptr, Item>, q: seq<Ptr>, tries: nat, now: nat): (i: Option<nat>)
    requires forall p <- q :: p in items
    ensures i.Some? ==> i.value < |q|
  {
    if q == [] || tries == 0 then None
    else if Expired(items[q[|q| - 1]], now) then Some(|q| - 1)
    else LastExpired(items, q[..|q| - 1], tries - 1, now)
  }

  predicate Expired(it: Item, now: nat) {
    it.refcount != 0 && Plus32(it.time, TAIL_REPAIR_TIME) < now
  }

  predicate QueueKnown(c: Cache, id: nat) {
    id < |c.queues| && forall p <- c.queues[id] :: Known(c, p)
  }

  /** The first search: unlink an idle item near the tail.  (Under the invariants a queue is always known.) */
  function Evict(c: Cache, id: nat, grow: bool): (d: Cache)
    ensures |d.slabs.classes| == |c.slabs.classes|
  {
    if !QueueKnown(c, id) then c
    else
      var i := LastIdle(c.items, c.queues[id], SEARCH_ITEMS);
      if i == None then c else Unlink(c, c.queues[id][i.value], grow)
  }

  /** The second search, "tail repair": forget the references to an expired item and unlink it. */
  function Repair(c: Cache, id: nat, now: nat, grow: bool): (d: Cache)
    ensures |d.slabs.classes| == |c.slabs.classes|
  {
    var c1 := c.(clock := now);
    if !QueueKnown(c, id) then c1
    else
      var i := LastExpired(c.items, c.queues[id], SEARCH_ITEMS, now);
      if i == None then c1 else Unlink(Zero(c1, c.queues[id][i.value]), c.queues[id][i.value], grow)
  }

  function Zero(c: Cache, p: Ptr): Cache
    requires p in c.items
  {
    Put(c, p, c.items[p].(refcount := 0))
  }

  /** The header of a chunk that has just been handed out: the key's length is cut to 16 bits, and time,
      hash value and the bytes behind the key are whatever they were. */
  function Init(c: Cache, p: Ptr, id: nat, key: seq<byte>, nbytes: nat): Cache
    requires p in c.items
  {
    var it := c.items[p];
    Put(c, p, Item(Overwrite(it.payload, key), |key| % 0x1_0000, nbytes, it.hv, it.time, 1, false, false, id))
  }

  /** What the C library answers during one do_item_alloc: to each slabs_alloc, and to each free. */
  datatype Answers = Answers(grant1: Grant, grow1: bool, grant2: Grant, grow2: bool, grant3: Grant)

  /** do_item_alloc up to its last slabs_alloc. */
  function AllocChunk(c: Cache, ntotal: nat, id: nat, now: nat, ans: Answers): (Cache, Option<Ptr>)
    requires id < |c.slabs.classes|
  {
    var (c1, r1) := SlabsAlloc(c, ntotal, id, ans.grant1);
    if r1.Some? || id >= |c1.queues| || c1.queues[id] == [] then (c1, r1)
    else
      var c2 := Evict(c1, id, ans.grow1);
      var (c3, r3) := SlabsAlloc(c2, ntotal, id, ans.grant2);
      if r3.Some? then (c3, r3)
      else SlabsAlloc(Repair(c3, id, now, ans.grow2), ntotal, id, ans.grant3)
  }

  /** do_item_alloc */
  function ItemAlloc(c: Cache, key: seq<byte>, nbytes: nat, now: nat, ans: Answers): (Cache, Option<Ptr>)
    requires |c.slabs.classes| >= 2
  {
    var ntotal := HEADER + |key| + nbytes;
    var id := ClassFor(ClassSizes(c.slabs), ntotal);
    if id == 0 then (c, None)
    else
      var (d, r) := AllocChunk(c, ntotal, id, now, ans);
      if r.Some? && r.value in d.items then (Init(d, r.value, id, key, nbytes), r) else (d, None)
  }
}
