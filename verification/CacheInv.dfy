/** The invariants that tie the hash table, the queues, the headers and the slab allocator together. */
module CacheInv {
  import opened Basics
  import opened Items
  import opened SizeClasses
  import opened SlabModel
  import opened SlabProofs
  import opened CacheModel

  /** Ownership: a chunk's header carries the number of its class exactly while the chunk is out. */
  ghost predicate Homes(c: Cache) {
    && (forall id, p :: 1 <= id < |c.slabs.classes| && p in Chunks(c.slabs.classes[id]) ==>
          p in c.items && HomeOk(c.items[p], c.slabs.classes[id], id, p))
    && (forall p <- c.items :: c.items[p].clsid != 0 ==>
          c.items[p].clsid < |c.slabs.classes| && p in Out(c.slabs.classes[c.items[p].clsid]))
  }

  ghost predicate HomeOk(it: Item, k: SlabClass, id: nat, p: Ptr) {
    && (it.clsid == 0 || it.clsid == id)
    && (it.clsid == id <==> p in Out(k))
    && |it.payload| == Room(k.size)
  }

  /** An item is marked linked exactly when it is in the hash table, and then it is in exactly one
      queue, that of its class, exactly once. */
  ghost predicate Members(c: Cache) {
    && |c.queues| == POWER_LARGEST
    && (forall p <- c.table ::
          p in c.items && c.items[p].linked && 0 < c.items[p].clsid < |c.queues| && p in c.queues[c.items[p].clsid])
    && (forall p <- c.items :: c.items[p].linked ==> p in c.table)
    && (forall i, p :: 0 <= i < |c.queues| && p in c.queues[i] ==> p in c.table && c.items[p].clsid == i)
    && (forall i :: 0 <= i < |c.queues| ==> Distinct(c.queues[i]))
  }

  /** What is out fits its chunk, is in the right class, and is what the allocator charged. */
  ghost predicate Sized(c: Cache) {
    forall p <- c.items :: c.items[p].clsid != 0 ==>
      c.items[p].clsid < |c.slabs.classes| && SizeOk(c.items[p], c.slabs, p)
  }

  ghost predicate SizeOk(it: Item, s: Slabs, p: Ptr)
    requires it.clsid < |s.classes|
  {
    && !it.slabbed && it.refcount < 0x1_0000
    && it.Total() <= s.classes[it.clsid].size
    && it.nkey + it.nbytes <= |it.payload|
    && p in s.classes[it.clsid].charges && s.classes[it.clsid].charges[p] == it.Total()
    && |s.classes| >= 2 && it.clsid == ClassFor(ClassSizes(s), it.Total())
  }

  /** A search for o's key stops at `it`: the comparison takes `it` for o. */
  predicate StopsAt(o: Item, it: Item) {
    o.nkey <= |o.payload| && Match(it, o.hv, o.Key())
  }

  /** Hash values are the hashes of the keys, and a search for a stored item's key stops at that item
      and at no other, so keys are unique. */
  ghost predicate Keys(c: Cache) {
    && (forall p <- c.table ::
          p in c.items && c.items[p].nkey <= |c.items[p].payload| && c.items[p].hv == Hash(c.items[p].Key()))
    && (forall p <- c.table, q <- c.table :: StopsAt(c.items[p], c.items[q]) ==> p == q)
  }

  /** Queues are sorted by time, latest at the head, and no time is in the future. */
  ghost predicate Sorted(c: Cache) {
    && (forall i, p :: 0 <= i < |c.queues| && p in c.queues[i] ==> p in c.items)
    && (forall i, j, k :: 0 <= i < |c.queues| && 0 <= j < k < |c.queues[i]| ==>
          c.items[c.queues[i][j]].time >= c.items[c.queues[i][k]].time)
    && (forall p <- c.table :: p in c.items && c.items[p].time <= c.clock)
  }

  ghost predicate Config(c: Cache) {
    SlabInv(c.slabs) && |c.slabs.classes| <= POWER_LARGEST && (forall i :: 1 <= i < |c.slabs.classes| ==>
      c.slabs.classes[i].size > 0)
  }

  ghost predicate Core(c: Cache) {
    Config(c) && Homes(c) && Members(c) && Sized(c) && Keys(c) && Sorted(c)
  }

  /** All of that but the keys. */
  ghost predicate Base(c: Cache) {
    Config(c) && Homes(c) && Members(c) && Sized(c) && Sorted(c)
  }

  /** An item is out of the allocator exactly while it is linked or somebody holds it. */
  ghost predicate LiveBut(c: Cache, but: set<Ptr>) {
    forall p <- c.items :: p !in but ==> (c.items[p].clsid != 0 <==> c.items[p].linked || c.items[p].refcount > 0)
  }

  ghost predicate Inv(c: Cache) {
    Core(c) && LiveBut(c, {})
  }

  /** The invariants hold at the start. */
  lemma FreshInv(chunkSize: nat, max: nat, memLimit: nat)
    requires ConfigOk(chunkSize, max) && 0 < max
    ensures Inv(Fresh(chunkSize, max, memLimit))
  {
    InitialOk(chunkSize, max, memLimit);
    hide SlabInv;
  }

  // ---------------------------------------------------------------- queues

  /** Removing an item from a queue: the others stay, in order. */
  lemma {:induction false} WithoutIs(q: seq<Ptr>, p: Ptr, k: nat)
    requires Distinct(q) && k < |q| && q[k] == p
    ensures Without(q, p) == q[..k] + q[k + 1..]
  {
    if k > 0 {
      assert q[0] != q[k];
      WithoutIs(q[1..], p, k - 1);
      assert q[..k] == [q[0]] + q[1..][..k - 1];
    }
  }

  lemma WithoutAt(q: seq<Ptr>, p: Ptr) returns (k: nat)
    requires Distinct(q) && p in q
    ensures k < |q| && q[k] == p && Without(q, p) == q[..k] + q[k + 1..]
  {
    k :| 0 <= k < |q| && q[k] == p;
    WithoutIs(q, p, k);
  }

  lemma WithoutElems(q: seq<Ptr>, p: Ptr, w: seq<Ptr>)
    requires Distinct(q) && p in q && w == Without(q, p)
    ensures |w| == |q| - 1 && Distinct(w)
    ensures (forall x <- w :: x in q && x != p) && (forall x <- q :: x != p ==> x in w)
  {
    var k := WithoutAt(q, p);
    assert w == q[..k] + q[k + 1..];
    forall x ensures x in w <==> x in q && x != p {
      if x in q && x != p {
        var j :| 0 <= j < |q| && q[j] == x;
        assert w[if j < k then j else j - 1] == x;
      }
    }
  }

  ghost predicate SortedQueue(items: map<Ptr, Item>, q: seq<Ptr>) {
    && (forall p <- q :: p in items)
    && (forall j, k :: 0 <= j < k < |q| ==> items[q[j]].time >= items[q[k]].time)
  }

  lemma WithoutSorted(items: map<Ptr, Item>, q: seq<Ptr>, p: Ptr)
    requires Distinct(q) && p in q && SortedQueue(items, q)
    ensures SortedQueue(items, Without(q, p))
  {
    var k := WithoutAt(q, p);
    var w := q[..k] + q[k + 1..];
    forall i | 0 <= i < |w| ensures w[i] == q[if i < k then i else i + 1] {
    }
  }

  // ---------------------------------------------------------------- changing one header

  // Each lemma: d is c with the header of p replaced, and whatever else changed is no part of the
  // invariant in question.

  lemma HomesPut(c: Cache, d: Cache, p: Ptr, it: Item)
    requires Homes(c) && p in c.items && d.items == c.items[p := it] && d.slabs == c.slabs
    requires it.clsid == c.items[p].clsid && |it.payload| == |c.items[p].payload|
    ensures Homes(d)
  {
    hide Out, Chunks;
  }

  lemma SizedPut(c: Cache, d: Cache, p: Ptr, it: Item)
    requires Sized(c) && p in c.items && d.items == c.items[p := it] && d.slabs == c.slabs
    requires var o := c.items[p];
      && it.clsid == o.clsid && |it.payload| == |o.payload| && it.nkey == o.nkey && it.nbytes == o.nbytes
      && it.slabbed == o.slabbed && it.refcount < 0x1_0000
    ensures Sized(d)
  {
    hide ClassFor;
  }

  lemma KeysPut(c: Cache, d: Cache, p: Ptr, it: Item)
    requires Keys(c) && p in c.items && d.items == c.items[p := it] && d.table <= c.table
    requires p in d.table ==>
      var o := c.items[p];
      && it.hv == o.hv && it.nkey == o.nkey && it.nkey <= |it.payload|
      && (it.nkey <= |o.payload| ==> it.Key() == o.Key())
      && (it.payload == o.payload || NotTaken(c, p, it))
    ensures Keys(d)
  {
    hide Hash;
    forall x <- d.table, y <- d.table | StopsAt(d.items[x], d.items[y]) ensures x == y {
      assert StopsAt(c.items[x], d.items[y]);
    }
  }

  /** With this header, p is not taken for another stored item. */
  ghost predicate NotTaken(c: Cache, p: Ptr, it: Item) {
    forall q <- c.table :: q in c.items && q != p ==> !StopsAt(c.items[q], it)
  }

  lemma MembersPut(c: Cache, d: Cache, p: Ptr, it: Item)
    requires Members(c) && p in c.items && d.items == c.items[p := it] && d.table == c.table && d.queues == c.queues
    requires it.linked == c.items[p].linked && (it.linked ==> it.clsid == c.items[p].clsid)
    ensures Members(d)
  {
    hide Distinct;
  }

  lemma SortedPut(c: Cache, d: Cache, p: Ptr, it: Item)
    requires Members(c) && Sorted(c) && p in c.items && d.items == c.items[p := it]
    requires d.queues == c.queues && d.table <= c.table && c.clock <= d.clock
    requires p in c.table ==> it.time == c.items[p].time
    ensures Sorted(d)
  {
    hide Distinct;
  }

  lemma ConfigFrame(c: Cache, d: Cache)
    requires Config(c) && d.slabs == c.slabs
    ensures Config(d)
  {
    hide SlabInv;
  }

  /** The table is a subset of what has a header. */
  lemma TableKnown(c: Cache)
    requires Members(c)
    ensures c.table <= c.items.Keys
    ensures forall i, x :: 0 <= i < |c.queues| && x in c.queues[i] ==> x in c.table
    ensures forall x <- c.table :: c.items[x].linked && c.items[x].clsid != 0 && Known(c, x)
  {
    hide Distinct;
  }

  /** Changing only what queues, table and allocator do not depend on: the reference count, the hash
      value and the payload. */
  lemma PutKeepsBase(c: Cache, p: Ptr, it: Item)
    requires Base(c) && p in c.items
    requires var o := c.items[p]; it == o.(refcount := it.refcount, hv := it.hv, payload := it.payload)
    requires it.refcount < 0x1_0000 && |it.payload| == |c.items[p].payload|
    ensures Base(Put(c, p, it))
  {
    var d := Put(c, p, it);
    hide Homes, Members, Sorted, Config, Sized;
    HomesPut(c, d, p, it);
    SizedPut(c, d, p, it);
    MembersPut(c, d, p, it);
    SortedPut(c, d, p, it);
    ConfigFrame(c, d);
  }

  /** The same with the keys: an item in the table keeps its hash value and its key. */
  lemma PutKeeps(c: Cache, p: Ptr, it: Item)
    requires Core(c) && p in c.items
    requires var o := c.items[p]; it == o.(refcount := it.refcount, hv := it.hv, payload := it.payload)
    requires it.refcount < 0x1_0000 && |it.payload| == |c.items[p].payload|
    requires p in c.table ==>
      && it.hv == c.items[p].hv && c.items[p].nkey <= |it.payload| && it.Key() == c.items[p].Key()
      && (it.payload == c.items[p].payload || NotTaken(c, p, it))
    ensures Core(Put(c, p, it))
  {
    hide Homes, Members, Keys, Sorted, Config, Sized;
    PutKeepsBase(c, p, it);
    KeysPut(c, Put(c, p, it), p, it);
  }

  lemma RefcountsSmall(c: Cache)
    requires Sized(c)
    ensures forall x <- c.items :: c.items[x].clsid != 0 ==> c.items[x].refcount < 0x1_0000
  {
    hide ClassFor;
  }

  // ---------------------------------------------------------------- Detach

  lemma DetachMembers(c: Cache, p: Ptr)
    requires Members(c) && p in c.table
    ensures Members(Detach(c, p))
  {
    var i := c.items[p].clsid;
    var q, w := c.queues[i], Without(c.queues[i], p);
    WithoutElems(q, p, w);
    var d := Detach(c, p);
    assert d.queues[i] == w;
    forall j, x: Ptr | 0 <= j < |d.queues| && x in d.queues[j] ensures x in d.table && d.items[x].clsid == j {
      if j == i {
        assert x in w;
        assert x in q;
      } else {
        assert d.queues[j] == c.queues[j];
      }
    }
    forall x <- d.table ensures x in d.queues[d.items[x].clsid] {
      assert x in c.queues[c.items[x].clsid];
    }
  }

  lemma DetachSorted(c: Cache, p: Ptr)
    requires Members(c) && Sorted(c) && p in c.table
    ensures Sorted(Detach(c, p))
  {
    var i := c.items[p].clsid;
    var q, w := c.queues[i], Without(c.queues[i], p);
    WithoutElems(q, p, w);
    assert SortedQueue(c.items, q);
    WithoutSorted(c.items, q, p);
    var d := Detach(c, p);
    assert d.queues[i] == w;
    hide Distinct;
    assert forall x <- c.items :: d.items[x].time == c.items[x].time;
    forall a, j, k | 0 <= a < |d.queues| && 0 <= j < k < |d.queues[a]|
      ensures d.queues[a][j] in c.items && d.queues[a][k] in c.items
      ensures c.items[d.queues[a][j]].time >= c.items[d.queues[a][k]].time
    {
      assert d.queues[a][j] in d.queues[a] && d.queues[a][k] in d.queues[a];
      if a != i {
        assert d.queues[a] == c.queues[a];
      }
    }
  }

  lemma DetachKeeps(c: Cache, p: Ptr)
    requires Core(c) && p in c.table
    ensures Known(c, p) && Core(Detach(c, p)) && (LiveBut(c, {}) ==> LiveBut(Detach(c, p), {p}))
  {
    TableKnown(c);
    RefcountsSmall(c);
    DetachMembers(c, p);
    DetachSorted(c, p);
    TableKeys(c);
    var d := Detach(c, p);
    hide Homes, Members, Keys, Sorted, Config, Sized, Without;
    HomesPut(c, d, p, d.items[p]);
    SizedPut(c, d, p, d.items[p]);
    KeysPut(c, d, p, d.items[p]);
    ConfigFrame(c, d);
  }

  lemma TableKeys(c: Cache)
    requires Keys(c)
    ensures forall x <- c.table :: x in c.items && c.items[x].nkey <= |c.items[x].payload|
  {
    hide Hash;
  }

  // ---------------------------------------------------------------- Link

  /** Neither a search for p's key stops at a stored item, nor a search for a stored key at p. */
  ghost predicate KeyFree(c: Cache, p: Ptr)
    requires p in c.items
  {
    forall q <- c.table :: q in c.items ==> !StopsAt(c.items[p], c.items[q]) && !StopsAt(c.items[q], c.items[p])
  }

  lemma LinkKeepsBase(c: Cache, p: Ptr, now: nat)
    requires Base(c) && p in c.items && p !in c.table && c.items[p].clsid != 0 && c.clock <= now
    ensures Known(c, p) && Base(Link(c, p, now))
  {
    hide Homes, Members, Sorted, Config, Sized;
    LinkMembers(c, p, now);
    LinkSorted(c, p, now);
    RefcountsSmall(c);
    var d := Link(c, p, now);
    HomesPut(c, d, p, d.items[p]);
    SizedPut(c, d, p, d.items[p]);
    ConfigFrame(c, d);
  }

  lemma LinkKeeps(c: Cache, p: Ptr, now: nat)
    requires Core(c) && p in c.items && p !in c.table && c.items[p].clsid != 0 && c.clock <= now
    requires c.items[p].nkey <= |c.items[p].payload| && c.items[p].hv == Hash(c.items[p].Key()) && KeyFree(c, p)
    ensures Known(c, p) && Core(Link(c, p, now)) && (LiveBut(c, {}) ==> LiveBut(Link(c, p, now), {}))
  {
    hide Homes, Members, Keys, Sorted, Config, Sized, KeyFree;
    LinkKeepsBase(c, p, now);
    LinkKeys(c, p, now);
  }

  lemma LinkKeys(c: Cache, p: Ptr, now: nat)
    requires Keys(c) && Known(c, p) && c.items[p].nkey <= |c.items[p].payload|
    requires c.items[p].hv == Hash(c.items[p].Key()) && KeyFree(c, p)
    ensures Keys(Link(c, p, now))
  {
    hide Hash;
    var d := Link(c, p, now);
    forall x <- c.table
      ensures x in c.items && d.items[x].hv == c.items[x].hv && d.items[x].nkey == c.items[x].nkey
      ensures d.items[x].payload == c.items[x].payload
    {
    }
  }

  lemma LinkMembers(c: Cache, p: Ptr, now: nat)
    requires Members(c) && Config(c) && Homes(c) && p in c.items && p !in c.table && c.items[p].clsid != 0
    ensures Known(c, p) && Members(Link(c, p, now))
  {
    hide SlabInv, Out, Chunks;
    var i := c.items[p].clsid;
    var d := Link(c, p, now);
    assert d.queues[i] == [p] + c.queues[i];
    forall j, x: Ptr | 0 <= j < |d.queues| && x in d.queues[j] ensures x in d.table && d.items[x].clsid == j {
      assert x == p || x in c.queues[j];
    }
    forall x <- d.table ensures x in d.queues[d.items[x].clsid] {
      assert x == p || x in c.queues[c.items[x].clsid];
    }
    DistinctPush(c.queues[i], p);
    hide Distinct, Homes, Config;
  }

  lemma DistinctPush(q: seq<Ptr>, p: Ptr)
    requires Distinct(q) && p !in q
    ensures Distinct([p] + q)
  {
  }

  lemma LinkSorted(c: Cache, p: Ptr, now: nat)
    requires Members(c) && Sorted(c) && Known(c, p) && p !in c.table && c.clock <= now
    ensures Sorted(Link(c, p, now))
  {
    hide Distinct;
    var i := c.items[p].clsid;
    var d := Link(c, p, now);
    assert d.queues[i] == [p] + c.queues[i];
    forall a, x | 0 <= a < |d.queues| && x in d.queues[a] ensures x in d.items && (x == p || x in c.queues[a]) {
    }
    forall a, j, k | 0 <= a < |d.queues| && 0 <= j < k < |d.queues[a]|
      ensures d.queues[a][j] in d.items && d.queues[a][k] in d.items
      ensures d.items[d.queues[a][j]].time >= d.items[d.queues[a][k]].time
    {
      assert d.queues[a][j] in d.queues[a] && d.queues[a][k] in d.queues[a];
      if a == i {
        assert d.queues[a][k] == c.queues[a][k - 1] && d.queues[a][k] in c.queues[a];
        assert j > 0 ==> d.queues[a][j] == c.queues[a][j - 1] && d.queues[a][j] in c.queues[a];
      } else {
        assert d.queues[a][j] in c.queues[a] && d.queues[a][k] in c.queues[a];
      }
    }
  }

  // ---------------------------------------------------------------- Bump

  /** Repositioning is taking out and linking again. */
  lemma BumpIs(c: Cache, p: Ptr, now: nat)
    requires Members(c) && p in c.table
    ensures Known(c, p) && Known(Detach(c, p), p) && Link(Detach(c, p), p, now) == Bump(c, p, now)
  {
    assert c.table - {p} + {p} == c.table;
    hide Distinct;
  }

  lemma BumpKeeps(c: Cache, p: Ptr, now: nat)
    requires Core(c) && p in c.table && c.clock <= now
    ensures Known(c, p) && Core(Bump(c, p, now)) && (LiveBut(c, {}) ==> LiveBut(Bump(c, p, now), {}))
  {
    TableKnown(c);
    TableKeys(c);
    BumpIs(c, p, now);
    DetachKeeps(c, p);
    DetachFrees(c, p);
    hide Homes, Members, Keys, Sorted, Config, Sized, KeyFree, Without;
    LinkKeeps(Detach(c, p), p, now);
  }

  lemma DetachFrees(c: Cache, p: Ptr)
    requires Keys(c) && Known(c, p) && p in c.table
    ensures c.items[p].nkey <= |c.items[p].payload| && c.items[p].hv == Hash(c.items[p].Key())
    ensures KeyFree(Detach(c, p), p)
  {
    hide Hash;
  }

  // ---------------------------------------------------------------- Drop

  lemma DropKeeps(c: Cache, p: Ptr, grow: bool)
    requires Core(c) && p in c.items && p !in c.table && c.items[p].clsid != 0
    ensures Known(c, p) && Core(Drop(c, p, grow))
    ensures c.items[p].refcount == 0 && LiveBut(c, {p}) ==> LiveBut(Drop(c, p, grow), {})
  {
    NotLinked(c, p);
    DropOk(c, p);
    DropHomes(c, p, grow);
    DropSized(c, p, grow);
    DropConfig(c, p, grow);
    TableKnown(c);
    TableKeys(c);
    var d := Drop(c, p, grow);
    hide Homes, Members, Keys, Sorted, Config, Sized, Free;
    KeysPut(c, d, p, d.items[p]);
    MembersPut(c, d, p, d.items[p]);
    SortedPut(c, d, p, d.items[p]);
  }

  lemma NotLinked(c: Cache, p: Ptr)
    requires Members(c) && p in c.items && p !in c.table
    ensures !c.items[p].linked
  {
    hide Distinct;
  }

  /** What item_free passes to the allocator is what the allocator expects. */
  lemma DropOk(c: Cache, p: Ptr)
    requires Config(c) && Homes(c) && Sized(c) && Members(c) && p in c.items && c.items[p].clsid != 0
    ensures var it := c.items[p];
      && Known(c, p) && 1 <= it.clsid < |c.slabs.classes| && p in Out(c.slabs.classes[it.clsid])
      && p in c.slabs.classes[it.clsid].charges && c.slabs.classes[it.clsid].charges[p] == it.Total()
  {
    hide ClassFor, SlabInv, Out, Chunks, Distinct;
  }

  lemma DropConfig(c: Cache, p: Ptr, grow: bool)
    requires Config(c) && Homes(c) && Sized(c) && Members(c) && p in c.items && c.items[p].clsid != 0
    ensures Known(c, p) && Config(Drop(c, p, grow))
  {
    DropOk(c, p);
    FreeKeeps(c.slabs, p, c.items[p].Total(), c.items[p].clsid, grow);
    hide SlabInv, Out, Chunks, Homes, Members, Sized;
  }

  lemma DropHomes(c: Cache, p: Ptr, grow: bool)
    requires Config(c) && Homes(c) && Sized(c) && Members(c) && p in c.items && c.items[p].clsid != 0
    ensures Known(c, p) && Homes(Drop(c, p, grow))
  {
    var d, id := Drop(c, p, grow), c.items[p].clsid;
    DropOk(c, p);
    FreeKeeps(c.slabs, p, c.items[p].Total(), id, grow);
    SlabSeparate(c.slabs);
    OutIsChunk(c.slabs.classes[id], p);
    hide SlabInv, Out, Chunks, Members, Sized, Free, Config, HomeOk;
    HomesReturn(c, d, p, d.items[p]);
  }

  /** A chunk that goes back to its class, and whose header says so. */
  lemma HomesReturn(c: Cache, d: Cache, p: Ptr, it: Item)
    requires Homes(c) && p in c.items && 1 <= c.items[p].clsid < |c.slabs.classes|
    requires d.items == c.items[p := it] && it.clsid == 0 && |it.payload| == |c.items[p].payload|
    requires SameElsewhere(c.slabs, d.slabs, c.items[p].clsid) && Separated(c.slabs)
    requires var k, k' := c.slabs.classes[c.items[p].clsid], d.slabs.classes[c.items[p].clsid];
      Out(k') == Out(k) - {p} && Chunks(k') == Chunks(k) && p in Chunks(k)
    ensures Homes(d)
  {
    hide Out, Chunks;
    var id := c.items[p].clsid;
    forall i, x | 1 <= i < |d.slabs.classes| && x in Chunks(d.slabs.classes[i])
      ensures x in d.items && HomeOk(d.items[x], d.slabs.classes[i], i, x)
    {
      assert x in Chunks(c.slabs.classes[i]);
      assert x == p ==> i == id;
    }
  }

  lemma OutIsChunk(k: SlabClass, p: Ptr)
    requires p in Out(k)
    ensures p in Chunks(k)
  {
  }

  ghost predicate Separated(s: Slabs) {
    forall i, j, x ::
      0 <= i < |s.classes| && 0 <= j < |s.classes| && x in Chunks(s.classes[i]) && x in Chunks(s.classes[j]) ==> i == j
  }

  lemma SlabSeparate(s: Slabs)
    requires SlabInv(s)
    ensures Separated(s)
  {
    hide ClassInv, Memory, Chunks, Apart;
    forall i, j, x
      | 0 <= i < |s.classes| && 0 <= j < |s.classes| && x in Chunks(s.classes[i]) && x in Chunks(s.classes[j])
      ensures i == j
    {
      ClassesDisjoint(s, i, j);
    }
  }

  lemma ClassesDisjoint(s: Slabs, i: nat, j: nat)
    requires SlabInv(s) && i < |s.classes| && j < |s.classes|
    ensures i == j || Chunks(s.classes[i]) !! Chunks(s.classes[j])
  {
    hide ClassInv, Memory, Chunks, Apart;
    assert i < j ==> Chunks(s.classes[i]) !! Chunks(s.classes[j]);
    assert j < i ==> Chunks(s.classes[j]) !! Chunks(s.classes[i]);
  }

  lemma DropSized(c: Cache, p: Ptr, grow: bool)
    requires Config(c) && Homes(c) && Sized(c) && Members(c) && p in c.items && c.items[p].clsid != 0
    ensures Known(c, p) && Sized(Drop(c, p, grow))
  {
    var d, id := Drop(c, p, grow), c.items[p].clsid;
    DropOk(c, p);
    FreeKeeps(c.slabs, p, c.items[p].Total(), id, grow);
    hide SlabInv, Out, Chunks, Members, Free, Config, HomeOk, SizeOk;
    SizedReturn(c, d, p, d.items[p]);
  }

  lemma SizedReturn(c: Cache, d: Cache, p: Ptr, it: Item)
    requires Homes(c) && Sized(c) && p in c.items && 1 <= c.items[p].clsid < |c.slabs.classes|
    requires d.items == c.items[p := it] && it.clsid == 0
    requires SameElsewhere(c.slabs, d.slabs, c.items[p].clsid)
    requires var k, k' := c.slabs.classes[c.items[p].clsid], d.slabs.classes[c.items[p].clsid];
      Out(k') == Out(k) - {p} && forall q <- Out(k') ::
        q in k.charges && q in k'.charges && k'.charges[q] == k.charges[q]
    ensures Sized(d)
  {
    hide Out, Chunks, ClassFor;
    assert ClassSizes(d.slabs) == ClassSizes(c.slabs);
    forall x <- d.items | d.items[x].clsid != 0
      ensures d.items[x].clsid < |d.slabs.classes| && SizeOk(d.items[x], d.slabs, x)
    {
      assert x in Out(c.slabs.classes[c.items[x].clsid]);
    }
  }
}
