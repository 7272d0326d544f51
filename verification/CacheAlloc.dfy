/** Allocation (do_item_alloc): eviction, tail repair and the invariants. */
module CacheAlloc {
  import opened Basics
  import opened Items
  import opened SizeClasses
  import opened SlabModel
  import opened SlabProofs
  import opened CacheModel
  import opened CacheInv

  /** What malloc promises: a new page is clear of all others, and its chunks are new objects. */
  ghost predicate Granted(c: Cache, id: nat, g: Grant) {
    id < |c.slabs.classes| && GrantOk(c.slabs, id, g) && (g.NewPage? ==> forall p <- g.page.chunks :: p !in c.items)
  }

  // ---------------------------------------------------------------- slabs_alloc

  /** d has the headers of c, and zeroed headers for the chunks of a new page. */
  ghost predicate Extends(c: Cache, d: Cache, room: nat) {
    && d.table == c.table && d.queues == c.queues && d.clock == c.clock
    && (forall x <- c.items :: x in d.items && d.items[x] == c.items[x])
    && (forall x <- d.items :: x in c.items || d.items[x] == Zeroed(room))
  }

  /** What slabs_alloc does apart from handing out a chunk. */
  ghost predicate Grown(c: Cache, d: Cache, id: nat) {
    && SameElsewhere(c.slabs, d.slabs, id)
    && Extends(c, d, Room(c.slabs.classes[id].size))
    && (forall x <- Chunks(d.slabs.classes[id]) :: x in Chunks(c.slabs.classes[id]) || (x !in c.items && x in d.items))
    && Chunks(c.slabs.classes[id]) <= Chunks(d.slabs.classes[id])
  }

  lemma WithSlabsGrown(c: Cache, s: Slabs, id: nat, g: Grant)
    requires SameElsewhere(c.slabs, s, id)
    requires s.classes[id].pages == c.slabs.classes[id].pages
      || (g.NewPage? && s.classes[id].pages == c.slabs.classes[id].pages + [g.page])
    requires g.NewPage? ==> forall p <- g.page.chunks :: p !in c.items
    ensures Grown(c, WithSlabs(c, s, id), id)
  {
    hide Chunks;
    var k, k' := c.slabs.classes[id], s.classes[id];
    if k'.pages == k.pages {
      SamePagesSameChunks(k, k');
    } else {
      MorePages(k, k', g.page);
      ZeroedPageIs(g.page.chunks, Room(k'.size));
    }
  }

  lemma SlabsAllocGrows(c: Cache, ntotal: nat, id: nat, g: Grant)
    requires Config(c) && 1 <= id && Granted(c, id, g)
    ensures var (d, r) := SlabsAlloc(c, ntotal, id, g);
      Grown(c, d, id) && d.slabs == Alloc(c.slabs, ntotal, id, g).0 && r == Alloc(c.slabs, ntotal, id, g).1
  {
    AllocKeeps(c.slabs, ntotal, id, g);
    AllocPages(c.slabs, ntotal, id, g);
    hide SlabInv, Chunks, Out, Alloc, GrantOk, HasChunk, Grown, SameElsewhere;
    WithSlabsGrown(c, Alloc(c.slabs, ntotal, id, g).0, id, g);
  }

  lemma SamePagesSameChunks(k: SlabClass, k': SlabClass)
    requires k'.pages == k.pages
    ensures Chunks(k') == Chunks(k)
  {
  }

  lemma MorePages(k: SlabClass, k': SlabClass, page: Page)
    requires k'.pages == k.pages + [page]
    ensures Chunks(k) <= Chunks(k')
    ensures forall x <- Chunks(k') :: x in Chunks(k) || x in page.chunks
  {
    assert k'.pages[..|k'.pages| - 1] == k.pages;
  }

  lemma ZeroedPageIs(chunks: seq<Ptr>, room: nat)
    ensures forall x <- chunks :: x in ZeroedPage(chunks, room)
    ensures forall x <- ZeroedPage(chunks, room) :: x in chunks && ZeroedPage(chunks, room)[x] == Zeroed(room)
  {
  }

  // ---------------------------------------------------------------- headers outside the table do not matter to it

  /** The table, the queues and the headers of what is in them are the same. */
  ghost predicate SameTable(c: Cache, d: Cache) {
    && d.table == c.table && d.queues == c.queues && d.clock == c.clock
    && (forall x <- c.table :: x in c.items && x in d.items && d.items[x] == c.items[x])
    && (forall x <- d.items :: d.items[x].linked ==> x in c.table)
  }

  lemma TableFrame(c: Cache, d: Cache)
    requires Members(c) && Keys(c) && Sorted(c) && SameTable(c, d)
    ensures Members(d) && Keys(d) && Sorted(d)
  {
    KeysFrame(c, d);
    MembersFrame(c, d);
    SortedFrame(c, d);
  }

  lemma KeysFrame(c: Cache, d: Cache)
    requires Keys(c) && SameTable(c, d)
    ensures Keys(d)
  {
    hide Hash;
  }

  lemma MembersFrame(c: Cache, d: Cache)
    requires Members(c) && SameTable(c, d)
    ensures Members(d)
  {
    hide Distinct;
  }

  lemma SortedFrame(c: Cache, d: Cache)
    requires Members(c) && Sorted(c) && SameTable(c, d)
    ensures Sorted(d)
  {
    hide Distinct;
  }

  // ---------------------------------------------------------------- a failed slabs_alloc

  lemma HomesGrown(c: Cache, d: Cache, id: nat)
    requires Homes(c) && Grown(c, d, id) && 1 <= id
    requires Out(d.slabs.classes[id]) == Out(c.slabs.classes[id])
    requires Chunks(d.slabs.classes[id]) == Chunks(c.slabs.classes[id])
    ensures Homes(d)
  {
    hide Out, Chunks;
    forall i, x | 1 <= i < |d.slabs.classes| && x in Chunks(d.slabs.classes[i])
      ensures x in d.items && HomeOk(d.items[x], d.slabs.classes[i], i, x)
    {
      assert x in Chunks(c.slabs.classes[i]);
    }
  }

  lemma SizedGrown(c: Cache, d: Cache, id: nat)
    requires Sized(c) && Grown(c, d, id)
    requires d.slabs.classes[id].charges == c.slabs.classes[id].charges
    ensures Sized(d)
  {
    hide Out, Chunks, ClassFor;
    assert ClassSizes(d.slabs) == ClassSizes(c.slabs);
  }

  lemma FailIs(c: Cache, ntotal: nat, id: nat, g: Grant)
    requires Config(c) && 1 <= id && Granted(c, id, g) && SlabsAlloc(c, ntotal, id, g).1 == None
    ensures var d := SlabsAlloc(c, ntotal, id, g).0; var k, k' := c.slabs.classes[id], d.slabs.classes[id];
      && Config(d) && Grown(c, d, id) && !HasChunk(k) && !HasChunk(k') && SameElsewhere(c.slabs, d.slabs, id)
      && Extends(c, d, Room(k.size))
      && Out(k') == Out(k) && Chunks(k') == Chunks(k) && k'.charges == k.charges
      && k'.slTotal == k.slTotal && k'.leaked == k.leaked
  {
    AllocKeeps(c.slabs, ntotal, id, g);
    SlabsAllocGrows(c, ntotal, id, g);
    hide SlabInv, Chunks, Out, Alloc, GrantOk, HasChunk, SlabsAlloc;
  }

  /** A slabs_alloc that fails changes nothing an item depends on. */
  lemma FailKeeps(c: Cache, ntotal: nat, id: nat, g: Grant)
    requires Inv(c) && 1 <= id && Granted(c, id, g) && SlabsAlloc(c, ntotal, id, g).1 == None
    ensures var d := SlabsAlloc(c, ntotal, id, g).0;
      && Inv(d) && Extends(c, d, Room(c.slabs.classes[id].size)) && SameTable(c, d)
      && !HasChunk(c.slabs.classes[id]) && !HasChunk(d.slabs.classes[id])
      && SameElsewhere(c.slabs, d.slabs, id)
      && d.slabs.classes[id].slTotal == c.slabs.classes[id].slTotal
      && d.slabs.classes[id].leaked == c.slabs.classes[id].leaked
  {
    hide Config, Homes, Sized, Sorted, Members, Keys, Chunks, Out, GrantOk, HasChunk, SlabsAlloc, Grown,
      SameElsewhere, SameTable;
    FailIs(c, ntotal, id, g);
    var d := SlabsAlloc(c, ntotal, id, g).0;
    HomesGrown(c, d, id);
    SizedGrown(c, d, id);
    SameTableGrown(c, d, id);
    TableFrame(c, d);
  }

  lemma SameTableGrown(c: Cache, d: Cache, id: nat)
    requires Members(c) && Grown(c, d, id)
    ensures SameTable(c, d)
  {
    hide Distinct, Chunks;
  }

  // ---------------------------------------------------------------- a successful slabs_alloc

  /** The header do_item_alloc writes. */
  ghost predicate FreshItem(it: Item, was: Item, id: nat, key: seq<byte>, nbytes: nat) {
    && it == Item(it.payload, |key|, nbytes, was.hv, was.time, 1, false, false, id)
    && |it.payload| == |was.payload| && |key| <= |it.payload| && it.Key() == key
    && it.Total() == HEADER + |key| + nbytes
  }

  lemma HomesTake(c: Cache, d: Cache, e: Cache, id: nat, p: Ptr)
    requires Homes(c) && Grown(c, d, id) && 1 <= id && Separated(d.slabs)
    requires p in Chunks(d.slabs.classes[id]) && Out(d.slabs.classes[id]) == Out(c.slabs.classes[id]) + {p}
    requires Out(c.slabs.classes[id]) <= Chunks(c.slabs.classes[id]) && p !in Out(c.slabs.classes[id])
    requires p in d.items && p in e.items && e.slabs == d.slabs && e.items == d.items[p := e.items[p]]
    requires e.items[p].clsid == id && |e.items[p].payload| == |d.items[p].payload|
    ensures Homes(e)
  {
    hide Out, Chunks;
    forall i, x | 1 <= i < |e.slabs.classes| && x in Chunks(e.slabs.classes[i])
      ensures x in e.items && HomeOk(e.items[x], e.slabs.classes[i], i, x)
    {
      if x == p {
        assert i == id;
        assert p in c.items ==> p in Chunks(c.slabs.classes[id]);
      } else if i == id && x !in Chunks(c.slabs.classes[id]) {
        assert x !in Out(c.slabs.classes[id]);
      } else {
        assert x in Chunks(c.slabs.classes[i]);
      }
    }
  }

  /** The chunk comes with a header that says it is free. */
  lemma TakenWasFree(c: Cache, d: Cache, id: nat, p: Ptr)
    requires Homes(c) && LiveBut(c, {}) && Grown(c, d, id) && 1 <= id
    requires p in Chunks(d.slabs.classes[id]) && p !in Out(c.slabs.classes[id])
    ensures p in d.items && d.items[p].clsid == 0 && !d.items[p].linked && d.items[p].refcount == 0
    ensures |d.items[p].payload| == Room(d.slabs.classes[id].size)
    ensures p in c.items ==> c.items[p].clsid == 0 && d.items[p] == c.items[p]
  {
    hide Out, Chunks;
  }

  lemma SizedTake(c: Cache, d: Cache, e: Cache, id: nat, p: Ptr)
    requires Sized(c) && Grown(c, d, id) && 1 <= id && |d.slabs.classes| >= 2
    requires p in d.items && p in e.items && d.items[p].clsid == 0 && e.slabs == d.slabs
    requires e.items == d.items[p := e.items[p]]
    requires d.slabs.classes[id].charges == c.slabs.classes[id].charges[p := e.items[p].Total()]
    requires var it := e.items[p];
      && it.clsid == id && !it.slabbed && it.refcount == 1 && it.Total() <= d.slabs.classes[id].size
      && it.nkey + it.nbytes <= |it.payload| && id == ClassFor(ClassSizes(c.slabs), it.Total())
    ensures Sized(e)
  {
    hide Out, Chunks, ClassFor;
    assert ClassSizes(d.slabs) == ClassSizes(c.slabs);
    forall x <- e.items | e.items[x].clsid != 0
      ensures e.items[x].clsid < |e.slabs.classes| && SizeOk(e.items[x], e.slabs, x)
    {
      assert x != p ==> x in c.items && e.items[x] == c.items[x];
    }
  }

  /** d is c after slabs_alloc has handed out p. */
  ghost predicate Taken(c: Cache, d: Cache, id: nat, p: Ptr, ntotal: nat) {
    && Config(d) && Grown(c, d, id) && Separated(d.slabs) && 1 <= id
    && p in Chunks(d.slabs.classes[id])
    && p !in Out(c.slabs.classes[id]) && Out(c.slabs.classes[id]) <= Chunks(c.slabs.classes[id])
    && Out(d.slabs.classes[id]) == Out(c.slabs.classes[id]) + {p}
    && d.slabs.classes[id].charges == c.slabs.classes[id].charges[p := ntotal]
  }

  lemma AllocTakes(c: Cache, ntotal: nat, id: nat, g: Grant)
    requires Config(c) && 1 <= id && Granted(c, id, g) && SlabsAlloc(c, ntotal, id, g).1.Some?
    ensures var (d, r) := SlabsAlloc(c, ntotal, id, g); Taken(c, d, id, r.value, ntotal)
  {
    var (d, r) := SlabsAlloc(c, ntotal, id, g);
    AllocKeeps(c.slabs, ntotal, id, g);
    SlabsAllocGrows(c, ntotal, id, g);
    SlabSeparate(d.slabs);
    hide SlabInv, Alloc, GrantOk, HasChunk, SlabsAlloc, Separated, Grown;
    OutIsChunk(d.slabs.classes[id], r.value);
    OutChunks(c.slabs.classes[id]);
    hide Chunks, Out;
  }

  lemma LiveTake(c: Cache, d: Cache, e: Cache, id: nat, p: Ptr)
    requires LiveBut(c, {}) && id < |c.slabs.classes| && Extends(c, d, Room(c.slabs.classes[id].size))
    requires p in d.items && p in e.items && e.items == d.items[p := e.items[p]]
    requires e.items[p].clsid != 0 && e.items[p].refcount > 0
    ensures LiveBut(e, {})
  {
  }

  lemma InitIsFresh(d: Cache, p: Ptr, id: nat, key: seq<byte>, nbytes: nat)
    requires p in d.items && |key| < 0x1_0000 && |key| + nbytes <= |d.items[p].payload|
    ensures FreshItem(Init(d, p, id, key, nbytes).items[p], d.items[p], id, key, nbytes)
  {
  }

  /** e is d with the header of the chunk p written; p was in nobody's use in c. */
  ghost predicate Allocated(c: Cache, d: Cache, e: Cache, p: Ptr, id: nat, key: seq<byte>, nbytes: nat) {
    && p in d.items && e == Init(d, p, id, key, nbytes)
    && p !in c.table && (p in c.items ==> c.items[p].clsid == 0)
    && FreshItem(e.items[p], d.items[p], id, key, nbytes)
    && Inv(e) && SameTable(c, e) && Extends(c, d, |d.items[p].payload|)
  }

  lemma InitHeader(c: Cache, d: Cache, p: Ptr, id: nat, ntotal: nat)
    requires Homes(c) && Members(c) && LiveBut(c, {}) && Taken(c, d, id, p, ntotal)
    ensures p in d.items && |d.items[p].payload| == Room(d.slabs.classes[id].size) && d.items[p].clsid == 0
    ensures p !in c.table && (p in c.items ==> c.items[p].clsid == 0)
    ensures SameTable(c, d)
  {
    hide SlabInv, Chunks, Out, HasChunk, Homes, Separated, Members, Config, SameElsewhere, Extends, LiveBut;
    TakenWasFree(c, d, id, p);
    SameTableGrown(c, d, id);
    NotInTable(c, d, p);
  }

  lemma InitKeeps(c: Cache, d: Cache, p: Ptr, id: nat, key: seq<byte>, nbytes: nat)
    requires Inv(c) && Taken(c, d, id, p, HEADER + |key| + nbytes) && |key| < 0x1_0000
    requires id == ClassFor(ClassSizes(c.slabs), HEADER + |key| + nbytes) && |c.slabs.classes| >= 2
    requires HEADER + |key| + nbytes <= d.slabs.classes[id].size
    ensures p in d.items && Allocated(c, d, Init(d, p, id, key, nbytes), p, id, key, nbytes)
  {
    hide SlabInv, Chunks, Out, HasChunk, Homes, Sized, Sorted, Separated, ClassFor, Members, Keys, Extends,
      LiveBut, Config;
    InitHeader(c, d, p, id, HEADER + |key| + nbytes);
    var e := Init(d, p, id, key, nbytes);
    InitIsFresh(d, p, id, key, nbytes);
    HomesTake(c, d, e, id, p);
    SizedTake(c, d, e, id, p);
    LiveTake(c, d, e, id, p);
    SameTableInit(c, d, e, p);
    TableFrame(c, e);
    ConfigFrame(d, e);
  }

  lemma SameTableInit(c: Cache, d: Cache, e: Cache, p: Ptr)
    requires SameTable(c, d) && p !in c.table && p in e.items && !e.items[p].linked
    requires e == d.(items := d.items[p := e.items[p]])
    ensures SameTable(c, e)
  {
  }

  /** A slabs_alloc that succeeds, with the header written afterwards, keeps every invariant; the
      chunk was in nobody's use. */
  lemma ItemTakeKeeps(c: Cache, key: seq<byte>, nbytes: nat, id: nat, g: Grant)
    requires Inv(c) && 1 <= id && Granted(c, id, g) && |key| < 0x1_0000
    requires id == ClassFor(ClassSizes(c.slabs), HEADER + |key| + nbytes)
    requires SlabsAlloc(c, HEADER + |key| + nbytes, id, g).1.Some?
    ensures
      var (d, r) := SlabsAlloc(c, HEADER + |key| + nbytes, id, g);
      && r.value in d.items && Allocated(c, d, Init(d, r.value, id, key, nbytes), r.value, id, key, nbytes)
      && SameElsewhere(c.slabs, d.slabs, id)
  {
    hide SlabInv, Chunks, Out, HasChunk, Homes, Sized, Sorted, Separated, Members, Keys, SlabsAlloc, ClassFor,
      Allocated, LiveBut;
    var (d, r) := SlabsAlloc(c, HEADER + |key| + nbytes, id, g);
    AllocTakes(c, HEADER + |key| + nbytes, id, g);
    Enough(c.slabs, HEADER + |key| + nbytes, id);
    InitKeeps(c, d, r.value, id, key, nbytes);
  }

  lemma Enough(s: Slabs, ntotal: nat, id: nat)
    requires |s.classes| >= 2 && id != 0 && id == ClassFor(ClassSizes(s), ntotal)
    ensures id < |s.classes| && ntotal <= s.classes[id].size
  {
    ClassForIsLeast(ClassSizes(s), ntotal);
  }

  lemma OutChunks(k: SlabClass)
    ensures Out(k) <= Chunks(k)
  {
  }

  lemma NotInTable(c: Cache, d: Cache, p: Ptr)
    requires Members(c) && SameTable(c, d) && p in d.items && !d.items[p].linked
    ensures p !in c.table
  {
    hide Distinct;
  }
}
