/** The table of chunk sizes never changes, so what is true of the constructor's table is true of every
    run: chunks are aligned, and little memory is wasted. */
module CacheShape {
  import opened Basics
  import opened Items
  import opened SizeClasses
  import opened SlabModel
  import opened SlabProofs
  import opened CacheModel
  import opened CacheInv
  import opened CacheOps
  import opened CacheAllocProofs
  import opened CacheExact
  import opened CacheRuns
  import opened CacheGuarantees

  ghost predicate SameShape(s: Slabs, s': Slabs) {
    && |s'.classes| == |s.classes|
    && forall i :: 0 <= i < |s.classes| ==>
         s'.classes[i].size == s.classes[i].size && s'.classes[i].perslab == s.classes[i].perslab
  }

  lemma PlacesShape(s: Slabs, s': Slabs)
    requires SamePlaces(s, s')
    ensures SameShape(s, s')
  {
  }

  lemma AllocShape(s: Slabs, size: nat, id: nat, g: Grant)
    ensures SameShape(s, Alloc(s, size, id, g).0)
  {
  }

  lemma SlabsAllocShape(c: Cache, ntotal: nat, id: nat, g: Grant)
    requires id < |c.slabs.classes|
    ensures SameShape(c.slabs, SlabsAlloc(c, ntotal, id, g).0.slabs)
  {
    hide SameShape, Alloc;
    AllocShape(c.slabs, ntotal, id, g);
  }

  lemma AllocChunkShape(c: Cache, ntotal: nat, id: nat, now: nat, ans: Answers)
    requires id < |c.slabs.classes|
    ensures SameShape(c.slabs, AllocChunk(c, ntotal, id, now, ans).0.slabs)
  {
    hide SlabsAlloc, Evict, Repair, SamePlaces;
    SlabsAllocShape(c, ntotal, id, ans.grant1);
    var c1 := SlabsAlloc(c, ntotal, id, ans.grant1).0;
    EvictPlaces(c1, id, ans.grow1);
    var c2 := Evict(c1, id, ans.grow1);
    PlacesShape(c1.slabs, c2.slabs);
    SlabsAllocShape(c2, ntotal, id, ans.grant2);
    var c3 := SlabsAlloc(c2, ntotal, id, ans.grant2).0;
    RepairPlaces(c3, id, now, ans.grow2);
    var c4 := Repair(c3, id, now, ans.grow2);
    PlacesShape(c3.slabs, c4.slabs);
    SlabsAllocShape(c4, ntotal, id, ans.grant3);
  }

  lemma ReleaseShape(c: Cache, p: Ptr, grow: bool)
    requires Known(c, p)
    ensures SameShape(c.slabs, Release(c, p, grow).slabs)
  {
  }

  lemma UnlinkShape(c: Cache, p: Ptr, grow: bool)
    requires Known(c, p)
    ensures SameShape(c.slabs, Unlink(c, p, grow).slabs)
  {
    UnlinkPlaces(c, p, grow);
    hide Unlink;
  }

  lemma GetSlabs(c: Cache, found: Option<Ptr>, now: nat)
    requires found.Some? ==> Known(c, found.value)
    ensures Get(c, found, now).slabs == c.slabs
  {
    hide Without;
  }

  lemma StoreShape(c: Cache, p: Ptr, found: Option<Ptr>, now: nat, grow: bool)
    requires Known(c, p)
    requires (found.Some? ==> Known(c, found.value) && found.value in c.table && c.items[found.value].linked)
    ensures SameShape(c.slabs, Store(c, p, found, now, grow).slabs)
  {
    hide Get, Unlink, Release, Without, SameContents;
    if found.Some? {
      var o := found.value;
      GetSameKeys(c, found, now);
      var c1 := Get(c, found, now);
      SameContentsRefl(c);
      SameContentsTrans(c, c, c1, p, o);
      UnlinkSameKeys(c1, o, grow);
      var c2 := Unlink(c1, o, grow);
      SameContentsTrans(c, c1, c2, p, o);
      LinkSameKeys(c2, p, now);
      var c3 := Link(c2, p, now);
      SameContentsTrans(c, c2, c3, p, o);
      GetSlabs(c, found, now);
      UnlinkShape(c1, o, grow);
      ReleaseShape(c3, o, grow);
    }
  }

  /** No operation changes the size of a class or the number of chunks on its pages. */
  lemma StepShape(w: World, op: Op)
    requires WorldInv(w) && Allowed(w, op)
    ensures SameShape(w.c.slabs, Step(w, op).c.slabs)
  {
    hide WorldInv, Get, Release, Unlink, Store, AllocChunk, AnswersOk, ClassFor, FoundIn, Distinguishable,
      Hash, SameShape;
    ShapeRefl(w.c.slabs);
    match op
    case OpAlloc(key, nbytes, ans) =>
      var ntotal := HEADER + |key| + nbytes;
      AllocChunkShape(w.c, ntotal, ClassFor(ClassSizes(w.c.slabs), ntotal), w.now, ans);
    case OpRelease(p, _, grow) => ReleaseShape(w.c, p, grow);
    case OpUnlink(p, grow) => UnlinkShape(w.c, p, grow);
    case OpStore(p, found, grow) =>
      BeforeStore(w, p, found);
      StoreShape(SetHash(w.c, p), p, found, w.now, grow);
    case OpGet(_, found) => GetSlabs(w.c, found, w.now);
    case _ =>
  }

  lemma ShapeRefl(s: Slabs)
    ensures SameShape(s, s)
  {
  }

  // ---------------------------------------------------------------- the constructor's table in every run

  /** The classes are those the constructor made. */
  ghost predicate Shaped(s: Slabs, chunkSize: nat, max: nat) {
    && ClassSizes(s) == Table(chunkSize, max)
    && forall i :: 0 <= i < |s.classes| ==> s.classes[i].perslab == PerslabOf(ClassSizes(s), max, i)
  }

  lemma InitialShaped(chunkSize: nat, max: nat, memLimit: nat)
    ensures Shaped(Initial(chunkSize, max, memLimit), chunkSize, max)
  {
    hide Table, PerslabOf;
    assert ClassSizes(Initial(chunkSize, max, memLimit)) == Table(chunkSize, max);
  }

  lemma StaysShaped(s: Slabs, s': Slabs, chunkSize: nat, max: nat)
    requires Shaped(s, chunkSize, max) && SameShape(s, s')
    ensures Shaped(s', chunkSize, max)
  {
    hide Table, PerslabOf;
    assert ClassSizes(s') == ClassSizes(s);
  }

  lemma {:induction false} RunShaped(ws: seq<World>, ops: seq<Op>, chunkSize: nat, max: nat, memLimit: nat, i: nat)
    requires ConfigOk(chunkSize, max) && 0 < max
    requires Run(ws, ops) && Start(ws[0], chunkSize, max, memLimit) && i < |ws|
    ensures Shaped(ws[i].c.slabs, chunkSize, max)
    decreases i
  {
    hide WorldInv, Allowed, Step, Shaped;
    if i == 0 {
      InitialShaped(chunkSize, max, memLimit);
    } else {
      RunShaped(ws, ops, chunkSize, max, memLimit, i - 1);
      RunInv(ws, ops, chunkSize, max, memLimit, i - 1);
      assert Allowed(ws[i - 1], ops[i - 1]) && ws[i] == Step(ws[i - 1], ops[i - 1]);
      StepShape(ws[i - 1], ops[i - 1]);
      StaysShaped(ws[i - 1].c.slabs, ws[i].c.slabs, chunkSize, max);
    }
  }

  /** In every run every chunk of every page is 8-aligned and lies inside its page. */
  lemma ChunksAlignedInRuns(
    ws: seq<World>, ops: seq<Op>, chunkSize: nat, max: nat, memLimit: nat, i: nat, id: nat, p: Ptr)
    returns (page: Page)
    requires ConfigOk(chunkSize, max) && 0 < max
    requires Run(ws, ops) && Start(ws[0], chunkSize, max, memLimit) && i < |ws|
    requires 1 <= id < |ws[i].c.slabs.classes| && p in Chunks(ws[i].c.slabs.classes[id])
    ensures var k := ws[i].c.slabs.classes[id];
      && page in k.pages && page.base <= p.address && p.address + k.size <= page.base + k.size * k.perslab
      && p.address % 8 == 0
  {
    hide Allowed, Step, Shaped, Inv, Chunks, SlabInv, Config;
    RunInv(ws, ops, chunkSize, max, memLimit, i);
    RunShaped(ws, ops, chunkSize, max, memLimit, i);
    MembersLength(ws[i].c);
    ConfigSlabs(ws[i].c);
    ShapedAligned(ws[i].c.slabs, chunkSize, max, id);
    page := ChunkInPage(ws[i].c.slabs, id, p);
  }

  /** And the memory behind the header of a live item ends where its chunk does, and holds key and data. */
  lemma PayloadInside(
    ws: seq<World>, ops: seq<Op>, chunkSize: nat, max: nat, memLimit: nat, i: nat, p: Ptr)
    requires ConfigOk(chunkSize, max) && 0 < max
    requires Run(ws, ops) && Start(ws[0], chunkSize, max, memLimit) && i < |ws|
    requires p in ws[i].c.items && ws[i].c.items[p].clsid != 0
    ensures var it, s := ws[i].c.items[p], ws[i].c.slabs;
      && it.clsid < |s.classes| && 48 + |it.payload| == s.classes[it.clsid].size
      && it.nkey + it.nbytes <= |it.payload|
  {
    hide WorldInv, Allowed, Step;
    RunInv(ws, ops, chunkSize, max, memLimit, i);
    LiveInside(ws[i], p);
  }

  lemma LiveInside(w: World, p: Ptr)
    requires WorldInv(w) && p in w.c.items && w.c.items[p].clsid != 0
    ensures var it, s := w.c.items[p], w.c.slabs;
      && it.clsid < |s.classes| && 48 + |it.payload| == s.classes[it.clsid].size
      && it.nkey + it.nbytes <= |it.payload|
  {
    hide ItemInv, Members, Keys, Sorted, LiveBut, SlabInv, ClassFor, Separated;
    assert p in Out(w.c.slabs.classes[w.c.items[p].clsid]);
    assert p in Chunks(w.c.slabs.classes[w.c.items[p].clsid]);
  }

  lemma ConfigSlabs(c: Cache)
    requires Config(c)
    ensures SlabInv(c.slabs)
  {
    hide SlabInv;
  }

  lemma ShapedAligned(s: Slabs, chunkSize: nat, max: nat, id: nat)
    requires Shaped(s, chunkSize, max) && 1 <= id < |s.classes| && 0 < max
    ensures s.classes[id].size % CHUNK_ALIGN_BYTES == 0 || s.classes[id].perslab == 1
  {
    hide Table;
    var table := Table(chunkSize, max);
    assert |table| == |s.classes| && table[id] == s.classes[id].size by {
      assert ClassSizes(s)[id] == s.classes[id].size;
    }
    TableIncreases(chunkSize, max, 0, id);
  }

  /** In every run an item of n bytes (with its header) above the smallest class takes at most
      5/4 (n - 1) + 7 bytes, and in the last class less than 25/16 (n - 1). */
  lemma WasteInRuns(ws: seq<World>, ops: seq<Op>, chunkSize: nat, max: nat, memLimit: nat, i: nat, p: Ptr)
    requires ConfigOk(chunkSize, max) && 0 < max
    requires Run(ws, ops) && Start(ws[0], chunkSize, max, memLimit) && i < |ws|
    requires p in ws[i].c.items && POWER_SMALLEST < ws[i].c.items[p].clsid
    ensures ws[i].c.items[p].clsid < |ws[i].c.slabs.classes|
    ensures var it, s := ws[i].c.items[p], ws[i].c.slabs; var n, id := 48 + it.nkey + it.nbytes, it.clsid;
      if id < |s.classes| - 1 then 4 * s.classes[id].size <= 5 * (n - 1) + 28
      else 16 * s.classes[id].size < 25 * (n - 1)
  {
    hide Allowed, Step, Inv, Table, ClassFor;
    RunInv(ws, ops, chunkSize, max, memLimit, i);
    RunShaped(ws, ops, chunkSize, max, memLimit, i);
    var c := ws[i].c;
    InvCore(c);
    LiveKnown(c, p);
    hide WorldInv, Core;
    assert ClassSizes(c.slabs)[c.items[p].clsid] == c.slabs.classes[c.items[p].clsid].size;
    WasteBound(chunkSize, max, c.items[p].Total());
  }
}
