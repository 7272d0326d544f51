/** Where the chunks of the allocator are, in every run of the cache. */
module CacheChunks {
  import opened Basics
  import opened Items
  import opened SizeClasses
  import opened SlabModel
  import opened SlabProofs
  import opened CacheModel
  import opened CacheInv
  import opened CacheOps
  import opened CacheAllocProofs
  import opened CacheRuns
  import opened CacheGuarantees
  import opened CacheShape

  // ---------------------------------------------------------------- conservation

  /** The five things a chunk can be. */
  datatype ChunkState = Unused | Listed | Lost | Stored | HeldOnly

  ghost function StateOf(w: World, id: nat, p: Ptr): ChunkState
    requires id < |w.c.slabs.classes|
  {
    var k := w.c.slabs.classes[id];
    if p in k.tail then Unused else if p in k.slots then Listed else if p in k.leaked then Lost
    else if p in w.c.table then Stored else HeldOnly
  }

  ghost predicate IsState(w: World, id: nat, p: Ptr, s: ChunkState)
    requires id < |w.c.slabs.classes|
  {
    var k := w.c.slabs.classes[id];
    match s
    case Unused => p in k.tail
    case Listed => p in k.slots
    case Lost => p in k.leaked
    case Stored => p in w.c.table && p in w.c.items && w.c.items[p].clsid == id
    case HeldOnly => p !in w.c.table && Held(w, p) != multiset{} && p in w.c.items && w.c.items[p].clsid == id
  }

  lemma OutIsHome(c: Cache, id: nat, p: Ptr)
    requires Inv(c) && 1 <= id < |c.slabs.classes| && p in Chunks(c.slabs.classes[id])
    ensures p in c.items && (c.items[p].clsid == 0 || c.items[p].clsid == id)
    ensures (c.items[p].clsid == id <==> p in Out(c.slabs.classes[id]))
  {
    hide SlabInv, Out, Chunks, Members, Sized, Keys, Sorted;
  }

  lemma ClassOk(c: Cache, id: nat)
    requires Inv(c) && 1 <= id < |c.slabs.classes|
    ensures ClassInv(c.slabs.classes[id])
  {
    hide ClassInv, Separate, Memory, Homes, Members, Sized, Keys, Sorted;
  }

  /** In every reachable state each chunk of each page is in exactly one of five states: not yet handed
      out, on the free list, lost, stored (and linked), or held without being stored. */
  lemma OneState(w: World, id: nat, p: Ptr, s: ChunkState)
    requires WorldInv(w) && 1 <= id < |w.c.slabs.classes| && p in Chunks(w.c.slabs.classes[id])
    ensures IsState(w, id, p, s) <==> s == StateOf(w, id, p)
  {
    OutIsHome(w.c, id, p);
    ClassOk(w.c, id);
    Conservation(w.c.slabs.classes[id]);
    RefcountExact(w, p);
    hide WorldInv, ClassInv, Chunks, Out;
  }

  /** The items of a class that are stored or held. */
  ghost function Live(c: Cache, id: nat): set<Ptr> {
    set p | p in c.items && c.items[p].clsid == id
  }

  /** ITEM_ntotal of each. */
  ghost function Totals(c: Cache, id: nat): map<Ptr, nat> {
    map p | p in c.items && p in Live(c, id) :: c.items[p].Total()
  }

  lemma LiveIsOut(c: Cache, id: nat)
    requires Inv(c) && 1 <= id < |c.slabs.classes|
    ensures Live(c, id) == Out(c.slabs.classes[id])
  {
    LiveOut(c, id);
    hide Inv, Out, Chunks;
    forall p | p in Out(c.slabs.classes[id]) ensures p in Live(c, id) {
      OutInChunks(c.slabs.classes[id], p);
      OutIsHome(c, id, p);
    }
  }

  lemma LiveOut(c: Cache, id: nat)
    requires Inv(c) && 1 <= id < |c.slabs.classes|
    ensures Live(c, id) <= Out(c.slabs.classes[id])
  {
    hide SlabInv, Out, Chunks, Members, Sized, Keys, Sorted;
  }

  lemma OutInChunks(k: SlabClass, p: Ptr)
    requires p in Out(k)
    ensures p in Chunks(k)
  {
  }

  /** Conservation: the chunks of all pages of a class are those not yet handed out, those on the free
      list, the lost ones and the live items. */
  lemma ChunksConserved(w: World, id: nat)
    requires WorldInv(w) && 1 <= id < |w.c.slabs.classes|
    ensures var k := w.c.slabs.classes[id];
      |k.pages| * k.perslab == |k.tail| + |k.slots| + |k.leaked| + |Live(w.c, id)|
  {
    ClassOk(w.c, id);
    LiveIsOut(w.c, id);
    hide WorldInv, ClassInv, Out, Live;
    Conservation(w.c.slabs.classes[id]);
  }

  /** What the lost chunks of the class were charged when they were handed out. */
  ghost function LostCharges(k: SlabClass): map<Ptr, nat> {
    map p | p in k.leaked && p in k.charges :: k.charges[p]
  }

  /** `requested` is the sum of ITEM_ntotal over the live items of the class, and of what its lost chunks
      were charged. */
  lemma RequestedIsTotal(w: World, id: nat)
    requires WorldInv(w) && 1 <= id < |w.c.slabs.classes|
    ensures var k := w.c.slabs.classes[id]; k.requested == Sum(Totals(w.c, id)) + Sum(LostCharges(k))
  {
    hide Inv, ItemInv, Partition, Layout, Live;
    ClassOk(w.c, id);
    LiveIsOut(w.c, id);
    Charged(w.c, id);
    var k := w.c.slabs.classes[id];
    OutNotLeaked(k);
    hide Out;
    assert k.charges == Totals(w.c, id) + LostCharges(k);
    SumUnion(Totals(w.c, id), LostCharges(k));
  }

  lemma OutNotLeaked(k: SlabClass)
    ensures Out(k) !! k.leaked
  {
  }

  lemma Charged(c: Cache, id: nat)
    requires Inv(c) && 1 <= id < |c.slabs.classes|
    ensures forall p <- Live(c, id) ::
      p in c.items && p in c.slabs.classes[id].charges && c.slabs.classes[id].charges[p] == c.items[p].Total()
  {
    hide SlabInv, Homes, Members, Keys, Sorted, ClassFor;
  }

  // ---------------------------------------------------------------- nothing is lost while realloc works

  ghost predicate NothingLost(s: Slabs) {
    forall id :: 0 <= id < |s.classes| ==> s.classes[id].leaked == {}
  }

  lemma FreeLoses(s: Slabs, p: Ptr, size: nat, id: nat)
    requires NothingLost(s)
    ensures NothingLost(Free(s, p, size, id, true))
  {
  }

  lemma AllocLoses(s: Slabs, size: nat, id: nat, g: Grant)
    requires NothingLost(s)
    ensures NothingLost(Alloc(s, size, id, g).0)
  {
  }

  lemma UnlinkLoses(c: Cache, p: Ptr)
    requires Known(c, p) && NothingLost(c.slabs)
    ensures NothingLost(Unlink(c, p, true).slabs)
    ensures forall x <- c.items :: Known(c, x) ==> Known(Unlink(c, p, true), x)
  {
    hide Free, Without, NothingLost;
    FreeLoses(c.slabs, p, c.items[p].Total(), c.items[p].clsid);
  }

  lemma ReleaseLoses(c: Cache, p: Ptr)
    requires Known(c, p) && NothingLost(c.slabs)
    ensures NothingLost(Release(c, p, true).slabs)
  {
    hide Free, NothingLost;
    FreeLoses(c.slabs, p, c.items[p].Total(), c.items[p].clsid);
  }

  lemma StoreLoses(c: Cache, p: Ptr, found: Option<Ptr>, now: nat)
    requires Known(c, p) && (found.Some? ==> Known(c, found.value)) && NothingLost(c.slabs)
    ensures NothingLost(Store(c, p, found, now, true).slabs)
  {
    hide NothingLost, Unlink, Release, Without;
    if found.Some? {
      var c1 := Get(c, found, now);
      UnlinkLoses(c1, found.value);
      ReleaseLoses(Link(Unlink(c1, found.value, true), p, now), found.value);
    }
  }

  lemma EvictLoses(c: Cache, id: nat)
    requires NothingLost(c.slabs)
    ensures NothingLost(Evict(c, id, true).slabs)
  {
    hide NothingLost, Unlink, LastIdle;
    if QueueKnown(c, id) {
      var i := LastIdle(c.items, c.queues[id], SEARCH_ITEMS);
      if i.Some? {
        assert Known(c, c.queues[id][i.value]);
        UnlinkLoses(c, c.queues[id][i.value]);
      }
    }
  }

  lemma RepairLoses(c: Cache, id: nat, now: nat)
    requires NothingLost(c.slabs)
    ensures NothingLost(Repair(c, id, now, true).slabs)
  {
    hide NothingLost, Unlink, LastExpired;
    if QueueKnown(c, id) {
      var i := LastExpired(c.items, c.queues[id], SEARCH_ITEMS, now);
      if i.Some? {
        var v := c.queues[id][i.value];
        assert Known(c, v);
        UnlinkLoses(Zero(c.(clock := now), v), v);
      }
    }
  }

  lemma SlabsAllocLoses(c: Cache, ntotal: nat, id: nat, g: Grant)
    requires id < |c.slabs.classes| && NothingLost(c.slabs)
    ensures NothingLost(SlabsAlloc(c, ntotal, id, g).0.slabs)
  {
    hide NothingLost, Alloc;
    AllocLoses(c.slabs, ntotal, id, g);
  }

  lemma AllocChunkLoses(c: Cache, ntotal: nat, id: nat, now: nat, ans: Answers)
    requires id < |c.slabs.classes| && NothingLost(c.slabs) && ans.grow1 && ans.grow2
    ensures NothingLost(AllocChunk(c, ntotal, id, now, ans).0.slabs)
  {
    hide NothingLost, SlabsAlloc, Evict, Repair;
    SlabsAllocLoses(c, ntotal, id, ans.grant1);
    var c2 := Stage2(c, ntotal, id, ans);
    EvictLoses(SlabsAlloc(c, ntotal, id, ans.grant1).0, id);
    SlabsAllocLoses(c2, ntotal, id, ans.grant2);
    RepairLoses(SlabsAlloc(c2, ntotal, id, ans.grant2).0, id, now);
    SlabsAllocLoses(Stage3(c, ntotal, id, now, ans), ntotal, id, ans.grant3);
  }

  /** In this step realloc never fails to grow a free list. */
  predicate Grows(op: Op) {
    match op
    case OpAlloc(_, _, ans) => ans.grow1 && ans.grow2
    case OpRelease(_, _, grow) => grow
    case OpUnlink(_, grow) => grow
    case OpStore(_, _, grow) => grow
    case _ => true
  }

  lemma StepLoses(w: World, op: Op)
    requires Allowed(w, op) && Grows(op) && NothingLost(w.c.slabs)
    ensures NothingLost(Step(w, op).c.slabs)
  {
    hide NothingLost, Get, Release, Unlink, Store, AllocChunk, AnswersOk, ClassFor, FoundIn, Distinguishable, Hash;
    match op
    case OpAlloc(key, nbytes, ans) =>
      var id := ClassFor(ClassSizes(w.c.slabs), HEADER + |key| + nbytes);
      AllocChunkLoses(w.c, HEADER + |key| + nbytes, id, w.now, ans);
    case OpRelease(p, _, _) => ReleaseLoses(w.c, p);
    case OpUnlink(p, _) => UnlinkLoses(w.c, p);
    case OpStore(p, found, _) => StoreLoses(SetHash(w.c, p), p, found, w.now);
    case OpGet(_, found) => GetSlabs(w.c, found, w.now);
    case _ =>
  }

  /** While realloc never fails, no chunk is ever lost. */
  lemma {:induction false} NothingLostInRuns(
    ws: seq<World>, ops: seq<Op>, chunkSize: nat, max: nat, memLimit: nat, i: nat)
    requires Run(ws, ops) && Start(ws[0], chunkSize, max, memLimit) && i < |ws|
    requires forall k :: 0 <= k < |ops| ==> Grows(ops[k])
    ensures NothingLost(ws[i].c.slabs)
    decreases i
  {
    hide Allowed, Step, NothingLost;
    if i == 0 {
      InitialLoses(chunkSize, max, memLimit);
    } else {
      NothingLostInRuns(ws, ops, chunkSize, max, memLimit, i - 1);
      assert Allowed(ws[i - 1], ops[i - 1]) && ws[i] == Step(ws[i - 1], ops[i - 1]);
      StepLoses(ws[i - 1], ops[i - 1]);
    }
  }

  lemma InitialLoses(chunkSize: nat, max: nat, memLimit: nat)
    ensures NothingLost(Initial(chunkSize, max, memLimit))
  {
    hide Table, PerslabOf;
  }
}
