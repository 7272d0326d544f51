/** Every operation of the cache keeps the invariants. */
module CacheOps {
  import opened Basics
  import opened Items
  import opened SizeClasses
  import opened SlabModel
  import opened CacheModel
  import opened CacheInv

  /** An item somebody may refer to: it is out of the allocator. */
  ghost predicate IsLive(c: Cache, p: Ptr) {
    p in c.items && c.items[p].clsid != 0
  }

  lemma LiveKnown(c: Cache, p: Ptr)
    requires Core(c) && IsLive(c, p)
    ensures Known(c, p) && 1 <= c.items[p].clsid < |c.slabs.classes| && c.items[p].nkey <= |c.items[p].payload|
    ensures p in c.table <==> c.items[p].linked
    ensures c.items[p].refcount < 0x1_0000 && !c.items[p].slabbed
    ensures c.items[p].Total() <= c.slabs.classes[c.items[p].clsid].size
    ensures c.items[p].clsid == ClassFor(ClassSizes(c.slabs), c.items[p].Total())
  {
    hide SlabInv, ClassFor, Out, Chunks, Distinct, Hash;
  }

  lemma UnlinkKeeps(c: Cache, p: Ptr, grow: bool)
    requires Inv(c) && IsLive(c, p)
    ensures Known(c, p) && Inv(Unlink(c, p, grow))
  {
    hide Homes, Members, Keys, Sorted, Config, Sized, Without, Free;
    LiveKnown(c, p);
    if c.items[p].linked {
      DetachKeeps(c, p);
      if c.items[p].refcount == 0 {
        DropKeeps(Detach(c, p), p, grow);
      }
    }
  }

  lemma ReleaseKeeps(c: Cache, p: Ptr, grow: bool)
    requires Inv(c) && IsLive(c, p)
    ensures Known(c, p) && Inv(Release(c, p, grow))
  {
    hide Homes, Members, Keys, Sorted, Config, Sized, Without, Free;
    LiveKnown(c, p);
    var it := c.items[p];
    var c1 := if it.refcount != 0 then Put(c, p, it.(refcount := it.refcount - 1)) else c;
    if it.refcount != 0 {
      PutKeeps(c, p, it.(refcount := it.refcount - 1));
    }
    if c1.items[p].refcount == 0 && !it.linked {
      DropKeeps(c1, p, grow);
    }
  }

  /** The item is linked, so it stays live even if its 16-bit count wraps to 0. */
  lemma HoldKeeps(c: Cache, p: Ptr)
    requires Inv(c) && IsLive(c, p) && p in c.table
    ensures Known(c, p) && Inv(Hold(c, p))
  {
    hide Homes, Members, Keys, Sorted, Config, Sized;
    LiveKnown(c, p);
    PutKeeps(c, p, c.items[p].(refcount := (c.items[p].refcount + 1) % 0x1_0000));
  }

  lemma UpdateKeeps(c: Cache, p: Ptr, now: nat)
    requires Inv(c) && IsLive(c, p) && c.clock <= now
    ensures Known(c, p) && Inv(Update(c, p, now))
  {
    hide Homes, Members, Keys, Config, Sized, Without;
    LiveKnown(c, p);
    if c.items[p].time < Minus32(now, ITEM_UPDATE_INTERVAL) && c.items[p].linked {
      hide Sorted;
      BumpKeeps(c, p, now);
    } else {
      ClockKeeps(c, now);
    }
  }

  lemma ClockKeeps(c: Cache, now: nat)
    requires Inv(c) && c.clock <= now
    ensures Inv(c.(clock := now))
  {
    hide SlabInv, ClassFor, Out, Chunks, Distinct, Hash, HomeOk, SizeOk;
  }

  /** What assoc_find promises: a match if there is one. */
  ghost predicate FoundIn(c: Cache, found: Option<Ptr>, hv: nat, key: seq<byte>) {
    match found
    case None => forall q <- c.table :: q in c.items ==> !Match(c.items[q], hv, key)
    case Some(p) => p in c.table && p in c.items && Match(c.items[p], hv, key)
  }

  lemma GetKeeps(c: Cache, found: Option<Ptr>, hv: nat, key: seq<byte>, now: nat)
    requires Inv(c) && FoundIn(c, found, hv, key) && c.clock <= now
    ensures found.Some? ==> Known(c, found.value)
    ensures Inv(Get(c, found, now))
  {
    hide Homes, Members, Keys, Sorted, Config, Sized, LiveBut;
    if found.Some? {
      TableLive(c, found.value);
      HoldKeeps(c, found.value);
      UpdateKeeps(Hold(c, found.value), found.value, now);
    }
  }

  lemma TableLive(c: Cache, p: Ptr)
    requires Core(c) && p in c.table
    ensures IsLive(c, p)
  {
    hide SlabInv, ClassFor, Out, Chunks, Distinct, Hash;
  }

  lemma SetHashKeeps(c: Cache, p: Ptr)
    requires Inv(c) && IsLive(c, p)
    ensures c.items[p].nkey <= |c.items[p].payload| && Inv(SetHash(c, p))
  {
    hide Homes, Members, Keys, Sorted, Config, Sized, Hash;
    LiveKnown(c, p);
    if p in c.table {
      TableHash(c, p);
    }
    PutKeeps(c, p, c.items[p].(hv := Hash(c.items[p].Key())));
  }

  lemma TableHash(c: Cache, p: Ptr)
    requires Keys(c) && p in c.table
    ensures p in c.items && c.items[p].nkey <= |c.items[p].payload| && c.items[p].hv == Hash(c.items[p].Key())
  {
    hide Hash;
  }

  // ---------------------------------------------------------------- when a store is safe

  /** A search for p's key stops at one stored item at most, and a search for a stored key stops at p
      only if that key's item is the one a search for p's key stops at. */
  ghost predicate Distinguishable(c: Cache, p: Ptr) {
    && p in c.items
    && (forall q <- c.table :: q in c.items && StopsAt(c.items[q], c.items[p]) ==> StopsAt(c.items[p], c.items[q]))
    && (forall q <- c.table, x <- c.table ::
          q in c.items && x in c.items && StopsAt(c.items[p], c.items[q]) && StopsAt(c.items[p], c.items[x]) ==> q == x)
  }

  /** When the item that was found is gone, p can be told from all others. */
  ghost predicate FreeBut(c: Cache, p: Ptr, found: Option<Ptr>) {
    && p in c.items
    && forall q <- c.table :: q in c.items && Some(q) != found ==>
         !StopsAt(c.items[p], c.items[q]) && !StopsAt(c.items[q], c.items[p])
  }

  /** What the source's assoc_insert asserts of p when the item that was found is gone: no stored item
      matches a search for p's key. */
  ghost predicate Unmatched(c: Cache, p: Ptr, found: Option<Ptr>) {
    && p in c.items
    && forall q <- c.table :: q in c.items && Some(q) != found ==> !StopsAt(c.items[p], c.items[q])
  }

  /** So that this assertion holds in a store, one stored item at most may match. */
  ghost predicate AtMostOneMatch(c: Cache, p: Ptr) {
    && p in c.items
    && (forall q <- c.table, x <- c.table ::
          q in c.items && x in c.items && StopsAt(c.items[p], c.items[q]) && StopsAt(c.items[p], c.items[x]) ==> q == x)
  }

  lemma UnmatchedIs(c: Cache, p: Ptr, found: Option<Ptr>)
    requires p in c.items && c.items[p].nkey <= |c.items[p].payload|
    requires FoundIn(c, found, c.items[p].hv, c.items[p].Key())
    ensures AtMostOneMatch(c, p) <==> Unmatched(c, p, found)
    ensures Distinguishable(c, p) ==> AtMostOneMatch(c, p)
  {
  }

  lemma UnmatchedBut(c: Cache, p: Ptr, o: Ptr)
    requires Unmatched(c, p, Some(o)) && o !in c.table
    ensures Unmatched(c, p, None)
  {
  }

  lemma UnmatchedSame(c: Cache, d: Cache, p: Ptr, o: Ptr)
    requires Unmatched(c, p, Some(o)) && SameContents(c, d) && d.table <= c.table
    ensures Unmatched(d, p, Some(o))
  {
    forall q <- d.table | q in d.items && q != o ensures !StopsAt(d.items[p], d.items[q]) {
      SameStops(c.items[p], d.items[p], c.items[q], d.items[q]);
    }
  }

  /** What the source's assoc_insert asserts (in one direction), for whatever the search has found. */
  lemma DistinguishableIs(c: Cache, p: Ptr, found: Option<Ptr>)
    requires p in c.items && c.items[p].nkey <= |c.items[p].payload|
    requires FoundIn(c, found, c.items[p].hv, c.items[p].Key())
    ensures Distinguishable(c, p) <==> FreeBut(c, p, found)
  {
  }

  /** An item that is stored already is the one a search for its key finds. */
  lemma FindsItself(c: Cache, p: Ptr, found: Option<Ptr>)
    requires Core(c) && p in c.table && p in c.items && c.items[p].nkey <= |c.items[p].payload|
    requires FoundIn(c, found, c.items[p].hv, c.items[p].Key())
    ensures found == Some(p)
  {
    hide Homes, Members, Sorted, Config, Sized, Hash;
    assert StopsAt(c.items[p], c.items[p]);
    if found.Some? {
      assert StopsAt(c.items[p], c.items[found.value]);
    }
  }

  /** The item found is the one that is stored, and the 16-bit count cannot take another reference. */
  predicate Overflows(c: Cache, p: Ptr, found: Option<Ptr>) {
    found == Some(p) && p in c.items && c.items[p].refcount == 0xffff
  }

  /** do_store_item keeps every invariant; `p` is held by the caller. */
  lemma StoreKeeps(c: Cache, p: Ptr, found: Option<Ptr>, now: nat, grow: bool)
    requires Inv(c) && IsLive(c, p) && c.items[p].refcount > 0 && c.clock <= now
    requires c.items[p].nkey <= |c.items[p].payload| && c.items[p].hv == Hash(c.items[p].Key())
    requires Distinguishable(c, p) && FoundIn(c, found, c.items[p].hv, c.items[p].Key()) && !Overflows(c, p, found)
    ensures Known(c, p) && (found.Some? ==> Known(c, found.value)) && Inv(Store(c, p, found, now, grow))
  {
    hide Homes, Members, Keys, Sorted, Config, Sized, Hash, Distinguishable, FoundIn;
    LiveKnown(c, p);
    if found == None {
      NoneIsFree(c, p);
      LinkKeeps(c, p, now);
    } else {
      StoreOverKeeps(c, p, found.value, now, grow);
    }
  }

  lemma NoneIsFree(c: Cache, p: Ptr)
    requires Core(c) && p in c.items && c.items[p].nkey <= |c.items[p].payload|
    requires Distinguishable(c, p) && FoundIn(c, None, c.items[p].hv, c.items[p].Key())
    ensures p !in c.table && KeyFree(c, p)
  {
    hide Homes, Members, Keys, Sorted, Config, Sized, Hash;
    if p in c.table {
      FindsItself(c, p, None);
    }
    DistinguishableIs(c, p, None);
  }

  /** Unlinking one item and linking another, or the same one if it is held: what do_item_replace does. */
  lemma UnlinkThenLink(c: Cache, p: Ptr, o: Ptr, now: nat, grow: bool)
    requires Inv(c) && o in c.table && IsLive(c, o) && IsLive(c, p) && c.clock <= now
    requires (p in c.table ==> p == o) && (p == o ==> c.items[o].refcount > 0)
    ensures Known(c, o)
    ensures var d := Unlink(c, o, grow);
      && Inv(d) && d.table == c.table - {o} && d.clock == c.clock && SameContents(c, d)
      && IsLive(d, p) && Known(d, p) && p !in d.table
      && var e := Link(d, p, now);
      && Base(e) && IsLive(e, p) && Releasable(e, o) && e.items[o].refcount == c.items[o].refcount
      && (p == o || (o !in e.table && Left(e.items[o], c.items[o])))
  {
    hide Homes, Members, Keys, Sorted, Config, Sized, Hash, Without, LiveBut, Free;
    LiveKnown(c, p);
    LiveKnown(c, o);
    UnlinkKeeps(c, o, grow);
    UnlinkSameKeys(c, o, grow);
    var d := Unlink(c, o, grow);
    LiveKnown(d, p);
    LinkKeepsBase(d, p, now);
  }

  /** What do_item_release needs: the item is free only if nobody holds it. */
  ghost predicate Releasable(c: Cache, p: Ptr) {
    && Known(c, p) && (p in c.table <==> c.items[p].linked)
    && (c.items[p].clsid != 0 || c.items[p].refcount == 0)
  }

  lemma LiveReleasable(c: Cache, p: Ptr)
    requires Inv(c) && IsLive(c, p)
    ensures Base(c) && Releasable(c, p)
  {
    hide Homes, Members, Keys, Sorted, Config, Sized, LiveBut;
    LiveKnown(c, p);
  }

  /** An unlinked item that somebody holds is live, and any other is free. */
  predicate Left(it: Item, was: Item) {
    if was.refcount > 0 then it == was.(linked := false) else it == was.(linked := false, clsid := 0, slabbed := true)
  }

  /** When one item is unlinked, the other can be linked. */
  lemma ReplaceReady(c: Cache, p: Ptr, o: Ptr, now: nat, grow: bool)
    requires Inv(c) && o in c.table && IsLive(c, o) && IsLive(c, p) && c.clock <= now
    requires (p in c.table ==> p == o) && (p == o ==> c.items[o].refcount > 0) && Unmatched(c, p, Some(o))
    ensures Known(c, o) && !c.items[o].slabbed
    ensures var d := Unlink(c, o, grow);
      d.table == c.table - {o} && IsLive(d, p) && Known(d, p) && p !in d.table && Unmatched(d, p, None)
  {
    hide Inv, Core, Unlink, Link, Unmatched, SameContents, Base, Left;
    UnlinkThenLink(c, p, o, now, grow);
    UnmatchedSame(c, Unlink(c, o, grow), p, o);
    UnmatchedBut(Unlink(c, o, grow), p, o);
    InvIs(c);
    LiveKnown(c, o);
  }

  /** What do_store_item goes through when it finds an item to replace. */
  lemma StoreStages(c: Cache, p: Ptr, o: Ptr, now: nat, grow: bool)
    requires Inv(c) && IsLive(c, p) && c.items[p].refcount > 0 && c.clock <= now
    requires c.items[p].nkey <= |c.items[p].payload|
    requires (p in c.table ==> p == o) && FoundIn(c, Some(o), c.items[p].hv, c.items[p].Key())
    requires !Overflows(c, p, Some(o))
    ensures Known(c, p) && Known(c, o) && o in c.table && c.items[o].linked
    ensures var c1 := Get(c, Some(o), now);
      && Inv(c1) && IsLive(c1, o) && Known(c1, o) && IsLive(c1, p) && c1.table == c.table && c1.slabs == c.slabs
      && c1.clock <= now && SameContents(c, c1) && (p == o ==> c1.items[o].refcount > 0)
      && var c2 := Unlink(c1, o, grow);
      && Inv(c2) && p !in c2.table && Known(c2, p) && IsLive(c2, p) && c2.table == c.table - {o} && c2.clock <= now
      && SameContents(c, c2)
      && var c3 := Link(c2, p, now);
      && Base(c3) && IsLive(c3, p) && Releasable(c3, o)
      && (p == o || (o !in c3.table && Left(c3.items[o], c1.items[o])))
      && c3.items[o].refcount == c1.items[o].refcount
  {
    hide Inv, Core, Hash, FoundIn, Get, Unlink, Link, SameContents, Left, Base;
    FoundLive(c, o, c.items[p].hv, c.items[p].Key());
    StoreLive(c, p);
    GetKeeps(c, Some(o), c.items[p].hv, c.items[p].Key(), now);
    GetSameKeys(c, Some(o), now);
    GetOnly(c, o, now);
    var c1 := Get(c, Some(o), now);
    UnlinkThenLink(c1, p, o, now, grow);
    SameContentsTrans(c, c1, Unlink(c1, o, grow), p, o);
  }

  lemma StoreLive(c: Cache, p: Ptr)
    requires Inv(c) && IsLive(c, p)
    ensures Known(c, p) && c.items[p].refcount < 0x1_0000
  {
    hide Core, LiveBut;
    LiveKnown(c, p);
  }

  lemma FoundLive(c: Cache, o: Ptr, hv: nat, key: seq<byte>)
    requires Inv(c) && FoundIn(c, Some(o), hv, key)
    ensures o in c.table && IsLive(c, o) && Known(c, o) && c.items[o].linked && c.items[o].nkey <= |c.items[o].payload|
  {
    hide Core, LiveBut;
    TableLive(c, o);
    LiveKnown(c, o);
  }

  /** A get changes no key, and only the item that was found. */
  lemma GetOnly(c: Cache, o: Ptr, now: nat)
    requires Known(c, o)
    ensures var d := Get(c, Some(o), now);
      && d.table == c.table && d.items.Keys == c.items.Keys && d.slabs == c.slabs
      && (d.clock == c.clock || d.clock == now)
      && d.items[o].refcount == (c.items[o].refcount + 1) % 0x1_0000
      && forall x <- c.items ::
           && d.items[x] == c.items[x].(refcount := d.items[x].refcount, time := d.items[x].time)
           && (x != o ==> d.items[x] == c.items[x])
  {
    hide Without;
  }

  lemma FreeAfterwards(c: Cache, d: Cache, p: Ptr, o: Ptr)
    requires FreeBut(c, p, Some(o)) && d.table == c.table - {o} && d.items.Keys == c.items.Keys
    requires forall x <- c.items ::
      d.items[x].hv == c.items[x].hv && d.items[x].nkey == c.items[x].nkey && d.items[x].payload == c.items[x].payload
    ensures p in d.items && KeyFree(d, p)
  {
    forall q <- d.table | q in d.items ensures !StopsAt(d.items[p], d.items[q]) && !StopsAt(d.items[q], d.items[p]) {
      assert !StopsAt(c.items[p], c.items[q]) && !StopsAt(c.items[q], c.items[p]);
    }
  }

  lemma StoreOverKeeps(c: Cache, p: Ptr, o: Ptr, now: nat, grow: bool)
    requires Inv(c) && IsLive(c, p) && c.items[p].refcount > 0 && c.clock <= now
    requires c.items[p].nkey <= |c.items[p].payload| && c.items[p].hv == Hash(c.items[p].Key())
    requires Distinguishable(c, p) && FoundIn(c, Some(o), c.items[p].hv, c.items[p].Key())
    requires !Overflows(c, p, Some(o))
    ensures Known(c, p) && Known(c, o) && Inv(Store(c, p, Some(o), now, grow))
  {
    hide Inv, Core, Hash, Distinguishable, FoundIn, Get, Unlink, Link, Release, SameContents, FreeBut, KeyFree, Base;
    assert p in c.items;
    InvIs(c);
    if p in c.table {
      FindsItself(c, p, Some(o));
    }
    StoreStages(c, p, o, now, grow);
    DistinguishableIs(c, p, Some(o));
    var c2 := Unlink(Get(c, Some(o), now), o, grow);
    var c3 := Link(c2, p, now);
    StoreLinks(c, c2, p, o, now);
    if c3.items[o].clsid != 0 {
      ReleaseKeeps(c3, o, grow);
    } else {
      FreedReleaseIsNothing(c3, o, grow);
    }
  }

  lemma InvIs(c: Cache)
    requires Inv(c)
    ensures Core(c) && LiveBut(c, {})
  {
  }

  lemma StoreLinks(c: Cache, d: Cache, p: Ptr, o: Ptr, now: nat)
    requires Inv(d) && IsLive(d, p) && p !in d.table && d.clock <= now && SameContents(c, d) && p in c.items
    requires FreeBut(c, p, Some(o)) && d.table == c.table - {o}
    requires c.items[p].nkey <= |c.items[p].payload| && c.items[p].hv == Hash(c.items[p].Key())
    ensures Known(d, p) && Inv(Link(d, p, now))
  {
    hide Core, Hash, FreeBut, KeyFree, LiveBut, Link;
    FreeAfterwards(c, d, p, o);
    LinkKeeps(d, p, now);
  }

  /** A release of an item that is free already, as after a store at 65535 references, does nothing. */
  lemma FreedReleaseIsNothing(c: Cache, p: Ptr, grow: bool)
    requires Known(c, p) && c.items[p].clsid == 0 && c.items[p].refcount == 0
    requires !c.items[p].linked && c.items[p].slabbed
    ensures Release(c, p, grow) == c
  {
  }

  /** Exactly when a store keeps the invariants: when the item that is stored can be told from all others,
      and is not itself the item that is found with a reference count that wraps. */
  lemma StoreKeepsExactly(c: Cache, p: Ptr, found: Option<Ptr>, now: nat, grow: bool)
    requires Inv(c) && IsLive(c, p) && c.items[p].refcount > 0 && c.clock <= now
    requires c.items[p].nkey <= |c.items[p].payload| && c.items[p].hv == Hash(c.items[p].Key())
    requires FoundIn(c, found, c.items[p].hv, c.items[p].Key())
    ensures Known(c, p) && (found.Some? ==> Known(c, found.value))
    ensures Inv(Store(c, p, found, now, grow)) <==> Distinguishable(c, p) && !Overflows(c, p, found)
  {
    hide Homes, Members, Keys, Sorted, Config, Sized, Hash, Distinguishable, Store, LiveBut, FoundIn;
    LiveKnown(c, p);
    if found.Some? {
      FoundLive(c, found.value, c.items[p].hv, c.items[p].Key());
    }
    if Overflows(c, p, found) {
      OverflowBreaks(c, p, now, grow);
      TableClasses(Store(c, p, found, now, grow), p);
    } else if Distinguishable(c, p) {
      StoreKeeps(c, p, found, now, grow);
    } else if Inv(Store(c, p, found, now, grow)) {
      DistinguishableIs(c, p, found);
      StoredApart(c, p, found, now, grow);
    }
  }

  /** The item is freed, and linked again. */
  lemma OverflowBreaks(c: Cache, p: Ptr, now: nat, grow: bool)
    requires Known(c, p) && c.items[p].linked && c.items[p].refcount == 0xffff
    ensures var d := Store(c, p, Some(p), now, grow); p in d.table && p in d.items && d.items[p].clsid == 0
  {
    hide Free, Without;
  }

  lemma TableClasses(c: Cache, p: Ptr)
    requires p in c.table && p in c.items && c.items[p].clsid == 0
    ensures !Inv(c)
  {
    hide SlabInv, Homes, Sized, Keys, Sorted, Distinct;
  }

  lemma StoredApart(c: Cache, p: Ptr, found: Option<Ptr>, now: nat, grow: bool)
    requires Core(c) && Known(c, p)
    requires (found.Some? ==> Known(c, found.value) && found.value in c.table && c.items[found.value].linked)
    requires c.items[p].nkey <= |c.items[p].payload| && FoundIn(c, found, c.items[p].hv, c.items[p].Key())
    requires Keys(Store(c, p, found, now, grow))
    ensures FreeBut(c, p, found)
  {
    hide Homes, Members, Keys, Sorted, Config, Sized, Store, StopsAt, FoundIn;
    var d := Store(c, p, found, now, grow);
    StoreSameKeys(c, p, found, now, grow);
    forall q <- c.table | q in c.items && Some(q) != found
      ensures !StopsAt(c.items[p], c.items[q]) && !StopsAt(c.items[q], c.items[p])
    {
      if q == p {
        FindsItself(c, p, found);
      } else {
        KeysApart(d, p, q);
        SameStops(c.items[p], d.items[p], c.items[q], d.items[q]);
        SameStops(c.items[q], d.items[q], c.items[p], d.items[p]);
      }
    }
  }

  lemma KeysApart(d: Cache, p: Ptr, q: Ptr)
    requires Keys(d) && p in d.table && q in d.table && p != q
    ensures p in d.items && q in d.items && !StopsAt(d.items[p], d.items[q]) && !StopsAt(d.items[q], d.items[p])
  {
    hide Hash;
  }

  lemma SameStops(o: Item, o': Item, it: Item, it': Item)
    requires o'.hv == o.hv && o'.nkey == o.nkey && o'.payload == o.payload
    requires it'.hv == it.hv && it'.payload == it.payload
    ensures StopsAt(o', it') == StopsAt(o, it)
  {
  }

  // ---------------------------------------------------------------- what no operation changes

  /** No key, no hash value and no data changes, and no item changes class except by being freed. */
  ghost predicate SameContents(c: Cache, d: Cache) {
    && d.items.Keys == c.items.Keys && |d.queues| == |c.queues|
    && forall x <- c.items ::
         && d.items[x].nkey == c.items[x].nkey && d.items[x].nbytes == c.items[x].nbytes
         && d.items[x].hv == c.items[x].hv && d.items[x].payload == c.items[x].payload
         && (d.items[x].clsid == c.items[x].clsid || d.items[x].clsid == 0)
  }

  lemma GetSameKeys(c: Cache, found: Option<Ptr>, now: nat)
    requires found.Some? ==> Known(c, found.value)
    ensures var d := Get(c, found, now);
      && SameContents(c, d) && d.table == c.table
      && forall x <- c.items :: d.items[x].linked == c.items[x].linked
  {
    hide Without;
  }

  lemma ReleaseSameKeys(c: Cache, p: Ptr, grow: bool)
    requires Known(c, p)
    ensures SameContents(c, Release(c, p, grow)) && Release(c, p, grow).table == c.table
  {
    hide Free;
  }

  lemma UnlinkSameKeys(c: Cache, p: Ptr, grow: bool)
    requires Known(c, p) && (p in c.table <==> c.items[p].linked)
    ensures SameContents(c, Unlink(c, p, grow))
    ensures if p in c.table then Unlink(c, p, grow).table == c.table - {p} else Unlink(c, p, grow) == c
  {
    hide Free, Without;
  }

  lemma LinkSameKeys(c: Cache, p: Ptr, now: nat)
    requires Known(c, p)
    ensures SameContents(c, Link(c, p, now)) && Link(c, p, now).table == c.table + {p}
  {
  }

  lemma StoreIs(c: Cache, p: Ptr, o: Ptr, now: nat, grow: bool, c1: Cache, c2: Cache, c3: Cache)
    requires Known(c, p) && Known(c, o) && c1 == Get(c, Some(o), now) && Known(c1, o)
    requires c2 == Unlink(c1, o, grow) && Known(c2, p) && c3 == Link(c2, p, now) && Known(c3, o)
    ensures Store(c, p, Some(o), now, grow) == Release(c3, o, grow)
  {
    hide Get, Unlink, Link, Release, Known;
  }

  lemma StoreSameKeys(c: Cache, p: Ptr, found: Option<Ptr>, now: nat, grow: bool)
    requires Known(c, p)
    requires found.Some? ==> Known(c, found.value) && found.value in c.table && c.items[found.value].linked
    ensures SameContents(c, Store(c, p, found, now, grow))
    ensures Store(c, p, found, now, grow).table == (if found == None then c.table else c.table - {found.value}) + {p}
  {
    if found == None {
      LinkSameKeys(c, p, now);
    } else {
      var o := found.value;
      hide Inv, Get, Unlink, Link, Release, Store, SameContents;
      GetSameKeys(c, found, now);
      var c1 := Get(c, found, now);
      SameContentsRefl(c);
      SameContentsTrans(c, c, c1, p, o);
      UnlinkSameKeys(c1, o, grow);
      var c2 := Unlink(c1, o, grow);
      SameContentsTrans(c, c1, c2, p, o);
      LinkSameKeys(c2, p, now);
      var c3 := Link(c2, p, now);
      SameContentsTrans(c, c2, c3, p, o);
      StoreIs(c, p, o, now, grow, c1, c2, c3);
      ReleaseSameKeys(c3, o, grow);
      SameContentsTrans(c, c3, Release(c3, o, grow), p, o);
    }
  }

  lemma SameContentsRefl(c: Cache)
    ensures SameContents(c, c)
  {
  }

  lemma SameContentsTrans(c: Cache, d: Cache, e: Cache, p: Ptr, o: Ptr)
    requires SameContents(c, d) && SameContents(d, e) && Known(c, p) && Known(c, o)
    ensures SameContents(c, e) && Known(d, p) && Known(d, o) && Known(e, p) && Known(e, o)
  {
  }
}
