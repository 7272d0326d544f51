/** The LRU lists as the program keeps them (src/cache/lru.cpp, src/cache/lru.hpp). */
module Lru {
  import opened Basics
  import opened Items
  import opened SizeClasses
  import opened SlabModel
  import opened SlabProofs
  import opened CacheModel
  import opened CacheInv
  import opened CacheOps
  import opened CacheAlloc
  import opened CacheEvict
  import opened CacheAllocProofs
  import opened CacheExact
  import opened CacheOutcomes
  import opened LruQueues
  import opened LruAnswers
  import Assoc
  import SlabAlloc
  import Jenkins

  class LruLists {
    const assoc: Assoc.AssociativeArray
    const slabs: SlabAlloc.SlabAllocator
    const itemSizeMax: nat
    const heads: array<HashItem?>
    const tails: array<HashItem?>
    const sizes: array<nat>
    ghost var c: Cache      // what all of this represents

    // ---------------------------------------------------------------- the queues

    ghost predicate QueuesAre(qs: seq<seq<Ptr>>)
      reads heads, tails, sizes, All(qs)`prev, All(qs)`next
    {
      && heads != tails && heads.Length == tails.Length == sizes.Length == |qs| == POWER_LARGEST
      && Disjoint(qs)
      && (AllHas(qs); forall i :: 0 <= i < |qs| ==> Dll(heads[i], tails[i], qs[i]) && sizes[i] == |qs[i]|)
    }

    /** item_link_q */
    method ItemLinkQ(it: HashItem, ghost qs: seq<seq<Ptr>>)
      requires QueuesAre(qs) && it.clsid < POWER_LARGEST && !it.slabbed && it !in All(qs)
      modifies heads, tails, sizes, it`prev, it`next, All(qs)`prev
      ensures QueuesAre(qs[it.clsid := [it] + qs[it.clsid]])
    {
      hide Dll;
      var id := it.clsid;
      ghost var q := qs[id];
      DllIs(heads[id], tails[id], q);
      AllHas(qs);
      DisjointPush(qs, id, it);
      assert it != heads[id];
      assert (heads[id] != null && tails[id] != null) || (heads[id] == null && tails[id] == null);
      it.prev := null;
      it.next := heads[id];
      if it.next != null {
        it.next.prev := it;
      }
      heads[id] := it;
      if tails[id] == null {
        tails[id] := it;
      }
      sizes[id] := sizes[id] + 1;
      DllPush(heads[id], tails[id], it, q);
      ghost var qs' := qs[id := [it] + q];
      forall i | 0 <= i < |qs'| ensures Dll(heads[i], tails[i], qs'[i]) && sizes[i] == |qs'[i]| {
        if i != id {
          assert old(Dll(heads[i], tails[i], qs[i]));
        }
      }
    }

    /** item_unlink_q */
    method ItemUnlinkQ(it: HashItem, ghost qs: seq<seq<Ptr>>)
      requires QueuesAre(qs) && it.clsid < POWER_LARGEST && it in qs[it.clsid]
      modifies heads, tails, sizes, All(qs)`prev, All(qs)`next
      ensures QueuesAre(qs[it.clsid := Without(qs[it.clsid], it)])
    {
      hide Dll, Without;
      var id := it.clsid;
      ghost var q := qs[id];
      AllHas(qs);
      ghost var k := WithoutAt(q, it);
      WithoutElems(q, it, Without(q, it));
      DisjointCut(qs, id, it);
      assert Dll(heads[id], tails[id], q);
      Bypass(it, id, q, k);
      sizes[id] := sizes[id] - 1;
      ghost var qs' := qs[id := Without(q, it)];
      forall i | 0 <= i < |qs'| ensures Dll(heads[i], tails[i], qs'[i]) && sizes[i] == |qs'[i]| {
        if i != id {
          assert old(Dll(heads[i], tails[i], qs[i]));
        }
      }
    }

    /** The pointer surgery of item_unlink_q. */
    method Bypass(it: HashItem, id: nat, ghost q: seq<Ptr>, ghost k: nat)
      requires heads != tails && id < heads.Length == tails.Length
      requires Dll(heads[id], tails[id], q) && Distinct(q) && k < |q| && it == q[k]
      modifies heads, tails, q`prev, q`next
      ensures Dll(heads[id], tails[id], q[..k] + q[k + 1..])
      ensures forall i :: 0 <= i < heads.Length && i != id ==> heads[i] == old(heads[i]) && tails[i] == old(tails[i])
    {
      DllIs(heads[id], tails[id], q);
      hide Dll;
      if heads[id] == it {
        assert it.prev == null;
        heads[id] := it.next;
      }
      if tails[id] == it {
        assert it.next == null;
        tails[id] := it.prev;
      }
      assert it.next != it;
      assert it.prev != it;
      if it.next != null {
        it.next.prev := it.prev;
      }
      if it.prev != null {
        it.prev.next := it.next;
      }
      DllCut(heads[id], tails[id], q, k);
    }

    // ---------------------------------------------------------------- what the fields represent

    ghost predicate HeadersAre(items: map<Ptr, Item>)
      reads items.Keys`payload, items.Keys`nkey, items.Keys`nbytes, items.Keys`hv, items.Keys`time, items.Keys`refcount,
        items.Keys`linked, items.Keys`slabbed, items.Keys`clsid
    {
      forall p <- items :: p.Header() == items[p]
    }

    ghost predicate TableIs(table: set<Ptr>)
      reads assoc, assoc.primary, assoc.oldTable, assoc.hvs.Keys`hNext, assoc.hvs.Keys`hv
    {
      assoc.Valid() && assoc.hvs.Keys == table
    }

    ghost predicate SlabsAre(s: Slabs)
      reads slabs, slabs.repr
    {
      slabs.Valid() && slabs.st == s
    }

    /** The arrays and objects are all different. */
    ghost predicate Apart(items: set<Ptr>)
      reads assoc, slabs
    {
      && heads != tails
      && heads != assoc.primary && heads != assoc.oldTable && tails != assoc.primary && tails != assoc.oldTable
      && this !in slabs.repr && assoc !in slabs.repr && slabs !in slabs.repr
      && heads !in slabs.repr && tails !in slabs.repr && sizes !in slabs.repr
      && assoc.primary !in slabs.repr && assoc.oldTable !in slabs.repr
      && forall p <- items :: p !in slabs.repr
    }

    ghost function Repr(): set<object>
      reads this, assoc, slabs
    {
      {heads, tails, sizes, assoc, slabs} + assoc.Arrays() + slabs.repr + c.items.Keys
    }

    /** The hash table has the arrays it had, and is in the same state of an expansion or none. */
    twostate predicate SameTables()
      reads assoc
    {
      assoc.primary == old(assoc.primary) && assoc.oldTable == old(assoc.oldTable) && assoc.ctl == old(assoc.ctl)
    }

    /** The insert that leaves n items in the table has started an expansion if it was due. */
    twostate predicate Expands(n: nat, callocOk: bool, threadOk: bool)
      reads assoc
    {
      assoc.ctl ==
        if !old(assoc.ctl).expanding && n > Assoc.Threshold(old(assoc.ctl).power)
        then old(assoc.ctl).AfterExpand(callocOk, threadOk) else old(assoc.ctl)
    }

    /** Whatever is part of the representation now was part of it before, or is new. */
    twostate predicate Grown()
      reads this, assoc, slabs
    {
      && (forall o <- slabs.repr :: o in old(slabs.repr) || fresh(o))
      && (forall p <- c.items :: p in old(c.items) || fresh(p))
      && (assoc.primary == old(assoc.primary) || assoc.primary == old(assoc.oldTable) || fresh(assoc.primary))
      && (assoc.oldTable == old(assoc.oldTable) || assoc.oldTable == old(assoc.primary) || fresh(assoc.oldTable))
    }

    /** The same for operations that insert nothing in the table. */
    twostate predicate SlabsGrown()
      reads this`c, assoc, slabs
    {
      && SameTables()
      && (forall o <- slabs.repr :: o in old(slabs.repr) || fresh(o))
      && (forall p <- c.items :: p in old(c.items) || fresh(p))
    }

    ghost predicate Rep()
      reads this, Repr()
    {
      && c.table <= c.items.Keys && All(c.queues) <= c.items.Keys
      && Apart(c.items.Keys) && HeadersAre(c.items) && SlabsAre(c.slabs) && QueuesAre(c.queues)
      && assoc.hvs.Keys == c.table && TableIs(c.table)
    }

    lemma RepOpen()
      requires Rep()
      ensures c.table <= c.items.Keys && All(c.queues) <= c.items.Keys
      ensures Apart(c.items.Keys) && HeadersAre(c.items) && SlabsAre(c.slabs) && QueuesAre(c.queues)
      ensures assoc.hvs.Keys == c.table && TableIs(c.table)
    {
    }

    lemma RepClose()
      requires c.table <= c.items.Keys && All(c.queues) <= c.items.Keys
      requires Apart(c.items.Keys) && HeadersAre(c.items) && SlabsAre(c.slabs) && QueuesAre(c.queues)
      requires assoc.hvs.Keys == c.table && TableIs(c.table)
      ensures Rep()
    {
    }

    /** The largest class is for items of the maximal size. */
    ghost predicate SettingsOk() {
      slabs.sizes != [] && itemSizeMax == slabs.sizes[|slabs.sizes| - 1]
    }

    /** The representation and the invariants. */
    ghost predicate Valid()
      reads this, Repr()
    {
      Rep() && Inv(c) && SettingsOk()
    }

    constructor (chunkSize: nat, itemSizeMax: nat, maxbytes: nat, hashpower: nat)
      requires ConfigOk(chunkSize, itemSizeMax) && 0 < itemSizeMax
      ensures Valid() && fresh(Repr()) && c == Fresh(chunkSize, itemSizeMax, maxbytes)
      ensures this.itemSizeMax == itemSizeMax && heads.Length == tails.Length == sizes.Length == 200
    {
      hide Inv, Initial, Fresh, Table, Assoc.AssociativeArray.Valid, SlabAlloc.SlabAllocator.Valid, Rep, All,
        QueuesAre, Dll;
      assoc := new Assoc.AssociativeArray(hashpower);
      slabs := new SlabAlloc.SlabAllocator(chunkSize, itemSizeMax, maxbytes);
      var h, t, z := NoQueues();
      heads, tails, sizes := h, t, z;
      this.itemSizeMax := itemSizeMax;
      c := Fresh(chunkSize, itemSizeMax, maxbytes);
      new;
      FreshInv(chunkSize, itemSizeMax, maxbytes);
      FreshIs(chunkSize, itemSizeMax, maxbytes);
      RepStart();
      TableAt(chunkSize, itemSizeMax);
    }

    static method NoQueues() returns (heads: array<HashItem?>, tails: array<HashItem?>, sizes: array<nat>)
      ensures fresh(heads) && fresh(tails) && fresh(sizes) && heads != tails
      ensures heads.Length == tails.Length == sizes.Length == POWER_LARGEST
      ensures forall i :: 0 <= i < POWER_LARGEST ==> heads[i] == null && tails[i] == null && sizes[i] == 0
    {
      heads := new HashItem?[POWER_LARGEST](_ => null);
      tails := new HashItem?[POWER_LARGEST](_ => null);
      sizes := new nat[POWER_LARGEST](_ => 0);
    }

    lemma FreshIs(chunkSize: nat, max: nat, memLimit: nat)
      ensures var d := Fresh(chunkSize, max, memLimit);
        && d.items == map[] && d.table == {} && d.slabs == Initial(chunkSize, max, memLimit)
        && |d.queues| == POWER_LARGEST && forall i :: 0 <= i < |d.queues| ==> d.queues[i] == []
    {
      hide Initial;
    }

    lemma RepStart()
      requires heads != tails && heads.Length == tails.Length == sizes.Length == POWER_LARGEST
      requires forall i :: 0 <= i < POWER_LARGEST ==> heads[i] == null && tails[i] == null && sizes[i] == 0
      requires c.items == map[] && c.table == {} && |c.queues| == POWER_LARGEST && forall i :: 0 <= i < |c.queues| ==>
        c.queues[i] == []
      requires assoc.Valid() && assoc.hvs == map[] && SlabsAre(c.slabs) && Apart({})
      ensures Rep()
    {
      hide SlabsAre, Assoc.AssociativeArray.Valid;
      assert All(c.queues) == {};
    }

    // ---------------------------------------------------------------- one change at a time

    // Each method makes one change to the fields, and the same change to the cache they represent.

    /** it->iflag |= ITEM_LINKED, or &= ~ITEM_LINKED */
    method Mark(it: HashItem, linked: bool)
      requires Rep() && it in c.items
      modifies this`c, it`linked
      ensures Rep() && c == Put(old(c), it, old(c).items[it].(linked := linked))
    {
      hide QueuesAre, SlabsAre, All, Assoc.AssociativeArray.Valid, TableIs;
      it.linked := linked;
      c := Put(c, it, c.items[it].(linked := linked));
    }

    method MarkLinked(it: HashItem, now: nat)
      requires Rep() && it in c.items
      modifies this`c, it`linked, it`time
      ensures Rep() && c == Put(old(c), it, old(c).items[it].(linked := true, time := now))
    {
      hide QueuesAre, SlabsAre, All, Assoc.AssociativeArray.Valid, TableIs;
      it.linked := true;
      it.time := now;
      c := Put(c, it, c.items[it].(linked := true, time := now));
    }

    method SetTime(it: HashItem, time: nat)
      requires Rep() && it in c.items
      modifies this`c, it`time
      ensures Rep() && c == Put(old(c), it, old(c).items[it].(time := time))
    {
      hide QueuesAre, SlabsAre, All, Assoc.AssociativeArray.Valid, TableIs;
      it.time := time;
      c := Put(c, it, c.items[it].(time := time));
    }

    method SetRefcount(it: HashItem, refcount: nat)
      requires Rep() && it in c.items
      modifies this`c, it`refcount
      ensures Rep() && c == Put(old(c), it, old(c).items[it].(refcount := refcount))
    {
      hide QueuesAre, SlabsAre, All, Assoc.AssociativeArray.Valid, TableIs;
      it.refcount := refcount;
      c := Put(c, it, c.items[it].(refcount := refcount));
    }

    /** The hash value of an item that is not in the table. */
    method SetHv(it: HashItem, hv: nat)
      requires Rep() && it in c.items && (it in c.table ==> hv == it.hv)
      modifies this`c, it`hv
      ensures Rep() && c == Put(old(c), it, old(c).items[it].(hv := hv))
    {
      hide QueuesAre, SlabsAre, All, Assoc.AssociativeArray.Valid;
      it.hv := hv;
      c := Put(c, it, c.items[it].(hv := hv));
    }

    /** The latest time that has been read. */
    ghost method Clock(now: nat)
      requires Rep()
      modifies this`c
      ensures Rep() && c == old(c).(clock := now)
    {
      hide QueuesAre, HeadersAre, SlabsAre, All, TableIs;
      c := c.(clock := now);
    }

    method Dequeue(it: HashItem)
      requires Rep() && Known(c, it) && it in c.queues[c.items[it].clsid]
      modifies this`c, heads, tails, sizes, All(c.queues)`prev, All(c.queues)`next
      ensures Rep()
      ensures var id := old(c).items[it].clsid;
        c == old(c).(queues := old(c).queues[id := Without(old(c).queues[id], it)])
    {
      hide HeadersAre, SlabsAre, All, Without, Assoc.AssociativeArray.Valid;
      HeaderIs(c.items, it);
      var id := it.clsid;
      QueuesDisjoint(c.queues);
      DisjointCut(c.queues, id, it);
      ItemUnlinkQ(it, c.queues);
      c := c.(queues := c.queues[id := Without(c.queues[id], it)]);
    }

    method Enqueue(it: HashItem)
      requires Rep() && Known(c, it) && it !in All(c.queues) && !c.items[it].slabbed
      modifies this`c, heads, tails, sizes, All(c.queues)`prev, it`prev, it`next
      ensures Rep()
      ensures var id := old(c).items[it].clsid; c == old(c).(queues := old(c).queues[id := [it] + old(c).queues[id]])
    {
      hide HeadersAre, SlabsAre, All, Assoc.AssociativeArray.Valid;
      HeaderIs(c.items, it);
      var id := it.clsid;
      AllPush(c.queues, id, it);
      ItemLinkQ(it, c.queues);
      c := c.(queues := c.queues[id := [it] + c.queues[id]]);
    }

    method Untable(it: HashItem)
      requires Rep() && it in c.table && it.nkey <= |it.payload|
      requires forall q <- c.table :: Match(q.Header(), it.hv, it.payload[..it.nkey]) ==> q == it
      modifies this`c, assoc, assoc.Arrays(), c.table`hNext
      ensures Rep() && c == old(c).(table := old(c).table - {it}) && SameTables()
    {
      hide QueuesAre, HeadersAre, SlabsAre, All, Assoc.AssociativeArray.Valid, TableIs, Match, HashItem.Header, Rep;
      RepOpen();
      AssocDelete(it);
      c := c.(table := c.table - {it});
      RepClose();
    }

    method AssocDelete(it: HashItem)
      requires Rep() && it in c.table && it.nkey <= |it.payload|
      requires forall q <- c.table :: Match(q.Header(), it.hv, it.payload[..it.nkey]) ==> q == it
      modifies assoc, assoc.Arrays(), c.table`hNext
      ensures assoc.hvs.Keys == c.table - {it} && TableIs(c.table - {it})
      ensures QueuesAre(c.queues) && HeadersAre(c.items) && SlabsAre(c.slabs) && Apart(c.items.Keys) && SameTables()
    {
      hide Rep, QueuesAre, HeadersAre, SlabsAre, All, Assoc.AssociativeArray.Valid, Assoc.IsFirst, Assoc.Control.Home;
      RepOpen();
      assert it in assoc.hvs && Match(it.Header(), it.hv, it.payload[..it.nkey]);
      hide Match, HashItem.Header;
      var ok;
      ghost var removed;
      ok, removed := assoc.Delete(it.hv, it.payload[..it.nkey]);
      assert ok;
    }

    method Intable(it: HashItem, callocOk: bool, threadOk: bool)
      requires Rep() && it in c.items && it !in c.table && it.nkey <= |it.payload| && |c.table| + 1 < 0x1_0000_0000
      requires forall q <- c.table :: !Match(q.Header(), it.hv, it.payload[..it.nkey])
      modifies this`c, assoc, assoc.Arrays(), it`hNext
      ensures Rep() && c == old(c).(table := old(c).table + {it})
      ensures (assoc.primary == old(assoc.primary) || fresh(assoc.primary))
        && (assoc.oldTable == old(assoc.oldTable) || assoc.oldTable == old(assoc.primary))
      ensures Expands(|c.table|, callocOk, threadOk)
    {
      hide QueuesAre, HeadersAre, SlabsAre, All, Assoc.AssociativeArray.Valid, TableIs, Match, HashItem.Header, Rep;
      RepOpen();
      AssocInsert(it, callocOk, threadOk);
      c := c.(table := c.table + {it});
      RepClose();
    }

    method AssocInsert(it: HashItem, callocOk: bool, threadOk: bool)
      requires Rep() && it in c.items && it !in c.table && it.nkey <= |it.payload| && |c.table| + 1 < 0x1_0000_0000
      requires forall q <- c.table :: !Match(q.Header(), it.hv, it.payload[..it.nkey])
      modifies assoc, assoc.Arrays(), it`hNext
      ensures assoc.hvs.Keys == c.table + {it} && TableIs(c.table + {it})
      ensures QueuesAre(c.queues) && HeadersAre(c.items) && SlabsAre(c.slabs) && Apart(c.items.Keys)
      ensures (assoc.primary == old(assoc.primary) || fresh(assoc.primary))
        && (assoc.oldTable == old(assoc.oldTable) || assoc.oldTable == old(assoc.primary))
      ensures Expands(|c.table + {it}|, callocOk, threadOk)
    {
      hide Rep, Match, HashItem.Header, QueuesAre, HeadersAre, SlabsAre, All, Assoc.AssociativeArray.Valid,
        Assoc.Control.Home, Assoc.Threshold, Assoc.Control.AfterExpand;
      RepOpen();
      KeysCount(assoc.hvs);
      assoc.Insert(it, callocOk, threadOk);
    }

    lemma KeysCount(m: map<Ptr, nat>)
      ensures |m.Keys| == |m|
    {
    }

    /** it->slabs_clsid = 0; it->iflag |= ITEM_SLABBED */
    method MarkFree(it: HashItem)
      requires Rep() && it in c.items
      modifies this`c, it`clsid, it`slabbed
      ensures Rep() && c == Put(old(c), it, old(c).items[it].(clsid := 0, slabbed := true))
    {
      hide QueuesAre, SlabsAre, All, Assoc.AssociativeArray.Valid, HeadersAre, TableIs, Rep, HashItem.Header;
      RepOpen();
      WriteFree(it);
      c := Put(c, it, c.items[it].(clsid := 0, slabbed := true));
      RepClose();
    }

    method WriteFree(it: HashItem)
      requires HeadersAre(c.items) && it in c.items
      requires SlabsAre(c.slabs) && Apart(c.items.Keys) && QueuesAre(c.queues) && TableIs(c.table)
      modifies it`clsid, it`slabbed
      ensures HeadersAre(c.items[it := c.items[it].(clsid := 0, slabbed := true)])
      ensures SlabsAre(c.slabs) && Apart(c.items.Keys) && QueuesAre(c.queues) && TableIs(c.table)
    {
      hide SlabsAre, Assoc.AssociativeArray.Valid, TableIs, QueuesAre, All;
      it.clsid := 0;
      it.slabbed := true;
    }

    method ToSlabs(it: HashItem, ntotal: nat, id: nat, grow: bool)
      requires Rep()
      requires 1 <= id < |c.slabs.classes| ==>
        && it in Out(c.slabs.classes[id])
        && it in c.slabs.classes[id].charges && c.slabs.classes[id].charges[it] == ntotal
      modifies this`c, slabs, slabs.repr
      ensures Rep() && c == old(c).(slabs := Free(old(c).slabs, it, ntotal, id, grow))
      ensures fresh(slabs.repr - old(slabs.repr))
      ensures SameTables()
    {
      hide QueuesAre, HeadersAre, All, Assoc.AssociativeArray.Valid, SlabAlloc.SlabAllocator.Valid, Free, Out;
      ghost var items := c.items.Keys;
      slabs.DoSlabsFree(it, ntotal, id, grow);
      assert Apart(items);
      c := c.(slabs := Free(c.slabs, it, ntotal, id, grow));
    }

    /** slabs_alloc; the chunks of a new page come with zeroed headers. */
    method FromSlabs(ntotal: nat, id: nat, mal: SlabAlloc.Malloc) returns (it: HashItem?, ghost g: Grant)
      requires Rep() && 1 <= id < |c.slabs.classes| && SlabAlloc.PlaceOk(c.slabs, id, mal.base)
      modifies this`c, slabs, slabs.repr
      ensures Rep() && Granted(old(c), id, g) && SlabsGrown() && SlabAlloc.AnsweredBy(old(c).slabs, id, mal, g)
      ensures (c, if it == null then None else Some(it)) == SlabsAlloc(old(c), ntotal, id, g)
    {
      hide QueuesAre, All, Assoc.AssociativeArray.Valid, Alloc, GrantOk, SlabAlloc.PlaceOk, SlabsAlloc,
        HeadersAre, SlabsAre, TableIs, SlabAlloc.AnsweredBy;
      it, g := SlabsAsk(ntotal, id, mal);
      SlabsAllocItems(c, ntotal, id, g);
      c := SlabsAlloc(c, ntotal, id, g).0;
    }

    method SlabsAsk(ntotal: nat, id: nat, mal: SlabAlloc.Malloc) returns (it: HashItem?, ghost g: Grant)
      requires Rep() && 1 <= id < |c.slabs.classes| && SlabAlloc.PlaceOk(c.slabs, id, mal.base)
      modifies slabs, slabs.repr
      ensures Granted(c, id, g) && fresh(slabs.repr - old(slabs.repr)) && SlabAlloc.AnsweredBy(c.slabs, id, mal, g)
      ensures g.NewPage? ==> fresh(Elems(g.page.chunks))
      ensures var d := SlabsAlloc(c, ntotal, id, g).0;
        && SlabsAre(d.slabs) && HeadersAre(d.items) && Apart(d.items.Keys) && QueuesAre(c.queues)
        && assoc.hvs.Keys == c.table && TableIs(c.table)
      ensures SameTables()
      ensures (if it == null then None else Some(it)) == SlabsAlloc(c, ntotal, id, g).1
    {
      hide QueuesAre, All, Assoc.AssociativeArray.Valid, SlabAlloc.SlabAllocator.Valid, Alloc, GrantOk,
        SlabAlloc.PlaceOk, SlabAlloc.AnsweredBy;
      it, g := slabs.DoSlabsAlloc(ntotal, id, mal);
      SlabsAllocItems(c, ntotal, id, g);
      hide SlabsAlloc;
    }

    lemma SlabsAllocItems(c: Cache, ntotal: nat, id: nat, g: Grant)
      requires 1 <= id < |c.slabs.classes|
      ensures var d := SlabsAlloc(c, ntotal, id, g).0;
        && d.table == c.table && d.queues == c.queues && d.slabs == Alloc(c.slabs, ntotal, id, g).0
        && (d.items == c.items
            || (g.NewPage? && d.items == c.items + ZeroedPage(g.page.chunks, Room(c.slabs.classes[id].size))))
      ensures g.NewPage? ==> var z := ZeroedPage(g.page.chunks, Room(c.slabs.classes[id].size));
        z.Keys == Elems(g.page.chunks) && forall x <- z :: z[x] == Zeroed(Room(c.slabs.classes[id].size))
    {
      AllocPages(c.slabs, ntotal, id, g);
    }

    lemma HeaderIs(items: map<Ptr, Item>, it: Ptr)
      requires HeadersAre(items) && it in items
      ensures it.Header() == items[it]
    {
    }

    lemma QueuesDisjoint(qs: seq<seq<Ptr>>)
      requires QueuesAre(qs)
      ensures Disjoint(qs) && |qs| == POWER_LARGEST
    {
    }

    lemma AllPush(qs: seq<seq<Ptr>>, id: nat, it: Ptr)
      requires id < |qs|
      ensures All(qs[id := [it] + qs[id]]) == All(qs) + {it}
    {
      var qs' := qs[id := [it] + qs[id]];
      AllHas(qs);
      AllHas(qs');
      forall p ensures p in All(qs') <==> p in All(qs) + {it} {
        if p in All(qs) {
          var i :| 0 <= i < |qs| && p in qs[i];
          assert p in qs'[i];
        }
        if p in All(qs') {
          var i :| 0 <= i < |qs'| && p in qs'[i];
          assert p == it || p in qs[i];
        }
        assert it in qs'[id];
      }
    }

    // ---------------------------------------------------------------- unlinking

    /** The first half of do_item_unlink: out of the table and out of the queue. */
    method TakeOut(it: HashItem)
      requires Rep() && Core(c) && it in c.table
      modifies this`c, heads, tails, sizes, assoc, assoc.Arrays(), it`linked
      modifies c.table`hNext, All(c.queues)`prev, All(c.queues)`next
      ensures Known(old(c), it) && c == Detach(old(c), it) && Rep() && SameTables()
    {
      hide Core, Rep, HeadersAre, All, Without;
      CoreTable(c, it);
      RepHeader(it);
      UnmarkedMatch(c, it);
      Mark(it, false);
      RepHeaders();
      Untable(it);
      Dequeue(it);
    }

    lemma RepHeader(it: Ptr)
      requires Rep() && it in c.items
      ensures it.Header() == c.items[it]
    {
      hide QueuesAre, TableIs, SlabsAre, All, Apart;
    }

    lemma RepHeaders()
      requires Rep()
      ensures c.table <= c.items.Keys && forall p <- c.items :: p.Header() == c.items[p]
    {
      hide QueuesAre, TableIs, SlabsAre, All, Apart;
    }

    /** What unlinking needs to know about a linked item. */
    lemma CoreTable(c: Cache, it: Ptr)
      requires Core(c) && it in c.table
      ensures it in c.items && c.items[it].linked && Known(c, it) && c.items[it].nkey <= |c.items[it].payload|
      ensures it in c.queues[c.items[it].clsid] && c.items[it].clsid != 0
      ensures Disjoint(c.queues) && |c.queues| == POWER_LARGEST && All(c.queues) == c.table
      ensures forall q <- c.table :: q in c.items && Match(c.items[q], c.items[it].hv, c.items[it].Key()) ==> q == it
    {
      InvMembers(c, it);
      MatchUnique(c, it);
      hide Core;
    }

    lemma InvMembers(c: Cache, it: Ptr)
      requires Core(c) && it in c.table
      ensures Known(c, it) && it in c.queues[c.items[it].clsid] && c.items[it].linked && c.items[it].clsid != 0
      ensures Disjoint(c.queues) && |c.queues| == POWER_LARGEST && All(c.queues) == c.table
    {
      MembersDisjoint(c);
      hide Homes, Sized, Keys, Sorted, Config, Distinct, All, Disjoint;
    }

    lemma UnmarkedMatch(c: Cache, it: Ptr)
      requires Core(c) && it in c.table
      ensures it in c.items && c.items[it].nkey <= |c.items[it].payload|
      ensures var d := Put(c, it, c.items[it].(linked := false));
        forall q <- c.table :: q in d.items && Match(d.items[q], c.items[it].hv, c.items[it].Key()) ==> q == it
    {
      MatchUnique(c, it);
      hide Core;
    }

    lemma MatchUnique(c: Cache, it: Ptr)
      requires Core(c) && it in c.table
      ensures it in c.items && c.items[it].nkey <= |c.items[it].payload|
      ensures forall q <- c.table :: q in c.items && Match(c.items[q], c.items[it].hv, c.items[it].Key()) ==> q == it
    {
      hide Homes, Members, Sized, Sorted, Config, Hash;
    }

    /** item_free, of an item that may have been freed already */
    method ItemFree(it: HashItem, grow: bool)
      requires Rep() && Base(c) && it in c.items && it !in c.table && c.items[it].refcount == 0
      modifies this`c, slabs, slabs.repr, it`clsid, it`slabbed
      ensures Known(old(c), it) && c == Drop(old(c), it, grow) && Rep() && fresh(slabs.repr - old(slabs.repr))
      ensures c.items.Keys == old(c.items.Keys) && SameTables()
    {
      hide Base, Rep, Out;
      RepHeader(it);
      BaseFree(c, it);
      Ends(it.clsid);
      var ntotal := HEADER + it.nkey + it.nbytes;
      assert !it.linked;
      assert it != heads[it.clsid];
      assert it != tails[it.clsid];
      assert it.refcount == 0;
      var clsid := it.clsid;
      MarkFree(it);
      ToSlabs(it, ntotal, clsid, grow);
    }

    /** What freeing needs to know about an item that is not linked. */
    lemma BaseFree(c: Cache, it: Ptr)
      requires Base(c) && it in c.items && it !in c.table
      ensures !c.items[it].linked && Known(c, it) && c.items[it].clsid < POWER_LARGEST
      ensures c.items[it].clsid != 0 ==>
        && c.items[it].clsid < |c.slabs.classes| && it in Out(c.slabs.classes[c.items[it].clsid])
        && it in c.slabs.classes[c.items[it].clsid].charges
        && c.slabs.classes[c.items[it].clsid].charges[it] == c.items[it].Total()
      ensures |c.queues| == POWER_LARGEST && it !in c.queues[c.items[it].clsid]
    {
      NotLinked(c, it);
      NotQueued(c, it);
      if c.items[it].clsid != 0 {
        DropOk(c, it);
      }
      hide Base;
    }

    lemma NotQueued(c: Cache, it: Ptr)
      requires Members(c) && it !in c.table
      ensures |c.queues| == POWER_LARGEST && forall i :: 0 <= i < |c.queues| ==> it !in c.queues[i]
    {
      hide Distinct;
    }

    /** The ends of a queue are in it. */
    lemma Ends(id: nat)
      requires Rep() && id < POWER_LARGEST
      ensures heads.Length == tails.Length == |c.queues| == POWER_LARGEST
      ensures heads[id] == (if c.queues[id] == [] then null else c.queues[id][0])
      ensures tails[id] == (if c.queues[id] == [] then null else c.queues[id][|c.queues[id]| - 1])
    {
      hide HeadersAre, TableIs, SlabsAre, All, Disjoint;
      assert Dll(heads[id], tails[id], c.queues[id]);
    }

    /** do_item_unlink */
    method DoItemUnlink(it: HashItem, grow: bool)
      requires Rep() && Inv(c) && IsLive(c, it)
      modifies this`c, Repr()
      ensures Known(old(c), it) && c == Unlink(old(c), it, grow)
      ensures Rep() && Inv(c) && SlabsGrown() && c.items.Keys == old(c.items.Keys)
    {
      hide Inv, Core, Rep, LiveBut, Drop, Without, All, Base;
      RepHeader(it);
      RepParts();
      UnlinkKeeps(c, it, grow);
      InvIs(c);
      LiveKnown(c, it);
      if it.linked {
        DetachKeeps(c, it);
        TakeOut(it);
        RepHeader(it);
        if it.refcount == 0 {
          CoreBase(c);
          ItemFree(it, grow);
        }
        assert c.items.Keys == old(c.items.Keys);
      }
    }

    lemma CoreBase(c: Cache)
      requires Core(c)
      ensures Base(c)
    {
    }

    lemma RepParts()
      requires Rep()
      ensures c.table <= c.items.Keys && All(c.queues) <= c.items.Keys
    {
    }

    // ---------------------------------------------------------------- linking

    /** do_item_link */
    method DoItemLink(it: HashItem, now: nat, callocOk: bool, threadOk: bool)
      requires Rep() && Core(c) && SettingsOk() && IsLive(c, it) && it !in c.table && |c.table| + 1 < 0x1_0000_0000
      requires Unmatched(c, it, None)
      modifies this`c, heads, tails, sizes, assoc, assoc.Arrays()
      modifies it`linked, it`time, it`hNext, it`prev, it`next, c.table`prev
      ensures Known(old(c), it) && c == Link(old(c), it, now) && Rep() && c.items.Keys == old(c.items.Keys)
      ensures (assoc.primary == old(assoc.primary) || fresh(assoc.primary))
        && (assoc.oldTable == old(assoc.oldTable) || assoc.oldTable == old(assoc.primary))
      ensures Expands(|c.table|, callocOk, threadOk)
    {
      hide Core, Rep, SettingsOk, Unmatched, All;
      RepHeader(it);
      CoreLink(c, it);
      assert !it.linked && !it.slabbed;
      assert it.nbytes < itemSizeMax by { RepSizes(); SmallEnough(c, it); }
      MarkLinked(it, now);
      RepHeaders();
      Intable(it, callocOk, threadOk);
      Enqueue(it);
      Clock(now);
    }

    lemma RepSizes()
      requires Rep()
      ensures ClassSizes(c.slabs) == slabs.sizes
    {
      hide QueuesAre, HeadersAre, TableIs, Apart, All;
    }

    /** What linking needs to know about an item that is not linked. */
    lemma CoreLink(c: Cache, it: Ptr)
      requires Core(c) && IsLive(c, it) && it !in c.table && Unmatched(c, it, None)
      ensures Known(c, it) && !c.items[it].linked && !c.items[it].slabbed && All(c.queues) == c.table
      ensures c.items[it].nkey <= |c.items[it].payload|
      ensures c.table <= c.items.Keys
      ensures forall q <- c.table :: q != it && !Match(c.items[q], c.items[it].hv, c.items[it].Key())
    {
      LiveKnown(c, it);
      MembersDisjoint(c);
      TableKnown(c);
      hide Homes, Members, Sized, Keys, Sorted, Config, All;
    }

    /** The assertion about nbytes in do_item_link holds, because the item fits into a chunk. */
    lemma SmallEnough(c: Cache, it: Ptr)
      requires Core(c) && SettingsOk() && ClassSizes(c.slabs) == slabs.sizes && IsLive(c, it)
      ensures c.items[it].nbytes < itemSizeMax
    {
      LiveKnown(c, it);
      MinTwo(c);
      ClassForIsLeast(ClassSizes(c.slabs), c.items[it].Total());
      hide Core;
    }

    lemma MinTwo(c: Cache)
      requires Core(c)
      ensures |c.slabs.classes| >= 2
    {
      hide Homes, Members, Sized, Keys, Sorted;
      AtLeastTwo(c.slabs);
    }

    // ---------------------------------------------------------------- release, update, get

    /** do_item_release; the item may be free already, which a store at 65535 references leads to. */
    method DoItemRelease(it: HashItem, grow: bool)
      requires Rep() && Base(c) && Releasable(c, it)
      modifies this`c, slabs, slabs.repr, it`refcount, it`clsid, it`slabbed
      ensures Known(old(c), it) && c == Release(old(c), it, grow)
      ensures Rep() && SlabsGrown() && c.items.Keys == old(c.items.Keys)
      ensures Inv(old(c)) && IsLive(old(c), it) ==> Inv(c)
    {
      hide Inv, Base, Rep, Drop;
      RepHeader(it);
      if Inv(c) && IsLive(c, it) {
        ReleaseKeeps(c, it, grow);
      }
      BaseCount(c, it);
      if it.refcount != 0 {
        PutKeepsBase(c, it, c.items[it].(refcount := it.refcount - 1));
        SetRefcount(it, it.refcount - 1);
        RepHeader(it);
      }
      if it.refcount == 0 && !it.linked {
        ItemFree(it, grow);
      }
    }

    lemma BaseCount(c: Cache, it: Ptr)
      requires Base(c) && Releasable(c, it)
      ensures c.items[it].refcount < 0x1_0000 && (c.items[it].refcount != 0 ==> c.items[it].clsid != 0)
    {
      hide Homes, Members, Sorted, Config;
      RefcountsSmall(c);
    }

    /** do_item_update */
    method DoItemUpdate(it: HashItem, now: nat)
      requires Rep() && Inv(c) && IsLive(c, it) && c.clock <= now
      modifies this`c, heads, tails, sizes, it`time, it`prev, it`next, c.table`prev, c.table`next
      ensures Known(old(c), it) && c == Update(old(c), it, now) && Rep() && Inv(c)
    {
      hide Inv, Core, Rep, Without;
      RepHeader(it);
      UpdateKeeps(c, it, now);
      InvIs(c);
      LiveKnown(c, it);
      if it.time < Minus32(now, ITEM_UPDATE_INTERVAL) {
        assert !it.slabbed;
        if it.linked {
          CoreTable(c, it);
          Requeued(c, it);
          Dequeue(it);
          SetTime(it, now);
          Enqueue(it);
        }
      }
      Clock(now);
    }

    lemma Requeued(c: Cache, it: Ptr)
      requires Known(c, it) && Disjoint(c.queues) && it in c.queues[c.items[it].clsid]
      ensures var id := c.items[it].clsid; All(c.queues[id := Without(c.queues[id], it)]) == All(c.queues) - {it}
    {
      DisjointCut(c.queues, c.items[it].clsid, it);
    }

    /** do_item_get */
    method DoItemGet(key: seq<byte>, hv: nat, now: nat) returns (it: HashItem?)
      requires Rep() && Inv(c) && c.clock <= now
      modifies this`c, heads, tails, sizes, c.table`refcount, c.table`time, c.table`prev, c.table`next
      ensures var found := if it == null then None else Some(it);
        FoundIn(old(c), found, hv, key) && (it != null ==> Known(old(c), it)) && c == Get(old(c), found, now)
      ensures it == null ==> c == old(c)
      ensures c.table == old(c).table && c.slabs == old(c).slabs
      ensures Rep() && Inv(c) && c.items.Keys == old(c.items.Keys)
    {
      hide Inv, Rep, FoundIn, Core;
      it := AssocFind(hv, key);
      if it != null {
        FoundLive(c, it, hv, key);
        GetOnly(c, it, now);
        GetKeeps(c, Some(it), hv, key, now);
        HoldKeeps(c, it);
        RepHeader(it);
        SetRefcount(it, (it.refcount + 1) % 0x1_0000);
        DoItemUpdate(it, now);
      }
    }

    method AssocFind(hv: nat, key: seq<byte>) returns (it: HashItem?)
      requires Rep()
      ensures Rep() && FoundIn(c, if it == null then None else Some(it), hv, key)
    {
      hide Rep, Assoc.AssociativeArray.Valid;
      RepOpen();
      RepHeaders();
      hide HeadersAre, QueuesAre, SlabsAre, All;
      it := assoc.Find(hv, key);
      RepClose();
    }

    // ---------------------------------------------------------------- storing

    /** do_item_link as the store uses it. */
    method LinkForStore(it: HashItem, now: nat, callocOk: bool, threadOk: bool)
      requires Rep() && Inv(c) && SettingsOk() && IsLive(c, it) && it !in c.table && |c.table| + 1 < 0x1_0000_0000
      requires Unmatched(c, it, None)
      modifies this`c, Repr()
      ensures Known(old(c), it) && c == Link(old(c), it, now) && Rep() && Grown() && c.items.Keys == old(c.items.Keys)
      ensures Expands(|c.table|, callocOk, threadOk)
    {
      hide Inv, Core, Rep, Link, Unmatched, All, Assoc.Threshold, Assoc.Control.AfterExpand;
      InvIs(c);
      RepParts();
      DoItemLink(it, now, callocOk, threadOk);
    }

    /** do_item_replace */
    method DoItemReplace(it: HashItem, newIt: HashItem, now: nat, grow: bool, callocOk: bool, threadOk: bool)
      requires Rep() && Inv(c) && SettingsOk() && c.clock <= now && |c.table| < 0x1_0000_0000
      requires it in c.table && IsLive(c, it) && IsLive(c, newIt) && (newIt in c.table ==> newIt == it)
      requires (newIt == it ==> c.items[it].refcount > 0) && Unmatched(c, newIt, Some(it))
      modifies this`c, Repr()
      ensures Known(old(c), it) && Known(Unlink(old(c), it, grow), newIt)
      ensures c == Link(Unlink(old(c), it, grow), newIt, now) && Rep() && Grown() && c.items.Keys == old(c.items.Keys)
      ensures Expands(|c.table|, callocOk, threadOk)
    {
      hide Inv, Core, Rep, Unlink, Link, Unmatched, All;
      ReplaceReady(c, newIt, it, now, grow);
      RepHeader(it);
      assert !it.slabbed;
      DoItemUnlink(it, grow);
      LinkForStore(newIt, now, callocOk, threadOk);
    }

    /** do_store_item.  The requirements are the assertions of the source: assoc_insert's, that nothing in
        the table matches, and do_item_link's, that the item is not free. */
    method DoStoreItem(it: HashItem, now: nat, grow: bool, callocOk: bool, threadOk: bool)
      returns (ghost found: Option<Ptr>)
      requires Valid() && IsLive(c, it) && c.items[it].refcount > 0 && c.items[it].nkey <= |c.items[it].payload|
      requires AtMostOneMatch(c, it) && (it in c.table ==> c.items[it].refcount < 0xffff)
      requires c.clock <= now && |c.table| + 1 < 0x1_0000_0000
      modifies this`c, Repr()
      ensures Known(old(c), it) && (found.Some? ==> Known(old(c), found.value))
      ensures FoundIn(old(c), found, old(c).items[it].hv, old(c).items[it].Key())
      ensures c == Store(old(c), it, found, now, grow) && Rep() && Grown() && c.items.Keys == old(c.items.Keys)
      ensures Expands(|c.table|, callocOk, threadOk)
    {
      hide Inv, Core, Rep, FoundIn, Get, Link, Unlink, Release, AtMostOneMatch, Unmatched, All,
        Assoc.Threshold, Assoc.Control.AfterExpand;
      RepHeader(it);
      RepParts();
      StoreLive(c, it);
      var oldIt := DoItemGet(it.payload[..it.nkey], it.hv, now);
      found := if oldIt != null then Some(oldIt) else None;
      MatchIsFound(old(c), it, found);
      if oldIt != null {
        StoreOver(it, oldIt, now, grow, callocOk, threadOk, old(c));
      } else {
        LinkForStore(it, now, callocOk, threadOk);
      }
    }

    lemma MatchIsFound(c: Cache, it: Ptr, found: Option<Ptr>)
      requires Inv(c) && it in c.items && c.items[it].nkey <= |c.items[it].payload| && AtMostOneMatch(c, it)
      requires FoundIn(c, found, c.items[it].hv, c.items[it].Key())
      ensures Unmatched(c, it, found) && (it in c.table ==> found == Some(it))
    {
      hide Inv, Core, FoundIn, Unmatched, AtMostOneMatch;
      InvIs(c);
      UnmatchedIs(c, it, found);
      if it in c.table {
        FindsItself(c, it, found);
      }
    }

    /** The branch in which an item was found. */
    method StoreOver(
      it: HashItem, oldIt: HashItem, now: nat, grow: bool, callocOk: bool, threadOk: bool, ghost c0: Cache)
      requires Rep() && Inv(c0) && SettingsOk() && c0.clock <= now && |c.table| < 0x1_0000_0000
      requires IsLive(c0, it) && c0.items[it].refcount > 0 && c0.items[it].nkey <= |c0.items[it].payload|
      requires (it in c0.table ==> it == oldIt && c0.items[it].refcount < 0xffff) && Unmatched(c0, it, Some(oldIt))
      requires Known(c0, oldIt) && c == Get(c0, Some(oldIt), now)
      requires FoundIn(c0, Some(oldIt), c0.items[it].hv, c0.items[it].Key())
      modifies this`c, Repr()
      ensures Known(c0, it) && c == Store(c0, it, Some(oldIt), now, grow) && Rep() && Grown()
      ensures c.items.Keys == old(c.items.Keys) && Expands(|c.table|, callocOk, threadOk)
    {
      hide Inv, Core, Rep, FoundIn, Get, Link, Unlink, Release, Unmatched, SameContents, Base, Left;
      FoundLive(c0, oldIt, c0.items[it].hv, c0.items[it].Key());
      StoreStages(c0, it, oldIt, now, grow);
      UnmatchedSame(c0, c, it, oldIt);
      DoItemReplace(oldIt, it, now, grow, callocOk, threadOk);
      ReleaseSameKeys(c, oldIt, grow);
      DoItemRelease(oldIt, grow);
    }

    // ---------------------------------------------------------------- allocating

    /** The first search of do_item_alloc: from the tail, an item that nobody holds. */
    method SearchIdle(id: nat) returns (search: HashItem?)
      requires Rep() && id < POWER_LARGEST && QueueKnown(c, id)
      ensures var i := LastIdle(c.items, c.queues[id], SEARCH_ITEMS);
        search == if i == None then null else c.queues[id][i.value]
      ensures NearestIdle(c.items, c.queues[id], search)
    {
      hide Rep, NearestIdle;
      Ends(id);
      Places(id);
      IdleIsNearest(c.items, c.queues[id]);
      ghost var q := c.queues[id];
      search := tails[id];
      var tries := SEARCH_ITEMS;
      ghost var k := |q|;
      assert q[..k] == q;
      while tries > 0 && search != null
        invariant 0 <= k <= |q| && search == if k == 0 then null else q[k - 1]
        invariant LastIdle(c.items, q, SEARCH_ITEMS) == LastIdle(c.items, q[..k], tries)
      {
        assert search.Header() == c.items[q[k - 1]];
        if search.refcount == 0 {
          return;
        }
        assert q[..k][..k - 1] == q[..k - 1];
        search, tries, k := search.prev, tries - 1, k - 1;
      }
      search := null;
    }

    /** The second search: from the tail, an item that somebody has held for too long. */
    method SearchExpired(id: nat, now: nat) returns (search: HashItem?)
      requires Rep() && id < POWER_LARGEST && QueueKnown(c, id)
      ensures var i := LastExpired(c.items, c.queues[id], SEARCH_ITEMS, now);
        search == if i == None then null else c.queues[id][i.value]
      ensures NearestExpired(c.items, c.queues[id], now, search)
    {
      hide Rep, NearestExpired;
      Ends(id);
      Places(id);
      ExpiredIsNearest(c.items, c.queues[id], now);
      ghost var q := c.queues[id];
      search := tails[id];
      var tries := SEARCH_ITEMS;
      ghost var k := |q|;
      assert q[..k] == q;
      while tries > 0 && search != null
        invariant 0 <= k <= |q| && search == if k == 0 then null else q[k - 1]
        invariant LastExpired(c.items, q, SEARCH_ITEMS, now) == LastExpired(c.items, q[..k], tries, now)
      {
        assert search.Header() == c.items[q[k - 1]];
        if search.refcount != 0 && Plus32(search.time, TAIL_REPAIR_TIME) < now {
          return;
        }
        assert q[..k][..k - 1] == q[..k - 1];
        search, tries, k := search.prev, tries - 1, k - 1;
      }
      search := null;
    }

    /** Unlinks what the first search finds. */
    method EvictIdle(id: nat, grow: bool)
      requires Rep() && Inv(c) && id < POWER_LARGEST
      modifies this`c, Repr()
      ensures c == Evict(old(c), id, grow) && Rep() && Inv(c) && SlabsGrown() && c.items.Keys == old(c.items.Keys)
    {
      hide Inv, Rep, Unlink, Without;
      InvQueue(c, id);
      var search := SearchIdle(id);
      if search != null {
        DoItemUnlink(search, grow);
      }
    }

    /** Unlinks what the second search finds. */
    method RepairExpired(id: nat, now: nat, grow: bool)
      requires Rep() && Inv(c) && id < POWER_LARGEST && c.clock <= now
      modifies this`c, Repr()
      ensures c == Repair(old(c), id, now, grow) && Rep() && Inv(c) && SlabsGrown() && c.items.Keys == old(c.items.Keys)
    {
      hide Inv, Rep, Unlink, Without, LastExpired;
      InvQueue(c, id);
      var search := SearchExpired(id, now);
      ClockKeeps(c, now);
      Clock(now);
      if search != null {
        ZeroKeeps(old(c), search, now);
        Harvest(search, grow);
      }
    }

    /** The references to the item are forgotten. */
    method Harvest(search: HashItem, grow: bool)
      requires Rep() && search in c.items && Inv(Zero(c, search)) && IsLive(Zero(c, search), search)
      modifies this`c, Repr()
      ensures Known(Zero(old(c), search), search) && c == Unlink(Zero(old(c), search), search, grow)
      ensures Rep() && Inv(c) && SlabsGrown() && c.items.Keys == old(c.items.Keys)
    {
      hide Inv, Rep, Unlink;
      SetRefcount(search, 0);
      DoItemUnlink(search, grow);
    }

    lemma InvQueue(c: Cache, id: nat)
      requires Inv(c) && id < POWER_LARGEST
      ensures QueueKnown(c, id) && forall p <- c.queues[id] :: p in c.table && IsLive(c, p)
    {
      MembersLength(c);
      InvIs(c);
      QueueIsKnown(c, id);
      hide Inv, Core;
    }

    /** What the fields say about the items in a queue. */
    lemma Places(id: nat)
      requires Rep() && id < |c.queues|
      ensures var q := c.queues[id];
        && (forall p <- q :: p in c.items)
        && (forall k {:trigger q[k].prev} {:trigger q[k].Header()} :: 0 <= k < |q| ==>
              q[k].Header() == c.items[q[k]] && q[k].prev == PrevIn(q, k))
    {
      hide TableIs, SlabsAre, All;
      AllHas(c.queues);
      assert Dll(heads[id], tails[id], c.queues[id]);
    }

    /** The header of a new item. */
    method InitHeader(it: HashItem, id: nat, key: seq<byte>, nbytes: nat)
      requires Rep() && it in c.items && it !in c.table && it !in All(c.queues)
      modifies this`c, it
      ensures Rep() && c == Init(old(c), it, id, key, nbytes)
    {
      hide QueuesAre, SlabsAre, All, Assoc.AssociativeArray.Valid, HeadersAre, TableIs, Rep, HashItem.Header;
      RepOpen();
      WriteHeader(it, id, key, nbytes);
      c := Init(c, it, id, key, nbytes);
      RepClose();
    }

    method WriteHeader(it: HashItem, id: nat, key: seq<byte>, nbytes: nat)
      requires HeadersAre(c.items) && it in c.items && it !in assoc.hvs && it !in All(c.queues)
      requires SlabsAre(c.slabs) && Apart(c.items.Keys) && QueuesAre(c.queues) && TableIs(c.table)
      modifies it
      ensures HeadersAre(Init(c, it, id, key, nbytes).items)
      ensures SlabsAre(c.slabs) && Apart(c.items.Keys) && QueuesAre(c.queues) && TableIs(c.table)
    {
      hide SlabsAre, Assoc.AssociativeArray.Valid, TableIs, Dll, Disjoint;
      it.Begin(id, key, nbytes);
    }

    /** do_item_alloc up to its last slabs_alloc. */
    method AllocChunkOrEvict(ntotal: nat, id: nat, now: nat, mal: Mallocs) returns (it: HashItem?, ghost ans: Answers)
      requires Rep() && Inv(c) && c.clock <= now && 1 <= id < |c.slabs.classes| && PlacesOk(c.slabs, id, mal)
      modifies this`c, Repr()
      ensures AnswersOk(old(c), ntotal, id, now, ans) && Determined(old(c), ntotal, id, now, mal, ans)
      ensures (c, if it == null then None else Some(it)) == AllocChunk(old(c), ntotal, id, now, ans)
      ensures Rep() && SlabsGrown() && (it != null ==> FreeChunk(c, it))
    {
      hide Inv, Rep, SlabsAlloc, Evict, Repair, Granted, PlacesOk, FreeChunk, SlabAlloc.PlaceOk,
        SlabAlloc.AnsweredBy;
      ghost var c0 := c;
      MembersLength(c);
      PlacesAre(c.slabs, id, mal);
      ghost var g, g2, g3;
      it, g := FromSlabs(ntotal, id, mal.first);
      g2, g3 := NoList, NoList;
      if it == null {
        AfterFailure(c0, ntotal, id, g, mal);
        Ends(id);
        if tails[id] != null {
          it, g2, g3 := AllocAfterEviction(ntotal, id, now, mal);
        }
      } else {
        TakenIsFree(c0, ntotal, id, g);
      }
      ans := Answers(g, mal.grow1, g2, mal.grow2, g3);
      AnswersAre(c0, ntotal, id, now, ans);
    }

    /** The two searches, each with another slabs_alloc. */
    method AllocAfterEviction(ntotal: nat, id: nat, now: nat, mal: Mallocs)
      returns (it: HashItem?, ghost g2: Grant, ghost g3: Grant)
      requires Rep() && Inv(c) && c.clock <= now && 1 <= id < |c.slabs.classes| && id < POWER_LARGEST
      requires PlacesOk(c.slabs, id, mal)
      modifies this`c, Repr()
      ensures var c2 := Evict(old(c), id, mal.grow1); var (c3, r3) := SlabsAlloc(c2, ntotal, id, g2);
        && Granted(c2, id, g2) && SlabAlloc.AnsweredBy(c2.slabs, id, mal.second, g2)
        && if r3.Some? then Some(it) == r3 && c == c3 && g3 == NoList
           else
             var c4 := Repair(c3, id, now, mal.grow2);
             && Granted(c4, id, g3) && SlabAlloc.AnsweredBy(c4.slabs, id, mal.third, g3)
             && (c, if it == null then None else Some(it)) == SlabsAlloc(c4, ntotal, id, g3)
      ensures Rep() && SlabsGrown() && (it != null ==> FreeChunk(c, it))
    {
      hide Inv, Rep, SlabsAlloc, Evict, Repair, Granted, PlacesOk, FreeChunk, SlabAlloc.PlaceOk,
        SlabAlloc.AnsweredBy;
      EvictPlaces(c, id, mal.grow1);
      SamePlacesOk(c.slabs, Evict(c, id, mal.grow1).slabs, id, mal);
      EvictClock(c, id, mal.grow1);
      EvictIdle(id, mal.grow1);
      ghost var c2 := c;
      PlacesAre(c.slabs, id, mal);
      it, g2 := FromSlabs(ntotal, id, mal.second);
      g3 := NoList;
      if it == null {
        AfterFailure(c2, ntotal, id, g2, mal);
        it, g3 := AllocAfterRepair(ntotal, id, now, mal);
      } else {
        TakenIsFree(c2, ntotal, id, g2);
      }
    }

    method AllocAfterRepair(ntotal: nat, id: nat, now: nat, mal: Mallocs) returns (it: HashItem?, ghost g3: Grant)
      requires Rep() && Inv(c) && c.clock <= now && 1 <= id < |c.slabs.classes| && id < POWER_LARGEST
      requires PlacesOk(c.slabs, id, mal)
      modifies this`c, Repr()
      ensures var c4 := Repair(old(c), id, now, mal.grow2);
        && Granted(c4, id, g3) && SlabAlloc.AnsweredBy(c4.slabs, id, mal.third, g3)
        && (c, if it == null then None else Some(it)) == SlabsAlloc(c4, ntotal, id, g3)
      ensures Rep() && SlabsGrown() && (it != null ==> FreeChunk(c, it))
    {
      hide Inv, Rep, SlabsAlloc, Evict, Repair, Granted, PlacesOk, FreeChunk, SlabAlloc.PlaceOk,
        SlabAlloc.AnsweredBy;
      RepairPlaces(c, id, now, mal.grow2);
      SamePlacesOk(c.slabs, Repair(c, id, now, mal.grow2).slabs, id, mal);
      RepairExpired(id, now, mal.grow2);
      ghost var c4 := c;
      PlacesAre(c.slabs, id, mal);
      it, g3 := FromSlabs(ntotal, id, mal.third);
      if it != null {
        TakenIsFree(c4, ntotal, id, g3);
      }
    }

    /** do_item_alloc.  A key of 65536 bytes or more, whose length does not fit the header, gets an item
        whose header does not say what was allocated, and then the invariants do not hold. */
    method DoItemAlloc(key: seq<byte>, nbytes: nat, now: nat, mal: Mallocs) returns (it: HashItem?, ghost ans: Answers)
      requires Valid() && c.clock <= now && AllPlacesOk(c.slabs, HEADER + |key| + nbytes, mal)
      modifies this`c, Repr()
      ensures |old(c).slabs.classes| >= 2
      ensures var id := ClassFor(ClassSizes(old(c).slabs), HEADER + |key| + nbytes);
        id != 0 ==>
          && AnswersOk(old(c), HEADER + |key| + nbytes, id, now, ans)
          && Determined(old(c), HEADER + |key| + nbytes, id, now, mal, ans)
      ensures (c, if it == null then None else Some(it)) == CacheModel.ItemAlloc(old(c), key, nbytes, now, ans)
      ensures AllocOutcome(old(c), key, nbytes, now, mal, c, it == null)
      ensures Rep() && SettingsOk() && SlabsGrown() && (|key| < 0x1_0000 ==> Inv(c))
    {
      hide Inv, Rep, AllocChunk, AnswersOk, AllPlacesOk, ClassFor, Determined, Fails, Victims;
      var ntotal := HEADER + |key| + nbytes;
      var id := SlabsClsid(ntotal);
      if id == 0 {
        it, ans := null, Answers(NoList, mal.grow1, NoList, mal.grow2, NoList);
      } else {
        ClassPlacesOk(c.slabs, ntotal, id, mal);
        MembersLength(c);
        it, ans := AllocInClass(key, nbytes, id, now, mal);
        OutcomeByMallocs(old(c), key, nbytes, now, mal, ans);
        if |key| < 0x1_0000 {
          ItemAllocKeeps(old(c), key, nbytes, now, ans);
        }
      }
    }

    /** The same, in the class that was chosen. */
    method AllocInClass(key: seq<byte>, nbytes: nat, id: nat, now: nat, mal: Mallocs)
      returns (it: HashItem?, ghost ans: Answers)
      requires Valid() && c.clock <= now && |c.slabs.classes| >= 2
      requires id == ClassFor(ClassSizes(c.slabs), HEADER + |key| + nbytes)
      requires 1 <= id < |c.slabs.classes| && id < POWER_LARGEST && PlacesOk(c.slabs, id, mal)
      modifies this`c, Repr()
      ensures AnswersOk(old(c), HEADER + |key| + nbytes, id, now, ans)
      ensures Determined(old(c), HEADER + |key| + nbytes, id, now, mal, ans)
      ensures (c, if it == null then None else Some(it)) == CacheModel.ItemAlloc(old(c), key, nbytes, now, ans)
      ensures Rep() && SlabsGrown()
    {
      hide Inv, Rep, AllocChunk, AnswersOk, ClassFor, FreeChunk, Init, PlacesOk, CacheModel.ItemAlloc, All,
        Determined;
      it, ans := AllocChunkOrEvict(HEADER + |key| + nbytes, id, now, mal);
      if it != null {
        FreeChunkKnown(c, it);
        Begin(it, id, key, nbytes);
      }
      ItemAllocIs(old(c), key, nbytes, id, now, ans);
    }

    /** The end of do_item_alloc. */
    method Begin(it: HashItem, id: nat, key: seq<byte>, nbytes: nat)
      requires Rep() && FreeChunk(c, it) && id < POWER_LARGEST
      modifies this`c, it
      ensures Rep() && it in old(c).items && c == Init(old(c), it, id, key, nbytes) && c.items.Keys == old(c).items.Keys
    {
      hide Rep, All;
      RepHeader(it);
      Ends(id);
      assert it.clsid == 0;
      assert it != heads[id] by { AllHas(c.queues); }
      InitHeader(it, id, key, nbytes);
    }

    method SlabsClsid(ntotal: nat) returns (id: nat)
      requires Rep()
      ensures Rep() && |c.slabs.classes| >= 2 && id == ClassFor(ClassSizes(c.slabs), ntotal)
    {
      hide Rep, SlabAlloc.SlabAllocator.Valid, HeadersAre, QueuesAre, TableIs, All, ClassFor;
      RepOpen();
      id := slabs.SlabsClsid(ntotal);
      RepClose();
    }

    // ---------------------------------------------------------------- the public operations

    /** item_alloc */
    method ItemAlloc(key: seq<byte>, nbytes: nat, now: nat, mal: Mallocs) returns (it: HashItem?, ghost ans: Answers)
      requires Valid() && c.clock <= now && AllPlacesOk(c.slabs, HEADER + |key| + nbytes, mal)
      modifies this`c, Repr()
      ensures |old(c).slabs.classes| >= 2
      ensures var id := ClassFor(ClassSizes(old(c).slabs), HEADER + |key| + nbytes);
        id != 0 ==>
          && AnswersOk(old(c), HEADER + |key| + nbytes, id, now, ans)
          && Determined(old(c), HEADER + |key| + nbytes, id, now, mal, ans)
      ensures (c, if it == null then None else Some(it)) == CacheModel.ItemAlloc(old(c), key, nbytes, now, ans)
      ensures AllocOutcome(old(c), key, nbytes, now, mal, c, it == null)
      ensures Rep() && SettingsOk() && fresh(Repr() - old(Repr())) && SameTables() && (|key| < 0x1_0000 ==> Valid())
    {
      hide Inv, Rep, CacheModel.ItemAlloc, AnswersOk, AllPlacesOk, ClassFor, Determined, AllocOutcome;
      it, ans := DoItemAlloc(key, nbytes, now, mal);
    }

    /** item_get; `mem` is the memory from the key on, in which the hash may read past the key. */
    method ItemGet(mem: seq<byte>, address: nat, nkey: nat, now: nat) returns (it: HashItem?)
      requires Valid() && c.clock <= now
      requires nkey <= |mem| && (address % 4 == 0 ==> Jenkins.Words(nkey) <= |mem|)
      modifies this`c, Repr()
      ensures var found := if it == null then None else Some(it); var key := mem[..nkey];
        FoundIn(old(c), found, Hash(key), key) && (it != null ==> Known(old(c), it)) && c == Get(old(c), found, now)
      ensures Valid() && Repr() == old(Repr()) && SameTables()
    {
      hide Inv, Rep, FoundIn, Get, Jenkins.Value, All;
      RepParts();
      var hv := Jenkins.Hash(mem, address, nkey, 0);
      it := DoItemGet(mem[..nkey], hv as nat, now);
    }

    /** item_release */
    method ItemRelease(it: HashItem, grow: bool)
      requires Valid() && IsLive(c, it)
      modifies this`c, Repr()
      ensures Known(old(c), it) && c == Release(old(c), it, grow)
      ensures Valid() && fresh(Repr() - old(Repr())) && SameTables()
    {
      hide Inv, Rep, Release, Releasable;
      LiveReleasable(c, it);
      DoItemRelease(it, grow);
    }

    /** item_unlink */
    method ItemUnlink(it: HashItem, grow: bool)
      requires Valid() && IsLive(c, it)
      modifies this`c, Repr()
      ensures Known(old(c), it) && c == Unlink(old(c), it, grow)
      ensures Valid() && fresh(Repr() - old(Repr())) && SameTables()
    {
      hide Inv, Rep, Unlink;
      DoItemUnlink(it, grow);
    }

    /** store_item; `behind` is the memory behind the chunk, which the hash may read but does not
        depend on. */
    method StoreItem(it: HashItem, behind: seq<byte>, now: nat, grow: bool, callocOk: bool, threadOk: bool)
      returns (ghost found: Option<Ptr>)
      requires Valid() && IsLive(c, it) && c.items[it].refcount > 0 && |behind| >= 3
      requires c.items[it].nkey <= |c.items[it].payload| && AtMostOneMatch(SetHash(c, it), it)
      requires (it in c.table ==> c.items[it].refcount < 0xffff) && c.clock <= now && |c.table| + 1 < 0x1_0000_0000
      modifies this`c, Repr()
      ensures var c1 := SetHash(old(c), it);
        && Known(c1, it) && (found.Some? ==> Known(c1, found.value))
        && FoundIn(c1, found, Hash(old(c).items[it].Key()), old(c).items[it].Key())
        && c == Store(c1, it, found, now, grow)
      ensures Rep() && SettingsOk() && fresh(Repr() - old(Repr())) && Expands(|c.table|, callocOk, threadOk)
      ensures Valid() <==> Distinguishable(SetHash(old(c), it), it)
    {
      hide Inv, Rep, FoundIn, Store, Jenkins.Value, Distinguishable, All, AtMostOneMatch;
      RepHeader(it);
      var mem := it.payload + behind;
      assert mem[..it.nkey] == it.payload[..it.nkey];
      var hv := Jenkins.Hash(mem, it.address + HEADER, it.nkey, 0);
      SetHashKeeps(c, it);
      if it in c.table {
        HashFoundLive(c, it);
      }
      SetHv(it, hv as nat);
      found := DoStoreItem(it, now, grow, callocOk, threadOk);
      StoreKeepsExactly(SetHash(old(c), it), it, found, now, grow);
      if found.Some? {
        FoundLive(SetHash(old(c), it), found.value, hv as nat, old(c).items[it].Key());
      }
    }

    /** One pass of the maintenance thread's loop, under the lock: nothing changes that anybody can see. */
    method Maintain() returns (done: bool)
      requires Valid() && assoc.ctl.loops > 0
      modifies assoc, assoc.Arrays(), c.table`hNext
      ensures Valid() && c == old(c) && assoc.ctl == old(assoc.ctl).Migrated() && done == !assoc.expanding
      ensures assoc.Arrays() == old(assoc.Arrays())
    {
      hide Inv, QueuesAre, HeadersAre, SlabsAre, All, Assoc.AssociativeArray.Valid;
      done := assoc.MaintenanceStep();
    }

    lemma HashFoundLive(c: Cache, it: Ptr)
      requires Inv(c) && it in c.table
      ensures it in c.items && c.items[it].nkey <= |c.items[it].payload| && c.items[it].hv == Hash(c.items[it].Key())
    {
      InvIs(c);
      hide Inv, Homes, Members, Sized, Sorted, Config, Hash;
      TableHash(c, it);
    }
  }

  ghost predicate AllPlacesOk(s: Slabs, ntotal: nat, mal: Mallocs) {
    |s.classes| >= 2 ==> var id := ClassFor(ClassSizes(s), ntotal); id != 0 ==> PlacesOk(s, id, mal)
  }

  lemma ClassPlacesOk(s: Slabs, ntotal: nat, id: nat, mal: Mallocs)
    requires |s.classes| >= 2 && id == ClassFor(ClassSizes(s), ntotal) && id != 0 && AllPlacesOk(s, ntotal, mal)
    ensures id < |s.classes| && PlacesOk(s, id, mal)
  {
  }

  lemma ItemAllocIs(c: Cache, key: seq<byte>, nbytes: nat, id: nat, now: nat, ans: Answers)
    requires |c.slabs.classes| >= 2 && id == ClassFor(ClassSizes(c.slabs), HEADER + |key| + nbytes) && id != 0
    ensures var (d, r) := AllocChunk(c, HEADER + |key| + nbytes, id, now, ans);
      CacheModel.ItemAlloc(c, key, nbytes, now, ans)
        == if r.Some? && r.value in d.items then (Init(d, r.value, id, key, nbytes), r) else (d, None)
  {
    hide AllocChunk, Init, ClassFor;
  }

  /** What ItemAllocCorrect says about the invariants. */
  lemma ItemAllocKeeps(c: Cache, key: seq<byte>, nbytes: nat, now: nat, ans: Answers)
    requires Inv(c) && c.clock <= now && |c.slabs.classes| >= 2 && |key| < 0x1_0000
    requires var id := ClassFor(ClassSizes(c.slabs), HEADER + |key| + nbytes);
      id != 0 ==> AnswersOk(c, HEADER + |key| + nbytes, id, now, ans)
    ensures Inv(CacheModel.ItemAlloc(c, key, nbytes, now, ans).0)
  {
    hide Inv, ItemAlloc, AnswersOk, ClassFor, CanGrow, Evictable, Empty, FreeStays, NewItem;
    ItemAllocCorrect(c, key, nbytes, now, ans);
  }
}
