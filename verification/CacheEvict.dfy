/** Eviction and tail repair inside do_item_alloc: what they remove, and when. */
module CacheEvict {
  import opened Basics
  import opened Items
  import opened SizeClasses
  import opened SlabModel
  import opened SlabProofs
  import opened CacheModel
  import opened CacheInv
  import opened CacheOps

  // ---------------------------------------------------------------- the searches

  /** The first search finds the last idle item among the last `tries`, if there is one. */
  lemma {:induction false} LastIdleIs(items: map<Ptr, Item>, q: seq<Ptr>, tries: nat)
    requires forall p <- q :: p in items
    ensures var i := LastIdle(items, q, tries);
      && (i.Some? ==> i.value < |q| <= i.value + tries && items[q[i.value]].refcount == 0)
      && (forall k :: 0 <= k < |q| && |q| - tries <= k && (i.Some? ==> i.value < k) ==> items[q[k]].refcount != 0)
  {
    if q != [] && tries != 0 && items[q[|q| - 1]].refcount != 0 {
      var front := q[..|q| - 1];
      LastIdleIs(items, front, tries - 1);
      assert forall k :: 0 <= k < |front| ==> q[k] == front[k];
    }
  }

  /** The second search finds the last expired item among the last `tries`, if there is one. */
  lemma {:induction false} LastExpiredIs(items: map<Ptr, Item>, q: seq<Ptr>, tries: nat, now: nat)
    requires forall p <- q :: p in items
    ensures var i := LastExpired(items, q, tries, now);
      && (i.Some? ==> i.value < |q| <= i.value + tries && Expired(items[q[i.value]], now))
      && (forall k :: 0 <= k < |q| && |q| - tries <= k && (i.Some? ==> i.value < k) ==> !Expired(items[q[k]], now))
  {
    hide Expired;
    if q != [] && tries != 0 && !Expired(items[q[|q| - 1]], now) {
      var front := q[..|q| - 1];
      LastExpiredIs(items, front, tries - 1, now);
      assert forall k :: 0 <= k < |front| ==> q[k] == front[k];
    }
  }

  lemma QueueIsKnown(c: Cache, id: nat)
    requires Members(c) && id < |c.queues|
    ensures QueueKnown(c, id)
    ensures forall p <- c.queues[id] :: p in c.table && IsLive(c, p) && c.items[p].clsid == id && c.items[p].linked
  {
    hide Distinct;
  }

  // ---------------------------------------------------------------- unlinking an item nobody holds

  /** d is c without the linked item v, whose chunk went back to its class. */
  ghost predicate Removed(c: Cache, d: Cache, v: Ptr, grow: bool) {
    && Known(c, v) && d.table == c.table - {v} && v in c.table
    && d.queues == c.queues[c.items[v].clsid := Without(c.queues[c.items[v].clsid], v)]
    && d.items.Keys == c.items.Keys && (forall x <- c.items :: x != v ==> d.items[x] == c.items[x])
    && d.items[v].clsid == 0
    && SameElsewhere(c.slabs, d.slabs, c.items[v].clsid)
    && (grow || |c.slabs.classes[c.items[v].clsid].slots| < c.slabs.classes[c.items[v].clsid].slTotal ==>
          d.slabs.classes[c.items[v].clsid].slots == c.slabs.classes[c.items[v].clsid].slots + [v])
  }

  lemma UnlinkIdleIs(c: Cache, v: Ptr, grow: bool)
    requires Known(c, v) && v in c.table && c.items[v].linked && c.items[v].refcount == 0
    requires 1 <= c.items[v].clsid < |c.slabs.classes|
    requires |c.slabs.classes[c.items[v].clsid].slots| <= c.slabs.classes[c.items[v].clsid].slTotal
    ensures Removed(c, Unlink(c, v, grow), v, grow) && Unlink(c, v, grow).clock == c.clock
  {
    var it := c.items[v];
    FreeKeepsSizes(c.slabs, v, it.Total(), it.clsid, grow);
    hide Free, SameElsewhere;
  }

  lemma UnlinkIdleRemoves(c: Cache, v: Ptr, grow: bool)
    requires Inv(c) && v in c.table && v in c.items && c.items[v].refcount == 0
    ensures Known(c, v) && Inv(Unlink(c, v, grow)) && Removed(c, Unlink(c, v, grow), v, grow)
    ensures Unlink(c, v, grow).clock == c.clock
  {
    hide Homes, Members, Keys, Sorted, Config, Sized, Without, LiveBut, Removed, Unlink;
    TableLive(c, v);
    LiveKnown(c, v);
    UnlinkKeeps(c, v, grow);
    SlotsBelowTotal(c, c.items[v].clsid);
    UnlinkIdleIs(c, v, grow);
  }

  lemma FreeKeepsSizes(s: Slabs, p: Ptr, size: nat, id: nat, grow: bool)
    requires 1 <= id < |s.classes|
    ensures SameElsewhere(s, Free(s, p, size, id, grow), id)
    ensures grow || |s.classes[id].slots| != s.classes[id].slTotal ==>
      Free(s, p, size, id, grow).classes[id].slots == s.classes[id].slots + [p]
  {
  }

  lemma SlotsBelowTotal(c: Cache, id: nat)
    requires Config(c) && 1 <= id < |c.slabs.classes|
    ensures |c.slabs.classes[id].slots| <= c.slabs.classes[id].slTotal
  {
    hide Partition, Accounts, Separate, Memory, PageOk;
  }

  lemma ZeroKeeps(c: Cache, v: Ptr, now: nat)
    requires Inv(c) && v in c.table && v in c.items && c.clock <= now
    ensures Inv(Zero(c.(clock := now), v)) && v in Zero(c.(clock := now), v).table
  {
    ClockKeeps(c, now);
    TableLinked(c, v);
    hide Homes, Members, Keys, Sorted, Config, Sized, Hash;
    var d := c.(clock := now);
    PutKeeps(d, v, d.items[v].(refcount := 0));
  }

  lemma TableLinked(c: Cache, v: Ptr)
    requires Core(c) && v in c.table
    ensures v in c.items && c.items[v].linked && c.items[v].clsid != 0 && c.items[v].nkey <= |c.items[v].payload|
  {
    hide SlabInv, ClassFor, Out, Chunks, Distinct, Hash;
  }

  // ---------------------------------------------------------------- the two phases

  lemma EvictKeeps(c: Cache, id: nat, grow: bool)
    requires Inv(c) && id < |c.queues|
    ensures QueueKnown(c, id) && Inv(Evict(c, id, grow)) && Evict(c, id, grow).clock == c.clock
    ensures
      var i := LastIdle(c.items, c.queues[id], SEARCH_ITEMS);
      if i == None then Evict(c, id, grow) == c
      else Removed(c, Evict(c, id, grow), c.queues[id][i.value], grow) && c.items[c.queues[id][i.value]].refcount == 0
             && c.items[c.queues[id][i.value]].clsid == id
  {
    hide Homes, Members, Keys, Sorted, Config, Sized, Without, LiveBut, Removed, Unlink, IsLive;
    QueueIsKnown(c, id);
    LastIdleIs(c.items, c.queues[id], SEARCH_ITEMS);
    var i := LastIdle(c.items, c.queues[id], SEARCH_ITEMS);
    if i.Some? {
      UnlinkIdleRemoves(c, c.queues[id][i.value], grow);
    }
  }

  lemma RepairKeeps(c: Cache, id: nat, now: nat, grow: bool)
    requires Inv(c) && id < |c.queues| && c.clock <= now
    ensures QueueKnown(c, id) && Inv(Repair(c, id, now, grow)) && Repair(c, id, now, grow).clock == now
    ensures
      var i := LastExpired(c.items, c.queues[id], SEARCH_ITEMS, now);
      if i == None then Repair(c, id, now, grow) == c.(clock := now)
      else
        var v := c.queues[id][i.value];
        && Removed(Zero(c.(clock := now), v), Repair(c, id, now, grow), v, grow)
        && Expired(c.items[v], now) && c.items[v].clsid == id
  {
    hide Homes, Members, Keys, Sorted, Config, Sized, Without, LiveBut, Removed, Unlink, Expired, IsLive;
    QueueIsKnown(c, id);
    ClockKeeps(c, now);
    LastExpiredIs(c.items, c.queues[id], SEARCH_ITEMS, now);
    var i := LastExpired(c.items, c.queues[id], SEARCH_ITEMS, now);
    if i.Some? {
      var v := c.queues[id][i.value];
      ZeroKeeps(c, v, now);
      UnlinkIdleRemoves(Zero(c.(clock := now), v), v, grow);
    }
  }
}
