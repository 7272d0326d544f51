/** What do_item_alloc does, exactly: what it evicts, what it returns, when it fails, and what is lost. */
module CacheExact {
  import opened Basics
  import opened Items
  import opened SizeClasses
  import opened SlabModel
  import opened SlabProofs
  import opened CacheModel
  import opened CacheInv
  import opened CacheOps
  import opened CacheAlloc
  import opened CacheEvict
  import opened CacheAllocProofs

  // ---------------------------------------------------------------- the outcome, read off the state before the call

  /** malloc gives a page, and the limit allows it. */
  predicate PageComes(s: Slabs, id: nat, g: Grant)
    requires id < |s.classes|
  {
    g.NewPage? && !Refused(s, id)
  }

  /** The first slabs_alloc succeeds. */
  predicate Direct(c: Cache, id: nat, ans: Answers)
    requires id < |c.slabs.classes|
  {
    HasChunk(c.slabs.classes[id]) || PageComes(c.slabs, id, ans.grant1)
  }

  /** A chunk that comes back finds room on the free list: there is an array already, or realloc
      provides one. */
  predicate RoomFor(c: Cache, id: nat, grow: bool)
    requires id < |c.slabs.classes|
  {
    c.slabs.classes[id].slTotal > 0 || grow
  }

  function IdleIn(items: map<Ptr, Item>, q: seq<Ptr>): Option<Ptr> {
    if forall p <- q :: p in items then
      var i := LastIdle(items, q, SEARCH_ITEMS); if i == None then None else Some(q[i.value])
    else None
  }

  function ExpiredIn(items: map<Ptr, Item>, q: seq<Ptr>, now: nat): Option<Ptr> {
    if forall p <- q :: p in items then
      var i := LastExpired(items, q, SEARCH_ITEMS, now); if i == None then None else Some(q[i.value])
    else None
  }

  /** What the first search unlinks. */
  function First(c: Cache, id: nat, ans: Answers): Option<Ptr>
    requires id < |c.slabs.classes| && id < |c.queues|
  {
    if Direct(c, id, ans) then None else IdleIn(c.items, c.queues[id])
  }

  /** Tail repair is not reached. */
  predicate Settled(c: Cache, id: nat, ans: Answers)
    requires id < |c.slabs.classes| && id < |c.queues|
  {
    || Direct(c, id, ans) || c.queues[id] == []
    || (First(c, id, ans).Some? && RoomFor(c, id, ans.grow1))
    || PageComes(c.slabs, id, ans.grant2)
  }

  /** What tail repair unlinks. */
  function Second(c: Cache, id: nat, now: nat, ans: Answers): Option<Ptr>
    requires id < |c.slabs.classes| && id < |c.queues|
  {
    var v := First(c, id, ans);
    if Settled(c, id, ans) then None
    else ExpiredIn(c.items, if v == None then c.queues[id] else Without(c.queues[id], v.value), now)
  }

  function Only(p: Option<Ptr>): set<Ptr> { if p == None then {} else {p.value} }

  /** Everything that do_item_alloc evicts. */
  function Victims(c: Cache, id: nat, now: nat, ans: Answers): set<Ptr>
    requires id < |c.slabs.classes| && id < |c.queues|
  {
    Only(First(c, id, ans)) + Only(Second(c, id, now, ans))
  }

  predicate Fails(c: Cache, id: nat, now: nat, ans: Answers)
    requires id < |c.slabs.classes| && id < |c.queues|
  {
    && !Direct(c, id, ans)
    && (c.queues[id] == []
        || (!Settled(c, id, ans)
            && !(Second(c, id, now, ans).Some? && RoomFor(c, id, ans.grow2))
            && !PageComes(c.slabs, id, ans.grant3)))
  }

  ghost predicate Leaked(c: Cache, id: nat, v: Ptr) {
    id < |c.slabs.classes| && v in c.slabs.classes[id].leaked
  }

  // ---------------------------------------------------------------- what stays between the searches

  /** The pages are the same, and so is the memory they take. */
  ghost predicate SamePlaces(s: Slabs, s': Slabs) {
    && |s'.classes| == |s.classes| && s'.memLimit == s.memLimit && s'.memMalloced == s.memMalloced
    && forall i :: 0 <= i < |s.classes| ==>
         && s'.classes[i].pages == s.classes[i].pages
         && s'.classes[i].size == s.classes[i].size && s'.classes[i].perslab == s.classes[i].perslab
  }

  lemma FailPlaces(c: Cache, ntotal: nat, id: nat, g: Grant)
    requires Inv(c) && 1 <= id && Granted(c, id, g) && SlabsAlloc(c, ntotal, id, g).1 == None
    ensures SamePlaces(c.slabs, SlabsAlloc(c, ntotal, id, g).0.slabs)
  {
    PerslabOk(c, id);
    hide Inv, WithSlabs;
  }

  lemma PerslabOk(c: Cache, id: nat)
    requires Inv(c) && 1 <= id < |c.slabs.classes|
    ensures c.slabs.classes[id].perslab > 0
  {
    hide Homes, Members, Sized, Keys, Sorted, LiveBut, Separate, Memory, Partition, Layout, Accounts;
  }

  lemma UnlinkPlaces(c: Cache, p: Ptr, grow: bool)
    requires Known(c, p)
    ensures SamePlaces(c.slabs, Unlink(c, p, grow).slabs)
  {
    hide Without;
  }

  lemma EvictPlaces(c: Cache, id: nat, grow: bool)
    ensures SamePlaces(c.slabs, Evict(c, id, grow).slabs)
  {
    hide Unlink;
    if QueueKnown(c, id) {
      var i := LastIdle(c.items, c.queues[id], SEARCH_ITEMS);
      if i.Some? {
        var v := c.queues[id][i.value];
        assert Known(c, v);
        UnlinkPlaces(c, v, grow);
      }
    }
  }

  lemma RepairPlaces(c: Cache, id: nat, now: nat, grow: bool)
    ensures SamePlaces(c.slabs, Repair(c, id, now, grow).slabs)
  {
    hide Unlink;
    if QueueKnown(c, id) {
      var i := LastExpired(c.items, c.queues[id], SEARCH_ITEMS, now);
      if i.Some? {
        var v := c.queues[id][i.value];
        assert Known(c, v);
        UnlinkPlaces(Zero(c.(clock := now), v), v, grow);
      }
    }
  }

  /** A slabs_alloc succeeds exactly if there is a chunk or a page. */
  lemma AllocGives(c: Cache, ntotal: nat, id: nat, g: Grant)
    requires Inv(c) && 1 <= id && Granted(c, id, g)
    ensures SlabsAlloc(c, ntotal, id, g).1.Some? <==> HasChunk(c.slabs.classes[id]) || PageComes(c.slabs, id, g)
  {
    PerslabOk(c, id);
    hide Inv, WithSlabs, TakeFrom;
  }

  /** A lost chunk stays lost, and is not handed out; what is handed out is not lost. */
  lemma AllocSkipsLeaked(c: Cache, ntotal: nat, id: nat, g: Grant)
    requires Inv(c) && 1 <= id && Granted(c, id, g)
    ensures var (d, r) := SlabsAlloc(c, ntotal, id, g);
      && |d.slabs.classes| == |c.slabs.classes| && d.slabs.classes[id].leaked == c.slabs.classes[id].leaked
      && (r.Some? ==> !Leaked(c, id, r.value)) && d.table == c.table && d.queues == c.queues
  {
    hide Inv, Alloc, SlabInv, GrantOk, HasChunk, Out, Chunks;
    MembersLength(c);
    AllocKeeps(c.slabs, ntotal, id, g);
  }

  /** The state s, reached from c by unlinking what is in `gone`, with nothing to give in class id. */
  ghost predicate Mid(c: Cache, s: Cache, id: nat, gone: set<Ptr>) {
    && Inv(s) && s.table == c.table - gone && SamePlaces(c.slabs, s.slabs)
    && 1 <= id < |c.slabs.classes| == |s.slabs.classes| && id < |s.queues| && !HasChunk(s.slabs.classes[id])
    && s.slabs.classes[id].slTotal == c.slabs.classes[id].slTotal
    && (forall x <- s.table :: x in c.items && x in s.items && s.items[x] == c.items[x])
  }

  lemma MidPage(c: Cache, s: Cache, id: nat, gone: set<Ptr>, g: Grant)
    requires Mid(c, s, id, gone)
    ensures PageComes(s.slabs, id, g) == PageComes(c.slabs, id, g)
  {
    hide Inv;
  }

  /** A slabs_alloc that fails leaves all this as it is. */
  lemma MidFails(c: Cache, s: Cache, id: nat, gone: set<Ptr>, ntotal: nat, g: Grant)
    requires Mid(c, s, id, gone) && Granted(s, id, g) && SlabsAlloc(s, ntotal, id, g).1 == None
    ensures var d := SlabsAlloc(s, ntotal, id, g).0;
      && Mid(c, d, id, gone) && d.clock == s.clock && d.queues == s.queues
      && d.slabs.classes[id].leaked == s.slabs.classes[id].leaked
  {
    hide Inv, SlabsAlloc, GrantOk, HasChunk, Extends, SameElsewhere;
    FailKeeps(s, ntotal, id, g);
    FailPlaces(s, ntotal, id, g);
    MembersLength(SlabsAlloc(s, ntotal, id, g).0);
  }

  lemma StartMid(c: Cache, id: nat)
    requires Inv(c) && 1 <= id < |c.slabs.classes| && !HasChunk(c.slabs.classes[id])
    ensures Mid(c, c, id, {})
  {
    MembersLength(c);
    TableHeaders(c);
    hide Inv;
  }

  lemma TableHeaders(c: Cache)
    requires Inv(c)
    ensures forall x <- c.table :: x in c.items && c.items[x].linked
  {
    hide SlabInv, Homes, Sized, Keys, Sorted, Distinct;
  }

  lemma QueueOf(c: Cache, id: nat)
    requires Inv(c) && id < |c.queues|
    ensures forall x <- c.queues[id] :: x in c.table
  {
    hide SlabInv, Homes, Sized, Keys, Sorted, Distinct;
  }

  // ---------------------------------------------------------------- one victim

  /** A chunk that comes back to a class that has nothing. */
  lemma GiveToEmpty(k: SlabClass, p: Ptr, size: nat, grow: bool)
    requires !HasChunk(k)
    ensures var k' := GiveTo(k, p, size, grow);
      if k.slTotal > 0 || grow then k'.slots == [p] && k'.leaked == k.leaked
      else !HasChunk(k') && k'.leaked == k.leaked + {p} && k'.slTotal == k.slTotal
  {
  }

  lemma UnlinkSlabs(c: Cache, v: Ptr, grow: bool)
    requires Known(c, v) && c.items[v].linked && c.items[v].refcount == 0 && 1 <= c.items[v].clsid < |c.slabs.classes|
    ensures var id := c.items[v].clsid; var s := Unlink(c, v, grow).slabs;
      |s.classes| == |c.slabs.classes| && s.classes[id] == GiveTo(c.slabs.classes[id], v, c.items[v].Total(), grow)
  {
    hide Without, GiveTo;
  }

  lemma LinkedNotLeaked(c: Cache, id: nat, v: Ptr)
    requires Inv(c) && v in c.table && v in c.items && c.items[v].clsid == id && 1 <= id < |c.slabs.classes|
    ensures !Leaked(c, id, v)
  {
    HomeOut(c, v);
    hide Inv, Chunks;
  }

  lemma HomeOut(c: Cache, v: Ptr)
    requires Inv(c) && v in c.items && c.items[v].clsid != 0
    ensures c.items[v].clsid < |c.slabs.classes| && v in Out(c.slabs.classes[c.items[v].clsid])
  {
    hide SlabInv, Members, Sized, Keys, Sorted, Out, Chunks;
  }

  /** Unlinking v in s0, which differs from s at most in v's header and the clock. */
  lemma Gone(c: Cache, s: Cache, s0: Cache, id: nat, gone: set<Ptr>, v: Ptr, grow: bool)
    requires Mid(c, s, id, gone) && v in s.table
    requires s0.slabs == s.slabs && s0.table == s.table && s0.items.Keys == s.items.Keys
    requires (forall x <- s.items :: x != v ==> s0.items[x] == s.items[x]) && s.items[v].clsid == id
    requires Known(s0, v) && s0.items[v].linked && s0.items[v].refcount == 0 && s0.items[v].clsid == id
    requires Inv(Unlink(s0, v, grow)) && Removed(s0, Unlink(s0, v, grow), v, grow)
    ensures var e := Unlink(s0, v, grow);
      && Inv(e) && e.table == c.table - (gone + {v}) && 1 <= id < |e.slabs.classes|
      && e.slabs.classes[id].leaked >= s.slabs.classes[id].leaked
      && (RoomFor(c, id, grow) ==> e.slabs.classes[id].slots == [v] && !Leaked(e, id, v))
      && (!RoomFor(c, id, grow) ==> Mid(c, e, id, gone + {v}) && Leaked(e, id, v))
  {
    hide Inv, Unlink, HasChunk, GiveTo;
    var e := Unlink(s0, v, grow);
    UnlinkSlabs(s0, v, grow);
    GiveToEmpty(s.slabs.classes[id], v, s0.items[v].Total(), grow);
    LinkedNotLeaked(s, id, v);
    UnlinkPlaces(s0, v, grow);
    MembersLength(e);
  }

  /** The last slabs_alloc after a victim has gone. */
  lemma AfterGone(e: Cache, ntotal: nat, id: nat, g: Grant, v: Ptr, room: bool)
    requires Inv(e) && 1 <= id && Granted(e, id, g)
    requires if room then e.slabs.classes[id].slots == [v] && !Leaked(e, id, v) else Leaked(e, id, v)
    ensures var (d, r) := SlabsAlloc(e, ntotal, id, g);
      && d.table == e.table && |d.slabs.classes| == |e.slabs.classes|
      && d.slabs.classes[id].leaked == e.slabs.classes[id].leaked
      && (r == Some(v) <==> room) && (Leaked(d, id, v) <==> !room) && (r.Some? ==> !Leaked(e, id, r.value))
  {
    hide Inv, SlabsAlloc, GrantOk;
    AllocSkipsLeaked(e, ntotal, id, g);
    if room {
      SlabsAllocPops(e, ntotal, id, g);
    }
  }

  // ---------------------------------------------------------------- the searches

  lemma {:induction false} LastIdleSame(m: map<Ptr, Item>, m': map<Ptr, Item>, q: seq<Ptr>, tries: nat)
    requires forall p <- q :: p in m && p in m' && m[p] == m'[p]
    ensures LastIdle(m, q, tries) == LastIdle(m', q, tries)
  {
    if q != [] && tries != 0 {
      LastIdleSame(m, m', q[..|q| - 1], tries - 1);
    }
  }

  lemma {:induction false} LastExpiredSame(m: map<Ptr, Item>, m': map<Ptr, Item>, q: seq<Ptr>, tries: nat, now: nat)
    requires forall p <- q :: p in m && p in m' && m[p] == m'[p]
    ensures LastExpired(m, q, tries, now) == LastExpired(m', q, tries, now)
  {
    hide Expired;
    if q != [] && tries != 0 {
      LastExpiredSame(m, m', q[..|q| - 1], tries - 1, now);
    }
  }

  lemma KnownIn(c: Cache, id: nat)
    requires Inv(c) && id < |c.queues|
    ensures QueueKnown(c, id) && forall p <- c.queues[id] :: p in c.table && c.items[p].clsid == id
  {
    hide Members, Homes, Sized, Keys, Sorted, Config, IsLive;
    QueueIsKnown(c, id);
  }

  /** The first search, in a state whose queued items are as in c. */
  lemma FirstSearch(c: Cache, s: Cache, id: nat, grow: bool)
    requires Mid(c, s, id, {}) && s.queues == c.queues
    ensures var v := IdleIn(c.items, c.queues[id]); var e := Evict(s, id, grow);
      && e.clock == s.clock
      && (v == None ==> e == s)
      && (v.Some? ==>
            && v.value in c.table && Inv(e) && e.table == c.table - {v.value}
            && id < |e.queues| && id < |e.slabs.classes|
            && e.queues[id] == Without(c.queues[id], v.value)
            && (RoomFor(c, id, grow) ==> e.slabs.classes[id].slots == [v.value] && !Leaked(e, id, v.value))
            && (!RoomFor(c, id, grow) ==> Mid(c, e, id, {v.value}) && Leaked(e, id, v.value)))
  {
    hide Inv, Unlink, HasChunk, LastIdle, Without, Removed, SamePlaces;
    KnownIn(s, id);
    LastIdleSame(c.items, s.items, c.queues[id], SEARCH_ITEMS);
    EvictKeeps(s, id, grow);
    var v := IdleIn(c.items, c.queues[id]);
    if v.Some? {
      assert Evict(s, id, grow) == Unlink(s, v.value, grow);
      TableHeaders(s);
      Gone(c, s, s, id, {}, v.value, grow);
      RemovedQueue(s, Evict(s, id, grow), v.value, grow);
      assert c.table - ({} + {v.value}) == c.table - {v.value};
      assert {} + {v.value} == {v.value};
    }
  }

  lemma RemovedQueue(s: Cache, e: Cache, v: Ptr, grow: bool)
    requires Removed(s, e, v, grow)
    ensures Known(s, v) && e.queues == s.queues[s.items[v].clsid := Without(s.queues[s.items[v].clsid], v)]
  {
    hide Without;
  }

  /** The second search. */
  lemma SecondSearch(c: Cache, s: Cache, id: nat, gone: set<Ptr>, now: nat, grow: bool)
    requires Mid(c, s, id, gone) && s.clock <= now
    ensures var w := ExpiredIn(c.items, s.queues[id], now); var e := Repair(s, id, now, grow);
      && Inv(e) && id < |e.slabs.classes|
      && (w == None ==> Mid(c, e, id, gone) && e.slabs.classes[id].leaked == s.slabs.classes[id].leaked)
      && (w.Some? ==>
            && w.value in s.table && e.table == c.table - (gone + {w.value})
            && e.slabs.classes[id].leaked >= s.slabs.classes[id].leaked
            && (RoomFor(c, id, grow) ==> e.slabs.classes[id].slots == [w.value] && !Leaked(e, id, w.value))
            && (!RoomFor(c, id, grow) ==> Mid(c, e, id, gone + {w.value}) && Leaked(e, id, w.value)))
  {
    hide Inv, Unlink, HasChunk, LastExpired, Without, Removed, SamePlaces, Expired;
    KnownIn(s, id);
    LastExpiredSame(c.items, s.items, s.queues[id], SEARCH_ITEMS, now);
    RepairKeeps(s, id, now, grow);
    var w := ExpiredIn(c.items, s.queues[id], now);
    if w.Some? {
      var z := Zero(s.(clock := now), w.value);
      assert Repair(s, id, now, grow) == Unlink(z, w.value, grow);
      TableHeaders(s);
      Gone(c, s, z, id, gone, w.value, grow);
    }
  }

  // ---------------------------------------------------------------- the whole of do_item_alloc

  /** From the second slabs_alloc on. */
  function Tail(s: Cache, ntotal: nat, id: nat, now: nat, ans: Answers): (Cache, Option<Ptr>)
    requires id < |s.slabs.classes|
  {
    var (c3, r3) := SlabsAlloc(s, ntotal, id, ans.grant2);
    if r3.Some? then (c3, r3) else SlabsAlloc(Repair(c3, id, now, ans.grow2), ntotal, id, ans.grant3)
  }

  /** What malloc grants in it. */
  ghost predicate TailGranted(s: Cache, ntotal: nat, id: nat, now: nat, ans: Answers)
    requires id < |s.slabs.classes|
  {
    && Granted(s, id, ans.grant2)
    && Granted(Repair(SlabsAlloc(s, ntotal, id, ans.grant2).0, id, now, ans.grow2), id, ans.grant3)
  }

  /** The result of Tail, when the first search has left class id with nothing. */
  ghost predicate TailOutcome(
    c: Cache, s: Cache, id: nat, gone: set<Ptr>, w: Option<Ptr>, ans: Answers, d: Cache, r: Option<Ptr>)
    requires id < |c.slabs.classes| && id < |s.slabs.classes|
  {
    && d.table == c.table - (gone + Only(w)) && (w.Some? ==> w.value in s.table)
    && id < |d.slabs.classes| && d.slabs.classes[id].leaked >= s.slabs.classes[id].leaked
    && (r.Some? ==> !Leaked(s, id, r.value))
    && (w.Some? ==> (r == w <==> RoomFor(c, id, ans.grow2)) && (Leaked(d, id, w.value) <==> !RoomFor(c, id, ans.grow2)))
    && (r == None <==>
          && !PageComes(c.slabs, id, ans.grant2) && !(w.Some? && RoomFor(c, id, ans.grow2))
          && !PageComes(c.slabs, id, ans.grant3))
  }

  lemma TailExactly(c: Cache, s: Cache, id: nat, gone: set<Ptr>, ntotal: nat, now: nat, ans: Answers)
    requires Mid(c, s, id, gone) && s.clock <= now && TailGranted(s, ntotal, id, now, ans)
    ensures
      var w := if PageComes(c.slabs, id, ans.grant2) then None else ExpiredIn(c.items, s.queues[id], now);
      var (d, r) := Tail(s, ntotal, id, now, ans);
      TailOutcome(c, s, id, gone, w, ans, d, r)
  {
    hide Inv, SlabsAlloc, Repair, GrantOk, HasChunk, ExpiredIn, PageComes;
    AllocGives(s, ntotal, id, ans.grant2);
    MidPage(c, s, id, gone, ans.grant2);
    AllocSkipsLeaked(s, ntotal, id, ans.grant2);
    if !PageComes(c.slabs, id, ans.grant2) {
      var c3 := SlabsAlloc(s, ntotal, id, ans.grant2).0;
      MidFails(c, s, id, gone, ntotal, ans.grant2);
      SecondSearch(c, c3, id, gone, now, ans.grow2);
      var w := ExpiredIn(c.items, s.queues[id], now);
      RepairExactly(c, c3, Repair(c3, id, now, ans.grow2), id, gone, w, ntotal, ans);
    }
  }

  lemma RepairExactly(c: Cache, s: Cache, e: Cache, id: nat, gone: set<Ptr>, w: Option<Ptr>, ntotal: nat, ans: Answers)
    requires Mid(c, s, id, gone) && Inv(e) && Granted(e, id, ans.grant3) && !PageComes(c.slabs, id, ans.grant2)
    requires w == None ==> Mid(c, e, id, gone) && e.slabs.classes[id].leaked == s.slabs.classes[id].leaked
    requires w.Some? ==>
      && w.value in s.table && e.table == c.table - (gone + {w.value})
      && e.slabs.classes[id].leaked >= s.slabs.classes[id].leaked
      && (RoomFor(c, id, ans.grow2) ==> e.slabs.classes[id].slots == [w.value] && !Leaked(e, id, w.value))
      && (!RoomFor(c, id, ans.grow2) ==> Mid(c, e, id, gone + {w.value}) && Leaked(e, id, w.value))
    ensures var (d, r) := SlabsAlloc(e, ntotal, id, ans.grant3); TailOutcome(c, s, id, gone, w, ans, d, r)
  {
    hide Inv, SlabsAlloc, GrantOk, PageComes;
    AllocSkipsLeaked(e, ntotal, id, ans.grant3);
    if w.Some? {
      AfterGone(e, ntotal, id, ans.grant3, w.value, RoomFor(c, id, ans.grow2));
    }
    if w == None || !RoomFor(c, id, ans.grow2) {
      AllocGives(e, ntotal, id, ans.grant3);
      MidPage(c, e, id, gone + Only(w), ans.grant3);
    }
    assert gone + {} == gone;
  }

  /** The outcome of a call, in terms of the state before it. */
  ghost predicate Outcome(c: Cache, id: nat, now: nat, ans: Answers, d: Cache, r: Option<Ptr>)
    requires id < |c.slabs.classes| && id < |c.queues|
  {
    var v, w := First(c, id, ans), Second(c, id, now, ans);
    && d.table == c.table - Victims(c, id, now, ans) && Victims(c, id, now, ans) <= c.table && (v.Some? ==> v != w)
    && (v.Some? ==> (r == v <==> RoomFor(c, id, ans.grow1)) && (Leaked(d, id, v.value) <==> !RoomFor(c, id, ans.grow1)))
    && (w.Some? ==> (r == w <==> RoomFor(c, id, ans.grow2)) && (Leaked(d, id, w.value) <==> !RoomFor(c, id, ans.grow2)))
    && (r == None <==> Fails(c, id, now, ans))
  }

  /** do_item_alloc unlinks exactly the victims, returns the chunk of a victim exactly when the free list
      has room for it, loses it otherwise, and fails exactly when Fails says so. */
  lemma AllocChunkExactly(c: Cache, ntotal: nat, id: nat, now: nat, ans: Answers)
    requires Inv(c) && c.clock <= now && 1 <= id && AnswersOk(c, ntotal, id, now, ans)
    ensures id < |c.queues|
    ensures var (d, r) := AllocChunk(c, ntotal, id, now, ans); Outcome(c, id, now, ans, d, r)
  {
    hide Inv, AllocChunk, Direct, Outcome, Evict, Repair, SlabsAlloc, GrantOk;
    MembersLength(c);
    if Direct(c, id, ans) {
      DirectExactly(c, ntotal, id, now, ans);
    } else if c.queues[id] == [] {
      EmptyExactly(c, ntotal, id, now, ans);
    } else {
      SearchExactly(c, ntotal, id, now, ans);
    }
  }

  lemma DirectExactly(c: Cache, ntotal: nat, id: nat, now: nat, ans: Answers)
    requires Inv(c) && 1 <= id && AnswersOk(c, ntotal, id, now, ans) && id < |c.queues| && Direct(c, id, ans)
    ensures var (d, r) := AllocChunk(c, ntotal, id, now, ans); Outcome(c, id, now, ans, d, r)
  {
    hide Inv, SlabsAlloc, Evict, Repair, Granted, HasChunk, IdleIn, ExpiredIn, PageComes;
    AllocGives(c, ntotal, id, ans.grant1);
    AllocSkipsLeaked(c, ntotal, id, ans.grant1);
  }

  lemma EmptyExactly(c: Cache, ntotal: nat, id: nat, now: nat, ans: Answers)
    requires Inv(c) && 1 <= id && AnswersOk(c, ntotal, id, now, ans) && id < |c.queues| && !Direct(c, id, ans)
    requires c.queues[id] == []
    ensures var (d, r) := AllocChunk(c, ntotal, id, now, ans); Outcome(c, id, now, ans, d, r)
  {
    hide Inv, SlabsAlloc, Evict, Repair, Granted, HasChunk, IdleIn, ExpiredIn, PageComes;
    AllocGives(c, ntotal, id, ans.grant1);
    AllocSkipsLeaked(c, ntotal, id, ans.grant1);
    NothingIn(c.items, now);
  }

  lemma SearchExactly(c: Cache, ntotal: nat, id: nat, now: nat, ans: Answers)
    requires Inv(c) && c.clock <= now && 1 <= id && AnswersOk(c, ntotal, id, now, ans) && id < |c.queues|
    requires !Direct(c, id, ans) && c.queues[id] != []
    ensures var (d, r) := AllocChunk(c, ntotal, id, now, ans); Outcome(c, id, now, ans, d, r)
  {
    hide Inv, SlabsAlloc, Evict, Repair, Granted, HasChunk, PageComes, Outcome;
    AllocGives(c, ntotal, id, ans.grant1);
    StartMid(c, id);
    MidFails(c, c, id, {}, ntotal, ans.grant1);
    AfterFirst(c, SlabsAlloc(c, ntotal, id, ans.grant1).0, ntotal, id, now, ans);
  }

  lemma NothingIn(items: map<Ptr, Item>, now: nat)
    ensures IdleIn(items, []) == None
  {
  }

  lemma AfterFirst(c: Cache, s: Cache, ntotal: nat, id: nat, now: nat, ans: Answers)
    requires Mid(c, s, id, {}) && s.queues == c.queues && s.clock == c.clock <= now && !Direct(c, id, ans)
    requires id < |c.queues| && c.queues[id] != []
    requires id < |Evict(s, id, ans.grow1).slabs.classes| && TailGranted(Evict(s, id, ans.grow1), ntotal, id, now, ans)
    ensures var (d, r) := Tail(Evict(s, id, ans.grow1), ntotal, id, now, ans); Outcome(c, id, now, ans, d, r)
  {
    hide Inv, SlabsAlloc, Evict, Repair, Granted, HasChunk, IdleIn, ExpiredIn, Without, PageComes, Direct;
    FirstSearch(c, s, id, ans.grow1);
    var e, v := Evict(s, id, ans.grow1), IdleIn(c.items, c.queues[id]);
    if v.Some? && RoomFor(c, id, ans.grow1) {
      AfterGone(e, ntotal, id, ans.grant2, v.value, true);
    } else {
      TailExactly(c, e, id, Only(v), ntotal, now, ans);
    }
  }

  lemma ChunkKnown(s: Cache, ntotal: nat, id: nat, g: Grant)
    requires Inv(s) && 1 <= id && Granted(s, id, g) && SlabsAlloc(s, ntotal, id, g).1.Some?
    ensures SlabsAlloc(s, ntotal, id, g).1.value in SlabsAlloc(s, ntotal, id, g).0.items
  {
    AllocTakes(s, ntotal, id, g);
    var (d, r) := SlabsAlloc(s, ntotal, id, g);
    hide Homes, Sized, Keys, Sorted, Config, SlabsAlloc, Taken, Members, LiveBut;
    InitHeader(s, d, r.value, id, ntotal);
  }

  /** The same for the whole call. */
  lemma ItemAllocExactly(c: Cache, key: seq<byte>, nbytes: nat, now: nat, ans: Answers)
    requires Inv(c) && c.clock <= now && |c.slabs.classes| >= 2
    requires ClassFor(ClassSizes(c.slabs), HEADER + |key| + nbytes) != 0
    requires AnswersOk(c, HEADER + |key| + nbytes, ClassFor(ClassSizes(c.slabs), HEADER + |key| + nbytes), now, ans)
    ensures var id := ClassFor(ClassSizes(c.slabs), HEADER + |key| + nbytes);
      var (e, r) := ItemAlloc(c, key, nbytes, now, ans);
      id < |c.queues| && Outcome(c, id, now, ans, e, r)
  {
    hide Inv, ClassFor, AnswersOk, AllocChunk, First, Second, Victims, Fails, SlabsAlloc;
    var ntotal := HEADER + |key| + nbytes;
    var id := ClassFor(ClassSizes(c.slabs), ntotal);
    AllocChunkExactly(c, ntotal, id, now, ans);
    var s, g := AllocChunkStage(c, ntotal, id, now, ans);
    if AllocChunk(c, ntotal, id, now, ans).1.Some? {
      ChunkKnown(s, ntotal, id, g);
    }
  }

  /** What is in the table afterwards is as it was, and the keys are in order. */
  lemma ItemAllocTable(c: Cache, key: seq<byte>, nbytes: nat, now: nat, ans: Answers)
    requires Inv(c) && c.clock <= now && |c.slabs.classes| >= 2
    requires ClassFor(ClassSizes(c.slabs), HEADER + |key| + nbytes) != 0
    requires AnswersOk(c, HEADER + |key| + nbytes, ClassFor(ClassSizes(c.slabs), HEADER + |key| + nbytes), now, ans)
    ensures var e := ItemAlloc(c, key, nbytes, now, ans).0;
      Keys(e) && e.table <= c.table && forall x <- e.table :: x in c.items && x in e.items && e.items[x] == c.items[x]
  {
    hide Inv, ItemAlloc, ClassFor, AnswersOk, Evictable, CanGrow, Empty, FreeStays, NewItem, Keys;
    ItemAllocCorrect(c, key, nbytes, now, ans);
    TableIsLive(c);
    KeysLess(c, ItemAlloc(c, key, nbytes, now, ans).0);
  }

  lemma TableIsLive(c: Cache)
    requires Inv(c)
    ensures Keys(c) && forall x <- c.table :: x in c.items && c.items[x].clsid != 0
  {
    hide Homes, Sized, Keys, Sorted, Config, LiveBut;
  }

  lemma KeysLess(c: Cache, d: Cache)
    requires Keys(c) && d.table <= c.table
    requires forall x <- d.table :: x in c.items && x in d.items && d.items[x] == c.items[x]
    ensures Keys(d)
  {
    hide Hash;
  }

  /** The header of a new item says what was allocated for it exactly if the key's length fits 16 bits:
      only then do the invariants hold after a successful call. */
  lemma ItemAllocKeepsExactly(c: Cache, key: seq<byte>, nbytes: nat, now: nat, ans: Answers)
    requires Inv(c) && c.clock <= now && |c.slabs.classes| >= 2
    requires ClassFor(ClassSizes(c.slabs), HEADER + |key| + nbytes) != 0
    requires AnswersOk(c, HEADER + |key| + nbytes, ClassFor(ClassSizes(c.slabs), HEADER + |key| + nbytes), now, ans)
    requires ItemAlloc(c, key, nbytes, now, ans).1.Some?
    ensures Inv(ItemAlloc(c, key, nbytes, now, ans).0) <==> |key| < 0x1_0000
  {
    hide Inv, ClassFor, AnswersOk, AllocChunk, SlabsAlloc, Evictable, CanGrow;
    var ntotal := HEADER + |key| + nbytes;
    var id := ClassFor(ClassSizes(c.slabs), ntotal);
    if |key| < 0x1_0000 {
      ItemAllocCorrect(c, key, nbytes, now, ans);
    } else if Inv(ItemAlloc(c, key, nbytes, now, ans).0) {
      var s, g := AllocChunkStage(c, ntotal, id, now, ans);
      var (d, r) := SlabsAlloc(s, ntotal, id, g);
      ChunkCharged(s, ntotal, id, g);
      HeaderCharged(Init(d, r.value, id, key, nbytes), r.value);
    }
  }

  lemma ChunkCharged(s: Cache, ntotal: nat, id: nat, g: Grant)
    requires Inv(s) && 1 <= id && Granted(s, id, g) && SlabsAlloc(s, ntotal, id, g).1.Some?
    ensures var (d, r) := SlabsAlloc(s, ntotal, id, g);
      id < |d.slabs.classes| && r.value in d.slabs.classes[id].charges && d.slabs.classes[id].charges[r.value] == ntotal
  {
    hide Homes, Sized, Keys, Sorted, Config, SlabsAlloc, Members, LiveBut;
    AllocTakes(s, ntotal, id, g);
  }

  lemma HeaderCharged(c: Cache, p: Ptr)
    requires Inv(c) && p in c.items && c.items[p].clsid != 0
    ensures c.items[p].clsid < |c.slabs.classes| && p in c.slabs.classes[c.items[p].clsid].charges
    ensures c.slabs.classes[c.items[p].clsid].charges[p] == c.items[p].Total()
  {
    hide SlabInv, Homes, Members, Keys, Sorted, ClassFor;
  }

  // ---------------------------------------------------------------- what follows

  /** Two items are evicted exactly when the first one's chunk is lost, no page comes, and another item
      among the last 50 has expired; never more. */
  lemma AtMostTwoVictims(c: Cache, id: nat, now: nat, ans: Answers)
    requires id < |c.slabs.classes| && id < |c.queues|
    requires (First(c, id, ans).Some? ==> First(c, id, ans) != Second(c, id, now, ans))
    ensures |Victims(c, id, now, ans)| <= 2
    ensures |Victims(c, id, now, ans)| == 2 <==>
      && !Direct(c, id, ans) && !RoomFor(c, id, ans.grow1) && !PageComes(c.slabs, id, ans.grant2)
      && var v := IdleIn(c.items, c.queues[id]);
      && v.Some? && ExpiredIn(c.items, Without(c.queues[id], v.value), now).Some?
  {
    hide Direct, PageComes, IdleIn, ExpiredIn, Without;
    NothingIn(c.items, now);
  }

  /** Two items can go: the one nearer the tail is idle, the other one held for too long, and nothing can
      be had from realloc or malloc.  Both are evicted, and the call fails. */
  lemma TwoVictims(c: Cache, id: nat, now: nat, ans: Answers, x: Ptr, y: Ptr)
    requires id < |c.slabs.classes| && id < |c.queues| && c.queues[id] == [x, y] && x != y && {x, y} <= c.items.Keys
    requires c.items[y].refcount == 0 && Expired(c.items[x], now)
    requires !HasChunk(c.slabs.classes[id]) && c.slabs.classes[id].slTotal == 0 && !ans.grow1 && !ans.grow2
    requires !ans.grant1.NewPage? && !ans.grant2.NewPage? && !ans.grant3.NewPage?
    ensures Victims(c, id, now, ans) == {x, y} && Fails(c, id, now, ans)
  {
    hide Expired;
    assert Without([x, y], y) == [x];
    assert IdleIn(c.items, [x, y]) == Some(y);
    assert ExpiredIn(c.items, [x], now) == Some(x);
  }

  /** A call that fails evicts something exactly when it loses a chunk; one that succeeds with anything
      but a victim's chunk does too. */
  lemma VictimsAreReturnedOrLost(c: Cache, id: nat, now: nat, ans: Answers, d: Cache, r: Option<Ptr>, v: Ptr)
    requires id < |c.slabs.classes| && id < |c.queues| && Outcome(c, id, now, ans, d, r)
    requires v in Victims(c, id, now, ans)
    ensures v in c.table && v !in d.table && (r == Some(v) <==> !Leaked(d, id, v))
    ensures r == Some(v) <==> RoomFor(c, id, if Some(v) == First(c, id, ans) then ans.grow1 else ans.grow2)
  {
    hide First, Second, Fails, Settled;
  }
}
