/** What callers of the cache can rely on, in every run. */
module CacheGuarantees {
  import opened Basics
  import opened Items
  import opened SizeClasses
  import opened SlabModel
  import opened CacheModel
  import opened CacheInv
  import opened CacheOps
  import opened CacheEvict
  import opened CacheAllocProofs
  import opened CacheExact
  import opened CacheRuns

  // ---------------------------------------------------------------- runs

  ghost predicate Run(ws: seq<World>, ops: seq<Op>) {
    && |ws| == |ops| + 1
    && forall i :: 0 <= i < |ops| ==> Allowed(ws[i], ops[i]) && ws[i + 1] == Step(ws[i], ops[i])
  }

  /** The start: nothing is stored and nobody holds anything. */
  ghost predicate Start(w: World, chunkSize: nat, max: nat, memLimit: nat) {
    w.c == Fresh(chunkSize, max, memLimit) && w.held == map[] && ClockOk(w.now)
  }

  /** Every reachable state satisfies the invariants. */
  lemma {:induction false} RunInv(ws: seq<World>, ops: seq<Op>, chunkSize: nat, max: nat, memLimit: nat, i: nat)
    requires ConfigOk(chunkSize, max) && 0 < max
    requires Run(ws, ops) && Start(ws[0], chunkSize, max, memLimit) && i < |ws|
    ensures WorldInv(ws[i])
    decreases i
  {
    hide Inv, Allowed, Step, ItemInv;
    if i == 0 {
      FreshInv(chunkSize, max, memLimit);
    } else {
      RunInv(ws, ops, chunkSize, max, memLimit, i - 1);
      assert Allowed(ws[i - 1], ops[i - 1]);
      StepKeeps(ws[i - 1], ops[i - 1]);
      assert ws[i] == Step(ws[i - 1], ops[i - 1]);
    }
  }

  // ---------------------------------------------------------------- references

  /** The reference count is the number of references held, and an item is out of the allocator
      exactly while it is stored or held. */
  lemma RefcountExact(w: World, p: Ptr)
    requires WorldInv(w) && p in w.c.items
    ensures w.c.items[p].refcount == |Held(w, p)|
    ensures w.c.items[p].clsid != 0 <==> p in w.c.table || Held(w, p) != multiset{}
  {
    hide Inv;
    assert ItemInv(w, p);
    LiveIs(w.c, p);
    assert |Held(w, p)| == 0 <==> Held(w, p) == multiset{};
  }

  /** In v, p is the item it was in w: same chunk and class, same key and length, not freed. */
  ghost predicate SameItem(w: World, v: World, p: Ptr) {
    && IsLive(w.c, p) && IsLive(v.c, p)
    && var it, it' := w.c.items[p], v.c.items[p];
      && it'.clsid == it.clsid && it'.nkey == it.nkey && it'.nbytes == it.nbytes
      && it.nkey <= |it.payload| == |it'.payload| && it'.Key() == it.Key()
  }

  /** The data is the same, too. */
  ghost predicate SameData(w: World, v: World, p: Ptr) {
    SameItem(w, v, p) && v.c.items[p].payload == w.c.items[p].payload
  }

  /** One step, whatever it does, neither frees nor reuses an item somebody holds in time. */
  lemma HeldStays(w: World, op: Op, p: Ptr, t: nat)
    requires WorldInv(w) && Allowed(w, op) && t in Held(w, p)
    requires Step(w, op).now <= t + MAX_HOLD
    requires !(op.OpRelease? && op.p == p && op.since == t)
    ensures t in Held(Step(w, op), p)
    ensures SameItem(w, Step(w, op), p)
    ensures !(op.OpWrite? && op.p == p) ==> SameData(w, Step(w, op), p)
  {
    hide WorldInv, Allowed, SameItem, SameData, Step;
    TimeGoesOn(w, op);
    match op
    case Tick(_) => HeldTick(w, op, p);
    case OpAlloc(_, _, _) => HeldAlloc(w, op, p, t);
    case OpWrite(_, _) => HeldWrite(w, op, p);
    case OpGet(_, _) => HeldGet(w, op, p);
    case OpRelease(_, _, _) => HeldRelease(w, op, p, t);
    case OpUnlink(_, _) => HeldUnlink(w, op, p);
    case OpStore(_, _, _) => HeldStore(w, op, p);
  }

  lemma KeyInside(w: World, p: Ptr)
    requires WorldInv(w) && Held(w, p) != multiset{}
    ensures IsLive(w.c, p) && w.c.items[p].nkey <= |w.c.items[p].payload| && w.c.items[p].refcount > 0
    ensures p in w.c.table <==> w.c.items[p].linked
  {
    HeldIsLive(w, p);
    InvCore(w.c);
    LiveKnown(w.c, p);
    hide WorldInv, Core;
  }

  lemma HeldTick(w: World, op: Op, p: Ptr)
    requires WorldInv(w) && Allowed(w, op) && op.Tick? && Held(w, p) != multiset{}
    ensures Held(Step(w, op), p) == Held(w, p) && SameItem(w, Step(w, op), p) && SameData(w, Step(w, op), p)
  {
    hide WorldInv;
    KeyInside(w, p);
  }

  lemma HeldWrite(w: World, op: Op, p: Ptr)
    requires WorldInv(w) && Allowed(w, op) && op.OpWrite? && Held(w, p) != multiset{}
    ensures Held(Step(w, op), p) == Held(w, p) && SameItem(w, Step(w, op), p)
    ensures op.p != p ==> SameData(w, Step(w, op), p)
  {
    hide WorldInv;
    KeyInside(w, p);
  }

  lemma HeldGet(w: World, op: Op, p: Ptr)
    requires WorldInv(w) && Allowed(w, op) && op.OpGet? && Held(w, p) != multiset{}
    ensures Held(Step(w, op), p) >= Held(w, p) && SameItem(w, Step(w, op), p) && SameData(w, Step(w, op), p)
  {
    hide WorldInv, Hash, Get, FoundIn;
    KeyInside(w, p);
    if op.found.Some? {
      FoundGettable(w, op.key, op.found.value);
      GetEffect(w.c, op.found.value, w.now);
    }
  }

  lemma FoundGettable(w: World, key: seq<byte>, o: Ptr)
    requires WorldInv(w) && GetAllowed(w, key, Some(o))
    ensures Known(w.c, o) && w.c.items[o].linked && w.c.items[o].refcount < 0xffff && w.c.items[o].time <= w.now
    ensures ClockOk(w.now)
  {
    hide Core, LiveBut;
    InvCore(w.c);
    TableLinked(w.c, o);
    hide Inv;
    assert ItemInv(w, o);
  }

  lemma HeldRelease(w: World, op: Op, p: Ptr, t: nat)
    requires WorldInv(w) && Allowed(w, op) && op.OpRelease? && t in Held(w, p) && !(op.p == p && op.since == t)
    ensures t in Held(Step(w, op), p) && SameItem(w, Step(w, op), p) && SameData(w, Step(w, op), p)
  {
    hide WorldInv, Release, AllocAllowed, WriteAllowed, GetAllowed, StoreAllowed, AfterAlloc, AfterGet, AfterStore,
      WriteData, ItemAlloc, Unlink;
    KeyInside(w, p);
    KeyInside(w, op.p);
    ReleaseEffect(w.c, op.p, op.grow);
    RefcountExact(w, p);
    if op.p == p {
      TwoHeld(Held(w, p), t, op.since);
    }
  }

  lemma TwoHeld(m: multiset<nat>, t: nat, u: nat)
    requires t in m && u in m && t != u
    ensures |m| >= 2
  {
    assert m == multiset{t, u} + (m - multiset{t, u});
  }

  lemma HeldUnlink(w: World, op: Op, p: Ptr)
    requires WorldInv(w) && Allowed(w, op) && op.OpUnlink? && Held(w, p) != multiset{}
    ensures Held(Step(w, op), p) == Held(w, p) && SameItem(w, Step(w, op), p) && SameData(w, Step(w, op), p)
  {
    hide WorldInv, Unlink;
    KeyInside(w, p);
    KeyInside(w, op.p);
    UnlinkEffect(w.c, op.p, op.grow);
  }

  lemma HeldStore(w: World, op: Op, p: Ptr)
    requires WorldInv(w) && Allowed(w, op) && op.OpStore? && Held(w, p) != multiset{}
    ensures Held(Step(w, op), p) == Held(w, p) && SameItem(w, Step(w, op), p) && SameData(w, Step(w, op), p)
  {
    hide Store, Hash, Distinguishable, FoundIn, Inv, ItemInv;
    KeyInside(w, p);
    BeforeStore(w, op.p, op.found);
    StoreEffect(SetHash(w.c, op.p), op.p, op.found, w.now, op.grow);
  }

  lemma HeldAlloc(w: World, op: Op, p: Ptr, t: nat)
    requires WorldInv(w) && Allowed(w, op) && op.OpAlloc? && t in Held(w, p) && w.now <= t + MAX_HOLD
    ensures t in Held(Step(w, op), p) && SameItem(w, Step(w, op), p) && SameData(w, Step(w, op), p)
  {
    hide Inv, ItemAlloc, AnswersOk, ClassFor, ItemInv, FreeStays, NewHeader, Expired, Evictable;
    KeyInside(w, p);
    ItemAllocCorrect(w.c, op.key, op.nbytes, w.now, op.ans);
    var (e, r) := ItemAlloc(w.c, op.key, op.nbytes, w.now, op.ans);
    if p in w.c.table && p !in e.table {
      assert p in w.c.table - e.table;
      EvictableNotHeld(w, ClassFor(ClassSizes(w.c.slabs), HEADER + |op.key| + op.nbytes), p);
    }
  }

  lemma EvictableNotHeld(w: World, id: nat, p: Ptr)
    requires WorldInv(w) && p in w.c.table && Evictable(w.c, id, p, w.now)
    ensures !HeldInTime(w, p)
  {
    hide Inv;
    if HeldInTime(w, p) {
      NotExpired(w, p);
    }
  }

  ghost predicate Releases(op: Op, p: Ptr, t: nat) {
    op.OpRelease? && op.p == p && op.since == t
  }

  ghost predicate Writes(op: Op, p: Ptr) {
    op.OpWrite? && op.p == p
  }

  lemma TimeGoesOn(w: World, op: Op)
    requires Allowed(w, op)
    ensures w.now <= Step(w, op).now
  {
    hide ItemAlloc, Get, Release, Store, Unlink, SetHash;
  }

  lemma {:induction false} TimeGoesOnInRuns(ws: seq<World>, ops: seq<Op>, i: nat, j: nat)
    requires Run(ws, ops) && i <= j < |ws|
    ensures ws[i].now <= ws[j].now
    decreases j
  {
    hide Allowed, Step;
    if i < j {
      TimeGoesOnInRuns(ws, ops, i, j - 1);
      assert Allowed(ws[j - 1], ops[j - 1]);
      TimeGoesOn(ws[j - 1], ops[j - 1]);
    }
  }

  /** The reference age bound: a reference obtained at time t and not given back is good until
      t + 10740, whatever anybody does in between: the item is not freed and its chunk not reused. */
  lemma {:induction false} ReferenceAgeBound(ws: seq<World>, ops: seq<Op>, i: nat, j: nat, p: Ptr, t: nat)
    requires Run(ws, ops) && WorldInv(ws[0]) && i <= j < |ws|
    requires t in Held(ws[i], p) && ws[j].now <= t + 10740
    requires forall k :: i <= k < j ==> !Releases(ops[k], p, t)
    ensures t in Held(ws[j], p) && SameItem(ws[i], ws[j], p)
    ensures (forall k :: i <= k < j ==> !Writes(ops[k], p)) ==> SameData(ws[i], ws[j], p)
    decreases j
  {
    hide Allowed, Step, WorldInv;
    InvIn(ws, ops, j);
    if i == j {
      KeyInside(ws[i], p);
    } else {
      TimeGoesOnInRuns(ws, ops, j - 1, j);
      ReferenceAgeBound(ws, ops, i, j - 1, p, t);
      InvIn(ws, ops, j - 1);
      var w, op := ws[j - 1], ops[j - 1];
      assert Allowed(w, op) && ws[j] == Step(w, op);
      assert !Releases(op, p, t);
      HeldStays(w, op, p, t);
    }
  }

  lemma {:induction false} InvIn(ws: seq<World>, ops: seq<Op>, i: nat)
    requires Run(ws, ops) && WorldInv(ws[0]) && i < |ws|
    ensures WorldInv(ws[i])
    decreases i
  {
    hide Allowed, Step, WorldInv;
    if i > 0 {
      InvIn(ws, ops, i - 1);
      assert Allowed(ws[i - 1], ops[i - 1]);
      StepKeeps(ws[i - 1], ops[i - 1]);
    }
  }

  /** Nothing but p can be evicted from class id, and no page comes. */
  ghost predicate OnlyChoice(w: World, id: nat, p: Ptr, ans: Answers) {
    && 1 <= id < |w.c.slabs.classes| && id < |w.c.queues|
    && w.c.queues[id] == [p] && !HasChunk(w.c.slabs.classes[id]) && RoomFor(w.c, id, ans.grow2)
    && !ans.grant1.NewPage? && !ans.grant2.NewPage? && !ans.grant3.NewPage?
  }

  /** The bound cannot be raised.  A get at time t finds an item positioned exactly 60 seconds before, and
      so leaves it where it is; the reference is not given back.  An allocation that has no other choice
      returns the chunk of this very item, and voids the reference, exactly if it is made later than
      t + 10740. */
  lemma AgeBoundIsTight(w: World, key: seq<byte>, p: Ptr, now: nat, newKey: seq<byte>, nbytes: nat, ans: Answers)
    requires WorldInv(w) && GetAllowed(w, key, Some(p)) && w.c.items[p].time + 60 == w.now
    requires w.now <= now && ClockOk(now)
    requires AllocAllowed(AfterGet(w, Some(p)).(now := now), newKey, nbytes, ans)
    requires var v := AfterGet(w, Some(p)).(now := now);
      OnlyChoice(v, ClassFor(ClassSizes(v.c.slabs), HEADER + |newKey| + nbytes), p, ans)
    ensures var v := AfterGet(w, Some(p)).(now := now); var (e, r) := ItemAlloc(v.c, newKey, nbytes, now, ans);
      && w.now in Held(v, p) && p in v.c.table
      && (now <= w.now + 10740 ==> r == None && p in e.table && w.now in Held(AfterAlloc(v, e, r), p))
      && (now > w.now + 10740 ==>
            r == Some(p) && p !in e.table && Held(AfterAlloc(v, e, r), p) == multiset{now})
  {
    hide Inv, Core, ItemInv, ItemAlloc, AnswersOk, ClassFor, Hash, Get, FoundIn;
    FoundGettable(w, key, p);
    GetOneKeeps(w, p, key);
    GetEffect(w.c, p, w.now);
    var v := AfterGet(w, Some(p)).(now := now);
    var id := ClassFor(ClassSizes(v.c.slabs), HEADER + |newKey| + nbytes);
    QueueOf(v.c, id);
    assert p in v.c.queues[id];
    OnlyExpired(v.c, p, id, now, ans, w.now);
    hide First, Second, Fails;
    ItemAllocExactly(v.c, newKey, nbytes, now, ans);
    assert Only(Some(p)) == {p};
  }

  lemma OnlyExpired(c: Cache, p: Ptr, id: nat, now: nat, ans: Answers, t: nat)
    requires 1 <= id < |c.slabs.classes| && id < |c.queues| && c.queues[id] == [p] && p in c.items
    requires !HasChunk(c.slabs.classes[id]) && RoomFor(c, id, ans.grow2)
    requires !ans.grant1.NewPage? && !ans.grant2.NewPage? && !ans.grant3.NewPage?
    requires 0 < c.items[p].refcount && c.items[p].time + ITEM_UPDATE_INTERVAL == t <= now && ClockOk(t) && ClockOk(now)
    ensures First(c, id, ans) == None && Second(c, id, now, ans) == if now > t + MAX_HOLD then Some(p) else None
    ensures Fails(c, id, now, ans) <==> now <= t + MAX_HOLD
  {
  }

  // ---------------------------------------------------------------- eviction

  /** Position i of q, among the last 50: it was last used at most 60 seconds after anything nearer the
      head, held or not, and everything nearer the tail is held. */
  ghost predicate UsedBefore(w: World, q: seq<Ptr>, i: nat)
    requires i < |q|
  {
    && |q| <= i + 50 && q[i] in w.last
    && (forall j :: 0 <= j < i ==> q[j] in w.last && w.last[q[i]] <= w.last[q[j]] + 60)
    && (forall j :: i < j < |q| ==> Held(w, q[j]) != multiset{})
  }

  ghost predicate LeastRecentlyUsed(w: World, id: nat, v: Ptr) {
    id < |w.c.queues|
    && exists i :: 0 <= i < |w.c.queues[id]| && w.c.queues[id][i] == v && UsedBefore(w, w.c.queues[id], i)
  }

  ghost predicate AllTooOld(w: World, v: Ptr) {
    forall t <- Held(w, v) :: w.now > t + 10740
  }

  /** What an allocation evicts is of the requested class, which had nothing to give, and either nobody
      holds it and it is the least recently used of its class, as UsedBefore says, or every reference to
      it is too old. */
  lemma AllocEvictsStale(w: World, key: seq<byte>, nbytes: nat, ans: Answers, v: Ptr)
    requires WorldInv(w) && AllocAllowed(w, key, nbytes, ans)
    requires v in w.c.table && v !in ItemAlloc(w.c, key, nbytes, w.now, ans).0.table
    ensures var id := ClassFor(ClassSizes(w.c.slabs), HEADER + |key| + nbytes);
      && v in w.c.items && w.c.items[v].clsid == id && Empty(w.c.slabs, id)
      && if Held(w, v) == multiset{} then LeastRecentlyUsed(w, id, v) else AllTooOld(w, v)
  {
    hide Inv, ItemAlloc, AnswersOk, ClassFor, Expired, ItemInv;
    var id := ClassFor(ClassSizes(w.c.slabs), HEADER + |key| + nbytes);
    ItemAllocCorrect(w.c, key, nbytes, w.now, ans);
    assert v in w.c.table - ItemAlloc(w.c, key, nbytes, w.now, ans).0.table;
    RefcountExact(w, v);
    if Held(w, v) == multiset{} {
      assert LeastRecent(w.c, id, v) by { NotHeldNotExpired(w.c.items[v], w.now); }
      Staleness(w, id, v);
    } else if !AllTooOld(w, v) {
      NotExpired(w, v);
      assert false;
    }
  }

  lemma NotHeldNotExpired(it: Item, now: nat)
    ensures it.refcount == 0 ==> !Expired(it, now)
  {
  }

  lemma Staleness(w: World, id: nat, v: Ptr)
    requires WorldInv(w) && LeastRecent(w.c, id, v)
    ensures LeastRecentlyUsed(w, id, v)
  {
    hide WorldInv, ItemInv, Held;
    QueueItems(w, id);
    var q := w.c.queues[id];
    var i :| 0 <= i < |q| && q[i] == v && LeastRecentAt(w.c, q, i);
    forall j | 0 <= j < |q|
      ensures j < i ==> q[j] in w.last && q[i] in w.last && w.last[q[i]] <= w.last[q[j]] + ITEM_UPDATE_INTERVAL
      ensures j > i ==> Held(w, q[j]) != multiset{}
    {
      UseOrder(w, q[i], q[j]);
    }
    UseOrder(w, q[i], q[i]);
    assert UsedBefore(w, q, i);
  }

  lemma QueueItems(w: World, id: nat)
    requires WorldInv(w) && id < |w.c.queues|
    ensures forall j :: 0 <= j < |w.c.queues[id]| ==>
      w.c.queues[id][j] in w.c.table && w.c.queues[id][j] in w.c.items && ItemInv(w, w.c.queues[id][j])
  {
    hide Inv, ItemInv;
    QueueOf(w.c, id);
    TableHeaders(w.c);
    forall j | 0 <= j < |w.c.queues[id]| ensures w.c.queues[id][j] in w.c.table {
      assert w.c.queues[id][j] in w.c.queues[id];
    }
  }

  /** What the times of two stored items say about when they were last used. */
  lemma UseOrder(w: World, v: Ptr, x: Ptr)
    requires v in w.c.table && v in w.c.items && ItemInv(w, v) && x in w.c.table && x in w.c.items && ItemInv(w, x)
    ensures v in w.last && x in w.last
    ensures w.c.items[x].time >= w.c.items[v].time ==> w.last[v] <= w.last[x] + ITEM_UPDATE_INTERVAL
    ensures w.c.items[x].refcount > 0 ==> Held(w, x) != multiset{}
  {
  }

  /** So while references are given back in time, tail repair revokes nothing. */
  lemma TimelyRevokesNothing(w: World, key: seq<byte>, nbytes: nat, ans: Answers, p: Ptr)
    requires WorldInv(w) && Timely(w) && AllocAllowed(w, key, nbytes, ans) && Held(w, p) != multiset{}
    ensures var (e, r) := ItemAlloc(w.c, key, nbytes, w.now, ans);
      Held(AfterAlloc(w, e, r), p) == Held(w, p) && (p in w.c.table ==> p in e.table)
  {
    hide WorldInv, ItemAlloc, AnswersOk, ClassFor, Expired, LeastRecentlyUsed;
    var (e, r) := ItemAlloc(w.c, key, nbytes, w.now, ans);
    var t :| t in Held(w, p);
    HeldIsLive(w, p);
    if p in w.c.table && p !in e.table {
      AllocEvictsStale(w, key, nbytes, ans, p);
      assert false;
    }
    NotReturned(w, key, nbytes, ans, p);
  }

  lemma NotReturned(w: World, key: seq<byte>, nbytes: nat, ans: Answers, p: Ptr)
    requires WorldInv(w) && AllocAllowed(w, key, nbytes, ans) && IsLive(w.c, p)
    requires var (e, r) := ItemAlloc(w.c, key, nbytes, w.now, ans); p in w.c.table ==> p in e.table
    ensures ItemAlloc(w.c, key, nbytes, w.now, ans).1 != Some(p)
  {
    hide Inv, ItemAlloc, AnswersOk, ClassFor, Evictable, FreeStays, NewHeader;
    ItemAllocCorrect(w.c, key, nbytes, w.now, ans);
  }

  // ---------------------------------------------------------------- replacement

  /** A store frees the item it replaces exactly when nobody else holds it. */
  lemma StoreFreesOld(w: World, p: Ptr, o: Ptr, grow: bool)
    requires WorldInv(w) && StoreAllowed(w, p, Some(o)) && o != p
    ensures var v := AfterStore(w, p, Some(o), grow);
      && o in v.c.items && o !in v.c.table && p in v.c.table && Held(v, o) == Held(w, o)
      && (v.c.items[o].clsid == 0 <==> Held(w, o) == multiset{})
  {
    hide Inv, Hash, Store, Distinguishable, FoundIn;
    BeforeStore(w, p, Some(o));
    var c := SetHash(w.c, p);
    StoreEffect(c, p, Some(o), w.now, grow);
    StoreStepKeeps(w, p, Some(o), grow);
    RefcountExact(AfterStore(w, p, Some(o), grow), o);
    hide WorldInv;
  }
}
