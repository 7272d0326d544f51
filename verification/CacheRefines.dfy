/** Every run of the cache is a run of a map from keys to data, from which only allocation may drop
    entries on its own. */
module CacheRefines {
  import opened Basics
  import opened Items
  import opened SizeClasses
  import opened SlabModel
  import opened CacheModel
  import opened CacheInv
  import opened CacheOps
  import opened CacheAllocProofs
  import opened CacheExact
  import opened CacheMap
  import opened CacheRuns
  import opened CacheGuarantees

  type Bytes = seq<byte>

  /** The data behind the key. */
  function Data(it: Item): Bytes {
    if it.nkey + it.nbytes <= |it.payload| then it.payload[it.nkey..it.nkey + it.nbytes] else []
  }

  function KeyOf(it: Item): Bytes {
    if it.nkey <= |it.payload| then it.Key() else []
  }

  /** What the cache stores. */
  ghost function Contents(c: Cache): map<Bytes, Bytes>
    requires Keys(c)
  {
    map k | k in View(c) && View(c)[k] in c.items :: Data(c.items[View(c)[k]])
  }

  /** The map that a step works on, and what it may do to it. */
  ghost predicate MapStep(w: World, op: Op, m: map<Bytes, Bytes>, m': map<Bytes, Bytes>)
    requires Allowed(w, op)
  {
    match op
    case Tick(_) => m' == m
    case OpRelease(_, _, _) => m' == m
    case OpWrite(p, data) => m' == if p in w.c.table then m[KeyOf(w.c.items[p]) := data] else m
    case OpGet(key, found) =>
      && m' == m && (IsAnswer(w, m, key, found) <==> NoFalseMatch(w.c, key))
    case OpUnlink(p, _) => m' == if p in w.c.table then m - {KeyOf(w.c.items[p])} else m
    case OpStore(p, found, _) =>
      && m' == Replaced(w.c, m, p, found)
      && (m' == m[KeyOf(w.c.items[p]) := Data(w.c.items[p])] <==> NoFalseMatch(SetHash(w.c, p), KeyOf(w.c.items[p])))
    case OpAlloc(key, nbytes, ans) => m' == m - KeysOf(w.c, Evicted(w, key, nbytes, ans))
  }

  /** What a store makes of the map: the entry of what the search has found goes, and p's data comes. */
  function Replaced(c: Cache, m: map<Bytes, Bytes>, p: Ptr, found: Option<Ptr>): map<Bytes, Bytes>
    requires p in c.items && (found.Some? ==> found.value in c.items)
  {
    (if found == None then m else m - {KeyOf(c.items[found.value])})[KeyOf(c.items[p]) := Data(c.items[p])]
  }

  /** The search finds the map's entry, or nothing if there is none. */
  ghost predicate IsAnswer(w: World, m: map<Bytes, Bytes>, key: Bytes, found: Option<Ptr>)
    requires found.Some? ==> Known(w.c, found.value)
  {
    if key !in m then found == None
    else found.Some? && KeyOf(w.c.items[found.value]) == key && Data(w.c.items[found.value]) == m[key]
  }

  /** What an allocation evicts. */
  function Evicted(w: World, key: Bytes, nbytes: nat, ans: Answers): set<Ptr> {
    if |w.c.slabs.classes| < 2 then {} else
    var id := ClassFor(ClassSizes(w.c.slabs), HEADER + |key| + nbytes);
    if id == 0 || id >= |w.c.queues| then {} else Victims(w.c, id, w.now, ans)
  }

  // ---------------------------------------------------------------- the entries

  lemma ContentsIs(c: Cache)
    requires Keys(c)
    ensures forall p <- c.table ::
      p in c.items && KeyOf(c.items[p]) in Contents(c) && Contents(c)[KeyOf(c.items[p])] == Data(c.items[p])
    ensures forall k <- Contents(c) :: k in View(c) && var p := View(c)[k];
      p in c.table && p in c.items && KeyOf(c.items[p]) == k
    ensures Contents(c).Keys == View(c).Keys
  {
    hide Data, Keys, View;
    ViewIs(c);
  }

  /** Two caches that store the same items under the same keys store the same data if every item has
      kept its data. */
  lemma ContentsFrame(c: Cache, d: Cache)
    requires Keys(c) && Keys(d) && View(d) == View(c)
    requires forall p <- c.table :: p in c.items && p in d.items && Data(d.items[p]) == Data(c.items[p])
    ensures Contents(d) == Contents(c)
  {
    hide Keys, View, Data;
    ViewIs(c);
  }

  lemma ContentsWithout(c: Cache, d: Cache, key: Bytes)
    requires Keys(c) && Keys(d) && View(d) == View(c) - {key}
    requires forall p <- d.table :: p in c.items && p in d.items && Data(d.items[p]) == Data(c.items[p])
    ensures Contents(d) == Contents(c) - {key}
  {
    hide Keys, View, Data;
    ViewIs(c);
    ViewIs(d);
  }

  lemma ContentsWritten(c: Cache, d: Cache, p: Ptr, data: Bytes)
    requires Keys(c) && Keys(d) && p in c.table && View(d) == View(c)
    requires p in c.items && d.items.Keys == c.items.Keys
    requires (forall x <- c.items :: x != p ==> d.items[x] == c.items[x])
    requires Data(d.items[p]) == data
    ensures Contents(d) == Contents(c)[KeyOf(c.items[p]) := data]
  {
    hide Keys, View, Data;
    ViewIs(c);
  }

  // ---------------------------------------------------------------- the operations

  lemma WorldKeys(w: World)
    requires WorldInv(w)
    ensures Keys(w.c)
  {
    hide LiveBut, Homes, Members, Sized, Keys, Sorted, Config, ItemInv;
  }

  /** Nothing the map depends on has changed. */
  ghost predicate SameBytes(c: Cache, d: Cache) {
    d.items.Keys == c.items.Keys
    && forall x <- c.items ::
         && d.items[x].nkey == c.items[x].nkey && d.items[x].nbytes == c.items[x].nbytes
         && d.items[x].payload == c.items[x].payload
  }

  lemma SameBytesIs(c: Cache, d: Cache)
    requires SameBytes(c, d)
    ensures forall x <- c.items :: Data(d.items[x]) == Data(c.items[x])
  {
  }

  lemma SameBytesFrame(c: Cache, d: Cache)
    requires Keys(c) && Keys(d) && d.table == c.table && SameBytes(c, d)
    ensures Contents(d) == Contents(c)
  {
    SameBytesIs(c, d);
    ViewIs(c);
    hide Keys, Data;
    ViewFrame(c, d);
    hide View, SameBytes;
    ContentsFrame(c, d);
  }

  lemma RefinesGet(w: World, op: Op)
    requires WorldInv(w) && Allowed(w, op) && op.OpGet? && Keys(w.c) && Keys(Step(w, op).c)
    ensures MapStep(w, op, Contents(w.c), Contents(Step(w, op).c))
  {
    hide WorldInv, Hash, Get, Keys, Contents, Data, View, NoFalseMatch, IsAnswer;
    if op.found.Some? {
      GetSame(w, op.key, op.found.value);
      SameBytesFrame(w.c, Step(w, op).c);
    }
    GetFinds(w, op.key, op.found);
  }

  lemma GetSame(w: World, key: Bytes, o: Ptr)
    requires WorldInv(w) && GetAllowed(w, key, Some(o))
    ensures Known(w.c, o) && SameBytes(w.c, Get(w.c, Some(o), w.now)) && Get(w.c, Some(o), w.now).table == w.c.table
  {
    hide WorldInv, Hash, Get, FoundIn;
    FoundGettable(w, key, o);
    GetEffect(w.c, o, w.now);
  }

  lemma GetFinds(w: World, key: Bytes, found: Option<Ptr>)
    requires WorldInv(w) && GetAllowed(w, key, found) && Keys(w.c)
    ensures IsAnswer(w, Contents(w.c), key, found) <==> NoFalseMatch(w.c, key)
  {
    hide ItemInv, Hash, Inv, NoFalseMatch;
    FindIsLookup(w.c, key, found);
    ContentsIs(w.c);
    ViewIs(w.c);
    hide Keys, View, Contents, Data;
    if found.Some? {
      assert KeyOf(w.c.items[found.value]) in Contents(w.c);
    }
  }

  lemma RefinesRelease(w: World, op: Op)
    requires WorldInv(w) && Allowed(w, op) && op.OpRelease? && Keys(w.c) && Keys(Step(w, op).c)
    ensures MapStep(w, op, Contents(w.c), Contents(Step(w, op).c))
  {
    hide WorldInv, Hash, Release, Keys, Contents, Data, View;
    KeyInside(w, op.p);
    ReleaseEffect(w.c, op.p, op.grow);
    SameBytesFrame(w.c, Step(w, op).c);
  }

  lemma RefinesUnlink(w: World, op: Op)
    requires WorldInv(w) && Allowed(w, op) && op.OpUnlink? && Keys(w.c) && Keys(Step(w, op).c)
    ensures MapStep(w, op, Contents(w.c), Contents(Step(w, op).c))
  {
    hide WorldInv, Hash, Unlink, Keys, Contents, Data, View;
    KeyInside(w, op.p);
    UnlinkEffect(w.c, op.p, op.grow);
    var d := Unlink(w.c, op.p, op.grow);
    SameBytesIs(w.c, d);
    if op.p in w.c.table {
      UnlinkView(w, op.p, op.grow);
      TableHasHeaders(d);
      ContentsWithout(w.c, d, KeyOf(w.c.items[op.p]));
    } else {
      SameBytesFrame(w.c, d);
    }
  }

  lemma TableHasHeaders(c: Cache)
    requires Keys(c)
    ensures c.table <= c.items.Keys
  {
    hide Hash;
  }

  lemma UnlinkView(w: World, p: Ptr, grow: bool)
    requires WorldInv(w) && Held(w, p) != multiset{} && p in w.c.table
    ensures Keys(w.c) && Known(w.c, p) && Keys(Unlink(w.c, p, grow))
    ensures View(Unlink(w.c, p, grow)) == View(w.c) - {KeyOf(w.c.items[p])}
  {
    KeyInside(w, p);
    assert Inv(w.c);
    hide WorldInv, Inv, Unlink, Keys, View;
    UnlinkIsRemove(w.c, p, grow);
  }

  lemma RefinesWrite(w: World, op: Op)
    requires WorldInv(w) && Allowed(w, op) && op.OpWrite? && Keys(w.c) && Keys(Step(w, op).c)
    ensures MapStep(w, op, Contents(w.c), Contents(Step(w, op).c))
  {
    hide WorldInv, Hash, Keys, Contents, View;
    var d := WriteData(w.c, op.p, op.data);
    KeyInside(w, op.p);
    WrittenData(w.c.items[op.p], d.items[op.p], op.data);
    hide Data;
    WrittenView(w.c, d, op.p);
    if op.p in w.c.table {
      ContentsWritten(w.c, d, op.p, op.data);
    } else {
      TableHasHeaders(w.c);
      ContentsFrame(w.c, d);
    }
  }

  lemma WrittenData(it: Item, it': Item, data: Bytes)
    requires |data| == it.nbytes && it.nkey + |data| <= |it.payload|
    requires it' == it.(payload := it.payload[..it.nkey] + data + it.payload[it.nkey + |data|..])
    ensures Data(it') == data && it'.nkey <= |it'.payload| && it'.Key() == it.Key()
  {
  }

  lemma WrittenView(c: Cache, d: Cache, p: Ptr)
    requires Keys(c) && Keys(d) && p in c.items && p in d.items && d.table == c.table
    requires forall x <- c.table :: x != p && x in c.items ==> x in d.items && d.items[x] == c.items[x]
    requires c.items[p].nkey <= |c.items[p].payload| && d.items[p].nkey <= |d.items[p].payload|
    requires d.items[p].Key() == c.items[p].Key()
    ensures View(d) == View(c)
  {
    hide Hash, Keys;
    ViewIs(c);
    ViewIs(d);
    hide View;
    forall x <- c.table
      ensures x in c.items && x in d.items && d.items[x].nkey <= |d.items[x].payload|
      ensures d.items[x].Key() == c.items[x].Key()
    {
    }
  }

  lemma RefinesStore(w: World, op: Op)
    requires WorldInv(w) && Allowed(w, op) && op.OpStore? && Keys(w.c) && Keys(Step(w, op).c)
    ensures MapStep(w, op, Contents(w.c), Contents(Step(w, op).c))
  {
    hide WorldInv, Hash, Store, Keys, Contents, Data, View, FoundIn, Distinguishable, NoFalseMatch;
    StoreSame(w, op.p, op.found, op.grow);
    SameBytesIs(w.c, Step(w, op).c);
    StoreView(w, op.p, op.found, op.grow);
    ContentsStored(w.c, Step(w, op).c, op.p, op.found);
    ContentsOverwrite(w.c, op.p, op.found);
  }

  /** The data, when the items are as Stored says. */
  lemma ContentsStored(c: Cache, d: Cache, p: Ptr, found: Option<Ptr>)
    requires Keys(c) && Keys(d) && p in c.items && c.items[p].nkey <= |c.items[p].payload|
    requires found.Some? ==> found.value in c.items && c.items[found.value].nkey <= |c.items[found.value].payload|
    requires View(d) == Stored(View(c), c, p, found)
    requires d.items.Keys == c.items.Keys && forall x <- c.items :: Data(d.items[x]) == Data(c.items[x])
    ensures Contents(d) == Replaced(c, Contents(c), p, found)
  {
    hide Keys, View, Data;
    ViewIs(c);
  }

  /** Nothing else is removed from the data exactly if nothing else is removed from the items. */
  lemma ContentsOverwrite(c: Cache, p: Ptr, found: Option<Ptr>)
    requires Keys(c) && p in c.items && c.items[p].nkey <= |c.items[p].payload|
    requires found.Some? ==>
      found.value in c.table && found.value in c.items && c.items[found.value].nkey <= |c.items[found.value].payload|
    ensures Stored(View(c), c, p, found) == View(c)[c.items[p].Key() := p]
      <==> Replaced(c, Contents(c), p, found) == Contents(c)[KeyOf(c.items[p]) := Data(c.items[p])]
  {
    hide Keys, View, Data, Contents;
    ViewIs(c);
    ContentsIs(c);
    if found.Some? {
      var k, o := c.items[p].Key(), c.items[found.value].Key();
      if o != k {
        assert o in Contents(c)[k := Data(c.items[p])] && o in View(c)[k := p];
        assert o !in (Contents(c) - {o})[k := Data(c.items[p])] && o !in Stored(View(c), c, p, found);
      } else {
        assert (View(c) - {o})[k := p] == View(c)[k := p];
        assert (Contents(c) - {o})[k := Data(c.items[p])] == Contents(c)[k := Data(c.items[p])];
      }
    }
  }

  lemma StoreSame(w: World, p: Ptr, found: Option<Ptr>, grow: bool)
    requires WorldInv(w) && StoreAllowed(w, p, found)
    ensures SameBytes(w.c, AfterStore(w, p, found, grow).c)
  {
    hide Inv, ItemInv, Hash, Store, FoundIn, Distinguishable;
    BeforeStore(w, p, found);
    StoreEffect(SetHash(w.c, p), p, found, w.now, grow);
  }

  lemma StoreFinds(w: World, p: Ptr, found: Option<Ptr>)
    requires StoreAllowed(w, p, found) && SetHash(w.c, p).items[p].Key() == w.c.items[p].Key()
    requires SetHash(w.c, p).items[p].hv == Hash(w.c.items[p].Key())
    ensures var c := SetHash(w.c, p); Distinguishable(c, p) && FoundIn(c, found, c.items[p].hv, c.items[p].Key())
  {
    hide Hash, SetHash, Distinguishable, FoundIn;
  }

  lemma StoreView(w: World, p: Ptr, found: Option<Ptr>, grow: bool)
    requires WorldInv(w) && StoreAllowed(w, p, found)
    ensures Keys(w.c) && Keys(AfterStore(w, p, found, grow).c)
    ensures p in w.c.items && w.c.items[p].nkey <= |w.c.items[p].payload|
    ensures found.Some? ==>
      && found.value in w.c.table && found.value in w.c.items
      && w.c.items[found.value].nkey <= |w.c.items[found.value].payload|
    ensures View(AfterStore(w, p, found, grow).c) == Stored(View(w.c), w.c, p, found)
    ensures Stored(View(w.c), w.c, p, found) == View(w.c)[w.c.items[p].Key() := p]
      <==> NoFalseMatch(SetHash(w.c, p), w.c.items[p].Key())
  {
    hide WorldInv, Inv, Hash, Store, FoundIn, Distinguishable, Keys, View, NoFalseMatch;
    WorldKeys(w);
    BeforeStore(w, p, found);
    StoreFinds(w, p, found);
    var c := SetHash(w.c, p);
    CoreKeys(c);
    if found.Some? {
      FoundLive(c, found.value, c.items[p].hv, c.items[p].Key());
    }
    StoreIsOverwrite(c, p, found, w.now, grow);
    TableHasHeaders(w.c);
    ViewFrame(w.c, c);
  }

  lemma RefinesAlloc(w: World, op: Op)
    requires WorldInv(w) && Allowed(w, op) && op.OpAlloc? && Keys(w.c) && Keys(Step(w, op).c)
    ensures MapStep(w, op, Contents(w.c), Contents(Step(w, op).c))
  {
    hide Inv, Hash, ItemAlloc, ClassFor, AnswersOk, Keys, View, Contents, ItemInv, Victims;
    var (e, r) := ItemAlloc(w.c, op.key, op.nbytes, w.now, op.ans);
    AllocIsRemoval(w.c, op.key, op.nbytes, w.now, op.ans);
    if ClassFor(ClassSizes(w.c.slabs), HEADER + |op.key| + op.nbytes) == 0 {
      NothingAllocated(w.c, op.key, op.nbytes, w.now, op.ans);
    } else {
      ItemAllocTable(w.c, op.key, op.nbytes, w.now, op.ans);
    }
    ContentsRemoved(w.c, e, KeysOf(w.c, Evicted(w, op.key, op.nbytes, op.ans)));
  }

  lemma ContentsRemoved(c: Cache, d: Cache, keys: set<Bytes>)
    requires Keys(c) && Keys(d) && View(d) == View(c) - keys
    requires forall p <- d.table :: p in c.items && p in d.items && d.items[p] == c.items[p]
    ensures Contents(d) == Contents(c) - keys
  {
    hide Keys, View, Data;
    ViewIs(c);
    ViewIs(d);
  }

  // ---------------------------------------------------------------- runs

  /** Every step of the cache is a step of the map. */
  lemma StepRefines(w: World, op: Op)
    requires WorldInv(w) && Allowed(w, op)
    ensures Keys(w.c) && Keys(Step(w, op).c) && MapStep(w, op, Contents(w.c), Contents(Step(w, op).c))
  {
    hide WorldInv, Allowed, Step, MapStep, Keys, Contents;
    StepKeeps(w, op);
    WorldKeys(w);
    WorldKeys(Step(w, op));
    match op
    case Tick(_) => RefinesTick(w, op);
    case OpAlloc(_, _, _) => RefinesAlloc(w, op);
    case OpWrite(_, _) => RefinesWrite(w, op);
    case OpGet(_, _) => RefinesGet(w, op);
    case OpRelease(_, _, _) => RefinesRelease(w, op);
    case OpUnlink(_, _) => RefinesUnlink(w, op);
    case OpStore(_, _, _) => RefinesStore(w, op);
  }

  lemma RefinesTick(w: World, op: Op)
    requires Allowed(w, op) && op.Tick? && Keys(w.c) && Keys(Step(w, op).c)
    ensures MapStep(w, op, Contents(w.c), Contents(Step(w, op).c))
  {
    hide Keys, Contents;
  }

  /** So is every step of every run. */
  lemma RunRefines(ws: seq<World>, ops: seq<Op>, chunkSize: nat, max: nat, memLimit: nat, i: nat)
    requires ConfigOk(chunkSize, max) && 0 < max
    requires Run(ws, ops) && Start(ws[0], chunkSize, max, memLimit) && i < |ops|
    ensures Allowed(ws[i], ops[i]) && Keys(ws[i].c) && Keys(ws[i + 1].c)
    ensures MapStep(ws[i], ops[i], Contents(ws[i].c), Contents(ws[i + 1].c))
    ensures Keys(ws[0].c) && Contents(ws[0].c) == map[]
  {
    hide Allowed, Step, MapStep, WorldInv;
    RunInv(ws, ops, chunkSize, max, memLimit, i);
    assert Allowed(ws[i], ops[i]);
    StepRefines(ws[i], ops[i]);
    assert ws[i + 1] == Step(ws[i], ops[i]);
  }
}
