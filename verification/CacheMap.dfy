/** Seen from outside, the cache is a map from keys to items. */
module CacheMap {
  import opened Basics
  import opened Items
  import opened SizeClasses
  import opened SlabModel
  import opened CacheModel
  import opened CacheInv
  import opened CacheOps
  import opened CacheAllocProofs
  import opened CacheExact
  import Jenkins

  /** The stored items by key. */
  ghost function View(c: Cache): map<seq<byte>, Ptr>
    requires Keys(c)
  {
    map p | p in c.table :: c.items[p].Key() := p
  }

  ghost function Lookup(c: Cache, key: seq<byte>): Option<Ptr>
    requires Keys(c)
  {
    if key in View(c) then Some(View(c)[key]) else None
  }

  lemma ViewIs(c: Cache)
    requires Keys(c)
    ensures forall p <- c.table ::
      && p in c.items && c.items[p].nkey <= |c.items[p].payload|
      && c.items[p].Key() in View(c) && View(c)[c.items[p].Key()] == p
    ensures forall k <- View(c) :: var p := View(c)[k];
      p in c.table && p in c.items && c.items[p].nkey <= |c.items[p].payload| && c.items[p].Key() == k
  {
    hide Hash;
    KeysUnique(c);
  }

  lemma CoreKeys(c: Cache)
    requires Inv(c)
    ensures Keys(c)
  {
  }

  /** Caches whose tables hold the same items under the same keys look the same. */
  lemma ViewFrame(c: Cache, d: Cache)
    requires Keys(c) && Keys(d) && d.table == c.table
    requires forall p <- c.table :: d.items[p].nkey == c.items[p].nkey && d.items[p].payload == c.items[p].payload
    ensures View(d) == View(c)
  {
    hide Hash, Keys;
    ViewIs(c);
    ViewIs(d);
  }

  /** No stored item of another key length matches a search for this key. */
  ghost predicate NoFalseMatch(c: Cache, key: seq<byte>) {
    forall q <- c.table :: q in c.items && Match(c.items[q], Hash(key), key) ==> c.items[q].nkey == |key|
  }

  /** What assoc_find returns is the map's answer, exactly when no stored item with another key
      length matches: the comparison reads only as many bytes as the searched key has. */
  lemma FindIsLookup(c: Cache, key: seq<byte>, found: Option<Ptr>)
    requires Inv(c) && FoundIn(c, found, Hash(key), key)
    ensures Keys(c)
    ensures found == Lookup(c, key) <==> NoFalseMatch(c, key)
  {
    hide Inv, Hash, Keys, View;
    CoreKeys(c);
    ViewIs(c);
    OwnMatch(c);
    if key in View(c) {
      StoredIsFound(c, View(c)[key], key, found);
    }
  }

  lemma OwnMatch(c: Cache)
    requires Keys(c)
    ensures forall p <- c.table ::
      && p in c.items && c.items[p].nkey <= |c.items[p].payload| && c.items[p].hv == Hash(c.items[p].Key())
      && Match(c.items[p], Hash(c.items[p].Key()), c.items[p].Key())
  {
    hide Hash;
  }

  /** A key that is stored is found, and nothing else matches. */
  lemma StoredIsFound(c: Cache, x: Ptr, key: seq<byte>, found: Option<Ptr>)
    requires Keys(c) && x in c.table && x in c.items && c.items[x].nkey <= |c.items[x].payload|
    requires c.items[x].Key() == key
    requires FoundIn(c, found, Hash(key), key)
    ensures found == Some(x) && forall q <- c.table :: q in c.items && Match(c.items[q], Hash(key), key) ==> q == x
  {
    hide Hash;
    assert c.items[x].hv == Hash(key);
    forall q <- c.table | q in c.items && Match(c.items[q], Hash(key), key) ensures q == x {
      assert StopsAt(c.items[x], c.items[q]);
    }
    assert Match(c.items[x], Hash(key), key);
  }

  // ---------------------------------------------------------------- a search that finds another key's item

  /** p is stored, and its data begins with d. */
  ghost predicate Carries(c: Cache, p: Ptr, d: seq<byte>) {
    && p in c.table && p in c.items
    && var it := c.items[p];
      it.nkey + |d| <= |it.payload| && it.payload[it.nkey..it.nkey + |d|] == d
  }

  lemma CarriesIs(c: Cache, p: Ptr, d: seq<byte>)
    requires Keys(c) && Carries(c, p, d)
    ensures c.items[p].nkey <= |c.items[p].payload|
    ensures c.items[p].hv == Hash(c.items[p].Key())
    ensures Hash(c.items[p].Key() + d) == c.items[p].hv ==> Match(c.items[p], c.items[p].hv, c.items[p].Key() + d)
  {
    hide Hash;
    var it := c.items[p];
    assert it.payload[..it.nkey + |d|] == it.Key() + d;
  }

  /** For the key of every stored item there are bytes, given by its hash function, with this effect: if
      the item's data begins with them, a search for the longer key that they make with its key finds
      the item, although nothing is stored under the longer key. */
  lemma LongerKeyFindsShorter(c: Cache, p: Ptr) returns (d: seq<byte>)
    requires Inv(c) && p in c.table && p in c.items && c.items[p].nkey <= |c.items[p].payload|
    ensures 12 <= |d| < 24 && Hash(c.items[p].Key() + d) == Hash(c.items[p].Key())
    ensures Carries(c, p, d) ==>
      var key := c.items[p].Key() + d;
      && Keys(c) && Lookup(c, key) == None && !NoFalseMatch(c, key)
      && forall found :: FoundIn(c, found, Hash(key), key) ==> found == Some(p)
  {
    hide Inv, Keys, View, Jenkins.Value;
    CoreKeys(c);
    d := Jenkins.Collide(c.items[p].Key(), 0);
    if Carries(c, p, d) {
      Misleads(c, p, d);
    }
  }

  lemma Misleads(c: Cache, p: Ptr, d: seq<byte>)
    requires Keys(c) && Carries(c, p, d) && d != [] && c.items[p].nkey <= |c.items[p].payload|
    requires Hash(c.items[p].Key() + d) == Hash(c.items[p].Key())
    ensures var key := c.items[p].Key() + d;
      && Lookup(c, key) == None && Match(c.items[p], Hash(key), key) && !NoFalseMatch(c, key)
      && (forall q <- c.table :: q in c.items && Match(c.items[q], Hash(key), key) ==> q == p)
      && forall found :: FoundIn(c, found, Hash(key), key) ==> found == Some(p)
  {
    hide Hash, View;
    ViewIs(c);
    CarriesIs(c, p, d);
    var key := c.items[p].Key() + d;
    if key in View(c) {
      StoredIsFound(c, View(c)[key], key, Some(p));
    }
    forall q <- c.table | q in c.items && Match(c.items[q], Hash(key), key) ensures q == p {
      PrefixMatches(c.items[q], c.items[p].hv, c.items[p].Key(), d);
      assert StopsAt(c.items[p], c.items[q]);
    }
  }

  lemma PrefixMatches(it: Item, hv: nat, key: seq<byte>, d: seq<byte>)
    requires Match(it, hv, key + d)
    ensures Match(it, hv, key)
  {
    assert it.payload[..|key|] == it.payload[..|key + d|][..|key|];
  }

  /** And a store under the longer key takes the shorter key's item out of the cache. */
  lemma StoreUnlinksOther(c: Cache, p: Ptr, d: seq<byte>, q: Ptr, found: Option<Ptr>, now: nat, grow: bool)
    requires Inv(c) && Carries(c, p, d) && d != [] && c.items[p].nkey <= |c.items[p].payload|
    requires Hash(c.items[p].Key() + d) == Hash(c.items[p].Key())
    requires IsLive(c, q) && c.items[q].nkey <= |c.items[q].payload| && c.items[q].Key() == c.items[p].Key() + d
    requires FoundIn(c, found, Hash(c.items[q].Key()), c.items[q].Key())
    ensures Keys(c) && c.items[p].Key() in View(c) && found == Some(p) && Known(c, q) && Known(c, p)
    ensures var e := Store(c, q, found, now, grow);
      && p !in e.table && q in e.table
      && forall x <- e.table ::
        x in e.items && e.items[x].nkey <= |e.items[x].payload| && e.items[x].Key() != c.items[p].Key()
  {
    hide Inv, Core, Hash, View, Store, Keys;
    CoreKeys(c);
    ViewIs(c);
    KeysUnique(c);
    Misleads(c, p, d);
    InvLinked(c, p);
    StoreLive(c, q);
    StoreLive(c, p);
    StoreSameKeys(c, q, found, now, grow);
  }

  lemma MatchCarries(c: Cache, p: Ptr, d: seq<byte>, hv: nat)
    requires p in c.table && p in c.items && c.items[p].nkey <= |c.items[p].payload|
    requires Match(c.items[p], hv, c.items[p].Key() + d)
    ensures Carries(c, p, d)
  {
    var it := c.items[p];
    assert it.payload[it.nkey..it.nkey + |d|] == (it.Key() + d)[it.nkey..];
  }

  /** The input at which a store breaks the invariants.  p is stored, its data does not begin with d, and q
      is to be stored under the longer key: the search for it finds another item or none, but a search for
      p's key stops at q as soon as q is in the table. */
  lemma IndistinguishableStore(c: Cache, p: Ptr, d: seq<byte>, q: Ptr, found: Option<Ptr>, now: nat, grow: bool)
    requires Inv(c) && p in c.table && p in c.items && c.items[p].nkey <= |c.items[p].payload| && !Carries(c, p, d)
    requires d != [] && Hash(c.items[p].Key() + d) == Hash(c.items[p].Key())
    requires IsLive(c, q) && c.items[q].refcount > 0 && c.clock <= now
    requires c.items[q].nkey <= |c.items[q].payload| && c.items[q].Key() == c.items[p].Key() + d
    requires c.items[q].hv == Hash(c.items[q].Key()) && FoundIn(c, found, c.items[q].hv, c.items[q].Key())
    ensures StopsAt(c.items[p], c.items[q]) && !Distinguishable(c, q)
    ensures Known(c, q) && (found.Some? ==> Known(c, found.value)) && !Inv(Store(c, q, found, now, grow))
  {
    hide Inv, Hash, Keys, View, Store;
    CoreKeys(c);
    OwnMatch(c);
    var it, key := c.items[p], c.items[p].Key();
    assert c.items[q].payload[..|key|] == c.items[q].Key()[..|key|] == key;
    if Match(it, c.items[q].hv, c.items[q].Key()) {
      MatchCarries(c, p, d, c.items[q].hv);
    }
    assert !StopsAt(c.items[q], it);
    StoreKeepsExactly(c, q, found, now, grow);
  }

  lemma InvLinked(c: Cache, p: Ptr)
    requires Inv(c) && p in c.table
    ensures IsLive(c, p) && c.items[p].linked
  {
    hide Core, LiveBut;
    TableLive(c, p);
    LiveKnown(c, p);
  }

  // ---------------------------------------------------------------- the operations, as operations on the map

  /** get changes nothing in the map, and is lookup exactly when there is no false match. */
  lemma GetIsLookup(c: Cache, key: seq<byte>, found: Option<Ptr>, now: nat)
    requires Inv(c) && FoundIn(c, found, Hash(key), key) && c.clock <= now
    ensures Keys(c) && (found == Lookup(c, key) <==> NoFalseMatch(c, key))
    ensures found.Some? ==> Known(c, found.value)
    ensures Inv(Get(c, found, now)) && Keys(Get(c, found, now)) && View(Get(c, found, now)) == View(c)
  {
    hide Inv, Hash, Get, Keys;
    FindIsLookup(c, key, found);
    GetKeeps(c, found, Hash(key), key, now);
    CoreKeys(Get(c, found, now));
    GetSameKeys(c, found, now);
    ViewFrame(c, Get(c, found, now));
  }

  /** release does not change the map. */
  lemma ReleaseIsNothing(c: Cache, p: Ptr, grow: bool)
    requires Inv(c) && IsLive(c, p)
    ensures Keys(c) && Known(c, p) && Inv(Release(c, p, grow)) && Keys(Release(c, p, grow))
    ensures View(Release(c, p, grow)) == View(c)
  {
    ReleaseKeeps(c, p, grow);
    CoreKeys(c);
    CoreKeys(Release(c, p, grow));
    ReleaseSameKeys(c, p, grow);
    hide Inv, Hash, Release;
    ViewFrame(c, Release(c, p, grow));
  }

  /** unlink removes the item's key, if the item is stored. */
  lemma UnlinkIsRemove(c: Cache, p: Ptr, grow: bool)
    requires Inv(c) && IsLive(c, p)
    ensures Keys(c) && Known(c, p) && Inv(Unlink(c, p, grow)) && Keys(Unlink(c, p, grow))
    ensures c.items[p].nkey <= |c.items[p].payload|
    ensures View(Unlink(c, p, grow)) == if p in c.table then View(c) - {c.items[p].Key()} else View(c)
  {
    hide Hash, Unlink, Keys, View, Config, Homes, Members, Sized, Sorted, LiveBut;
    LiveKnown(c, p);
    UnlinkKeeps(c, p, grow);
    CoreKeys(c);
    var d := Unlink(c, p, grow);
    CoreKeys(d);
    UnlinkSameKeys(c, p, grow);
    if p in c.table {
      ViewWithout(c, d, p);
    }
  }

  lemma ViewWithout(c: Cache, d: Cache, p: Ptr)
    requires Keys(c) && Keys(d) && p in c.table && d.table == c.table - {p} && c.items[p].nkey <= |c.items[p].payload|
    requires forall x <- d.table :: d.items[x].nkey == c.items[x].nkey && d.items[x].payload == c.items[x].payload
    ensures View(d) == View(c) - {c.items[p].Key()}
  {
    hide Hash, Keys;
    ViewIs(c);
    ViewIs(d);
    KeysUnique(c);
  }

  lemma KeysUnique(c: Cache)
    requires Keys(c)
    ensures forall p <- c.table, q <- c.table ::
      && c.items[p].nkey <= |c.items[p].payload| && c.items[q].nkey <= |c.items[q].payload|
      && (c.items[p].Key() == c.items[q].Key() ==> p == q)
  {
    hide Hash;
  }

  /** What a store does to the map: what the search has found is removed, and the item put in. */
  ghost function Stored(m: map<seq<byte>, Ptr>, c: Cache, p: Ptr, found: Option<Ptr>): map<seq<byte>, Ptr>
    requires p in c.items && c.items[p].nkey <= |c.items[p].payload|
    requires found.Some? ==> found.value in c.items && c.items[found.value].nkey <= |c.items[found.value].payload|
  {
    (if found == None then m else m - {c.items[found.value].Key()})[c.items[p].Key() := p]
  }

  /** When the invariants survive it, which is exactly when the item stored can be told from all others and
      is not found with a full count, store removes the key of what was found and puts the item under its
      own; and that is an overwrite exactly when the search for the item's key has no false match. */
  lemma StoreIsOverwrite(c: Cache, p: Ptr, found: Option<Ptr>, now: nat, grow: bool)
    requires Inv(c) && IsLive(c, p) && c.items[p].refcount > 0 && c.clock <= now
    requires c.items[p].nkey <= |c.items[p].payload| && c.items[p].hv == Hash(c.items[p].Key())
    requires FoundIn(c, found, c.items[p].hv, c.items[p].Key())
    ensures Keys(c) && Known(c, p)
    ensures found.Some? ==> Known(c, found.value) && c.items[found.value].nkey <= |c.items[found.value].payload|
    ensures Inv(Store(c, p, found, now, grow)) <==> Distinguishable(c, p) && !Overflows(c, p, found)
    ensures var d := Store(c, p, found, now, grow);
      Inv(d) ==>
        && Keys(d) && View(d) == Stored(View(c), c, p, found)
        && (View(d) == View(c)[c.items[p].Key() := p] <==> NoFalseMatch(c, c.items[p].Key()))
  {
    hide Inv, Hash, Store, Keys, View, NoFalseMatch, Distinguishable, FoundIn;
    StoreKeepsExactly(c, p, found, now, grow);
    CoreKeys(c);
    if found.Some? {
      FoundLive(c, found.value, c.items[p].hv, c.items[p].Key());
    }
    var d := Store(c, p, found, now, grow);
    if Inv(d) {
      CoreKeys(d);
      StoreSameKeys(c, p, found, now, grow);
      ViewStored(c, d, p, found);
      FindIsLookup(c, c.items[p].Key(), found);
      OverwriteIs(c, p, found);
    }
  }

  lemma OverwriteIs(c: Cache, p: Ptr, found: Option<Ptr>)
    requires Keys(c) && p in c.items && c.items[p].nkey <= |c.items[p].payload|
    requires FoundIn(c, found, Hash(c.items[p].Key()), c.items[p].Key())
    requires found.Some? ==> found.value in c.table && c.items[found.value].nkey <= |c.items[found.value].payload|
    ensures Stored(View(c), c, p, found) == View(c)[c.items[p].Key() := p] <==> found == Lookup(c, c.items[p].Key())
  {
    hide Hash, Keys, View;
    ViewIs(c);
    var key := c.items[p].Key();
    if key in View(c) {
      StoredIsFound(c, View(c)[key], key, found);
    }
    if found.Some? && c.items[found.value].Key() != key {
      assert c.items[found.value].Key() in View(c)[key := p];
      assert c.items[found.value].Key() !in Stored(View(c), c, p, found);
    }
  }

  lemma ViewStored(c: Cache, d: Cache, p: Ptr, found: Option<Ptr>)
    requires Keys(c) && Keys(d) && p in c.items && c.items[p].nkey <= |c.items[p].payload|
    requires found.Some? ==> found.value in c.table && c.items[found.value].nkey <= |c.items[found.value].payload|
    requires d.items.Keys == c.items.Keys
    requires d.table == (if found == None then c.table else c.table - {found.value}) + {p}
    requires forall x <- c.items :: d.items[x].nkey == c.items[x].nkey && d.items[x].payload == c.items[x].payload
    ensures View(d) == Stored(View(c), c, p, found)
  {
    hide Hash, Keys, View;
    ViewIs(c);
    ViewIs(d);
    KeysUnique(c);
    KeysUnique(d);
  }

  ghost function KeysOf(c: Cache, gone: set<Ptr>): set<seq<byte>> {
    set p | p in gone && p in c.items && c.items[p].nkey <= |c.items[p].payload| :: c.items[p].Key()
  }

  /** alloc removes from the map exactly the keys of its victims (two at most), and changes nothing else,
      whatever the length of the key it is for. */
  lemma AllocIsRemoval(c: Cache, key: seq<byte>, nbytes: nat, now: nat, ans: Answers)
    requires Inv(c) && c.clock <= now && |c.slabs.classes| >= 2
    requires var id := ClassFor(ClassSizes(c.slabs), HEADER + |key| + nbytes);
      id != 0 ==> AnswersOk(c, HEADER + |key| + nbytes, id, now, ans)
    ensures Keys(c) && |c.queues| == POWER_LARGEST >= |c.slabs.classes|
    ensures var id := ClassFor(ClassSizes(c.slabs), HEADER + |key| + nbytes);
      var (e, r) := ItemAlloc(c, key, nbytes, now, ans);
      var gone := if id == 0 then {} else Victims(c, id, now, ans);
      Keys(e) && View(e) == View(c) - KeysOf(c, gone) && |gone| <= 2 && gone <= c.table
  {
    hide Inv, Hash, ItemAlloc, ClassFor, AnswersOk, Keys, View, Victims, First, Second, Fails;
    MembersLength(c);
    var (e, r) := ItemAlloc(c, key, nbytes, now, ans);
    var id := ClassFor(ClassSizes(c.slabs), HEADER + |key| + nbytes);
    CoreKeys(c);
    if id == 0 {
      NothingAllocated(c, key, nbytes, now, ans);
      ViewRemoved(c, e, {});
    } else {
      ItemAllocExactly(c, key, nbytes, now, ans);
      AtMostTwoVictims(c, id, now, ans);
      ItemAllocTable(c, key, nbytes, now, ans);
      ViewRemoved(c, e, Victims(c, id, now, ans));
    }
  }

  lemma NothingAllocated(c: Cache, key: seq<byte>, nbytes: nat, now: nat, ans: Answers)
    requires Inv(c) && |c.slabs.classes| >= 2 && ClassFor(ClassSizes(c.slabs), HEADER + |key| + nbytes) == 0
    ensures ItemAlloc(c, key, nbytes, now, ans) == (c, None) && forall x <- c.table :: x in c.items
  {
    TableHeaders(c);
    hide Inv, ClassFor, AllocChunk;
  }

  lemma ViewRemoved(c: Cache, e: Cache, gone: set<Ptr>)
    requires Keys(c) && Keys(e) && e.table == c.table - gone && gone <= c.table
    requires forall x <- e.table ::
      x in c.items && x in e.items && e.items[x].nkey == c.items[x].nkey && e.items[x].payload == c.items[x].payload
    ensures View(e) == View(c) - KeysOf(c, gone)
  {
    hide Hash, Keys, View;
    ViewIs(c);
    ViewIs(e);
    KeysUnique(c);
  }
}
