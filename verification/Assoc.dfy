/**
  The chained hash table with incremental expansion (src/cache/assoc.cpp, src/cache/assoc.hpp).

  Each method is what the source does while it holds the cache lock.  The ghost field `hvs` maps the
  items in the table to their hash values: find, insert and delete are stated on it alone, and
  migrating a bucket does not change it, so an expansion in progress cannot be seen from outside.
 */
module Assoc {
  import opened Basics
  import opened Items

  // ---------------------------------------------------------------- buckets

  /** hash & hashmask(power) */
  function Bucket(hv: nat, power: nat): (b: nat)
    ensures b < Pow2(power)
  {
    hv % Pow2(power)
  }

  /** Doubling the table sends a bucket to itself or to its image in the upper half. */
  lemma BucketSplits(hv: nat, power: nat)
    ensures Bucket(hv, power + 1) == Bucket(hv, power) || Bucket(hv, power + 1) == Bucket(hv, power) + Pow2(power)
  {
    assert Pow2(power + 1) == 2 * Pow2(power);
    hide Pow2;
    ModSplits(hv, Pow2(power + 1), Pow2(power));
  }

  lemma ModSplits(x: nat, n: nat, m: nat)
    requires 0 < n == 2 * m
    ensures x % n == x % m || x % n == x % m + m
  {
    var q, r := DivMod(x, n);
    SplitAt(x, n, m, q, r);
  }

  lemma DivMod(x: nat, n: nat) returns (q: nat, r: nat)
    requires 0 < n
    ensures x == n * q + r && r == x % n < n
  {
    q, r := x / n, x % n;
  }

  lemma SplitAt(x: nat, n: nat, m: nat, q: nat, r: nat)
    requires n == 2 * m && x == n * q + r && r < n
    ensures r == x % m || r == x % m + m
  {
    assert n * q == 2 * q * m;
    if r < m {
      ModUnique(x, m, 2 * q, r);
    } else {
      assert (2 * q + 1) * m == 2 * q * m + m;
      ModUnique(x, m, 2 * q + 1, r - m);
    }
  }

  lemma ModUnique(x: nat, m: nat, q: nat, r: nat)
    requires r < m && x == q * m + r
    ensures x % m == r
  {
    var q', r' := x / m, x % m;
    assert m * (q' - q) == r - r';
    NoSmallMultiple(m, q' - q);
  }

  lemma NoSmallMultiple(m: int, d: int)
    requires 0 <= m
    ensures d >= 1 ==> m * d >= m
    ensures d <= -1 ==> m * d <= -m
  {
  }

  /** Where the table is in an expansion, and how many maintenance loops are running. */
  datatype Control = Control(power: nat, expanding: bool, expandBucket: nat, loops: nat)
  {
    predicate Ok() {
      && (expanding ==> power > 0 && expandBucket < Pow2(power - 1))
      && loops == if expanding then 1 else 0
    }

    /** which_hashtable */
    predicate InOld(hv: nat)
      requires Ok()
    {
      expanding && Bucket(hv, power - 1) >= expandBucket
    }

    /** assoc_expand has allocated the new table and started a maintenance loop. */
    function Started(): Control {
      Control(power + 1, true, 0, loops + 1)
    }

    /** assoc_expand, given what calloc and pthread_create answer. */
    function AfterExpand(callocOk: bool, threadOk: bool): Control {
      if !callocOk then this
      else if !threadOk then Control(power, expanding, 0, loops)
      else Started()
    }

    /** One pass of the maintenance loop. */
    function Migrated(): Control
      requires Ok() && expanding
    {
      if expandBucket + 1 == Pow2(power - 1) then Control(power, false, expandBucket + 1, loops - 1)
      else Control(power, true, expandBucket + 1, loops)
    }

    /** The number of chains: the primary table's, then the old table's. */
    function Slots(): nat
      requires Ok()
    {
      Pow2(power) + if expanding then Pow2(power - 1) else 0
    }

    /** The chain an item with this hash value belongs to. */
    function Home(hv: nat): (s: nat)
      requires Ok()
      ensures s < Slots()
    {
      if InOld(hv) then Pow2(power) + Bucket(hv, power - 1) else Bucket(hv, power)
    }
  }

  /** (hashsize(power) * 3) / 2, in 32-bit arithmetic. */
  function Threshold(power: nat): nat {
    Pow2(power) * 3 % 0x1_0000_0000 / 2
  }

  lemma {:induction false} Pow2Grows(p: nat, q: nat)
    requires p <= q
    ensures Pow2(p) <= Pow2(q)
    decreases q
  {
    if p < q {
      Pow2Grows(p, q - 1);
    }
  }

  lemma Pow2Of30()
    ensures Pow2(30) == 0x4000_0000
  {
    assert Pow2(10) == 0x400;
    assert Pow2(20) == 0x10_0000;
  }

  /** One and a half items a bucket, as long as the arithmetic does not wrap. */
  lemma ThresholdIs(power: nat)
    requires power <= 30
    ensures forall n: nat :: n > Threshold(power) <==> 2 * n > 3 * Pow2(power)
  {
    hide Pow2;
    Pow2Grows(power, 30);
    Pow2Of30();
    NoWrap(Pow2(power) * 3);
  }

  lemma NoWrap(m: nat)
    requires m < 0x1_0000_0000
    ensures m % 0x1_0000_0000 / 2 == m / 2
  {
  }

  // ---------------------------------------------------------------- which chain an item is in

  /** The chains hold exactly the items of the table, each in the one chain that its hash value
      selects, and in no other.  `hvs` gives the items and their hash values. */
  ghost predicate Placed(ctl: Control, chains: seq<seq<HashItem>>, hvs: map<HashItem, nat>)
    requires ctl.Ok()
  {
    && |chains| == ctl.Slots()
    && (forall s, x :: 0 <= s < |chains| && x in chains[s] ==> x in hvs && ctl.Home(hvs[x]) == s)
    && (forall x <- hvs :: x in chains[ctl.Home(hvs[x])])
  }

  lemma SlotCount(ctl: Control, chains: seq<seq<HashItem>>, hvs: map<HashItem, nat>)
    requires ctl.Ok() && Placed(ctl, chains, hvs)
    ensures |chains| == ctl.Slots()
  {
  }

  ghost function Pushed(ctl: Control, chains: seq<seq<HashItem>>, it: HashItem, hv: nat): seq<seq<HashItem>>
    requires ctl.Ok() && |chains| == ctl.Slots()
  {
    var s := ctl.Home(hv);
    chains[s := [it] + chains[s]]
  }

  lemma PlacedPush(ctl: Control, chains: seq<seq<HashItem>>, hvs: map<HashItem, nat>, it: HashItem, hv: nat)
    requires ctl.Ok() && Placed(ctl, chains, hvs) && it !in hvs
    ensures Placed(ctl, Pushed(ctl, chains, it, hv), hvs[it := hv])
    ensures forall s :: 0 <= s < |chains| ==> it !in chains[s]
  {
    hide Bucket, Control.Home;
    var s := ctl.Home(hv);
    var chains', hvs' := Pushed(ctl, chains, it, hv), hvs[it := hv];
    forall t, x | 0 <= t < |chains'| && x in chains'[t] ensures x in hvs' && ctl.Home(hvs'[x]) == t {
      assert x == it || x in chains[t];
    }
    forall x <- hvs' ensures x in chains'[ctl.Home(hvs'[x])] {
      assert x == it || x in chains[ctl.Home(hvs[x])];
    }
  }

  lemma ChainsDisjoint(ctl: Control, chains: seq<seq<HashItem>>, hvs: map<HashItem, nat>, s: nat)
    requires ctl.Ok() && Placed(ctl, chains, hvs) && s < |chains|
    ensures forall x <- chains[s] :: x in hvs && ctl.Home(hvs[x]) == s
    ensures forall t, i :: 0 <= t < |chains| && t != s && 0 <= i < |chains[s]| ==> chains[s][i] !in chains[t]
  {
    hide Bucket, Control.Home;
    forall t, i | 0 <= t < |chains| && t != s && 0 <= i < |chains[s]| ensures chains[s][i] !in chains[t] {
      var x := chains[s][i];
      assert x in chains[s];
      assert ctl.Home(hvs[x]) == s;
    }
  }

  lemma PlacedCut(ctl: Control, chains: seq<seq<HashItem>>, hvs: map<HashItem, nat>, s: nat, k: nat)
    requires ctl.Ok() && Placed(ctl, chains, hvs) && s < |chains| && k < |chains[s]| && Distinct(chains[s])
    ensures Placed(ctl, chains[s := Cut(chains[s], k)], hvs - {chains[s][k]})
  {
    hide Bucket, Control.Home;
    var p := chains[s][k];
    forall x | x in Cut(chains[s], k) ensures x in chains[s] && x != p {
      var j :| 0 <= j < |Cut(chains[s], k)| && Cut(chains[s], k)[j] == x;
      assert x == chains[s][if j < k then j else j + 1];
    }
    var chains', hvs' := chains[s := Cut(chains[s], k)], hvs - {p};
    forall t, x | 0 <= t < |chains'| && x in chains'[t] ensures x in hvs' && ctl.Home(hvs'[x]) == t {
      assert x in chains[t] && ctl.Home(hvs[x]) == t && ctl.Home(hvs[p]) == s;
    }
    forall x <- hvs' ensures x in chains'[ctl.Home(hvs'[x])] {
      var t := ctl.Home(hvs[x]);
      assert x in chains[t];
      if t == s {
        var j :| 0 <= j < |chains[s]| && chains[s][j] == x;
        assert Cut(chains[s], k)[if j < k then j else j - 1] == x;
      }
    }
  }

  ghost function Expanded(ctl: Control, chains: seq<seq<HashItem>>): seq<seq<HashItem>> {
    seq(Pow2(ctl.power + 1), _ => []) + chains
  }

  lemma HomeStarted(ctl: Control, hv: nat)
    requires ctl.Ok() && !ctl.expanding
    ensures ctl.Started().Ok() && ctl.Started().Home(hv) == Pow2(ctl.power + 1) + ctl.Home(hv)
  {
    hide Bucket;
  }

  /** Starting an expansion moves every chain, as it is, into the old table. */
  lemma PlacedExpand(ctl: Control, chains: seq<seq<HashItem>>, hvs: map<HashItem, nat>)
    requires ctl.Ok() && Placed(ctl, chains, hvs) && !ctl.expanding
    ensures ctl.Started().Ok() && Placed(ctl.Started(), Expanded(ctl, chains), hvs)
  {
    hide Bucket, Control.Home;
    var n := Pow2(ctl.power + 1);
    var chains' := Expanded(ctl, chains);
    assert |chains'| == ctl.Started().Slots();
    forall t, x | 0 <= t < |chains'| && x in chains'[t] ensures x in hvs && ctl.Started().Home(hvs[x]) == t {
      assert t >= n && x in chains[t - n];
      HomeStarted(ctl, hvs[x]);
    }
    forall x <- hvs ensures x in chains'[ctl.Started().Home(hvs[x])] {
      assert x in chains[ctl.Home(hvs[x])];
      HomeStarted(ctl, hvs[x]);
    }
  }

  lemma HomeRestored(ctl: Control)
    requires ctl.Ok() && !ctl.expanding
    ensures forall hv: nat :: ctl.AfterExpand(true, false).Home(hv) == ctl.Home(hv)
  {
  }

  /** While nothing is expanding, expand_bucket means nothing. */
  lemma PlacedRestored(ctl: Control, chains: seq<seq<HashItem>>, hvs: map<HashItem, nat>)
    requires ctl.Ok() && Placed(ctl, chains, hvs) && !ctl.expanding
    ensures Placed(ctl.AfterExpand(true, false), chains, hvs)
  {
    assert forall hv: nat :: ctl.AfterExpand(true, false).Home(hv) == ctl.Home(hv);
  }

  /** a holds exactly the items of q that go to bucket b of the new table. */
  ghost predicate Sifted(q: seq<HashItem>, hvs: map<HashItem, nat>, power: nat, b: nat, a: seq<HashItem>)
    requires forall x <- q :: x in hvs
  {
    && (forall x <- a :: x in q && Bucket(hvs[x], power) == b)
    && (forall x <- q :: Bucket(hvs[x], power) == b ==> x in a)
  }

  /** The old chain that the maintenance loop moves next. */
  ghost function NextChain(ctl: Control, chains: seq<seq<HashItem>>, hvs: map<HashItem, nat>): (q: seq<HashItem>)
    requires ctl.Ok() && Placed(ctl, chains, hvs) && ctl.expanding
    ensures forall x <- q :: x in hvs
  {
    chains[Pow2(ctl.power) + ctl.expandBucket]
  }

  /** The chains after old bucket expandBucket has been split into a (bucket b) and z (b + half). */
  ghost function Moved(ctl: Control, chains: seq<seq<HashItem>>, a: seq<HashItem>, z: seq<HashItem>): seq<seq<HashItem>>
    requires ctl.Ok() && |chains| == ctl.Slots() && ctl.expanding
  {
    var b, half, n := ctl.expandBucket, Pow2(ctl.power - 1), Pow2(ctl.power);
    var c := chains[b := a][b + half := z][n + b := []];
    if b + 1 == half then c[..n] else c
  }

  /** The two buckets that receive an old bucket are empty until it is moved. */
  lemma TargetsEmpty(ctl: Control, chains: seq<seq<HashItem>>, hvs: map<HashItem, nat>)
    requires ctl.Ok() && Placed(ctl, chains, hvs) && ctl.expanding
    ensures chains[ctl.expandBucket] == [] && chains[ctl.expandBucket + Pow2(ctl.power - 1)] == []
  {
    hide Bucket;
    forall t | t == ctl.expandBucket || t == ctl.expandBucket + Pow2(ctl.power - 1) ensures chains[t] == [] {
      if chains[t] != [] {
        var x := chains[t][0];
        assert x in chains[t];
        BucketSplits(hvs[x], ctl.power - 1);
        assert false;
      }
    }
  }

  /** Moving old bucket b changes the home of its items, and of no others. */
  lemma HomeMigrated(ctl: Control, hv: nat)
    requires ctl.Ok() && ctl.expanding
    ensures ctl.Migrated().Ok()
    ensures
      var b, half, n := ctl.expandBucket, Pow2(ctl.power - 1), Pow2(ctl.power);
      && ctl.Migrated().Home(hv) == (if ctl.Home(hv) == n + b then Bucket(hv, ctl.power) else ctl.Home(hv))
      && (ctl.Home(hv) == n + b ==> Bucket(hv, ctl.power) == b || Bucket(hv, ctl.power) == b + half)
      && (ctl.Home(hv) >= n ==> ctl.Home(hv) >= n + b)
  {
    hide Bucket, Pow2;
    BucketSplits(hv, ctl.power - 1);
    Doubles(ctl.power);
  }

  lemma Doubles(power: nat)
    requires power > 0
    ensures Pow2(power) == 2 * Pow2(power - 1)
  {
  }

  lemma MovedAt(ctl: Control, chains: seq<seq<HashItem>>, a: seq<HashItem>, z: seq<HashItem>)
    requires ctl.Ok() && |chains| == ctl.Slots() && ctl.expanding
    ensures
      var b, half, n := ctl.expandBucket, Pow2(ctl.power - 1), Pow2(ctl.power);
      var c := Moved(ctl, chains, a, z);
      && ctl.Migrated().Ok() && |c| == ctl.Migrated().Slots()
      && forall t :: 0 <= t < |c| ==>
           c[t] == if t == b then a else if t == b + half then z else if t == n + b then [] else chains[t]
  {
    hide Bucket, Pow2;
    Doubles(ctl.power);
  }

  ghost predicate Splitting(
    ctl: Control, chains: seq<seq<HashItem>>, hvs: map<HashItem, nat>, a: seq<HashItem>, z: seq<HashItem>)
  {
    && ctl.Ok() && Placed(ctl, chains, hvs) && ctl.expanding
    && Sifted(NextChain(ctl, chains, hvs), hvs, ctl.power, ctl.expandBucket, a)
    && Sifted(NextChain(ctl, chains, hvs), hvs, ctl.power, ctl.expandBucket + Pow2(ctl.power - 1), z)
  }

  lemma MovedMember(
    ctl: Control, chains: seq<seq<HashItem>>, hvs: map<HashItem, nat>, a: seq<HashItem>, z: seq<HashItem>,
    t: nat, x: HashItem)
    requires Splitting(ctl, chains, hvs, a, z)
    requires t < |Moved(ctl, chains, a, z)| && x in Moved(ctl, chains, a, z)[t]
    ensures ctl.Migrated().Ok() && x in hvs && ctl.Migrated().Home(hvs[x]) == t
  {
    hide Bucket, Pow2, Control.Home, Control.InOld, Moved;
    MovedAt(ctl, chains, a, z);
    HomeMigrated(ctl, if x in hvs then hvs[x] else 0);
    var b, half, n := ctl.expandBucket, Pow2(ctl.power - 1), Pow2(ctl.power);
    assert x in if t == b || t == b + half then chains[n + b] else chains[t];
  }

  lemma MovedHome(
    ctl: Control, chains: seq<seq<HashItem>>, hvs: map<HashItem, nat>, a: seq<HashItem>, z: seq<HashItem>, x: HashItem)
    requires Splitting(ctl, chains, hvs, a, z)
    requires x in hvs
    ensures ctl.Migrated().Ok() && ctl.Migrated().Home(hvs[x]) < |Moved(ctl, chains, a, z)|
    ensures x in Moved(ctl, chains, a, z)[ctl.Migrated().Home(hvs[x])]
  {
    hide Bucket, Pow2, Control.Home, Control.InOld, Moved;
    MovedAt(ctl, chains, a, z);
    HomeMigrated(ctl, hvs[x]);
    TargetsEmpty(ctl, chains, hvs);
    assert x in chains[ctl.Home(hvs[x])];
  }

  /** Moving one old bucket keeps every item in the chain its hash value selects. */
  lemma PlacedMigrate(
    ctl: Control, chains: seq<seq<HashItem>>, hvs: map<HashItem, nat>, a: seq<HashItem>, z: seq<HashItem>)
    requires Splitting(ctl, chains, hvs, a, z)
    ensures ctl.Migrated().Ok() && Placed(ctl.Migrated(), Moved(ctl, chains, a, z), hvs)
  {
    hide Bucket, Pow2, Control.Home, Control.InOld, Moved;
    var ctl', chains' := ctl.Migrated(), Moved(ctl, chains, a, z);
    MovedAt(ctl, chains, a, z);
    forall t, x | 0 <= t < |chains'| && x in chains'[t] ensures x in hvs && ctl'.Home(hvs[x]) == t {
      MovedMember(ctl, chains, hvs, a, z, t, x);
    }
    forall x <- hvs ensures x in chains'[ctl'.Home(hvs[x])] {
      MovedHome(ctl, chains, hvs, a, z, x);
    }
  }

  // ---------------------------------------------------------------- chains

  function HeadOf(q: seq<HashItem>): HashItem? {
    if q == [] then null else q[0]
  }

  function After(q: seq<HashItem>, i: nat): HashItem? {
    if i + 1 < |q| then q[i + 1] else null
  }

  /** The list that starts at head and follows h_next is q. */
  ghost predicate Chain(head: HashItem?, q: seq<HashItem>)
    reads q`hNext
  {
    Distinct(q) && head == HeadOf(q) && forall i {:trigger q[i].hNext} :: 0 <= i < |q| ==> q[i].hNext == After(q, i)
  }

  lemma ChainCons(it: HashItem, q: seq<HashItem>)
    requires it !in q && Chain(it.hNext, q)
    ensures Chain(it, [it] + q)
  {
    forall i | 0 <= i < |q| + 1 ensures ([it] + q)[i].hNext == After([it] + q, i) {
      if i > 0 {
        assert ([it] + q)[i] == q[i - 1];
      }
    }
  }

  lemma ChainNil()
    ensures Chain(null, [])
  {
  }

  lemma ChainAt(head: HashItem?, q: seq<HashItem>)
    requires Chain(head, q)
    ensures Distinct(q) && head == HeadOf(q)
    ensures forall i {:trigger q[i].hNext} :: 0 <= i < |q| ==> q[i].hNext == After(q, i)
  {
  }

  lemma SiftedNothing(hvs: map<HashItem, nat>, power: nat, b: nat)
    ensures Sifted([], hvs, power, b, [])
  {
  }

  function Cut<T>(q: seq<T>, k: nat): seq<T>
    requires k < |q|
  {
    q[..k] + q[k + 1..]
  }

  /** Making the place that pointed to q[k] point behind it takes q[k] out of the chain. */
  lemma ChainCut(q: seq<HashItem>, k: nat)
    requires Distinct(q) && k < |q|
    requires forall i {:trigger q[i].hNext} ::
      0 <= i < |q| && i != k ==> q[i].hNext == if i + 1 == k then After(q, k) else After(q, i)
    ensures Chain(if k == 0 then After(q, 0) else q[0], Cut(q, k))
  {
    var c := Cut(q, k);
    forall i | 0 <= i < |c| ensures c[i].hNext == After(c, i) {
      assert c[i] == if i < k then q[i] else q[i + 1];
    }
  }

  /** `it` is the first item of the chain that matches, or null if none does. */
  ghost predicate IsFirst(q: seq<HashItem>, it: HashItem?, hv: nat, key: seq<byte>)
    reads q
  {
    if it == null then forall x <- q :: !Match(x.Header(), hv, key)
    else exists k :: 0 <= k < |q| && q[k] == it && FirstAt(q, k, hv, key)
  }

  ghost predicate FirstAt(q: seq<HashItem>, k: nat, hv: nat, key: seq<byte>)
    requires k < |q|
    reads q
  {
    Match(q[k].Header(), hv, key) && forall j :: 0 <= j < k ==> !Match(q[j].Header(), hv, key)
  }

  /** An item that was inserted last hides the others that match the same search: it is what a find
      returns and what a delete removes. */
  lemma NewestIsFirst(newest: HashItem, q: seq<HashItem>, it: HashItem?, hv: nat, key: seq<byte>)
    requires Match(newest.Header(), hv, key) && IsFirst([newest] + q, it, hv, key)
    ensures it == newest
  {
    var w := [newest] + q;
    assert w[0] == newest && newest in w;
    assert Match(w[0].Header(), hv, key);
  }

  class AssociativeArray {
    var hashpower: nat
    var hashItems: nat
    var primary: array<HashItem?>
    var oldTable: array<HashItem?>
    var expanding: bool
    var expandBucket: nat
    ghost var hvs: map<HashItem, nat>
    ghost var chains: seq<seq<HashItem>>
    /** The state of the expansion, and the number of maintenance loops that are running. */
    ghost var ctl: Control

    ghost function Arrays(): set<object>
      reads this
    {
      {primary, oldTable}
    }

    ghost predicate Shape()
      reads this
    {
      && ctl.Ok() && ctl.power == hashpower && ctl.expanding == expanding && ctl.expandBucket == expandBucket
      && primary.Length == Pow2(hashpower)
      && (expanding ==> primary != oldTable && oldTable.Length == Pow2(hashpower - 1))
      && |chains| == ctl.Slots()
      && Placed(ctl, chains, hvs)
      && hashItems == |hvs|
    }

    ghost function Head(s: nat): HashItem?
      requires Shape() && s < |chains|
      reads this, primary, oldTable
    {
      if s < primary.Length then primary[s] else oldTable[s - primary.Length]
    }

    ghost predicate Linked()
      requires Shape()
      reads this, primary, oldTable, hvs.Keys`hNext
    {
      forall s :: 0 <= s < |chains| ==> Chain(Head(s), chains[s])
    }

    ghost predicate Valid()
      reads this, primary, oldTable, hvs.Keys`hNext, hvs.Keys`hv
    {
      Shape() && Linked() && forall x <- hvs :: x.hv == hvs[x]
    }

    constructor (hashpower: nat)
      ensures Valid() && hvs == map[] && fresh(Arrays()) && ctl == Control(hashpower, false, 0, 0)
    {
      this.hashpower, hashItems, expanding, expandBucket := hashpower, 0, false, 0;
      var table := new HashItem?[Pow2(hashpower)](_ => null);
      primary, oldTable := table, table;
      hvs, ctl, chains := map[], Control(hashpower, false, 0, 0), seq(Pow2(hashpower), _ => []);
    }

    /** which_hashtable: whether the chain for a hash value is still in the old table. */
    function WhichHashtable(hv: nat): (old_: bool)
      requires Shape()
      reads this
      ensures old_ == ctl.InOld(hv)
    {
      expanding && Bucket(hv, hashpower - 1) >= expandBucket
    }

    /** Which bucket of which table an item hangs from: that of its hash value modulo the old table's size
        while that bucket has not been moved, and else modulo the primary table's size. */
    lemma WhereItHangs(x: HashItem)
      requires Valid() && x in hvs
      ensures primary.Length > 0 && (expanding ==> primary.Length == 2 * oldTable.Length > 0)
      ensures
        var unmoved := expanding && x.hv % oldTable.Length >= expandBucket;
        exists q: seq<HashItem> ::
          q in chains && x in q
          && Chain(if unmoved then oldTable[x.hv % oldTable.Length] else primary[x.hv % primary.Length], q)
    {
      hide Pow2, Chain;
      if expanding {
        Doubles(hashpower);
      }
      assert Chain(Head(ctl.Home(x.hv)), chains[ctl.Home(x.hv)]);
    }

    /** The head of the chain for a hash value. */
    method First(hv: nat) returns (it: HashItem?)
      requires Valid()
      ensures it == Head(ctl.Home(hv))
    {
      hide Bucket;
      it := if WhichHashtable(hv) then oldTable[Bucket(hv, hashpower - 1)] else primary[Bucket(hv, hashpower)];
    }

    method Find(hv: nat, key: seq<byte>) returns (it: HashItem?)
      requires Valid()
      ensures it == null ==> forall x <- hvs :: !Match(x.Header(), hv, key)
      ensures it != null ==> it in hvs && Match(it.Header(), hv, key)
      ensures IsFirst(chains[ctl.Home(hv)], it, hv, key)
    {
      hide Bucket, Control.Home;
      it := First(hv);
      ghost var q := chains[ctl.Home(hv)];
      ghost var i := 0;
      while it != null && !(hv == it.hv && |key| <= |it.payload| && it.payload[..|key|] == key)
        invariant i <= |q| && it == (if i < |q| then q[i] else null)
        invariant forall j :: 0 <= j < i ==> !Match(q[j].Header(), hv, key)
        decreases |q| - i
      {
        it := it.hNext;
        i := i + 1;
      }
      assert it != null ==> it in q && FirstAt(q, i, hv, key);
    }

    /** Overwrites the head of the chain for a hash value. */
    method SetFirst(hv: nat, it: HashItem?)
      requires Shape()
      modifies primary, oldTable
      ensures Shape() && Head(ctl.Home(hv)) == it
      ensures forall t :: 0 <= t < |chains| && t != ctl.Home(hv) ==> Head(t) == old(Head(t))
    {
      hide Bucket, Pow2;
      if WhichHashtable(hv) {
        oldTable[Bucket(hv, hashpower - 1)] := it;
      } else {
        primary[Bucket(hv, hashpower)] := it;
      }
    }

    /** Put an item in front of its chain. */
    method Push(it: HashItem)
      requires Valid() && it !in hvs
      modifies this`chains, this`hvs, this`hashItems, primary, oldTable, it`hNext
      ensures Valid() && hvs == old(hvs)[it := it.hv] && ctl == old(ctl)
      ensures chains == Pushed(ctl, old(chains), it, it.hv)
    {
      hide Chain, Bucket, Pow2, Control.Home, Placed;
      PlacedPush(ctl, chains, hvs, it, it.hv);
      LinkFront(it);
      hashItems := hashItems + 1;
      chains, hvs := Pushed(ctl, chains, it, it.hv), hvs[it := it.hv];
    }

    /** The pointer surgery of assoc_insert. */
    method LinkFront(it: HashItem)
      requires Valid() && it !in hvs && forall s :: 0 <= s < |chains| ==> it !in chains[s]
      modifies primary, oldTable, it`hNext
      ensures Shape() && Chain(Head(ctl.Home(it.hv)), [it] + chains[ctl.Home(it.hv)])
      ensures forall t :: 0 <= t < |chains| && t != ctl.Home(it.hv) ==> Chain(Head(t), chains[t])
    {
      hide Chain, Bucket, Pow2, Control.Home, Placed;
      ghost var s := ctl.Home(it.hv);
      it.hNext := First(it.hv);
      assert Chain(it.hNext, chains[s]);
      ChainCons(it, chains[s]);
      SetFirst(it.hv, it);
      forall t | 0 <= t < |chains| && t != s ensures Chain(Head(t), chains[t]) {
        assert old(Chain(Head(t), chains[t]));
      }
    }

    /** assoc_expand: `callocOk` and `threadOk` are whether the new table and the maintenance thread can
        be had.  When the thread cannot, the new table is freed again and, all under the lock,
        everything but expand_bucket is put back. */
    method Expand(callocOk: bool, threadOk: bool)
      requires Valid() && !expanding
      modifies this
      ensures Valid() && hvs == old(hvs) && hashItems == old(hashItems)
      ensures ctl == old(ctl).AfterExpand(callocOk, threadOk)
      ensures oldTable == old(primary) && (primary == old(primary) || fresh(primary))
      ensures
        if callocOk && threadOk then
          expanding && hashpower == old(hashpower) + 1 && expandBucket == 0 && fresh(primary)
          && primary.Length == 2 * old(primary.Length)
        else
          !expanding && hashpower == old(hashpower) && primary == old(primary)
          && expandBucket == if callocOk then 0 else old(expandBucket)
      ensures forall hv: nat :: chains[ctl.Home(hv)] == old(chains[ctl.Home(hv)])
    {
      hide Chain, Placed, Bucket, Pow2, Control.Home;
      oldTable := primary;
      if callocOk {
        if threadOk {
          ghost var c := ctl;
          Doubles(hashpower + 1);
          Grow();
          forall hv: nat ensures c.Ok() && ctl.Home(hv) == Pow2(c.power + 1) + c.Home(hv) {
            HomeStarted(c, hv);
          }
        } else {
          HomeRestored(ctl);
          PlacedRestored(ctl, chains, hvs);
          ctl, expandBucket := ctl.AfterExpand(true, false), 0;
        }
      }
    }

    /** The new, empty table becomes the primary one, and all chains are in the old one. */
    method Grow()
      requires Valid() && !expanding && oldTable == primary
      modifies this`primary, this`hashpower, this`expanding, this`expandBucket, this`chains, this`ctl
      ensures Valid() && ctl == old(ctl).Started() && fresh(primary) && chains == Expanded(old(ctl), old(chains))
    {
      hide Chain, Placed, Bucket, Pow2, Control.Home;
      Doubles(hashpower + 1);
      PlacedExpand(ctl, chains, hvs);
      ChainNil();
      ghost var n := Pow2(hashpower + 1);
      ghost var c := chains;
      primary := new HashItem?[Pow2(hashpower + 1)](_ => null);
      hashpower, expanding, expandBucket := hashpower + 1, true, 0;
      chains, ctl := Expanded(ctl, chains), ctl.Started();
      forall t | 0 <= t < |chains| ensures Chain(Head(t), chains[t]) {
        if t >= n {
          assert chains[t] == c[t - n] && old(Chain(Head(t - n), chains[t - n]));
        }
      }
    }

    /** assoc_insert.  The precondition on matches is the assertion at the head of the source. */
    method Insert(it: HashItem, callocOk: bool, threadOk: bool)
      requires Valid() && it !in hvs && it.nkey <= |it.payload|
      requires forall x <- hvs :: !Match(x.Header(), it.hv, it.payload[..it.nkey])
      requires |hvs| + 1 < 0x1_0000_0000
      modifies this, primary, oldTable, it`hNext
      ensures Valid() && hvs == old(hvs)[it := it.hv]
      ensures ctl == if !old(ctl).expanding && |hvs| > Threshold(old(ctl).power)
                     then old(ctl).AfterExpand(callocOk, threadOk) else old(ctl)
      ensures (primary == old(primary) || fresh(primary)) && (oldTable == old(oldTable) || oldTable == old(primary))
      ensures chains[ctl.Home(it.hv)] == [it] + old(chains[ctl.Home(it.hv)])
      ensures hashItems == old(hashItems) + 1
      ensures old(hashpower) <= 30 ==>
        var due := !old(expanding) && 2 * hashItems > 3 * old(primary.Length);
        if due && callocOk && threadOk then
          expanding && hashpower == old(hashpower) + 1 && expandBucket == 0 && oldTable == old(primary)
          && fresh(primary) && primary.Length == 2 * old(primary.Length)
        else
          expanding == old(expanding) && hashpower == old(hashpower) && primary == old(primary)
          && (oldTable == if due then old(primary) else old(oldTable))
          && expandBucket == if due && callocOk then 0 else old(expandBucket)
    {
      hide Linked, Pow2, Placed, Control.Home, Threshold;
      if hashpower <= 30 {
        ThresholdIs(hashpower);
      }
      Push(it);
      if !expanding && hashItems > Threshold(hashpower) {
        Expand(callocOk, threadOk);
      }
    }

    /** The place that points to the first match: the chain's head (before == null) or before.h_next. */
    method HashitemBefore(hv: nat, key: seq<byte>) returns (before: HashItem?, pos: HashItem?, ghost k: nat)
      requires Valid()
      ensures pos != null ==> Match(pos.Header(), hv, key)
      ensures pos == null ==> forall x <- hvs :: !Match(x.Header(), hv, key)
      ensures var q := chains[ctl.Home(hv)];
        k <= |q| && pos == (if k < |q| then q[k] else null) && before == (if k > 0 then q[k - 1] else null)
      ensures forall j :: 0 <= j < k ==> !Match(chains[ctl.Home(hv)][j].Header(), hv, key)
    {
      pos := First(hv);
      before, k := null, 0;
      ghost var q := chains[ctl.Home(hv)];
      while pos != null && (hv != pos.hv || !(|key| <= |pos.payload| && pos.payload[..|key|] == key))
        invariant k <= |q| && pos == (if k < |q| then q[k] else null) && before == (if k > 0 then q[k - 1] else null)
        invariant forall j :: 0 <= j < k ==> !Match(q[j].Header(), hv, key)
        decreases |q| - k
      {
        before, pos := pos, pos.hNext;
        k := k + 1;
      }
    }

    /** Removes the first match.  `ok` is false when there is none; then the source's last assertion
        fails. */
    method Delete(hv: nat, key: seq<byte>) returns (ok: bool, ghost removed: HashItem?)
      requires Valid()
      modifies this`chains, this`hvs, this`hashItems, primary, oldTable, hvs.Keys`hNext
      ensures Valid() && ctl == old(ctl) && ok == (removed != null)
      ensures ok ==> removed in old(hvs.Keys) && Match(removed.Header(), hv, key) && hvs == old(hvs) - {removed}
      ensures ok ==> old(IsFirst(chains[ctl.Home(hv)], removed, hv, key))
      ensures !ok ==> hvs == old(hvs) && forall x <- hvs :: !Match(x.Header(), hv, key)
    {
      hide Bucket, Pow2, Control.Home, Placed, Chain;
      var before, pos;
      ghost var k;
      before, pos, k := HashitemBefore(hv, key);
      ok, removed := pos != null, pos;
      if pos != null {
        assert FirstAt(chains[ctl.Home(hv)], k, hv, key);
        RemoveAt(hv, before, pos, k);
      }
    }

    /** Takes the k-th item out of the chain for a hash value. */
    method RemoveAt(hv: nat, before: HashItem?, pos: HashItem, ghost k: nat)
      requires Valid() && k < |chains[ctl.Home(hv)]| && pos == chains[ctl.Home(hv)][k]
      requires before == if k > 0 then chains[ctl.Home(hv)][k - 1] else null
      modifies this`chains, this`hvs, this`hashItems, primary, oldTable, hvs.Keys`hNext
      ensures Valid() && ctl == old(ctl) && pos in old(hvs.Keys) && hvs == old(hvs) - {pos}
    {
      hide Bucket, Pow2, Control.Home, Placed;
      ghost var s := ctl.Home(hv);
      ghost var q := chains[s];
      assert Chain(Head(s), q);
      assert Distinct(q);
      PlacedCut(ctl, chains, hvs, s, k);
      ChainsDisjoint(ctl, chains, hvs, s);
      assert pos in q;
      hide Chain, Distinct;
      CutOut(hv, before, pos, q, k);
      forall t | 0 <= t < |chains| && t != s ensures Chain(Head(t), chains[t]) {
        assert old(Chain(Head(t), chains[t]));
        assert forall i :: 0 <= i < |q| ==> q[i] !in chains[t];
      }
      Forget(s, Cut(q, k), pos);
    }

    /** The item that was cut out is no longer counted. */
    method Forget(ghost s: nat, ghost q: seq<HashItem>, ghost pos: HashItem)
      requires Shape() && s < |chains| && pos in hvs && Placed(ctl, chains[s := q], hvs - {pos})
      requires forall x <- hvs :: x.hv == hvs[x]
      requires forall t :: 0 <= t < |chains| ==> Chain(Head(t), if t == s then q else chains[t])
      modifies this`chains, this`hvs, this`hashItems
      ensures Valid() && hvs == old(hvs) - {pos}
    {
      hide Chain, Placed;
      ghost var was := chains;
      hashItems := hashItems - 1;
      chains, hvs := chains[s := q], hvs - {pos};
      forall t | 0 <= t < |chains| ensures Chain(Head(t), chains[t]) {
        assert chains[t] == if t == s then q else was[t];
        assert old(Chain(Head(t), if t == s then q else chains[t]));
      }
    }

    /** The pointer surgery of assoc_delete. */
    method CutOut(hv: nat, before: HashItem?, pos: HashItem, ghost q: seq<HashItem>, ghost k: nat)
      requires Shape() && Chain(Head(ctl.Home(hv)), q) && k < |q| && pos == q[k]
      requires before == if k > 0 then q[k - 1] else null
      modifies primary, oldTable, q`hNext
      ensures Shape() && Chain(Head(ctl.Home(hv)), Cut(q, k))
      ensures forall t :: 0 <= t < |chains| && t != ctl.Home(hv) ==> Head(t) == old(Head(t))
    {
      hide Control.Home, Bucket, Placed;
      var next := pos.hNext;
      pos.hNext := null;
      if before != null {
        before.hNext := next;
      } else {
        SetFirst(hv, next);
      }
      ChainCut(q, k);
    }

    lemma BeforeSplit()
      requires Valid() && expanding
      ensures var b, half, q := expandBucket, Pow2(hashpower - 1), NextChain(ctl, chains, hvs);
        && b + half < primary.Length == 2 * half
        && Chain(oldTable[b], q) && Chain(primary[b], []) && Chain(primary[b + half], [])
        && (forall x <- q :: x in hvs && hvs[x] == x.hv)
        && (forall x <- q :: Bucket(hvs[x], hashpower) == b || Bucket(hvs[x], hashpower) == b + half)
    {
      hide Control.Home, Bucket, Pow2, Placed, Chain;
      var b, half := expandBucket, Pow2(hashpower - 1);
      Doubles(hashpower);
      ChainsDisjoint(ctl, chains, hvs, 2 * half + b);
      TargetsEmpty(ctl, chains, hvs);
      assert Chain(Head(2 * half + b), chains[2 * half + b]);
      assert Chain(Head(b), chains[b]) && Chain(Head(b + half), chains[b + half]);
      forall x <- NextChain(ctl, chains, hvs)
        ensures Bucket(hvs[x], hashpower) == b || Bucket(hvs[x], hashpower) == b + half
      {
        HomeMigrated(ctl, hvs[x]);
      }
    }

    /** The inner loop of the maintenance thread: each item of old bucket expandBucket is put in front
        of its chain in the new table. */
    method SplitBucket() returns (ghost a: seq<HashItem>, ghost z: seq<HashItem>)
      requires Valid() && expanding
      modifies primary, NextChain(ctl, chains, hvs)`hNext
      ensures Shape() && Splitting(ctl, chains, hvs, a, z)
      ensures expandBucket + Pow2(hashpower - 1) < primary.Length
      ensures Chain(primary[expandBucket], a) && Chain(primary[expandBucket + Pow2(hashpower - 1)], z)
      ensures forall t :: 0 <= t < primary.Length && t != expandBucket && t != expandBucket + Pow2(hashpower - 1) ==>
        primary[t] == old(primary[t])
    {
      hide Control.Home, Placed, Bucket, Pow2, Chain, Sifted;
      ghost var q := NextChain(ctl, chains, hvs);
      BeforeSplit();
      ghost var b, half := expandBucket, Pow2(hashpower - 1);
      ChainAt(oldTable[b], q);
      var it := oldTable[expandBucket];
      ghost var k := 0;
      a, z := [], [];
      SiftedNothing(hvs, hashpower, b);
      SiftedNothing(hvs, hashpower, b + half);
      assert q[..0] == [];
      while it != null
        invariant k <= |q| && it == (if k < |q| then q[k] else null)
        invariant forall i {:trigger q[i].hNext} :: k <= i < |q| ==> q[i].hNext == After(q, i)
        invariant Chain(primary[b], a) && Chain(primary[b + half], z)
        invariant Sifted(q[..k], hvs, hashpower, b, a) && Sifted(q[..k], hvs, hashpower, b + half, z)
        invariant forall t :: 0 <= t < primary.Length && t != b && t != b + half ==> primary[t] == old(primary[t])
        decreases |q| - k
      {
        var next := it.hNext;
        var bucket := Bucket(it.hv, hashpower);
        a, z := PutInFront(it, bucket, b + half, q, k, a, z);
        it := next;
        k := k + 1;
      }
      assert q[..k] == q;
    }

    /** One turn of that loop. */
    method PutInFront(
      it: HashItem, bucket: nat, ghost twin: nat, ghost q: seq<HashItem>, ghost k: nat, ghost a: seq<HashItem>,
      ghost z: seq<HashItem>)
      returns (ghost a': seq<HashItem>, ghost z': seq<HashItem>)
      requires Shape() && expanding && Distinct(q) && k < |q| && it == q[k] && (forall x <- q :: x in hvs)
      requires hvs[it] == it.hv && bucket == Bucket(it.hv, hashpower) && (bucket == expandBucket || bucket == twin)
      requires twin == expandBucket + Pow2(hashpower - 1) < primary.Length
      requires Chain(primary[expandBucket], a) && Chain(primary[twin], z)
      requires Sifted(q[..k], hvs, hashpower, expandBucket, a) && Sifted(q[..k], hvs, hashpower, twin, z)
      modifies primary, it`hNext
      ensures Chain(primary[expandBucket], a') && Chain(primary[twin], z')
      ensures Sifted(q[..k + 1], hvs, hashpower, expandBucket, a') && Sifted(q[..k + 1], hvs, hashpower, twin, z')
      ensures forall t :: 0 <= t < primary.Length && t != bucket ==> primary[t] == old(primary[t])
    {
      hide Bucket, Pow2, Placed, Chain;
      assert q[..k + 1] == q[..k] + [it];
      assert it !in q[..k] && it !in a && it !in z;
      it.hNext := primary[bucket];
      primary[bucket] := it;
      a', z' := a, z;
      if bucket == expandBucket {
        a' := [it] + a;
        ChainCons(it, a);
      } else {
        z' := [it] + z;
        ChainCons(it, z);
      }
    }

    /** One pass of the maintenance loop, under the lock.  The items do not change; the loop is over
        when the last old bucket has been moved. */
    method MaintenanceStep() returns (done: bool)
      requires Valid() && ctl.loops > 0
      modifies this, primary, oldTable, hvs.Keys`hNext
      ensures Valid() && hvs == old(hvs) && old(expanding) && ctl == old(ctl).Migrated() && done == !expanding
      ensures primary == old(primary) && oldTable == old(oldTable) && hashpower == old(hashpower)
      ensures expandBucket == old(expandBucket) + 1 && (expanding <==> expandBucket < oldTable.Length)
    {
      hide Shape, Linked, Splitting, Placed;
      assert expanding by { LoopMeansExpanding(); }
      FieldsAre();
      ghost var a, z := SplitUnderLock();
      Finish(a, z);
      FieldsAre();
      done := !expanding;
    }

    lemma FieldsAre()
      requires Valid()
      ensures hashpower == ctl.power && expanding == ctl.expanding && expandBucket == ctl.expandBucket
      ensures expanding ==> hashpower > 0 && expandBucket < oldTable.Length == Pow2(hashpower - 1)
    {
      hide Placed, Linked, Pow2;
    }

    lemma LoopMeansExpanding()
      requires Shape() && ctl.loops > 0
      ensures expanding
    {
    }

    /** Every chain but the old bucket and its two targets is in its place. */
    ghost predicate LinkedExcept()
      requires Shape() && expanding
      reads this, primary, oldTable, hvs.Keys`hNext
    {
      var b := expandBucket;
      forall t :: 0 <= t < |chains| && t !in {b, b + Pow2(hashpower - 1), Pow2(hashpower) + b} ==>
        Chain(Head(t), chains[t])
    }

    /** The end of the pass, from the split old bucket to the invariant. */
    method Finish(ghost a: seq<HashItem>, ghost z: seq<HashItem>)
      requires Shape() && expanding && Splitting(ctl, chains, hvs, a, z)
      requires forall x <- hvs :: x.hv == hvs[x]
      requires expandBucket + Pow2(hashpower - 1) < primary.Length
      requires Chain(primary[expandBucket], a) && Chain(primary[expandBucket + Pow2(hashpower - 1)], z)
      requires LinkedExcept()
      modifies this`expandBucket, this`expanding, this`ctl, this`chains, oldTable
      ensures Valid() && ctl == old(ctl).Migrated()
    {
      hide Chain, Placed, Bucket, Pow2, Control.Home, Splitting, Moved;
      ghost var c0, c := ctl, chains;
      PlacedMigrate(c0, c, hvs, a, z);
      MovedAt(c0, c, a, z);
      Doubles(hashpower);
      Advance(Moved(c0, c, a, z));
      ChainNil();
    }

    /** The end of the pass: the old bucket is emptied and expand_bucket moves on. */
    method Advance(ghost c: seq<seq<HashItem>>)
      requires Shape() && expanding && ctl.Migrated().Ok() && Placed(ctl.Migrated(), c, hvs)
      modifies this`expandBucket, this`expanding, this`ctl, this`chains, oldTable
      ensures Shape() && ctl == old(ctl).Migrated() && chains == c
      ensures forall t :: 0 <= t < |chains| ==>
        Head(t) ==
          if t == Pow2(hashpower) + old(expandBucket) then null else old(if t < |chains| then Head(t) else null)
    {
      hide Placed, Bucket, Control.Home, Pow2;
      Doubles(hashpower);
      SlotCount(ctl.Migrated(), c, hvs);
      oldTable[expandBucket] := null;
      expandBucket := expandBucket + 1;
      if expandBucket == Pow2(hashpower - 1) {
        expanding := false;
      }
      ctl, chains := ctl.Migrated(), c;
    }

    /** The old bucket has been split; all other chains are as they were. */
    method SplitUnderLock() returns (ghost a: seq<HashItem>, ghost z: seq<HashItem>)
      requires Valid() && expanding
      modifies primary, hvs.Keys`hNext
      ensures Shape() && Splitting(ctl, chains, hvs, a, z)
      ensures expandBucket + Pow2(hashpower - 1) < primary.Length
      ensures Chain(primary[expandBucket], a) && Chain(primary[expandBucket + Pow2(hashpower - 1)], z)
      ensures LinkedExcept()
    {
      hide Placed, Bucket, Pow2, Control.Home, Splitting;
      ghost var n := Pow2(hashpower) + expandBucket;
      ChainsDisjoint(ctl, chains, hvs, n);
      a, z := SplitBucket();
      forall t | 0 <= t < |chains| && t != expandBucket && t != expandBucket + Pow2(hashpower - 1) && t != n
        ensures Chain(Head(t), chains[t])
      {
        assert old(Chain(Head(t), chains[t]));
        assert forall i :: 0 <= i < |chains[n]| ==> chains[n][i] !in chains[t];
      }
    }
  }
}
