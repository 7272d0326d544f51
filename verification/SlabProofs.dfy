/** Every operation of the slab allocator keeps its invariants; no chunk is lost or handed out twice. */
module SlabProofs {
  import opened Basics
  import opened Items
  import opened SizeClasses
  import opened SlabModel

  // ---------------------------------------------------------------- sums and sequences

  /** The sum of a map does not depend on the order in which its entries are added. */
  lemma {:induction false} SumWithout(m: map<Ptr, nat>, p: Ptr)
    requires p in m
    ensures Sum(m) == m[p] + Sum(m - {p})
    decreases |m|
  {
    var q :| q in m && Sum(m) == m[q] + Sum(m - {q});
    if q != p {
      SumWithout(m - {q}, p);
      SumWithout(m - {p}, q);
      assert m - {q} - {p} == m - {p} - {q};
    }
  }

  lemma SumWith(m: map<Ptr, nat>, p: Ptr, n: nat)
    requires p !in m
    ensures Sum(m[p := n]) == Sum(m) + n
  {
    SumWithout(m[p := n], p);
    assert m[p := n] - {p} == m;
  }

  /** The sum of two maps with different keys. */
  lemma {:induction false} SumUnion(m: map<Ptr, nat>, n: map<Ptr, nat>)
    requires m.Keys !! n.Keys
    ensures Sum(m + n) == Sum(m) + Sum(n)
    decreases |n|
  {
    if n == map[] {
      assert m + n == m;
    } else {
      var p :| p in n;
      SumWithout(n, p);
      SumWithout(m + n, p);
      UnionWithout(m, n, p);
      SumUnion(m, n - {p});
    }
  }

  lemma UnionWithout(m: map<Ptr, nat>, n: map<Ptr, nat>, p: Ptr)
    requires m.Keys !! n.Keys && p in n
    ensures m + n - {p} == m + (n - {p}) && m.Keys !! (n - {p}).Keys && |n - {p}| < |n|
  {
    assert (n - {p}).Keys == n.Keys - {p};
    assert |n.Keys - {p}| < |n.Keys|;
  }

  lemma PopLast(q: seq<Ptr>)
    requires q != [] && Distinct(q)
    ensures Distinct(q[..|q| - 1])
    ensures Elems(q[..|q| - 1]) == Elems(q) - {q[|q| - 1]}
    ensures q[|q| - 1] in Elems(q)
  {
    assert q == q[..|q| - 1] + [q[|q| - 1]];
  }

  lemma PopFirst(q: seq<Ptr>)
    requires q != [] && Distinct(q)
    ensures Distinct(q[1..])
    ensures Elems(q[1..]) == Elems(q) - {q[0]}
    ensures q[0] in Elems(q)
  {
    assert q == [q[0]] + q[1..];
  }

  lemma PushBack(q: seq<Ptr>, p: Ptr)
    requires Distinct(q) && p !in Elems(q)
    ensures Distinct(q + [p]) && Elems(q + [p]) == Elems(q) + {p}
  {
  }

  lemma {:induction false} ElemsCount(q: seq<Ptr>)
    requires Distinct(q)
    ensures |Elems(q)| == |q|
  {
    if q == [] {
      assert Elems(q) == {};
    } else {
      PopLast(q);
      ElemsCount(q[..|q| - 1]);
    }
  }

  // ---------------------------------------------------------------- one class

  /** Taking a chunk: it was not out, and is out afterwards; nothing else moves. */
  lemma TakeKeeps(c: SlabClass, size: nat)
    requires ClassInv(c) && HasChunk(c)
    ensures var (c', p) := TakeFrom(c, size);
      && ClassInv(c') && p in Chunks(c) && p !in Out(c) && Out(c') == Out(c) + {p}
      && c'.pages == c.pages && c'.leaked == c.leaked && c'.charges == c.charges[p := size]
      && p !in c.leaked
  {
    hide Sum, Distinct, Elems, ChunksOf, PageOk;
    var (c', p) := TakeFrom(c, size);
    if c.slots != [] {
      PopLast(c.slots);
    } else {
      PopFirst(c.tail);
      var last := c.pages[|c.pages| - 1].chunks;
      assert c.tail[1..] == last[|last| - |c.tail| + 1..];
    }
    assert p !in c.charges;
    SumWith(c.charges, p, size);
  }

  /** Giving a chunk back: it was out, and is on the free list (or leaked) afterwards. */
  lemma GiveKeeps(c: SlabClass, p: Ptr, size: nat, grow: bool)
    requires ClassInv(c) && p in Out(c) && c.charges[p] == size
    ensures var c' := GiveTo(c, p, size, grow);
      && ClassInv(c') && Out(c') == Out(c) - {p} && c'.pages == c.pages
      && (forall q <- Out(c') :: q in c.charges && q in c'.charges && c'.charges[q] == c.charges[q])
      && (p in Elems(c'.slots) || p in c'.leaked)
      && (p in c'.leaked <==> |c.slots| == c.slTotal && !grow)
  {
    hide Sum, Distinct, Elems, ChunksOf, PageOk;
    var c' := GiveTo(c, p, size, grow);
    PushBack(c.slots, p);
    SumWithout(c.charges, p);
    assert c'.charges.Keys == Out(c') + c'.leaked;
  }

  /** Carving a new page for a class that has nothing left. */
  lemma CarveKeeps(c: SlabClass, page: Page, c': SlabClass)
    requires ClassInv(c) && !HasChunk(c) && PageOk(page, c.size, c.perslab) && Distinct(page.chunks)
    requires Elems(page.chunks) !! Chunks(c) && |c.pages| < c'.listSize
    requires c' == c.(tail := page.chunks, pages := c.pages + [page], listSize := c'.listSize)
    ensures ClassInv(c') && Chunks(c') == Chunks(c) + Elems(page.chunks) && Out(c') == Out(c) && HasChunk(c')
  {
    hide Sum, Distinct, Elems, PageOk;
    assert c'.pages[..|c'.pages| - 1] == c.pages;
    assert |page.chunks| == c.perslab by { PageSize(page, c.size, c.perslab); }
    ElemsCount(page.chunks);
    assert Elems(c.tail) == {} && Elems(c.slots) == {} by { ElemsEmpty(); }
    assert |Chunks(c')| == (|c.pages| + 1) * c.perslab by { Distribute(|c.pages|, c.perslab); }
    forall i | 0 <= i < |c'.pages| ensures PageOk(c'.pages[i], c.size, c.perslab) {
      if i < |c.pages| {
        assert c'.pages[i] == c.pages[i];
      }
    }
  }

  lemma PageSize(page: Page, size: nat, perslab: nat)
    requires PageOk(page, size, perslab)
    ensures |page.chunks| == perslab
  {
  }

  lemma ElemsEmpty()
    ensures Elems([]) == {}
  {
  }

  lemma Distribute(n: nat, m: nat)
    ensures (n + 1) * m == n * m + m
  {
  }

  // ---------------------------------------------------------------- the whole allocator

  /** Changing one class changes the two totals by that class's share. */
  lemma {:induction false} TotalsUpdate(cs: seq<SlabClass>, id: nat, c: SlabClass)
    requires id < |cs| && PageLength(c) == PageLength(cs[id])
    ensures PageBytes(cs[id := c]) == PageBytes(cs) + |c.pages| * PageLength(c) - |cs[id].pages| * PageLength(c)
    ensures FirstPages(cs[id := c]) == FirstPages(cs)
      + (if c.pages == [] then 0 else PageLength(c)) - (if cs[id].pages == [] then 0 else PageLength(c))
  {
    hide PageLength;
    var n := |cs| - 1;
    if id == n {
      assert cs[id := c][..n] == cs[..n];
    } else {
      TotalsUpdate(cs[..n], id, c);
      assert cs[id := c][..n] == cs[..n][id := c];
    }
  }

  /** An operation on one class that does not change its pages keeps what relates the classes. */
  lemma SamePages(s: Slabs, id: nat, c: SlabClass)
    requires SlabInv(s) && 1 <= id < |s.classes|
    requires ClassInv(c) && c.pages == s.classes[id].pages && c.size == s.classes[id].size
    requires c.perslab == s.classes[id].perslab
    ensures SlabInv(s.(classes := s.classes[id := c]))
  {
    hide ClassInv, ChunksOf, Apart, PageBytes, FirstPages;
    TotalsUpdate(s.classes, id, c);
    var s' := s.(classes := s.classes[id := c]);
    forall i | 0 <= i < |s.classes|
      ensures s'.classes[i].pages == s.classes[i].pages && PageLength(s'.classes[i]) == PageLength(s.classes[i])
    {
    }
  }

  lemma SeparateNew(s: Slabs, id: nat, g: Grant, c: SlabClass)
    requires Separate(s) && 1 <= id < |s.classes| && g.NewPage? && GrantOk(s, id, g)
    requires c.pages == s.classes[id].pages + [g.page] && Chunks(c) == Chunks(s.classes[id]) + Elems(g.page.chunks)
    requires PageLength(c) == PageLength(s.classes[id])
    ensures Separate(s.(classes := s.classes[id := c]))
  {
    hide PageLength, Apart, Elems, ChunksOf, Distinct, PageOk, Chunks;
    var s' := s.(classes := s.classes[id := c]);
    var len := PageLength(c);
    forall i, j, a, b | 0 <= i < |s'.classes| && 0 <= j < |s'.classes| && 0 <= a < |s'.classes[i].pages|
        && 0 <= b < |s'.classes[j].pages| && (i != j || a != b)
      ensures
        Apart(s'.classes[i].pages[a], PageLength(s'.classes[i]), s'.classes[j].pages[b], PageLength(s'.classes[j]))
    {
      var p, q := s'.classes[i].pages[a], s'.classes[j].pages[b];
      if i == id && a == |s.classes[id].pages| {
        assert q == s.classes[j].pages[b];
        ApartSymmetric(p, len, q, PageLength(s'.classes[j]));
      } else if j == id && b == |s.classes[id].pages| {
        assert p == s.classes[i].pages[a];
        ApartSymmetric(q, len, p, PageLength(s'.classes[i]));
      } else {
        assert p == s.classes[i].pages[a] && q == s.classes[j].pages[b];
      }
    }
  }

  lemma ApartSymmetric(p: Page, plen: nat, q: Page, qlen: nat)
    ensures Apart(p, plen, q, qlen) == Apart(q, qlen, p, plen)
  {
  }

  /** The limit is passed at most by the first page of a class. */
  lemma MemoryNew(s: Slabs, id: nat, c: SlabClass, page: Page)
    requires Memory(s) && 1 <= id < |s.classes|
    requires c.pages == s.classes[id].pages + [page] && PageLength(c) == PageLength(s.classes[id])
    requires s.memLimit == 0 || s.memMalloced + PageLength(c) <= s.memLimit || s.classes[id].pages == []
    ensures Memory(s.(classes := s.classes[id := c], memMalloced := s.memMalloced + PageLength(c)))
  {
    hide PageLength, PageBytes, FirstPages;
    TotalsUpdate(s.classes, id, c);
    Distribute(|s.classes[id].pages|, PageLength(c));
  }

  /** A new page for a class that has nothing left keeps every invariant, and puts nothing out. */
  lemma NewSlabKeeps(s: Slabs, id: nat, g: Grant)
    requires SlabInv(s) && 1 <= id < |s.classes| && !HasChunk(s.classes[id]) && GrantOk(s, id, g)
    ensures var (s', ok) := NewSlab(s, id, g);
      && SlabInv(s') && SameElsewhere(s, s', id)
      && Out(s'.classes[id]) == Out(s.classes[id]) && s'.classes[id].charges == s.classes[id].charges
      && s'.classes[id].leaked == s.classes[id].leaked && s'.classes[id].slTotal == s.classes[id].slTotal
      && (ok ==>
            && g.NewPage? && HasChunk(s'.classes[id])
            && Chunks(s'.classes[id]) == Chunks(s.classes[id]) + Elems(g.page.chunks))
      && (!ok ==> !HasChunk(s'.classes[id]) && Chunks(s'.classes[id]) == Chunks(s.classes[id]))
  {
    hide Separate, Memory, Distinct, PageOk, Elems, ChunksOf, Partition, Accounts, Out, Apart;
    var c := s.classes[id];
    var (s', ok) := NewSlab(s, id, g);
    var c' := s'.classes[id];
    if ok {
      assert |c.pages| <= c.listSize;
      CarveKeeps(c, g.page, c');
      SeparateNew(s, id, g, c');
      MemoryNew(s, id, c', g.page);
      assert s' == s.(classes := s.classes[id := c'], memMalloced := s.memMalloced + PageLength(c'));
      SeparateMalloced(s.(classes := s.classes[id := c']), s');
    } else if s' != s {
      ListGrown(c, c'.listSize);
      SamePages(s, id, c');
    }
  }

  lemma ListGrown(c: SlabClass, n: nat)
    requires ClassInv(c) && |c.pages| <= n
    ensures ClassInv(c.(listSize := n)) && Out(c.(listSize := n)) == Out(c)
  {
    hide Sum, Distinct, PageOk;
  }

  lemma SeparateMalloced(s: Slabs, s': Slabs)
    requires Separate(s) && s'.classes == s.classes
    ensures Separate(s')
  {
  }

  /** Only class id can have changed, and its sizes have not. */
  ghost predicate SameElsewhere(s: Slabs, s': Slabs, id: nat) {
    && |s'.classes| == |s.classes| && s'.memLimit == s.memLimit && id < |s.classes|
    && (forall i :: 0 <= i < |s.classes| && i != id ==> s'.classes[i] == s.classes[i])
    && s'.classes[id].size == s.classes[id].size && s'.classes[id].perslab == s.classes[id].perslab
  }

  /** do_slabs_alloc keeps every invariant.  A chunk it returns was not out before, and is the only
      change to what is out; when it fails nothing that is out, charged or free has changed. */
  lemma AllocKeeps(s: Slabs, size: nat, id: nat, g: Grant)
    requires SlabInv(s) && 1 <= id < |s.classes| && GrantOk(s, id, g)
    ensures var (s', r) := Alloc(s, size, id, g);
      && SlabInv(s') && SameElsewhere(s, s', id)
      && s'.classes[id].leaked == s.classes[id].leaked && s'.classes[id].slTotal == s.classes[id].slTotal
      && (r == None ==>
            && !HasChunk(s.classes[id]) && !HasChunk(s'.classes[id])
            && Out(s'.classes[id]) == Out(s.classes[id]) && Chunks(s'.classes[id]) == Chunks(s.classes[id])
            && s'.classes[id].charges == s.classes[id].charges)
      && (r.Some? ==>
            && r.value !in Out(s.classes[id]) && r.value !in s.classes[id].leaked
            && Out(s'.classes[id]) == Out(s.classes[id]) + {r.value}
            && s'.classes[id].charges == s.classes[id].charges[r.value := size]
            && Chunks(s'.classes[id]) == Chunks(s.classes[id])
                 + (if HasChunk(s.classes[id]) then {} else if g.NewPage? then Elems(g.page.chunks) else {}))
  {
    hide Separate, Memory, Distinct, PageOk, Elems, ChunksOf, Partition, Layout, Accounts, Out, Apart, NewSlab, GrantOk;
    if !HasChunk(s.classes[id]) {
      NewSlabKeeps(s, id, g);
    }
    var (s1, ok) := if HasChunk(s.classes[id]) then (s, true) else NewSlab(s, id, g);
    if HasChunk(s1.classes[id]) {
      TakeKeeps(s1.classes[id], size);
      SamePages(s1, id, TakeFrom(s1.classes[id], size).0);
    }
  }

  /** The only page that do_slabs_alloc can add is the one malloc granted. */
  lemma AllocPages(s: Slabs, size: nat, id: nat, g: Grant)
    requires 1 <= id < |s.classes|
    ensures var pages, pages' := s.classes[id].pages, Alloc(s, size, id, g).0.classes[id].pages;
      pages' == pages || (!HasChunk(s.classes[id]) && g.NewPage? && pages' == pages + [g.page])
  {
  }

  /** do_slabs_free keeps every invariant when the chunk is out and was charged that size. */
  lemma FreeKeeps(s: Slabs, p: Ptr, size: nat, id: nat, grow: bool)
    requires SlabInv(s) && 1 <= id < |s.classes| && p in Out(s.classes[id]) && s.classes[id].charges[p] == size
    ensures var s' := Free(s, p, size, id, grow);
      && SlabInv(s') && SameElsewhere(s, s', id)
      && Out(s'.classes[id]) == Out(s.classes[id]) - {p} && Chunks(s'.classes[id]) == Chunks(s.classes[id])
      && (forall q <- Out(s'.classes[id]) :: q in s.classes[id].charges && q in s'.classes[id].charges
            && s'.classes[id].charges[q] == s.classes[id].charges[q])
  {
    hide Separate, Memory, Distinct, PageOk, Elems, ChunksOf, Partition, Layout, Out, Apart;
    GiveKeeps(s.classes[id], p, size, grow);
    SamePages(s, id, GiveTo(s.classes[id], p, size, grow));
  }

  // ---------------------------------------------------------------- the beginning

  lemma {:induction false} NoBytes(cs: seq<SlabClass>)
    requires forall i :: 0 <= i < |cs| ==> cs[i].pages == []
    ensures PageBytes(cs) == 0
  {
    if cs != [] {
      NoBytes(cs[..|cs| - 1]);
    }
  }

  lemma NewClassOk(size: nat, perslab: nat)
    requires perslab > 0
    ensures ClassInv(NewClass(size, perslab))
  {
  }

  /** A page of the constructor's classes holds as many chunks as fit in it, and in the last class one. */
  lemma InitialPages(chunkSize: nat, max: nat, memLimit: nat, i: nat)
    requires ConfigOk(chunkSize, max) && 0 < max && 1 <= i < |Initial(chunkSize, max, memLimit).classes|
    ensures var s := Initial(chunkSize, max, memLimit); var c := s.classes[i];
      && c.size == Table(chunkSize, max)[i]
      && if i == |s.classes| - 1 then c.size == max && c.perslab == 1
         else c.size * c.perslab <= max < c.size * (c.perslab + 1)
  {
    hide Table, Sizes, Perslab;
    TableAt(chunkSize, max);
    PerslabPositive(chunkSize, max, i);
    AsManyAsFit(max, Table(chunkSize, max)[i]);
  }

  lemma AsManyAsFit(max: nat, size: nat)
    requires 0 < size
    ensures size * Perslab(max, size) <= max < size * (Perslab(max, size) + 1)
  {
  }

  /** The constructor establishes every invariant. */
  lemma InitialOk(chunkSize: nat, max: nat, memLimit: nat)
    requires ConfigOk(chunkSize, max) && 0 < max
    ensures var s := Initial(chunkSize, max, memLimit);
      && SlabInv(s) && |s.classes| <= POWER_LARGEST && s.memLimit == memLimit && s.memMalloced == 0
      && (forall i :: 1 <= i < |s.classes| ==> s.classes[i].size > 0 && s.classes[i].pages == [])
  {
    hide Table, ClassInv, Perslab, PageBytes, FirstPages;
    var table, s := Table(chunkSize, max), Initial(chunkSize, max, memLimit);
    PowerLargestFits(chunkSize, max);
    forall i | 1 <= i < |s.classes| ensures s.classes[i].size > 0 && ClassInv(s.classes[i]) {
      PerslabPositive(chunkSize, max, i);
      NewClassOk(table[i], PerslabOf(table, max, i));
    }
    NoBytes(s.classes);
  }

  // ---------------------------------------------------------------- conservation and geometry

  /** Slab conservation: every chunk of every page of a class is in the fresh tail, on the free
      list, out, or leaked, and in only one of them. */
  lemma Conservation(c: SlabClass)
    requires ClassInv(c)
    ensures |c.pages| * c.perslab == |c.tail| + |c.slots| + |Out(c)| + |c.leaked|
    ensures forall p <- Chunks(c) ::
      (p in c.tail && p !in c.slots && p !in Out(c) && p !in c.leaked)
      || (p !in c.tail && p in c.slots && p !in Out(c) && p !in c.leaked)
      || (p !in c.tail && p !in c.slots && p in Out(c) && p !in c.leaked)
      || (p !in c.tail && p !in c.slots && p !in Out(c) && p in c.leaked)
  {
    hide Sum, Layout, Accounts, ChunksOf;
    ElemsCount(c.tail);
    ElemsCount(c.slots);
    var used := Elems(c.slots) + Elems(c.tail);
    var rest := used + c.leaked;
    assert |used| == |c.slots| + |c.tail|;
    assert |rest| == |used| + |c.leaked|;
    assert Chunks(c) == rest + Out(c);
    assert |Chunks(c)| == |rest| + |Out(c)|;
    forall p ensures p in c.tail <==> p in Elems(c.tail) {}
    forall p ensures p in c.slots <==> p in Elems(c.slots) {}
  }

  /** A chunk of a class is at some index of some page. */
  lemma {:induction false} ChunkPlace(pages: seq<Page>, p: Ptr) returns (i: nat, k: nat)
    requires p in ChunksOf(pages)
    ensures i < |pages| && k < |pages[i].chunks| && pages[i].chunks[k] == p
    decreases |pages|
  {
    i := |pages| - 1;
    if p in Elems(pages[i].chunks) {
      k :| 0 <= k < |pages[i].chunks| && pages[i].chunks[k] == p;
    } else {
      i, k := ChunkPlace(pages[..i], p);
    }
  }

  lemma Inside(base: nat, k: nat, n: nat, size: nat)
    requires k < n
    ensures base <= base + k * size && base + k * size + size <= base + size * n
  {
    assert (k + 1) * size <= n * size;
  }

  lemma Multiples(j: nat, k: nat, size: nat)
    requires j < k
    ensures j * size + size <= k * size
  {
    assert (j + 1) * size <= k * size;
  }

  /** No two chunks of any classes share a byte of memory. */
  lemma ChunksDisjoint(s: Slabs, i: nat, p: Ptr, j: nat, q: Ptr)
    requires SlabInv(s) && 1 <= i < |s.classes| && 1 <= j < |s.classes|
    requires p in Chunks(s.classes[i]) && q in Chunks(s.classes[j]) && p != q
    ensures p.address + s.classes[i].size <= q.address || q.address + s.classes[j].size <= p.address
  {
    hide Memory, Partition, Accounts;
    var c, d := s.classes[i], s.classes[j];
    var a, k := ChunkPlace(c.pages, p);
    var b, l := ChunkPlace(d.pages, q);
    assert PageOk(c.pages[a], c.size, c.perslab) && PageOk(d.pages[b], d.size, d.perslab);
    Inside(c.pages[a].base, k, c.perslab, c.size);
    Inside(d.pages[b].base, l, d.perslab, d.size);
    if i == j && a == b {
      if k < l { Multiples(k, l, c.size); } else { Multiples(l, k, c.size); }
    } else {
      assert Apart(c.pages[a], PageLength(c), d.pages[b], PageLength(d));
    }
  }

  /** Every chunk lies inside a page of its class, and is aligned when the class's size is (or when a
      page holds one chunk, as in the last class). */
  lemma ChunkInPage(s: Slabs, i: nat, p: Ptr) returns (page: Page)
    requires SlabInv(s) && 1 <= i < |s.classes| && p in Chunks(s.classes[i])
    ensures page in s.classes[i].pages
    ensures page.base <= p.address && p.address + s.classes[i].size <= page.base + PageLength(s.classes[i])
    ensures s.classes[i].size % CHUNK_ALIGN_BYTES == 0 || s.classes[i].perslab == 1 ==>
      p.address % CHUNK_ALIGN_BYTES == 0
  {
    hide Memory, Partition, Accounts, Separate;
    var c := s.classes[i];
    var a, k := ChunkPlace(c.pages, p);
    page := c.pages[a];
    assert PageOk(page, c.size, c.perslab);
    Inside(page.base, k, c.perslab, c.size);
    if c.size % CHUNK_ALIGN_BYTES == 0 {
      AlignedMultiple(page.base, k, c.size);
    }
  }

  lemma AlignedMultiple(base: nat, k: nat, size: nat)
    requires base % CHUNK_ALIGN_BYTES == 0 && size % CHUNK_ALIGN_BYTES == 0
    ensures (base + k * size) % CHUNK_ALIGN_BYTES == 0
  {
    var m := size / 8;
    assert size == 8 * m;
    assert k * size == 8 * (k * m);
  }
}
