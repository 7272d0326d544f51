/**
  The slab allocator (src/cache/slabs.cpp) on values: what each operation does to the classes, and
  the invariants every operation keeps.  What the C library decides (whether realloc and malloc
  succeed, and where a page is placed) is an argument.
 */
module SlabModel {
  import opened Basics
  import opened Items
  import opened SizeClasses

  type Ptr = HashItem

  /** A page as malloc placed it, carved into chunks. */
  datatype Page = Page(base: nat, chunks: seq<Ptr>)

  /** The answer to one request for a page: `realloc` of the page list, then `malloc`. */
  datatype Grant = NoList | NoPage | NewPage(page: Page)

  datatype SlabClass = SlabClass(
    size: nat, perslab: nat,
    slots: seq<Ptr>,      // the free list, last in first out
    slTotal: nat,         // the capacity of its array
    tail: seq<Ptr>,      // the part of the last page not yet handed out
    pages: seq<Page>, listSize: nat,
    requested: int,
    // history
    leaked: set<Ptr>,          // chunks lost when the free list could not grow
    charges: map<Ptr, nat>)    // what `requested` still counts, by chunk

  datatype Slabs = Slabs(classes: seq<SlabClass>, memLimit: nat, memMalloced: nat)
  {
    /** power_largest */
    function Largest(): int { |classes| - 1 }
  }

  function NewClass(size: nat, perslab: nat): SlabClass {
    SlabClass(size, perslab, [], 0, [], [], 0, 0, {}, map[])
  }

  /** `perslab` of each class: one in the last class, none in the unused class 0. */
  function PerslabOf(table: seq<nat>, max: nat, i: nat): nat
    requires i < |table|
  {
    if i == |table| - 1 then 1 else PerslabFor(max, table[i])
  }

  function PerslabFor(max: nat, size: nat): nat {
    if size == 0 then 0 else Perslab(max, size)
  }

  /** What the constructor makes, with what it leaves uninitialised being 0. */
  function Initial(chunkSize: nat, max: nat, memLimit: nat): (s: Slabs)
    ensures |s.classes| == |Table(chunkSize, max)| >= 2
  {
    var table := Table(chunkSize, max);
    Slabs(seq(|table|, i requires 0 <= i < |table| => NewClass(table[i], PerslabOf(table, max, i))), memLimit, 0)
  }

  /** The bytes behind the header of a chunk. */
  function Room(size: nat): nat { if size >= HEADER then size - HEADER else 0 }

  function ClassSizes(s: Slabs): seq<nat> {
    seq(|s.classes|, i requires 0 <= i < |s.classes| => s.classes[i].size)
  }

  // ---------------------------------------------------------------- operations

  function PageLength(c: SlabClass): nat { c.size * c.perslab }

  /** The memory limit refuses the class another page. */
  predicate Refused(s: Slabs, id: nat)
    requires id < |s.classes|
  {
    s.memLimit != 0 && s.memMalloced + PageLength(s.classes[id]) > s.memLimit && |s.classes[id].pages| > 0
  }

  /** do_slabs_newslab, with grow_slab_list and memory_allocate; Some(s') when it returns 1. */
  function NewSlab(s: Slabs, id: nat, g: Grant): (Slabs, bool)
    requires id < |s.classes|
  {
    var p := s.classes[id];
    var len := PageLength(p);
    if Refused(s, id) then (s, false)
    else if |p.pages| == p.listSize && g.NoList? then (s, false)
    else
      var p1 := if |p.pages| == p.listSize then p.(listSize := if p.listSize != 0 then p.listSize * 2 else 16) else p;
      if !g.NewPage? then (s.(classes := s.classes[id := p1]), false)
      else
        (s.(classes := s.classes[id := p1.(tail := g.page.chunks, pages := p.pages + [g.page])],
            memMalloced := s.memMalloced + len), true)
  }

  /** Taking a chunk off a class that has one: the free list first, then the fresh part of the page. */
  function TakeFrom(c: SlabClass, size: nat): (SlabClass, Ptr)
    requires c.slots != [] || c.tail != []
  {
    if c.slots != [] then
      var p := c.slots[|c.slots| - 1];
      (c.(slots := c.slots[..|c.slots| - 1], requested := c.requested + size, charges := c.charges[p := size]), p)
    else
      var p := c.tail[0];
      (c.(tail := c.tail[1..], requested := c.requested + size, charges := c.charges[p := size]), p)
  }

  predicate HasChunk(c: SlabClass) { c.slots != [] || c.tail != [] }

  /** do_slabs_alloc */
  function Alloc(s: Slabs, size: nat, id: nat, g: Grant): (Slabs, Option<Ptr>) {
    if id < POWER_SMALLEST || id > s.Largest() then (s, None)
    else
      var (s1, ok) := if HasChunk(s.classes[id]) then (s, true) else NewSlab(s, id, g);
      if !ok || !HasChunk(s1.classes[id]) then (s1, None)
      else
        var (c, p) := TakeFrom(s1.classes[id], size);
        (s1.(classes := s1.classes[id := c]), Some(p))
  }

  /** What do_slabs_free does to the class: `grow` is whether `realloc` can grow the free list. */
  function GiveTo(c: SlabClass, p: Ptr, size: nat, grow: bool): SlabClass {
    if |c.slots| == c.slTotal && !grow then c.(leaked := c.leaked + {p})
    else
      c.(slTotal := if |c.slots| == c.slTotal then (if c.slTotal != 0 then c.slTotal * 2 else 16) else c.slTotal,
         slots := c.slots + [p], requested := c.requested - size, charges := c.charges - {p})
  }

  /** do_slabs_free */
  function Free(s: Slabs, p: Ptr, size: nat, id: nat, grow: bool): Slabs {
    if id < POWER_SMALLEST || id > s.Largest() then s
    else s.(classes := s.classes[id := GiveTo(s.classes[id], p, size, grow)])
  }

  // ---------------------------------------------------------------- where chunks are

  function Elems(q: seq<Ptr>): set<Ptr> { set p | p in q }

  function ChunksOf(pages: seq<Page>): set<Ptr> {
    if pages == [] then {} else ChunksOf(pages[..|pages| - 1]) + Elems(pages[|pages| - 1].chunks)
  }

  function Chunks(c: SlabClass): set<Ptr> { ChunksOf(c.pages) }

  /** The chunks that were handed out and have not come back. */
  function Out(c: SlabClass): set<Ptr> { Chunks(c) - Elems(c.slots) - Elems(c.tail) - c.leaked }

  /** A page of the class: malloc's alignment, and chunks at multiples of the class's size. */
  ghost predicate PageOk(page: Page, size: nat, perslab: nat) {
    && page.base % CHUNK_ALIGN_BYTES == 0
    && |page.chunks| == perslab
    && forall k :: 0 <= k < perslab ==> page.chunks[k].address == page.base + k * size
  }

  /** Conservation inside one class: the free list, the fresh tail, the leaked chunks and those that
      are out are disjoint and together are the chunks of all pages. */
  ghost predicate Partition(c: SlabClass) {
    && Distinct(c.slots) && Distinct(c.tail)
    && Elems(c.slots) <= Chunks(c) && Elems(c.tail) <= Chunks(c) && c.leaked <= Chunks(c)
    && Elems(c.slots) !! Elems(c.tail)
    && c.leaked !! Elems(c.slots) && c.leaked !! Elems(c.tail)
    && |Chunks(c)| == |c.pages| * c.perslab
  }

  ghost predicate IsTail(t: seq<Ptr>, q: seq<Ptr>) {
    |t| <= |q| && t == q[|q| - |t|..]
  }

  ghost predicate Layout(c: SlabClass) {
    && (forall i :: 0 <= i < |c.pages| ==> PageOk(c.pages[i], c.size, c.perslab))
    && (c.tail != [] ==> c.pages != [] && IsTail(c.tail, c.pages[|c.pages| - 1].chunks))
    && |c.slots| <= c.slTotal && |c.pages| <= c.listSize
  }

  ghost function Sum(m: map<Ptr, nat>): nat {
    if m == map[] then 0 else var p :| p in m; m[p] + Sum(m - {p})
  }

  ghost predicate Accounts(c: SlabClass) {
    c.charges.Keys == Out(c) + c.leaked && c.requested == Sum(c.charges)
  }

  ghost predicate ClassInv(c: SlabClass) {
    Partition(c) && Layout(c) && Accounts(c) && 0 < c.perslab
  }

  /** The classes own different chunks, and no two pages overlap. */
  ghost predicate Separate(s: Slabs) {
    && (forall i, j :: 0 <= i < j < |s.classes| ==> Chunks(s.classes[i]) !! Chunks(s.classes[j]))
    && (forall i, j, a, b | 0 <= i < |s.classes| && 0 <= j < |s.classes| && 0 <= a < |s.classes[i].pages|
            && 0 <= b < |s.classes[j].pages| && (i != j || a != b) ::
          Apart(s.classes[i].pages[a], PageLength(s.classes[i]), s.classes[j].pages[b], PageLength(s.classes[j])))
  }

  ghost predicate Apart(p: Page, plen: nat, q: Page, qlen: nat) {
    p.base + plen <= q.base || q.base + qlen <= p.base
  }

  /** The bytes in all pages. */
  function PageBytes(cs: seq<SlabClass>): nat {
    if cs == [] then 0 else PageBytes(cs[..|cs| - 1]) + |cs[|cs| - 1].pages| * PageLength(cs[|cs| - 1])
  }

  /** One page for each class that has one. */
  function FirstPages(cs: seq<SlabClass>): nat {
    if cs == [] then 0
    else FirstPages(cs[..|cs| - 1]) + if cs[|cs| - 1].pages == [] then 0 else PageLength(cs[|cs| - 1])
  }

  /** mem_malloced counts all pages, and passes the limit by at most one page per class. */
  ghost predicate Memory(s: Slabs) {
    && s.memMalloced == PageBytes(s.classes)
    && (s.memLimit != 0 ==> s.memMalloced <= s.memLimit + FirstPages(s.classes))
  }

  ghost predicate SlabInv(s: Slabs) {
    && |s.classes| > 1
    && (forall i :: 1 <= i < |s.classes| ==> ClassInv(s.classes[i]))
    && s.classes[0].pages == []
    && Separate(s) && Memory(s)
  }

  /** What malloc promises about a new page for class id: aligned, new, and clear of other pages. */
  ghost predicate GrantOk(s: Slabs, id: nat, g: Grant)
    requires id < |s.classes|
  {
    g.NewPage? ==>
      && PageOk(g.page, s.classes[id].size, s.classes[id].perslab)
      && Distinct(g.page.chunks)
      && (forall i :: 0 <= i < |s.classes| ==> Elems(g.page.chunks) !! Chunks(s.classes[i]))
      && (forall i, a :: 0 <= i < |s.classes| && 0 <= a < |s.classes[i].pages| ==>
            Apart(g.page, PageLength(s.classes[id]), s.classes[i].pages[a], PageLength(s.classes[i])))
  }
}
