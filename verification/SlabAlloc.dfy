/** The slab allocator as the program keeps it (src/cache/slabs.cpp, src/cache/slabs.hpp). */
module SlabAlloc {
  import opened Basics
  import opened Items
  import opened SizeClasses
  import opened SlabModel
  import opened SlabProofs

  /** What the C library answers to one request for a page. */
  datatype Malloc = Malloc(listOk: bool, pageOk: bool, base: nat)

  /** malloc returns aligned memory that overlaps no other page. */
  ghost predicate PlaceOk(s: Slabs, id: nat, base: nat)
    requires id < |s.classes|
  {
    && base % CHUNK_ALIGN_BYTES == 0
    && forall i, a :: 0 <= i < |s.classes| && 0 <= a < |s.classes[i].pages| ==>
         Apart(Page(base, []), PageLength(s.classes[id]), s.classes[i].pages[a], PageLength(s.classes[i]))
  }

  /** What a class that needs a page is granted, given what the C library answers.  A class that has a
      chunk asks for nothing. */
  ghost predicate AnsweredBy(s: Slabs, id: nat, mal: Malloc, g: Grant)
    requires id < |s.classes|
  {
    var k := s.classes[id];
    if HasChunk(k) || Refused(s, id) || (|k.pages| == k.listSize && !mal.listOk) then g == NoList
    else if !mal.pageOk then g == NoPage
    else g.NewPage? && g.page.base == mal.base
  }

  /** slabclass_t.  `slots` and `slabList` are as long as sl_total and list_size say; the chunk behind
      end_page_ptr is the next one of the last page. */
  class SlabClassT {
    var size: nat
    var perslab: nat
    var slots: array<HashItem?>
    var slTotal: nat
    var slCurr: nat
    var endPagePtr: HashItem?
    var endPageFree: nat
    var slabs: nat
    var slabList: array<Page>
    var listSize: nat
    var requested: int

    /** memset to 0 */
    constructor ()
      ensures Is(NewClass(0, 0)) && fresh(slots) && fresh(slabList)
    {
      size, perslab, slTotal, slCurr, endPagePtr, endPageFree := 0, 0, 0, 0, null, 0;
      slabs, listSize, requested := 0, 0, 0;
      slots := new HashItem?[0];
      slabList := new Page[0](_ => Page(0, []));
    }

    /** This record represents the class k. */
    ghost predicate Is(k: SlabClass)
      reads this, slots, slabList
    {
      && size == k.size && perslab == k.perslab && requested == k.requested
      && slTotal == k.slTotal == slots.Length && slCurr == |k.slots| <= slTotal
      && (forall i :: 0 <= i < slCurr ==> slots[i] == k.slots[i])
      && endPageFree == |k.tail| && endPagePtr == (if k.tail == [] then null else k.tail[0])
      && slabs == |k.pages| <= listSize && listSize == k.listSize == slabList.Length
      && (forall i :: 0 <= i < slabs ==> slabList[i] == k.pages[i])
    }

    /** The chunk `size` bytes behind end_page_ptr. */
    function NextChunk(ghost k: SlabClass): (p: HashItem)
      requires Is(k) && ClassInv(k) && endPageFree > 1
      reads this, slots, slabList
      ensures p == k.tail[1] && p.address == endPagePtr.address + size
    {
      TailPlace(k);
      slabList[slabs - 1].chunks[perslab - endPageFree + 1]
    }

    /** Takes a chunk off the free list, or else off the end of the page. */
    method Take(bytes: nat, ghost k: SlabClass) returns (ret: HashItem)
      requires Is(k) && ClassInv(k) && HasChunk(k)
      modifies this`slCurr, this`endPagePtr, this`endPageFree, this`requested
      ensures Is(TakeFrom(k, bytes).0) && ret == TakeFrom(k, bytes).1
      ensures ret == old(if slCurr != 0 then slots[slCurr - 1] else endPagePtr) && requested == old(requested) + bytes
      ensures slCurr == (if old(slCurr) != 0 then old(slCurr) - 1 else 0)
      ensures endPageFree == (if old(slCurr) != 0 then old(endPageFree) else old(endPageFree) - 1)
    {
      hide ClassInv;
      if slCurr != 0 {
        slCurr := slCurr - 1;
        ret := slots[slCurr];
      } else {
        assert endPagePtr != null;
        ret := endPagePtr;
        var next: HashItem? := null;
        if endPageFree - 1 != 0 {
          next := NextChunk(k);
        }
        endPageFree := endPageFree - 1;
        endPagePtr := next;
      }
      requested := requested + bytes;
    }

    /** Puts a chunk on the free list, unless that is full and cannot grow. */
    method PutBack(ptr: HashItem, bytes: nat, grow: bool, ghost k: SlabClass)
      requires Is(k)
      modifies this`slots, this`slTotal, this`slCurr, this`requested, slots
      ensures Is(GiveTo(k, ptr, bytes, grow)) && (slots == old(slots) || fresh(slots))
      ensures var lost := old(slCurr) == old(slTotal) && !grow;
        && slCurr == old(slCurr) + (if lost then 0 else 1) && requested == old(requested) - (if lost then 0 else bytes)
        && slTotal == (if old(slCurr) != old(slTotal) || lost then old(slTotal)
                       else if old(slTotal) == 0 then 16 else 2 * old(slTotal))
        && (!lost ==> slots[old(slCurr)] == ptr)
    {
      if slCurr == slTotal {
        var newSize := if slTotal != 0 then slTotal * 2 else 16;
        if !grow {
          return;
        }
        var old_ := slots;
        var more := new HashItem?[newSize](_ => null);
        forall i | 0 <= i < slCurr {
          more[i] := old_[i];
        }
        slots := more;
        slTotal := newSize;
      }
      slots[slCurr] := ptr;
      slCurr := slCurr + 1;
      requested := requested - bytes;
    }

    /** grow_slab_list */
    method GrowSlabList(listOk: bool, ghost k: SlabClass) returns (ok: bool)
      requires Is(k)
      modifies this`slabList, this`listSize
      ensures ok == (|k.pages| != k.listSize || listOk) && (slabList == old(slabList) || fresh(slabList))
      ensures Is(if |k.pages| == k.listSize && listOk then Doubled(k) else k)
      ensures ok == (old(slabs) != old(listSize) || listOk) && (ok ==> slabs < listSize)
      ensures listSize == (if old(slabs) != old(listSize) || !listOk then old(listSize)
                           else if old(listSize) == 0 then 16 else 2 * old(listSize))
    {
      if slabs == listSize {
        var newSize := if listSize != 0 then listSize * 2 else 16;
        if !listOk {
          return false;
        }
        var old_ := slabList;
        var more := new Page[newSize](_ => Page(0, []));
        forall i | 0 <= i < slabs {
          more[i] := old_[i];
        }
        listSize := newSize;
        slabList := more;
      }
      return true;
    }

    /** The chunks of a new page: new objects, at multiples of the size, all zero. */
    method Carve(base: nat, perslab: nat, size: nat) returns (chunks: seq<HashItem>)
      ensures |chunks| == perslab && Distinct(chunks) && NewChunks(chunks, size)
      ensures forall k :: 0 <= k < perslab ==> chunks[k].address == base + k * size
      ensures forall p <- chunks :: fresh(p)
    {
      chunks := [];
      for k := 0 to perslab
        invariant |chunks| == k && Distinct(chunks)
        invariant forall j :: 0 <= j < k ==>
          fresh(chunks[j]) && chunks[j].address == base + j * size && chunks[j].Header() == Zeroed(Room(size))
      {
        var chunk := new HashItem(base + k * size, Room(size));
        chunks := chunks + [chunk];
      }
    }

    /** The new page is the one chunks are handed out from. */
    method UsePage(page: Page, ghost k: SlabClass)
      requires Is(k) && slabs < listSize && |page.chunks| == perslab > 0
      modifies this`endPagePtr, this`endPageFree, this`slabs, slabList
      ensures Is(k.(tail := page.chunks, pages := k.pages + [page]))
    {
      endPagePtr := page.chunks[0];
      endPageFree := perslab;
      slabList[slabs] := page;
      slabs := slabs + 1;
    }

    lemma IsSizes(k: SlabClass)
      requires Is(k)
      ensures size == k.size && perslab == k.perslab && slabs == |k.pages|
    {
    }

    lemma IsChunks(k: SlabClass)
      requires Is(k)
      ensures (endPagePtr != null || slCurr != 0) <==> HasChunk(k)
    {
    }

    /** Makes room in the page list, gets a page, and carves it. */
    method AddPage(mal: Malloc, ghost k: SlabClass) returns (ok: bool, ghost g: Grant)
      requires Is(k) && perslab > 0
      modifies this`slabList, this`listSize, this`endPagePtr, this`endPageFree, this`slabs, slabList
      ensures Is(WithPage(k, g)) && (slabList == old(slabList) || fresh(slabList)) && ok == g.NewPage?
      ensures g == NoList <==> |k.pages| == k.listSize && !mal.listOk
      ensures ok <==> g != NoList && mal.pageOk
      ensures ok ==>
        && g.page.base == mal.base && |g.page.chunks| == k.perslab
        && Distinct(g.page.chunks) && NewChunks(g.page.chunks, k.size)
        && (forall j :: 0 <= j < k.perslab ==> g.page.chunks[j].address == mal.base + j * k.size)
        && (forall p <- g.page.chunks :: fresh(p))
    {
      hide Distinct, NewChunks;
      var grown := GrowSlabList(mal.listOk, k);
      if !grown {
        return false, NoList;
      }
      if !mal.pageOk {
        return false, NoPage;
      }
      var chunks := Carve(mal.base, perslab, size);
      UsePage(Page(mal.base, chunks), if |k.pages| == k.listSize then Doubled(k) else k);
      ok, g := true, Grant.NewPage(Page(mal.base, chunks));
    }
  }

  /** The fresh tail is the end of the last page, and its chunks follow each other. */
  lemma TailPlace(k: SlabClass)
    requires ClassInv(k) && |k.tail| > 1
    ensures k.pages != [] && var last := k.pages[|k.pages| - 1].chunks;
      |k.tail| <= k.perslab == |last| && last[k.perslab - |k.tail| + 1] == k.tail[1]
    ensures k.tail[1].address == k.tail[0].address + k.size
  {
    hide Partition, Accounts;
    var page := k.pages[|k.pages| - 1];
    assert PageOk(page, k.size, k.perslab);
    var i := k.perslab - |k.tail|;
    assert page.chunks[i] == k.tail[0] && page.chunks[i + 1] == k.tail[1];
    NextMultiple(i, k.size);
  }

  lemma NextMultiple(i: nat, size: nat)
    ensures (i + 1) * size == i * size + size
  {
  }

  /** The page list has been doubled. */
  function Doubled(k: SlabClass): SlabClass {
    k.(listSize := if k.listSize != 0 then k.listSize * 2 else 16)
  }

  /** What a request for a page does to the class that makes it. */
  ghost function WithPage(k: SlabClass, g: Grant): SlabClass {
    if |k.pages| == k.listSize && g.NoList? then k
    else
      var k1 := if |k.pages| == k.listSize then Doubled(k) else k;
      if g.NewPage? then k1.(tail := g.page.chunks, pages := k.pages + [g.page]) else k1
  }

  /** Chunks that have just been zeroed. */
  ghost predicate NewChunks(chunks: seq<HashItem>, size: nat)
    reads chunks
  {
    forall p <- chunks :: p.Header() == Zeroed(Room(size))
  }

  lemma ClassOf(s: Slabs, id: nat)
    requires SlabInv(s) && 1 <= id < |s.classes|
    ensures ClassInv(s.classes[id]) && s.classes[id].perslab > 0
  {
    hide Separate, Memory, Partition, Layout, Accounts;
  }

  lemma NewSlabIs(s: Slabs, id: nat, g: Grant)
    requires id < |s.classes| && (g.NoList? ==> |s.classes[id].pages| == s.classes[id].listSize)
    requires !Refused(s, id)
    ensures var (s', ok) := NewSlab(s, id, g);
      && s'.classes == s.classes[id := WithPage(s.classes[id], g)] && s'.memLimit == s.memLimit && ok == g.NewPage?
      && s'.memMalloced == s.memMalloced + if ok then PageLength(s.classes[id]) else 0
  {
  }

  lemma NewSlabPages(s: Slabs, id: nat, g: Grant)
    requires id < |s.classes|
    ensures var (s', ok) := NewSlab(s, id, g);
      && |s'.classes| == |s.classes| && |s'.classes[id].pages| == |s.classes[id].pages| + (if ok then 1 else 0)
      && s'.memMalloced == s.memMalloced + (if ok then s.classes[id].size * s.classes[id].perslab else 0)
  {
  }

  lemma NewSlabRefused(s: Slabs, id: nat)
    requires id < |s.classes| && Refused(s, id)
    ensures NewSlab(s, id, NoList) == (s, false)
  {
  }

  lemma NoGrant(s: Slabs, id: nat, g: Grant)
    requires id < |s.classes| && !g.NewPage?
    ensures GrantOk(s, id, g)
  {
  }

  ghost function AllChunks(s: Slabs): set<Ptr> {
    set i, p | 0 <= i < |s.classes| && p in Chunks(s.classes[i]) :: p
  }

  /** New objects in memory that malloc has just provided. */
  lemma NewPageGranted(s: Slabs, id: nat, g: Grant)
    requires id < |s.classes| && g.NewPage? && PlaceOk(s, id, g.page.base)
    requires |g.page.chunks| == s.classes[id].perslab && Distinct(g.page.chunks)
    requires forall j ::
      0 <= j < s.classes[id].perslab ==> g.page.chunks[j].address == g.page.base + j * s.classes[id].size
    requires Elems(g.page.chunks) !! AllChunks(s)
    ensures GrantOk(s, id, g)
  {
    hide Distinct, Chunks;
  }

  /** What a request for a page comes to, when the limit allows one. */
  lemma GrantKeeps(s: Slabs, id: nat, g: Grant)
    requires SlabInv(s) && 1 <= id < |s.classes| && !HasChunk(s.classes[id])
    requires !Refused(s, id)
    requires g.NoList? ==> |s.classes[id].pages| == s.classes[id].listSize
    requires g.NewPage? ==>
      && PlaceOk(s, id, g.page.base) && |g.page.chunks| == s.classes[id].perslab && Distinct(g.page.chunks)
      && (forall j :: 0 <= j < s.classes[id].perslab ==>
            g.page.chunks[j].address == g.page.base + j * s.classes[id].size)
      && (forall x <- g.page.chunks :: x !in AllChunks(s))
    ensures GrantOk(s, id, g)
    ensures var (s', ok) := NewSlab(s, id, g);
      && SlabInv(s') && s'.classes == s.classes[id := WithPage(s.classes[id], g)]
      && s'.memLimit == s.memLimit && ok == g.NewPage?
      && s'.memMalloced == s.memMalloced + (if ok then PageLength(s.classes[id]) else 0)
      && s'.classes[id].size == s.classes[id].size
  {
    hide SlabInv, GrantOk, HasChunk, PlaceOk, Distinct, NewSlab, WithPage, PageLength;
    if g.NewPage? {
      NewPageGranted(s, id, g);
    } else {
      NoGrant(s, id, g);
    }
    NewSlabIs(s, id, g);
    NewSlabKeeps(s, id, g);
  }

  class SlabAllocator {
    const slabclass: seq<SlabClassT>   // the records never move
    var memLimit: nat
    var memMalloced: nat
    var powerLargest: nat
    ghost const sizes: seq<nat>      // the table of sizes, which never changes
    ghost var st: Slabs              // what the fields represent
    ghost var repr: set<object>      // the records and their arrays

    /** The records and their arrays are different objects. */
    ghost predicate Owns()
      reads this`repr, repr
    {
      && |slabclass| == POWER_LARGEST + 1
      && (forall i :: 0 <= i < |slabclass| ==>
            slabclass[i] in repr && slabclass[i].slots in repr && slabclass[i].slabList in repr)
      && (forall i, j :: 0 <= i < j < |slabclass| ==>
            && slabclass[i] != slabclass[j] && slabclass[i].slots != slabclass[j].slots
            && slabclass[i].slabList != slabclass[j].slabList)
    }

    ghost predicate Valid()
      reads this, repr
    {
      && Owns() && this !in repr
      && |st.classes| == powerLargest + 1 <= |slabclass|
      && memLimit == st.memLimit && memMalloced == st.memMalloced
      && (forall i :: 0 <= i < |st.classes| ==> slabclass[i].Is(st.classes[i]))
      && SlabInv(st) && ClassSizes(st) == sizes && (forall i :: 1 <= i < |st.classes| ==> st.classes[i].size > 0)
    }

    /** The records represent s, and id's record has new arrays or the ones it had. */
    method Adopt(ghost id: nat, ghost s: Slabs)
      requires OwnsBut(id)
      requires this !in repr && id < |s.classes| == powerLargest + 1 <= |slabclass|
      requires memLimit == s.memLimit && memMalloced == s.memMalloced
      requires forall i :: 0 <= i < |s.classes| ==> slabclass[i].Is(s.classes[i])
      requires SlabInv(s) && ClassSizes(s) == sizes && (forall i :: 1 <= i < |s.classes| ==> s.classes[i].size > 0)
      modifies this`st, this`repr
      ensures Valid() && st == s && repr == old(repr) + {slabclass[id].slots, slabclass[id].slabList}
    {
      hide SlabInv, SlabClassT.Is;
      repr := repr + {slabclass[id].slots, slabclass[id].slabList};
      st := s;
    }

    /** memset of the records to 0 */
    static method NewRecords(n: nat) returns (records: seq<SlabClassT>, ghost objects: set<object>)
      ensures |records| == n && fresh(objects)
      ensures forall i :: 0 <= i < n ==> records[i].Is(NewClass(0, 0))
      ensures forall i ::
        0 <= i < n ==> records[i] in objects && records[i].slots in objects && records[i].slabList in objects
      ensures forall i, j :: 0 <= i < j < n ==>
        records[i] != records[j] && records[i].slots != records[j].slots && records[i].slabList != records[j].slabList
    {
      hide SlabClassT.Is;
      records, objects := [], {};
      for k := 0 to n
        invariant |records| == k && fresh(objects)
        invariant forall i :: 0 <= i < k ==> records[i].Is(NewClass(0, 0))
        invariant forall i :: 0 <= i < k ==>
          records[i] in objects && records[i].slots in objects && records[i].slabList in objects
        invariant forall i, j :: 0 <= i < j < k ==>
          records[i] != records[j] && records[i].slots != records[j].slots && records[i].slabList != records[j].slabList
      {
        var record := new SlabClassT();
        records := records + [record];
        objects := objects + {record, record.slots, record.slabList};
      }
    }

    /** The table of chunk sizes, filled class by class. */
    constructor (chunkSize: nat, itemSizeMax: nat, maxbytes: nat)
      requires ConfigOk(chunkSize, itemSizeMax) && 0 < itemSizeMax
      ensures Valid() && fresh(repr) && this !in repr && st == Initial(chunkSize, itemSizeMax, maxbytes)
      ensures sizes == Table(chunkSize, itemSizeMax)
    {
      hide SlabInv, Table, SlabClassT.Is, Initial;
      memLimit, memMalloced, powerLargest := maxbytes, 0, 0;
      var records;
      ghost var objects;
      records, objects := NewRecords(POWER_LARGEST + 1);
      slabclass, repr, sizes := records, objects, Table(chunkSize, itemSizeMax);
      new;
      Setup(chunkSize, itemSizeMax);
    }

    /** What the constructor does after the memset. */
    method Setup(chunkSize: nat, itemSizeMax: nat)
      requires ConfigOk(chunkSize, itemSizeMax) && 0 < itemSizeMax && Owns() && this !in repr && memMalloced == 0
      requires sizes == Table(chunkSize, itemSizeMax)
      requires forall i :: 0 <= i < |slabclass| ==> slabclass[i].Is(NewClass(0, 0))
      modifies this`powerLargest, this`st, slabclass
      ensures Valid() && st == Initial(chunkSize, itemSizeMax, memLimit)
    {
      hide SlabInv, Table, Sizes, SlabClassT.Is, Represents, PerslabOf, Initial, Filled;
      StartsFilled(Sizes(POWER_SMALLEST, HEADER + chunkSize, itemSizeMax), itemSizeMax);
      FillTable(chunkSize, itemSizeMax);
      InitialOk(chunkSize, itemSizeMax, memLimit);
      st := Initial(chunkSize, itemSizeMax, memLimit);
      IsInitial(chunkSize, itemSizeMax);
      InitialSizes(chunkSize, itemSizeMax, memLimit);
    }

    lemma StartsFilled(sizes: seq<nat>, max: nat)
      requires Owns() && forall i :: 0 <= i < |slabclass| ==> slabclass[i].Is(NewClass(0, 0))
      ensures Filled(sizes, max, 0)
    {
      hide SlabClassT.Is;
    }

    lemma IsInitial(chunkSize: nat, max: nat)
      requires Represents(Table(chunkSize, max), max) && st == Initial(chunkSize, max, st.memLimit)
      ensures powerLargest + 1 == |st.classes| <= |slabclass| && st.memMalloced == 0
      ensures forall i :: 0 <= i < |st.classes| ==> slabclass[i].Is(st.classes[i])
    {
      hide SlabClassT.Is, Table, PerslabOf;
    }

    /** The first records have the sizes of the table, the others none. */
    ghost predicate Filled(sizes: seq<nat>, max: nat, n: nat)
      reads this`repr, repr
    {
      && Owns() && n <= |sizes| && n < |slabclass|
      && slabclass[0].Is(NewClass(0, 0))
      && (forall k :: 1 <= k <= n ==> slabclass[k].Is(NewClass(sizes[k - 1], PerslabFor(max, sizes[k - 1]))))
      && (forall k :: n < k < |slabclass| ==> slabclass[k].Is(NewClass(0, 0)))
    }

    /** The loop of the constructor. */
    method FillTable(chunkSize: nat, itemSizeMax: nat)
      requires itemSizeMax > 0 && this !in repr
      requires Filled(Sizes(POWER_SMALLEST, HEADER + chunkSize, itemSizeMax), itemSizeMax, 0)
      modifies this`powerLargest, slabclass
      ensures Owns() && powerLargest <= POWER_LARGEST
      ensures Represents(Table(chunkSize, itemSizeMax), itemSizeMax)
    {
      hide Align, Sizes, PerslabFor, Filled, SlabClassT.Is, Represents, Table, Owns;
      var i, size := POWER_SMALLEST, HEADER + chunkSize;
      ghost var sizes := Sizes(POWER_SMALLEST, size, itemSizeMax);
      while i < POWER_LARGEST && 5 * size <= 4 * itemSizeMax
        invariant POWER_SMALLEST <= i <= POWER_LARGEST && 48 <= size
        invariant i - 1 <= |sizes| && sizes[i - 1..] == Sizes(i, size, itemSizeMax)
        invariant Filled(sizes, itemSizeMax, i - 1)
      {
        SizesNext(i, size, itemSizeMax);
        PerslabIs(itemSizeMax, Align(size));
        if size % CHUNK_ALIGN_BYTES != 0 {
          size := size + (CHUNK_ALIGN_BYTES - size % CHUNK_ALIGN_BYTES);
        }
        assert sizes[i - 1..][1..] == sizes[i..];
        SetClass(i, size, itemSizeMax / size, sizes, itemSizeMax);
        size := size * 5 / 4;
        i := i + 1;
      }
      SizesNext(i, size, itemSizeMax);
      powerLargest := i;
      LastClass(chunkSize, itemSizeMax);
    }

    /** The records up to power_largest are new classes of these sizes. */
    ghost predicate Represents(table: seq<nat>, max: nat)
      reads this`repr, this`powerLargest, repr
    {
      && Owns() && powerLargest + 1 == |table| <= |slabclass|
      && forall i :: 0 <= i <= powerLargest ==> slabclass[i].Is(NewClass(table[i], PerslabOf(table, max, i)))
    }

    method SetClass(i: nat, size: nat, perslab: nat, ghost sizes: seq<nat>, ghost max: nat)
      requires 1 <= i < POWER_LARGEST && Filled(sizes, max, i - 1) && i <= |sizes| && sizes[i - 1] == size
      requires perslab == PerslabFor(max, size)
      modifies slabclass
      ensures Filled(sizes, max, i)
    {
      hide PerslabFor;
      assert slabclass[i].Is(NewClass(0, 0));
      slabclass[i].size := size;
      slabclass[i].perslab := perslab;
    }

    method LastClass(ghost chunkSize: nat, itemSizeMax: nat)
      requires 1 <= powerLargest <= POWER_LARGEST
      requires var sizes := Sizes(POWER_SMALLEST, HEADER + chunkSize, itemSizeMax);
        |sizes| == powerLargest - 1 && Filled(sizes, itemSizeMax, powerLargest - 1)
      modifies slabclass
      ensures Owns() && Represents(Table(chunkSize, itemSizeMax), itemSizeMax)
    {
      hide Perslab, Sizes, Table;
      TableAt(chunkSize, itemSizeMax);
      assert slabclass[powerLargest].Is(NewClass(0, 0));
      slabclass[powerLargest].size := itemSizeMax;
      slabclass[powerLargest].perslab := 1;
    }

    /** Owns, except that id's arrays need not be in repr. */
    ghost predicate OwnsBut(id: nat)
      reads *
    {
      && |slabclass| == POWER_LARGEST + 1
      && (forall i :: 0 <= i < |slabclass| ==>
            slabclass[i] in repr && (i != id ==> slabclass[i].slots in repr && slabclass[i].slabList in repr))
      && (forall i, j :: 0 <= i < j < |slabclass| ==>
            && slabclass[i] != slabclass[j] && slabclass[i].slots != slabclass[j].slots
            && slabclass[i].slabList != slabclass[j].slabList)
    }

    /** What the fields of a record say. */
    lemma RecordIs(id: nat)
      requires Valid() && id < |st.classes|
      ensures var p, k := slabclass[id], st.classes[id];
        && id <= powerLargest && p.size == k.size && p.perslab == k.perslab && p.requested == k.requested
        && p.slabs == |k.pages| && p.listSize == k.listSize && p.endPageFree == |k.tail|
        && p.endPagePtr == (if k.tail == [] then null else k.tail[0])
        && p.slCurr == |k.slots| <= p.slots.Length && forall i :: 0 <= i < |k.slots| ==> p.slots[i] == k.slots[i]
    {
      hide SlabInv;
      assert slabclass[id].Is(st.classes[id]);
    }

    /** do_slabs_newslab */
    method DoSlabsNewslab(id: nat, mal: Malloc) returns (ok: bool, ghost g: Grant)
      requires Valid() && 1 <= id < |st.classes| && !HasChunk(st.classes[id]) && PlaceOk(st, id, mal.base)
      modifies this`memMalloced, this`st, this`repr, repr
      ensures Valid() && fresh(repr - old(repr)) && GrantOk(old(st), id, g) && AnsweredBy(old(st), id, mal, g)
      ensures (st, ok) == NewSlab(old(st), id, g) && ok == g.NewPage?
      ensures g.NewPage? ==>
        NewChunks(g.page.chunks, old(st).classes[id].size) && forall p <- g.page.chunks :: fresh(p) && p !in repr
      ensures ok <==>
        && (old(slabclass[id].slabs) != old(slabclass[id].listSize) || mal.listOk) && mal.pageOk
        && (old(memLimit) == 0 || old(memMalloced) + old(slabclass[id].size * slabclass[id].perslab) <= old(memLimit)
            || old(slabclass[id].slabs) == 0)
      ensures
        memMalloced == old(memMalloced) + (if ok then old(slabclass[id].size * slabclass[id].perslab) else 0)
        && slabclass[id].slabs == old(slabclass[id].slabs) + (if ok then 1 else 0)
    {
      hide SlabInv, ClassInv, GrantOk, HasChunk, PlaceOk, NewSlab, SlabClassT.Is, NewChunks;
      RecordIs(id);
      var p := slabclass[id];
      var len := p.size * p.perslab;
      if memLimit != 0 && memMalloced + len > memLimit && p.slabs > 0 {
        ok, g := false, NoList;
        NewSlabRefused(st, id);
        NoGrant(st, id, NoList);
      } else {
        ok, g := GetPage(id, mal, len);
      }
      NewSlabPages(old(st), id, g);
      RecordIs(id);
    }

    /** The rest of it, when the limit allows a page. */
    method GetPage(id: nat, mal: Malloc, len: nat) returns (ok: bool, ghost g: Grant)
      requires Valid() && 1 <= id < |st.classes| && !HasChunk(st.classes[id]) && PlaceOk(st, id, mal.base)
      requires len == PageLength(st.classes[id])
      requires !Refused(st, id)
      modifies this`memMalloced, this`st, this`repr, repr
      ensures Valid() && fresh(repr - old(repr)) && GrantOk(old(st), id, g) && AnsweredBy(old(st), id, mal, g)
      ensures (st, ok) == NewSlab(old(st), id, g) && ok == g.NewPage?
      ensures g.NewPage? ==>
        NewChunks(g.page.chunks, old(st).classes[id].size) && forall p <- g.page.chunks :: fresh(p) && p !in repr
    {
      hide SlabInv, ClassInv, GrantOk, HasChunk, PlaceOk, PageOk, Distinct, NewSlab, WithPage, SlabClassT.Is,
        NewChunks, PageLength, AllChunks, Elems;
      ghost var s := st;
      ok, g := GrowAndCarve(id, mal);
      if ok {
        memMalloced := memMalloced + len;
      }
      GrantKeeps(s, id, g);
      SizesSame(s, NewSlab(s, id, g).0, id);
      Adopt(id, NewSlab(s, id, g).0);
    }

    /** grow_slab_list and memory_allocate, and the new page's part of the record. */
    method GrowAndCarve(id: nat, mal: Malloc) returns (ok: bool, ghost g: Grant)
      requires Valid() && 1 <= id < |st.classes|
      modifies slabclass[id], slabclass[id].slabList
      ensures ok == g.NewPage? && (ok <==> g != NoList && mal.pageOk)
      ensures g == NoList <==> |st.classes[id].pages| == st.classes[id].listSize && !mal.listOk
      ensures OwnsBut(id) && slabclass[id].slots in repr
      ensures (slabclass[id].slabList in repr || fresh(slabclass[id].slabList))
      ensures forall i ::
        0 <= i < |st.classes| ==> slabclass[i].Is(if i == id then WithPage(st.classes[id], g) else st.classes[i])
      ensures ok ==>
        && g.page.base == mal.base && |g.page.chunks| == st.classes[id].perslab
        && Distinct(g.page.chunks) && NewChunks(g.page.chunks, st.classes[id].size)
        && (forall j :: 0 <= j < st.classes[id].perslab ==>
              g.page.chunks[j].address == g.page.base + j * st.classes[id].size)
        && (forall p <- g.page.chunks :: fresh(p) && p !in repr && p !in AllChunks(st))
    {
      hide SlabInv, ClassInv, PageOk, Distinct, WithPage, SlabClassT.Is, NewChunks, PageLength, AllChunks;
      var p := slabclass[id];
      ghost var k, s := st.classes[id], st;
      ClassOf(s, id);
      assert p.Is(k);
      p.IsSizes(k);
      ghost var known := AllChunks(s);
      assert allocated(known);
      ok, g := p.AddPage(mal, k);
      forall i | 0 <= i < |s.classes| && i != id ensures slabclass[i].Is(s.classes[i]) {
        assert old(slabclass[i].Is(s.classes[i]));
      }
    }

    /** do_slabs_alloc */
    method DoSlabsAlloc(size: nat, id: nat, mal: Malloc) returns (ret: HashItem?, ghost g: Grant)
      requires Valid() && (1 <= id < |st.classes| ==> PlaceOk(st, id, mal.base))
      modifies this`memMalloced, this`st, this`repr, repr
      ensures Valid() && fresh(repr - old(repr))
      ensures 1 <= id < |st.classes| ==> GrantOk(old(st), id, g) && AnsweredBy(old(st), id, mal, g)
      ensures (st, if ret == null then None else Some(ret)) == Alloc(old(st), size, id, g)
      ensures g.NewPage? ==>
        && 1 <= id < |old(st).classes| && NewChunks(g.page.chunks, old(st).classes[id].size)
        && forall p <- g.page.chunks :: fresh(p) && p !in repr
      ensures ret != null <==>
        && 1 <= id <= old(powerLargest)
        && (old(slabclass[id].slCurr) != 0 || old(slabclass[id].endPagePtr) != null
            || ((old(slabclass[id].slabs) != old(slabclass[id].listSize) || mal.listOk) && mal.pageOk
                && (old(memLimit) == 0
                    || old(memMalloced) + old(slabclass[id].size * slabclass[id].perslab) <= old(memLimit)
                    || old(slabclass[id].slabs) == 0)))
      ensures ret != null ==>
        if old(slabclass[id].slCurr) != 0 then ret == old(slabclass[id].slots[slabclass[id].slCurr - 1])
        else if old(slabclass[id].endPagePtr) != null then ret == old(slabclass[id].endPagePtr)
        else ret.address == mal.base
    {
      hide SlabInv, ClassInv, GrantOk, PlaceOk, NewSlab, SlabClassT.Is, NewChunks, TakeFrom;
      ret, g := null, NoList;
      if id < POWER_SMALLEST || id > powerLargest {
        return;
      }
      var p := slabclass[id];
      assert p.Is(st.classes[id]);
      p.IsChunks(st.classes[id]);
      RecordIs(id);
      NoGrant(st, id, NoList);
      if p.endPagePtr == null && p.slCurr == 0 {
        var ok;
        ok, g := DoSlabsNewslab(id, mal);
        if !ok {
          return;
        }
        ClassOf(old(st), id);
        NewSlabKeeps(old(st), id, g);
        FirstOfPage(old(st), id, g);
      }
      TakenIs(st.classes[id], size);
      ret := TakeChunk(size, id);
    }

    /** The part that hands out a chunk. */
    method TakeChunk(size: nat, id: nat) returns (ret: HashItem)
      requires Valid() && 1 <= id < |st.classes| && HasChunk(st.classes[id])
      modifies this`st, this`repr, slabclass[id]
      ensures Valid() && repr == old(repr)
      ensures st == old(st).(classes := old(st).classes[id := TakeFrom(old(st).classes[id], size).0])
      ensures ret == TakeFrom(old(st).classes[id], size).1
    {
      hide SlabInv, ClassInv, GrantOk, HasChunk, TakeFrom, SlabClassT.Is, Distinct;
      var p := slabclass[id];
      ghost var k, s := st.classes[id], st;
      assert p.Is(k);
      ClassOf(s, id);
      ret := p.Take(size, k);
      TakeKeeps(k, size);
      TakeSizes(k, size);
      SamePages(s, id, TakeFrom(k, size).0);
      ghost var s' := s.(classes := s.classes[id := TakeFrom(k, size).0]);
      forall i | 0 <= i < |s'.classes| ensures slabclass[i].Is(s'.classes[i]) {
        if i != id {
          assert old(slabclass[i].Is(s.classes[i]));
        }
      }
      SizesSame(s, s', id);
      Adopt(id, s');
    }

    /** do_slabs_free */
    method DoSlabsFree(ptr: HashItem, size: nat, id: nat, grow: bool)
      requires Valid() && (1 <= id < |st.classes| ==> ptr in Out(st.classes[id]) && st.classes[id].charges[ptr] == size)
      modifies this`st, this`repr, repr
      ensures Valid() && fresh(repr - old(repr)) && st == Free(old(st), ptr, size, id, grow)
      ensures 1 <= id <= powerLargest ==>
        var lost := old(slabclass[id].slCurr) == old(slabclass[id].slTotal) && !grow;
        && slabclass[id].slCurr == old(slabclass[id].slCurr) + (if lost then 0 else 1)
        && slabclass[id].requested == old(slabclass[id].requested) - (if lost then 0 else size)
        && (!lost ==> slabclass[id].slCurr <= slabclass[id].slots.Length
                      && slabclass[id].slots[slabclass[id].slCurr - 1] == ptr)
    {
      hide SlabInv, ClassInv, GrantOk, HasChunk, GiveTo, SlabClassT.Is, Out;
      if id < POWER_SMALLEST || id > powerLargest {
        return;
      }
      var p := slabclass[id];
      ghost var k, s := st.classes[id], st;
      assert p.Is(k);
      p.PutBack(ptr, size, grow, k);
      FreeKeeps(s, ptr, size, id, grow);
      ghost var s' := Free(s, ptr, size, id, grow);
      forall i | 0 <= i < |s'.classes| ensures slabclass[i].Is(s'.classes[i]) {
        if i != id {
          assert old(slabclass[i].Is(s.classes[i]));
        }
      }
      SizesSame(s, s', id);
      Adopt(id, s');
    }

    /** slabs_clsid */
    method SlabsClsid(size: nat) returns (res: nat)
      requires Valid()
      ensures |st.classes| >= 2 && res == ClassFor(ClassSizes(st), size) && res <= powerLargest
      ensures res == 0 <==> size == 0 || size > slabclass[powerLargest].size
      ensures res != 0 ==> size <= slabclass[res].size && forall i :: 1 <= i < res ==> slabclass[i].size < size
    {
      hide SlabInv;
      res := POWER_SMALLEST;
      AtLeastTwoClasses(st);
      ghost var table := ClassSizes(st);
      forall i | 0 <= i < |table| ensures slabclass[i].size == table[i] {
        assert slabclass[i].Is(st.classes[i]);
      }
      hide SlabClassT.Is;
      if size == 0 || size > slabclass[powerLargest].size {
        return 0;
      }
      while size > slabclass[res].size
        invariant 1 <= res <= powerLargest && FirstFit(table, size, res) == FirstFit(table, size, POWER_SMALLEST)
        invariant forall i :: 1 <= i < res ==> slabclass[i].size < size
        decreases powerLargest - res
      {
        res := res + 1;
      }
    }
  }

  /** One turn of the loop that fills the table. */
  lemma SizesNext(i: nat, size: nat, max: nat)
    requires 48 <= size
    ensures if i < POWER_LARGEST && 5 * size <= 4 * max then
        Sizes(i, size, max) == [Align(size)] + Sizes(i + 1, Align(size) * 5 / 4, max) && Align(size) >= size
        && Align(size) ==
             if size % CHUNK_ALIGN_BYTES != 0 then size + (CHUNK_ALIGN_BYTES - size % CHUNK_ALIGN_BYTES) else size
      else Sizes(i, size, max) == []
  {
  }

  lemma PerslabIs(max: nat, size: nat)
    requires size > 0
    ensures PerslabFor(max, size) == max / size
  {
  }

  lemma InitialSizes(chunkSize: nat, max: nat, memLimit: nat)
    ensures ClassSizes(Initial(chunkSize, max, memLimit)) == Table(chunkSize, max)
  {
    hide Table, PerslabOf;
  }

  lemma SizesSame(s: Slabs, s': Slabs, id: nat)
    requires id < |s.classes| == |s'.classes| && s'.classes[id].size == s.classes[id].size
    requires forall i :: 0 <= i < |s.classes| && i != id ==> s'.classes[i] == s.classes[i]
    ensures ClassSizes(s') == ClassSizes(s)
  {
  }

  lemma AtLeastTwoClasses(s: Slabs)
    requires SlabInv(s)
    ensures |s.classes| >= 2
  {
    hide ClassInv, Separate, Memory;
  }

  lemma TakenIs(k: SlabClass, size: nat)
    requires HasChunk(k)
    ensures TakeFrom(k, size).1 == if k.slots != [] then k.slots[|k.slots| - 1] else k.tail[0]
  {
  }

  lemma FirstOfPage(s: Slabs, id: nat, g: Grant)
    requires 1 <= id < |s.classes| && !HasChunk(s.classes[id]) && GrantOk(s, id, g) && s.classes[id].perslab > 0
    requires NewSlab(s, id, g).1
    ensures g.NewPage? && var k := NewSlab(s, id, g).0.classes[id];
      k.slots == [] && k.tail != [] && k.tail[0].address == g.page.base
  {
  }

  lemma TakeSizes(k: SlabClass, size: nat)
    requires HasChunk(k)
    ensures TakeFrom(k, size).0.size == k.size && TakeFrom(k, size).0.perslab == k.perslab
  {
  }
}
