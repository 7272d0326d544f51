/**
  The table of chunk sizes (the constructor of SlabAllocator, src/cache/slabs.cpp, and slabs_clsid,
  src/cache/slabs.hpp).  The growth factor is the exact rational 5/4.
 */
module SizeClasses {
  import opened Items

  /** What the configuration must satisfy for the C arithmetic not to wrap: a page length is an
      `int`, and the first chunk size an `unsigned int`. */
  predicate ConfigOk(chunkSize: nat, itemSizeMax: nat) {
    HEADER + chunkSize < 0x1_0000_0000 && itemSizeMax < 0x8000_0000
  }

  function Align(size: nat): nat {
    if size % CHUNK_ALIGN_BYTES != 0 then size + (CHUNK_ALIGN_BYTES - size % CHUNK_ALIGN_BYTES) else size
  }

  /** The sizes of the classes i, i + 1, ... that the loop fills, given the size it has reached. */
  function Sizes(i: nat, size: nat, max: nat): seq<nat>
    decreases POWER_LARGEST - i
  {
    if i < POWER_LARGEST && 5 * size <= 4 * max then
      [Align(size)] + Sizes(i + 1, Align(size) * 5 / 4, max)
    else []
  }

  /** The whole table: class 0 is unused, the last class holds one item of the maximal size. */
  function Table(chunkSize: nat, max: nat): seq<nat> {
    [0] + Sizes(POWER_SMALLEST, HEADER + chunkSize, max) + [max]
  }

  // ---------------------------------------------------------------- the table is well formed

  lemma {:induction false} SizesFacts(i: nat, size: nat, max: nat)
    requires 48 <= size
    ensures var s := Sizes(i, size, max);
      && (forall k :: 0 <= k < |s| ==> size <= s[k] < max && s[k] % CHUNK_ALIGN_BYTES == 0)
      && (s != [] ==> s[0] == Align(size))
      && (s != [] && i + |s| < POWER_LARGEST ==> 5 * (s[|s| - 1] * 5 / 4) > 4 * max)
    decreases POWER_LARGEST - i
  {
    if i < POWER_LARGEST && 5 * size <= 4 * max {
      var a := Align(size);
      assert size <= a <= size + 7 && a % 8 == 0;
      SizesFacts(i + 1, a * 5 / 4, max);
    }
  }

  /** One class is at most 7 bytes more than 5/4 of the class before it, and at least 5/4 of it. */
  lemma {:induction false} SizesStep(i: nat, size: nat, max: nat, k: nat)
    requires 48 <= size && k + 1 < |Sizes(i, size, max)|
    ensures var s := Sizes(i, size, max); s[k] * 5 / 4 <= s[k + 1] <= s[k] * 5 / 4 + 7
    decreases k
  {
    SizesFacts(i, size, max);
    var next := Align(size) * 5 / 4;
    if k > 0 {
      SizesStep(i + 1, next, max, k - 1);
    } else {
      SizesFacts(i + 1, next, max);
    }
  }

  lemma {:induction false} SizesIncrease(i: nat, size: nat, max: nat, j: nat, k: nat)
    requires 48 <= size && j < k < |Sizes(i, size, max)|
    ensures Sizes(i, size, max)[j] < Sizes(i, size, max)[k]
    decreases k
  {
    SizesFacts(i, size, max);
    SizesStep(i, size, max, k - 1);
    if j < k - 1 {
      SizesIncrease(i, size, max, j, k - 1);
    }
  }

  /** Sizes strictly increase from class to class, and every class but the last is a multiple of 8. */
  lemma TableIncreases(chunkSize: nat, max: nat, j: nat, k: nat)
    requires 0 < max && j < k < |Table(chunkSize, max)|
    ensures Table(chunkSize, max)[j] < Table(chunkSize, max)[k]
    ensures k < |Table(chunkSize, max)| - 1 ==> Table(chunkSize, max)[k] % CHUNK_ALIGN_BYTES == 0
  {
    hide Align, Sizes, Table;
    var s := Sizes(POWER_SMALLEST, HEADER + chunkSize, max);
    var t := Table(chunkSize, max);
    TableAt(chunkSize, max);
    SizesFacts(POWER_SMALLEST, HEADER + chunkSize, max);
    if 0 < j && k <= |s| {
      SizesIncrease(POWER_SMALLEST, HEADER + chunkSize, max, j - 1, k - 1);
    }
  }

  lemma TableAt(chunkSize: nat, max: nat)
    ensures var t := Table(chunkSize, max); var s := Sizes(POWER_SMALLEST, HEADER + chunkSize, max);
      && |t| == |s| + 2 && t[0] == 0 && t[|s| + 1] == max
      && forall k :: 1 <= k <= |s| ==> t[k] == s[k - 1]
  {
    hide Sizes;
  }

  /** `perslab`: how many items a page of a class holds. */
  function Perslab(max: nat, size: nat): nat
    requires 0 < size
  {
    max / size
  }

  /** Every page holds at least one item. */
  lemma PerslabPositive(chunkSize: nat, max: nat, id: nat)
    requires 0 < max && 0 < id < |Table(chunkSize, max)|
    ensures 0 < Table(chunkSize, max)[id] <= max
    ensures Perslab(max, Table(chunkSize, max)[id]) >= 1
  {
    hide Perslab;
    var size := Table(chunkSize, max)[id];
    TableIncreases(chunkSize, max, 0, id);
    if id < |Table(chunkSize, max)| - 1 {
      TableIncreases(chunkSize, max, id, |Table(chunkSize, max)| - 1);
    }
    AtLeastOne(max, size);
  }

  lemma AtLeastOne(max: nat, size: nat)
    requires 0 < size <= max
    ensures Perslab(max, size) >= 1 && size * Perslab(max, size) <= max
  {
  }

  lemma FourSteps(a: nat, b: nat, c: nat, d: nat, e: nat)
    requires 48 <= a && a * 5 / 4 <= b && b * 5 / 4 <= c && c * 5 / 4 <= d && d * 5 / 4 <= e
    ensures 2 * a <= e
  {
  }

  /** Four steps of the loop more than double the size. */
  lemma {:induction false} SizesGrow(i: nat, size: nat, max: nat, n: nat)
    requires 48 <= size && 4 * n < |Sizes(i, size, max)|
    ensures Sizes(i, size, max)[4 * n] >= 48 * Pow2(n)
    decreases n
  {
    var s := Sizes(i, size, max);
    SizesFacts(i, size, max);
    if n > 0 {
      SizesGrow(i, size, max, n - 1);
      var m := 4 * (n - 1);
      SizesStep(i, size, max, m); SizesStep(i, size, max, m + 1);
      SizesStep(i, size, max, m + 2); SizesStep(i, size, max, m + 3);
      FourSteps(s[m], s[m + 1], s[m + 2], s[m + 3], s[m + 4]);
    }
  }

  /** The loop always ends by size, and the class numbers stay below the 200 queues of the LRU lists. */
  lemma PowerLargestFits(chunkSize: nat, max: nat)
    requires ConfigOk(chunkSize, max)
    ensures |Table(chunkSize, max)| - 1 < 200 == POWER_LARGEST
  {
    var size := HEADER + chunkSize;
    var s := Sizes(POWER_SMALLEST, size, max);
    SizesFacts(POWER_SMALLEST, size, max);
    if |s| > 104 {
      SizesGrow(POWER_SMALLEST, size, max, 26);
      Pow2Of26();
      assert false;
    }
  }

  lemma Pow2Of26()
    ensures Pow2(26) == 0x400_0000
  {
    assert Pow2(10) == 0x400;
    assert Pow2(18) == 0x4_0000;
  }

  /** Each size is that of the class before times 5/4, in whole bytes and rounded up to a multiple of 8. */
  lemma {:induction false} SizesExactly(i: nat, size: nat, max: nat, k: nat)
    requires 48 <= size && k < |Sizes(i, size, max)|
    ensures var s := Sizes(i, size, max);
      if k == 0 then s[0] == (size + 7) / 8 * 8 && 5 * size <= 4 * max
      else s[k] == (s[k - 1] * 5 / 4 + 7) / 8 * 8 && 5 * (s[k - 1] * 5 / 4) <= 4 * max
    decreases k
  {
    if k > 0 {
      SizesExactly(i + 1, Align(size) * 5 / 4, max, k - 1);
    }
  }

  lemma TableEnds(i: nat, size: nat, max: nat)
    requires i < POWER_LARGEST && Sizes(i, size, max) == []
    ensures 5 * size > 4 * max
  {
  }

  /** The table, entry by entry: it starts at 48 bytes for the header and those for the smallest item, and
      goes on as long as a size is at most 4/5 of the maximum. */
  lemma TableExactly(chunkSize: nat, max: nat, k: nat)
    requires ConfigOk(chunkSize, max) && k < |Table(chunkSize, max)|
    ensures var t := Table(chunkSize, max);
      if k == 0 then t[k] == 0
      else if k == |t| - 1 then
        t[k] == max && 5 * (if k == 1 then 48 + chunkSize else t[k - 1] * 5 / 4) > 4 * max
      else if k == 1 then t[k] == (48 + chunkSize + 7) / 8 * 8 && 5 * (48 + chunkSize) <= 4 * max
      else t[k] == (t[k - 1] * 5 / 4 + 7) / 8 * 8 && 5 * (t[k - 1] * 5 / 4) <= 4 * max
  {
    hide Table, Sizes;
    PowerLargestFits(chunkSize, max);
    TableAt(chunkSize, max);
    if Sizes(1, 48 + chunkSize, max) == [] {
      TableEnds(1, 48 + chunkSize, max);
    }
    SizesFacts(1, 48 + chunkSize, max);
    if 1 <= k < |Table(chunkSize, max)| - 1 {
      SizesExactly(1, 48 + chunkSize, max, k - 1);
    }
  }

  // ---------------------------------------------------------------- choosing a class

  /** slabs_clsid: 0 when the size is 0 or too large, else the first class that is large enough. */
  function ClassFor(table: seq<nat>, size: nat): (id: nat)
    requires |table| >= 2
    ensures id < |table|
  {
    if size == 0 || size > table[|table| - 1] then 0 else FirstFit(table, size, POWER_SMALLEST)
  }

  function FirstFit(table: seq<nat>, size: nat, res: nat): (id: nat)
    requires res < |table| && size <= table[|table| - 1]
    ensures id < |table|
    decreases |table| - res
  {
    if size > table[res] then FirstFit(table, size, res + 1) else res
  }

  lemma {:induction false} FirstFitIsLeast(table: seq<nat>, size: nat, res: nat)
    requires res < |table| && size <= table[|table| - 1]
    ensures res <= FirstFit(table, size, res) < |table|
    ensures size <= table[FirstFit(table, size, res)]
    ensures forall i :: res <= i < FirstFit(table, size, res) ==> table[i] < size
    decreases |table| - res
  {
    if size > table[res] {
      FirstFitIsLeast(table, size, res + 1);
    }
  }

  /** slabs_clsid returns the least class that can hold the request, for any table. */
  lemma ClassForIsLeast(table: seq<nat>, size: nat)
    requires |table| >= 2
    ensures var id := ClassFor(table, size);
      && id < |table|
      && (id == 0 <==> size == 0 || size > table[|table| - 1])
      && (id != 0 ==> size <= table[id] && forall i :: POWER_SMALLEST <= i < id ==> table[i] < size)
  {
    if !(size == 0 || size > table[|table| - 1]) {
      FirstFitIsLeast(table, size, POWER_SMALLEST);
    }
  }

  /** How much a request of n bytes can be rounded up: above the smallest class at most to
      5/4 (n - 1) + 7 bytes, in the last class to under 25/16 of n - 1. */
  lemma WasteBound(chunkSize: nat, max: nat, n: nat)
    requires ConfigOk(chunkSize, max)
    requires POWER_SMALLEST < ClassFor(Table(chunkSize, max), n)
    ensures var table := Table(chunkSize, max); var id := ClassFor(table, n);
      if id < |table| - 1 then 4 * table[id] <= 5 * (n - 1) + 28 else 16 * table[id] < 25 * (n - 1)
  {
    hide Table, ClassFor, Sizes, Align;
    var table := Table(chunkSize, max);
    var id := ClassFor(table, n);
    ClassForIsLeast(table, n);
    assert table[id - 1] < n;
    TableExactly(chunkSize, max, id);
  }
}
