/** What each operation on an item does, field by field, in 32-bit time and with 16-bit counts. */
module CacheEffects {
  import opened Basics
  import opened SlabModel
  import opened CacheModel
  import opened CacheInv
  import Jenkins

  /** Keys are hashed with the initial value 0: the hash value of "a". */
  lemma HashAnswer()
    ensures Hash([0x61]) == 0x58d68708
  {
    hide Jenkins.Value;
    Jenkins.ShortAnswer();
  }

  /** The item's chunk is at the end of the free list of its class, or lost if that is full and cannot grow;
      nothing else in the allocator has changed but the class's counters. */
  ghost predicate GivenBack(s: Slabs, s': Slabs, p: Ptr, id: nat, grow: bool) {
    && |s'.classes| == |s.classes| && s'.memLimit == s.memLimit && s'.memMalloced == s.memMalloced
    && (forall i :: 0 <= i < |s.classes| && i != id ==> s'.classes[i] == s.classes[i])
    && (1 <= id < |s.classes| ==>
          var k, k' := s.classes[id], s'.classes[id];
          && k'.pages == k.pages && k'.tail == k.tail && k'.size == k.size && k'.perslab == k.perslab
          && if |k.slots| == k.slTotal && !grow then k'.slots == k.slots && p in k'.leaked
             else k'.slots == k.slots + [p] && k'.leaked == k.leaked)
  }

  lemma FreeExactly(s: Slabs, p: Ptr, size: nat, id: nat, grow: bool)
    requires id != 0
    ensures GivenBack(s, Free(s, p, size, id, grow), p, id, grow)
  {
  }

  /** A linked item leaves the table and its queue, in which the others stay in order.  If nobody holds it,
      it is freed: no class, marked as in the allocator.  An item that is not linked stays as it is. */
  lemma UnlinkExactly(c: Cache, p: Ptr, grow: bool, k: nat)
    requires Known(c, p) && c.items[p].clsid != 0
    requires var q := c.queues[c.items[p].clsid]; c.items[p].linked ==> Distinct(q) && k < |q| && q[k] == p
    ensures var d, it := Unlink(c, p, grow), c.items[p]; var q := c.queues[it.clsid];
      if !it.linked then d == c
      else
        && d.table == c.table - {p} && d.queues == c.queues[it.clsid := q[..k] + q[k + 1..]] && d.clock == c.clock
        && d.items == c.items[p := if it.refcount == 0 then it.(linked := false, clsid := 0, slabbed := true)
                                   else it.(linked := false)]
        && if it.refcount == 0 then GivenBack(c.slabs, d.slabs, p, it.clsid, grow) else d.slabs == c.slabs
  {
    hide Free, GivenBack;
    if c.items[p].linked {
      WithoutIs(c.queues[c.items[p].clsid], p, k);
      FreeExactly(c.slabs, p, c.items[p].Total(), c.items[p].clsid, grow);
    }
  }

  /** One reference less, if there is one; and the item is freed when there is none left and it is not
      linked. */
  lemma ReleaseExactly(c: Cache, p: Ptr, grow: bool)
    requires Known(c, p) && c.items[p].clsid != 0
    ensures var d, it := Release(c, p, grow), c.items[p]; var n := if it.refcount > 0 then it.refcount - 1 else 0;
      && d.table == c.table && d.queues == c.queues && d.clock == c.clock
      && if n == 0 && !it.linked then
           && d.items == c.items[p := it.(refcount := 0, clsid := 0, slabbed := true)]
           && GivenBack(c.slabs, d.slabs, p, it.clsid, grow)
         else d.items == c.items[p := it.(refcount := n)] && d.slabs == c.slabs
  {
    hide Free, GivenBack;
    FreeExactly(c.slabs, p, c.items[p].Total(), c.items[p].clsid, grow);
  }

  /** A linked item that was positioned more than 60 seconds ago is given the time and moved to the head of
      its queue; the subtraction wraps. */
  lemma UpdateExactly(c: Cache, p: Ptr, now: nat, k: nat)
    requires Known(c, p)
    requires var q := c.queues[c.items[p].clsid]; c.items[p].linked ==> Distinct(q) && k < |q| && q[k] == p
    ensures var d, it := Update(c, p, now), c.items[p]; var q := c.queues[it.clsid];
      && d.table == c.table && d.slabs == c.slabs && d.clock == now
      && if it.linked && it.time < (now - 60) % 0x1_0000_0000 then
           && d.items == c.items[p := it.(time := now)]
           && d.queues == c.queues[it.clsid := [p] + q[..k] + q[k + 1..]]
         else d.items == c.items && d.queues == c.queues
  {
    if c.items[p].linked {
      WithoutIs(c.queues[c.items[p].clsid], p, k);
      var q := c.queues[c.items[p].clsid];
      assert [p] + (q[..k] + q[k + 1..]) == [p] + q[..k] + q[k + 1..];
    }
  }

  /** The header of a new item: key length modulo 65536, one reference, neither linked nor in the allocator;
      time, hash value and the bytes behind the key are left over from what was in the chunk before. */
  lemma InitExactly(c: Cache, p: Ptr, id: nat, key: seq<byte>, nbytes: nat)
    requires p in c.items && |key| <= |c.items[p].payload|
    ensures var d, was := Init(c, p, id, key, nbytes), c.items[p]; var it := d.items[p];
      && d == c.(items := c.items[p := it])
      && it.nkey == |key| % 0x1_0000 && it.nbytes == nbytes && it.refcount == 1 && it.clsid == id
      && !it.linked && !it.slabbed && it.time == was.time && it.hv == was.hv
      && |it.payload| == |was.payload| && it.payload[..|key|] == key && it.payload[|key|..] == was.payload[|key|..]
  {
  }
}
