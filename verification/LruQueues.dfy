/** Doubly linked queues, as sequences (item_link_q and item_unlink_q of src/cache/lru.cpp). */
module LruQueues {
  import opened Basics
  import opened Items
  import opened SlabModel
  import opened CacheModel
  import opened CacheInv

  function NextIn(q: seq<Ptr>, i: nat): HashItem? {
    if i + 1 < |q| then q[i + 1] else null
  }

  function PrevIn(q: seq<Ptr>, i: nat): HashItem?
    requires i <= |q|
  {
    if i > 0 then q[i - 1] else null
  }

  /** The list from head to tail is q, in both directions. */
  ghost predicate Dll(head: HashItem?, tail: HashItem?, q: seq<Ptr>)
    reads q`prev, q`next
  {
    && head == (if q == [] then null else q[0]) && tail == PrevIn(q, |q|)
    && forall i {:trigger q[i].next} {:trigger q[i].prev} :: 0 <= i < |q| ==>
      q[i].next == NextIn(q, i) && q[i].prev == PrevIn(q, i)
  }

  /** A new head. */
  lemma DllPush(head: HashItem?, tail: HashItem?, it: Ptr, q: seq<Ptr>)
    requires head == it && it.prev == null && it.next == NextIn([it] + q, 0)
    requires tail == PrevIn([it] + q, |q| + 1)
    requires forall i {:trigger q[i].next} {:trigger q[i].prev} :: 0 <= i < |q| ==>
      q[i].next == NextIn(q, i) && q[i].prev == if i == 0 then it else q[i - 1]
    ensures Dll(head, tail, [it] + q)
  {
    var w := [it] + q;
    forall i | 0 <= i < |w| ensures w[i].next == NextIn(w, i) && w[i].prev == PrevIn(w, i) {
      if i > 0 {
        assert w[i] == q[i - 1];
      }
    }
  }

  /** Leaping over q[k] in both directions takes it out. */
  lemma DllCut(head: HashItem?, tail: HashItem?, q: seq<Ptr>, k: nat)
    requires k < |q|
    requires head == (if k == 0 then NextIn(q, 0) else q[0])
    requires tail == (if k == |q| - 1 then PrevIn(q, k) else q[|q| - 1])
    requires forall i {:trigger q[i].next} {:trigger q[i].prev} :: 0 <= i < |q| && i != k ==>
      && q[i].next == (if i + 1 == k then NextIn(q, k) else NextIn(q, i))
      && q[i].prev == (if i == k + 1 then PrevIn(q, k) else PrevIn(q, i))
    ensures Dll(head, tail, q[..k] + q[k + 1..])
  {
    var w := q[..k] + q[k + 1..];
    forall i | 0 <= i < |w| ensures w[i].next == NextIn(w, i) && w[i].prev == PrevIn(w, i) {
      assert w[i] == if i < k then q[i] else q[i + 1];
    }
  }

  /** The items of all queues. */
  ghost function All(qs: seq<seq<Ptr>>): set<Ptr> {
    set i, p | 0 <= i < |qs| && p in qs[i] :: p
  }

  lemma AllHas(qs: seq<seq<Ptr>>)
    ensures forall i :: 0 <= i < |qs| ==> forall x <- qs[i] :: x in All(qs)
    ensures forall i, k :: 0 <= i < |qs| && 0 <= k < |qs[i]| ==> qs[i][k] in All(qs)
  {
    forall i, k | 0 <= i < |qs| && 0 <= k < |qs[i]| ensures qs[i][k] in All(qs) {
      assert qs[i][k] in qs[i];
    }
  }

  /** No item is in two queues, or twice in one. */
  ghost predicate Disjoint(qs: seq<seq<Ptr>>) {
    && (forall i :: 0 <= i < |qs| ==> Distinct(qs[i]))
    && (forall i, j, p :: 0 <= i < |qs| && 0 <= j < |qs| && p in qs[i] && p in qs[j] ==> i == j)
  }

  lemma MembersDisjoint(c: Cache)
    requires Members(c)
    ensures Disjoint(c.queues) && |c.queues| == POWER_LARGEST && All(c.queues) == c.table
  {
    hide Distinct;
    forall i, j, p: Ptr | 0 <= i < |c.queues| && 0 <= j < |c.queues| && p in c.queues[i] && p in c.queues[j]
      ensures i == j
    {
      assert c.items[p].clsid == i && c.items[p].clsid == j;
    }
    forall p | p in c.table ensures p in All(c.queues) {
      assert p in c.queues[c.items[p].clsid];
    }
  }

  lemma DisjointPush(qs: seq<seq<Ptr>>, id: nat, it: Ptr)
    requires Disjoint(qs) && id < |qs| && it !in All(qs)
    ensures Disjoint(qs[id := [it] + qs[id]])
  {
    var qs' := qs[id := [it] + qs[id]];
    AllHas(qs);
    forall i, j, p: Ptr | 0 <= i < |qs'| && 0 <= j < |qs'| && p in qs'[i] && p in qs'[j] ensures i == j {
      assert p == it || (p in qs[i] && p in qs[j]);
    }
  }

  lemma DisjointCut(qs: seq<seq<Ptr>>, id: nat, it: Ptr)
    requires Disjoint(qs) && id < |qs| && it in qs[id]
    ensures Disjoint(qs[id := Without(qs[id], it)]) && All(qs[id := Without(qs[id], it)]) == All(qs) - {it}
  {
    WithoutElems(qs[id], it, Without(qs[id], it));
    hide Without;
    var qs' := qs[id := Without(qs[id], it)];
    hide Distinct;
    forall p ensures p in All(qs') <==> p in All(qs) && p != it {
      if p in All(qs) && p != it {
        var i :| 0 <= i < |qs| && p in qs[i];
        assert p in qs'[i];
      }
      if p in All(qs') {
        var i :| 0 <= i < |qs'| && p in qs'[i];
        assert p in qs[i];
      }
    }
  }

  lemma DllIs(head: HashItem?, tail: HashItem?, q: seq<Ptr>)
    requires Dll(head, tail, q)
    ensures head == (if q == [] then null else q[0]) && tail == PrevIn(q, |q|)
    ensures forall i {:trigger q[i].next} {:trigger q[i].prev} ::
      0 <= i < |q| ==> q[i].next == NextIn(q, i) && q[i].prev == PrevIn(q, i)
  {
  }
}
