/** The cache's constants and the item record (src/cache/const_types.h). */
module Items {

  import opened Basics

  const POWER_SMALLEST: nat := 1
  const POWER_LARGEST: nat := 200
  const CHUNK_ALIGN_BYTES: nat := 8
  const TAIL_REPAIR_TIME: nat := 3 * 3600
  const ITEM_UPDATE_INTERVAL: nat := 60
  const SEARCH_ITEMS: nat := 50
  /** sizeof(hash_item): three pointers, three 32-bit, two 16-bit and two 8-bit fields, padded to 8. */
  const HEADER: nat := 48

  /** The values in an item's header, without its three pointers, and the bytes behind the header:
      the key, the data, and whatever an earlier item left there. */
  datatype Item = Item(
    payload: seq<byte>, nkey: nat, nbytes: nat, hv: nat, time: nat, refcount: nat,
    linked: bool, slabbed: bool, clsid: nat)
  {
    function Key(): seq<byte>
      requires nkey <= |payload|
    {
      payload[..nkey]
    }

    /** ITEM_ntotal */
    function Total(): nat { HEADER + nkey + nbytes }
  }

  /** A chunk of a slab page, used as a `hash_item`.  Its place in memory never changes. */
  class HashItem {
    const address: nat
    var next: HashItem?
    var prev: HashItem?
    var hNext: HashItem?
    var payload: seq<byte>
    var nkey: nat
    var nbytes: nat
    var hv: nat
    var time: nat
    var refcount: nat
    var linked: bool
    var slabbed: bool
    var clsid: nat

    /** A chunk of a page that has just been zeroed. */
    constructor (address: nat, room: nat)
      ensures this.address == address && Header() == Zeroed(room)
    {
      this.address := address;
      next, prev, hNext := null, null, null;
      payload := seq(room, _ => 0);
      nkey, nbytes, hv, time, refcount := 0, 0, 0, 0, 0;
      linked, slabbed, clsid := false, false, 0;
    }

    /** The header that do_item_alloc writes: the key's length is cut to 16 bits, and time, hash value
        and the bytes behind the key are whatever they were. */
    method Begin(id: nat, key: seq<byte>, nbytes: nat)
      modifies this
      ensures Header() ==
        Item(Overwrite(old(payload), key), |key| % 0x1_0000, nbytes, old(hv), old(time), 1, false, false, id)
      ensures next == null && prev == null && hNext == null
    {
      clsid := id;
      next, prev, hNext := null, null, null;
      refcount := 1;
      linked, slabbed := false, false;
      this.nkey := |key| % 0x1_0000;
      this.nbytes := nbytes;
      payload := Overwrite(payload, key);
    }

    ghost function Header(): Item
      reads this`payload, this`nkey, this`nbytes, this`hv, this`time, this`refcount
      reads this`linked, this`slabbed, this`clsid
    {
      Item(payload, nkey, nbytes, hv, time, refcount, linked, slabbed, clsid)
    }
  }

  /** memcpy to the start of a buffer. */
  function Overwrite(buffer: seq<byte>, bytes: seq<byte>): seq<byte> {
    bytes + if |bytes| <= |buffer| then buffer[|bytes|..] else []
  }

  function Zeroed(room: nat): (it: Item)
    ensures |it.payload| == room && forall i :: 0 <= i < room ==> it.payload[i] == 0
  {
    Item(seq(room, _ => 0), 0, 0, 0, 0, 0, false, false, 0)
  }

  /** hashsize(n) */
  function Pow2(n: nat): (p: nat)
    ensures p >= 1
  {
    if n == 0 then 1 else 2 * Pow2(n - 1)
  }

  /** memcmp of the first |key| bytes behind the header; the item's own key length is not looked at. */
  predicate Match(it: Item, hv: nat, key: seq<byte>) {
    it.hv == hv && |key| <= |it.payload| && it.payload[..|key|] == key
  }

  /** So the lengths of the keys are not compared, only bytes, and only as many as the searched key has. */
  lemma MatchBytes(it: Item, hv: nat, key: seq<byte>)
    ensures Match(it, hv, key) <==>
      it.hv == hv && |key| <= |it.payload| && forall i :: 0 <= i < |key| ==> it.payload[i] == key[i]
  {
    if |key| <= |it.payload| && forall i :: 0 <= i < |key| ==> it.payload[i] == key[i] {
      assert it.payload[..|key|] == key;
    }
  }
}
