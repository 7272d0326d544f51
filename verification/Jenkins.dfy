/**
  Bob Jenkins' lookup hash as the cache uses it (src/cache/hash.h, src/cache/hash.c, little-endian half).

  Value is the reference definition: the key, zero-padded to whole 12-byte blocks, is absorbed
  block by block.  The three read paths of the source (32-bit, 16-bit and 8-bit loads) are loops
  that are proved to compute Value, and the mixing steps are proved to be bijections.
 */
module Jenkins {

  import opened Basics

  /** The internal state: three 32-bit words. */
  datatype Abc = Abc(a: bv32, b: bv32, c: bv32)

  // The three word operations of the source, with wrap-around.  They are named so that a proof
  // can hide them and use only the laws below.
  function Plus(x: bv32, y: bv32): bv32 { x + y }
  function Minus(x: bv32, y: bv32): bv32 { x - y }
  function Xor(x: bv32, y: bv32): bv32 { x ^ y }

  function Rot(x: bv32, k: nat): bv32
    requires 0 < k < 32
  {
    (x << k) ^ (x >> (32 - k))
  }

  /** It is a rotation, by each of the amounts that the macros use. */
  lemma RotIsRotation(x: bv32)
    ensures Rot(x, 4) == x.RotateLeft(4) && Rot(x, 6) == x.RotateLeft(6) && Rot(x, 8) == x.RotateLeft(8)
    ensures Rot(x, 11) == x.RotateLeft(11) && Rot(x, 14) == x.RotateLeft(14) && Rot(x, 16) == x.RotateLeft(16)
    ensures Rot(x, 19) == x.RotateLeft(19) && Rot(x, 24) == x.RotateLeft(24) && Rot(x, 25) == x.RotateLeft(25)
  {
  }

  lemma PlusMinus(x: bv32, y: bv32)
    ensures Minus(Plus(x, y), y) == x
    ensures Plus(Minus(x, y), y) == x
    ensures Minus(Plus(x, y), x) == y
  {
    assert Minus(x + y, y) == x;
    assert Minus(x + y, x) == y;
    assert Plus(x - y, y) == x;
  }

  lemma XorXor(x: bv32, y: bv32)
    ensures Xor(Xor(x, y), y) == x
  {
    assert Xor(x ^ y, y) == x;
  }

  lemma PlusInjective(x: bv32, y: bv32, z: bv32)
    requires Plus(x, y) == Plus(x, z)
    ensures y == z
  {
    hide Plus, Minus;
    PlusMinus(x, y);
    PlusMinus(x, z);
  }

  // ---------------------------------------------------------------- mixing

  /** One line of `mix`, seen as acting on (target, added, rotated); the result is already
      rearranged so that the next line acts on it in the same way. */
  function MixRound(s: Abc, k: nat): Abc
    requires 0 < k < 32
  {
    Abc(s.b, Plus(s.c, s.b), Xor(Minus(s.a, s.c), Rot(s.c, k)))
  }

  function UnmixRound(t: Abc, k: nat): Abc
    requires 0 < k < 32
  {
    var z := Minus(t.b, t.a);
    Abc(Plus(Xor(t.c, Rot(z, k)), z), t.a, z)
  }

  function Mix(s: Abc): Abc {
    MixRound(MixRound(MixRound(MixRound(MixRound(MixRound(s, 4), 6), 8), 16), 19), 4)
  }

  function Unmix(s: Abc): Abc {
    UnmixRound(UnmixRound(UnmixRound(UnmixRound(UnmixRound(UnmixRound(s, 4), 19), 16), 8), 6), 4)
  }

  /** One line of `finalmix`, seen as acting on (target, source, next target). */
  function FinalRound(s: Abc, k: nat): Abc
    requires 0 < k < 32
  {
    Abc(s.c, Minus(Xor(s.a, s.b), Rot(s.b, k)), s.b)
  }

  function UnfinalRound(t: Abc, k: nat): Abc
    requires 0 < k < 32
  {
    Abc(Xor(Plus(t.b, Rot(t.c, k)), t.c), t.c, t.a)
  }

  function FinalRounds(s: Abc): Abc {
    FinalRound(FinalRound(FinalRound(FinalRound(FinalRound(FinalRound(FinalRound(s,
      14), 11), 25), 16), 4), 14), 24)
  }

  function UnfinalRounds(s: Abc): Abc {
    UnfinalRound(UnfinalRound(UnfinalRound(UnfinalRound(UnfinalRound(UnfinalRound(UnfinalRound(s,
      24), 14), 4), 16), 25), 11), 14)
  }

  /** The first line of `finalmix` works on (c, b, a); the seventh leaves (a, c, b). */
  function Final(s: Abc): Abc {
    var t := FinalRounds(Abc(s.c, s.b, s.a));
    Abc(t.a, t.c, t.b)
  }

  function Unfinal(s: Abc): Abc {
    var t := UnfinalRounds(Abc(s.a, s.c, s.b));
    Abc(t.c, t.b, t.a)
  }

  lemma RoundsInvertible(s: Abc, k: nat)
    requires 0 < k < 32
    ensures UnmixRound(MixRound(s, k), k) == s
    ensures MixRound(UnmixRound(s, k), k) == s
    ensures UnfinalRound(FinalRound(s, k), k) == s
    ensures FinalRound(UnfinalRound(s, k), k) == s
  {
    hide Plus, Minus, Xor, Rot;
    // mix
    PlusMinus(s.c, s.b);
    XorXor(Minus(s.a, s.c), Rot(s.c, k));
    PlusMinus(s.a, s.c);
    var z := Minus(s.b, s.a);
    PlusMinus(s.b, s.a);
    PlusMinus(Xor(s.c, Rot(z, k)), z);
    XorXor(s.c, Rot(z, k));
    // finalmix
    PlusMinus(Xor(s.a, s.b), Rot(s.b, k));
    XorXor(s.a, s.b);
    PlusMinus(s.b, Rot(s.c, k));
    XorXor(Plus(s.b, Rot(s.c, k)), s.c);
  }

  /** `mix` is reversible, as its header claims: Unmix is its two-sided inverse. */
  lemma MixBijective(s: Abc)
    ensures Unmix(Mix(s)) == s
    ensures Mix(Unmix(s)) == s
  {
    hide MixRound, UnmixRound, FinalRound, UnfinalRound;
    var m1 := MixRound(s, 4); var m2 := MixRound(m1, 6); var m3 := MixRound(m2, 8);
    var m4 := MixRound(m3, 16); var m5 := MixRound(m4, 19);
    RoundsInvertible(s, 4); RoundsInvertible(m1, 6); RoundsInvertible(m2, 8);
    RoundsInvertible(m3, 16); RoundsInvertible(m4, 19); RoundsInvertible(m5, 4);
    var u1 := UnmixRound(s, 4); var u2 := UnmixRound(u1, 19); var u3 := UnmixRound(u2, 16);
    var u4 := UnmixRound(u3, 8); var u5 := UnmixRound(u4, 6);
    RoundsInvertible(u1, 19); RoundsInvertible(u2, 16);
    RoundsInvertible(u3, 8); RoundsInvertible(u4, 6); RoundsInvertible(u5, 4);
  }

  /** So is `finalmix`. */
  lemma FinalBijective(s: Abc)
    ensures Unfinal(Final(s)) == s
    ensures Final(Unfinal(s)) == s
  {
    hide FinalRounds, UnfinalRounds;
    FinalRoundsBijective(Abc(s.c, s.b, s.a));
    FinalRoundsBijective(Abc(s.a, s.c, s.b));
  }

  lemma FinalRoundsBijective(s: Abc)
    ensures UnfinalRounds(FinalRounds(s)) == s
    ensures FinalRounds(UnfinalRounds(s)) == s
  {
    hide MixRound, UnmixRound, FinalRound, UnfinalRound;
    var m1 := FinalRound(s, 14); var m2 := FinalRound(m1, 11); var m3 := FinalRound(m2, 25);
    var m4 := FinalRound(m3, 16); var m5 := FinalRound(m4, 4); var m6 := FinalRound(m5, 14);
    RoundsInvertible(s, 14); RoundsInvertible(m1, 11); RoundsInvertible(m2, 25); RoundsInvertible(m3, 16);
    RoundsInvertible(m4, 4); RoundsInvertible(m5, 14); RoundsInvertible(m6, 24);
    var u1 := UnfinalRound(s, 24); var u2 := UnfinalRound(u1, 14); var u3 := UnfinalRound(u2, 4);
    var u4 := UnfinalRound(u3, 16); var u5 := UnfinalRound(u4, 25); var u6 := UnfinalRound(u5, 11);
    RoundsInvertible(s, 24); RoundsInvertible(u1, 14); RoundsInvertible(u2, 4); RoundsInvertible(u3, 16);
    RoundsInvertible(u4, 25); RoundsInvertible(u5, 11); RoundsInvertible(u6, 14);
  }

  // ---------------------------------------------------------------- reference definition

  /** The key, seen as followed by zero bytes. */
  function At(key: seq<byte>, i: nat): byte {
    if i < |key| then key[i] else 0
  }

  /** The little-endian 32-bit number formed by four bytes. */
  function Le(b0: byte, b1: byte, b2: byte, b3: byte): bv32 {
    (b0 as bv32) | ((b1 as bv32) << 8) | ((b2 as bv32) << 16) | ((b3 as bv32) << 24)
  }

  function Word(key: seq<byte>, i: nat): bv32 {
    Le(At(key, i), At(key, i + 1), At(key, i + 2), At(key, i + 3))
  }

  function Absorb(s: Abc, key: seq<byte>): Abc {
    Abc(Plus(s.a, Word(key, 0)), Plus(s.b, Word(key, 4)), Plus(s.c, Word(key, 8)))
  }

  function Triple(key: seq<byte>, s: Abc): Abc {
    if |key| == 0 then s
    else if |key| <= 12 then Final(Absorb(s, key))
    else Triple(key[12..], Mix(Absorb(s, key)))
  }

  function Seed(length: nat, initval: bv32): Abc {
    var x := Plus(Plus(0xdeadbeef, (length % 0x1_0000_0000) as bv32), initval);
    Abc(x, x, x)
  }

  function Value(key: seq<byte>, initval: bv32): bv32 {
    Triple(key, Seed(|key|, initval)).c
  }

  // ---------------------------------------------------------------- known answers

  /** The hash of the empty key is the initial state, in which the initial value counts. */
  lemma EmptyAnswers()
    ensures Value([], 0) == 0xdeadbeef && Value([], 0xdeadbeef) == 0xbd5b7dde
  {
  }

  /** "a": one block, which is not full. */
  lemma ShortAnswer()
    ensures Value([0x61], 0) == 0x58d68708
  {
    hide Final, Absorb, Seed;
    SeedAnswers();
    ShortBlock();
    FinalAnswer();
  }

  lemma SeedAnswers()
    ensures Seed(1, 0) == Abc(0xdeadbef0, 0xdeadbef0, 0xdeadbef0)
    ensures Seed(30, 0) == Abc(0xdeadbf0d, 0xdeadbf0d, 0xdeadbf0d)
  {
  }

  lemma ShortBlock()
    ensures Absorb(Abc(0xdeadbef0, 0xdeadbef0, 0xdeadbef0), [0x61]) == Abc(0xdeadbf51, 0xdeadbef0, 0xdeadbef0)
  {
  }

  lemma FinalAnswer()
    ensures Final(Abc(0xdeadbf51, 0xdeadbef0, 0xdeadbef0)).c == 0x58d68708
    ensures Final(Abc(0x948b5244, 0x059f95a9, 0xbd02ebd5)).c == 0x17770551
  {
  }

  /** "Four score and seven years ago": two blocks that are mixed, and a last one of six bytes. */
  lemma LongAnswer(key: seq<byte>)
    requires key == [0x46, 0x6f, 0x75, 0x72, 0x20, 0x73, 0x63, 0x6f, 0x72, 0x65, 0x20, 0x61,
                     0x6e, 0x64, 0x20, 0x73, 0x65, 0x76, 0x65, 0x6e, 0x20, 0x79, 0x65, 0x61,
                     0x72, 0x73, 0x20, 0x61, 0x67, 0x6f]
    ensures Value(key, 0) == 0x17770551
  {
    hide Mix, MixRound, Final, Absorb, Triple, Seed;
    var k1: seq<byte> := [0x46, 0x6f, 0x75, 0x72, 0x20, 0x73, 0x63, 0x6f, 0x72, 0x65, 0x20, 0x61];
    var k2: seq<byte> := [0x6e, 0x64, 0x20, 0x73, 0x65, 0x76, 0x65, 0x6e, 0x20, 0x79, 0x65, 0x61];
    var k3: seq<byte> := [0x72, 0x73, 0x20, 0x61, 0x67, 0x6f];
    assert key == k1 + (k2 + k3);
    SeedAnswers();
    FirstBlock(); SecondBlock(); ThirdBlock();
    FirstRounds(); SixRounds(Abc(0x51232e53, 0x4e11322d, 0x3fce247f));
    SecondRounds(); SixRounds(Abc(0x6b7a11e8, 0x7321ce13, 0xa243569e));
    FinalAnswer();
    TripleFirst(k1, k2 + k3, Abc(0xdeadbf0d, 0xdeadbf0d, 0xdeadbf0d));
    TripleFirst(k2, k3, Abc(0xf859ad7a, 0x04bc57ae, 0x40dddd7e));
    TripleLast(k3, Abc(0x336aded2, 0x059f2642, 0xbd02ebd5));
  }

  lemma TripleFirst(block: seq<byte>, rest: seq<byte>, s: Abc)
    requires |block| == 12 && rest != []
    ensures Triple(block + rest, s) == Triple(rest, Mix(Absorb(s, block)))
  {
    hide Mix, Final, Absorb;
    AbsorbFirst(block, rest, s);
    assert (block + rest)[12..] == rest;
  }

  lemma TripleLast(block: seq<byte>, s: Abc)
    requires 0 < |block| <= 12
    ensures Triple(block, s) == Final(Absorb(s, block))
  {
  }

  lemma AbsorbFirst(block: seq<byte>, rest: seq<byte>, s: Abc)
    requires |block| == 12
    ensures Absorb(s, block + rest) == Absorb(s, block)
  {
    hide Plus, Le;
  }

  lemma FirstBlock()
    ensures Absorb(Abc(0xdeadbf0d, 0xdeadbf0d, 0xdeadbf0d),
                   [0x46, 0x6f, 0x75, 0x72, 0x20, 0x73, 0x63, 0x6f, 0x72, 0x65, 0x20, 0x61])
      == Abc(0x51232e53, 0x4e11322d, 0x3fce247f)
  {
  }

  lemma SecondBlock()
    ensures Absorb(Abc(0xf859ad7a, 0x04bc57ae, 0x40dddd7e),
                   [0x6e, 0x64, 0x20, 0x73, 0x65, 0x76, 0x65, 0x6e, 0x20, 0x79, 0x65, 0x61])
      == Abc(0x6b7a11e8, 0x7321ce13, 0xa243569e)
  {
  }

  lemma ThirdBlock()
    ensures Absorb(Abc(0x336aded2, 0x059f2642, 0xbd02ebd5), [0x72, 0x73, 0x20, 0x61, 0x67, 0x6f])
      == Abc(0x948b5244, 0x059f95a9, 0xbd02ebd5)
  {
  }

  /** The six lines of `mix` on the first block, and then on the second. */
  lemma FirstRounds()
    ensures MixRound(Abc(0x51232e53, 0x4e11322d, 0x3fce247f), 4) == Abc(0x4e11322d, 0x8ddf56ac, 0xedb74e27)
    ensures MixRound(Abc(0x4e11322d, 0x8ddf56ac, 0xedb74e27), 6) == Abc(0x8ddf56ac, 0x7b96a4d3, 0x0d8a6dfd)
    ensures MixRound(Abc(0x8ddf56ac, 0x7b96a4d3, 0x0d8a6dfd), 8) == Abc(0x7b96a4d3, 0x892112d0, 0x0a3915a2)
    ensures MixRound(Abc(0x7b96a4d3, 0x892112d0, 0x0a3915a2), 16) == Abc(0x892112d0, 0x935a2872, 0x64ff8508)
    ensures MixRound(Abc(0x892112d0, 0x935a2872, 0x64ff8508), 19) == Abc(0x935a2872, 0xf859ad7a, 0x0c62aa34)
    ensures MixRound(Abc(0x935a2872, 0xf859ad7a, 0x0c62aa34), 4) == Abc(0xf859ad7a, 0x04bc57ae, 0x40dddd7e)
  {
  }

  lemma SecondRounds()
    ensures MixRound(Abc(0x6b7a11e8, 0x7321ce13, 0xa243569e), 4) == Abc(0x7321ce13, 0x156524b1, 0xed03d2a0)
    ensures MixRound(Abc(0x7321ce13, 0x156524b1, 0xed03d2a0), 6) == Abc(0x156524b1, 0x0268f751, 0xc6e95348)
    ensures MixRound(Abc(0x156524b1, 0x0268f751, 0xc6e95348), 8) == Abc(0x0268f751, 0xc9524a99, 0xa72899af)
    ensures MixRound(Abc(0x0268f751, 0xc9524a99, 0xa72899af), 16) == Abc(0xc9524a99, 0x707ae448, 0xc2effa8a)
    ensures MixRound(Abc(0xc9524a99, 0x707ae448, 0xc2effa8a), 19) == Abc(0x707ae448, 0x336aded2, 0xd2344770)
    ensures MixRound(Abc(0x707ae448, 0x336aded2, 0xd2344770), 4) == Abc(0x336aded2, 0x059f2642, 0xbd02ebd5)
  {
  }

  /** What Mix is, for a proof in which it is hidden. */
  lemma SixRounds(s: Abc)
    ensures Mix(s) == MixRound(MixRound(MixRound(MixRound(MixRound(MixRound(s, 4), 6), 8), 16), 19), 4)
  {
    hide MixRound;
  }

  // ---------------------------------------------------------------- no information is lost inside

  function Unabsorb(s: Abc, key: seq<byte>): Abc {
    Abc(Minus(s.a, Word(key, 0)), Minus(s.b, Word(key, 4)), Minus(s.c, Word(key, 8)))
  }

  function Untriple(key: seq<byte>, t: Abc): Abc {
    if |key| == 0 then t
    else if |key| <= 12 then Unabsorb(Unfinal(t), key)
    else Unabsorb(Unmix(Untriple(key[12..], t)), key)
  }

  lemma AbsorbBijective(s: Abc, key: seq<byte>)
    ensures Unabsorb(Absorb(s, key), key) == s
    ensures Absorb(Unabsorb(s, key), key) == s
  {
    hide Plus, Minus, Word;
    PlusMinus(s.a, Word(key, 0));
    PlusMinus(s.b, Word(key, 4));
    PlusMinus(s.c, Word(key, 8));
  }

  /** For every key the whole computation is a bijection of the internal state. */
  lemma {:induction false} TripleBijective(key: seq<byte>, s: Abc)
    ensures Untriple(key, Triple(key, s)) == s
    ensures Triple(key, Untriple(key, s)) == s
  {
    hide Mix, Unmix, Final, Unfinal, Absorb, Unabsorb;
    if |key| == 0 {
    } else if |key| <= 12 {
      AbsorbBijective(s, key);
      FinalBijective(Absorb(s, key));
      AbsorbBijective(Unfinal(s), key);
      FinalBijective(s);
    } else {
      var m := Mix(Absorb(s, key));
      TripleBijective(key[12..], m);
      MixBijective(Absorb(s, key));
      AbsorbBijective(s, key);
      var u := Untriple(key[12..], s);
      TripleBijective(key[12..], s);
      MixBijective(u);
      AbsorbBijective(Unmix(u), key);
    }
  }

  lemma LeInjective(a0: byte, a1: byte, a2: byte, a3: byte, b0: byte, b1: byte, b2: byte, b3: byte)
    requires Le(a0, a1, a2, a3) == Le(b0, b1, b2, b3)
    ensures a0 == b0 && a1 == b1 && a2 == b2 && a3 == b3
  {
  }

  lemma WordInjective(k1: seq<byte>, k2: seq<byte>, i: nat)
    requires Word(k1, i) == Word(k2, i)
    ensures forall j :: i <= j < i + 4 ==> At(k1, j) == At(k2, j)
  {
    LeInjective(At(k1, i), At(k1, i + 1), At(k1, i + 2), At(k1, i + 3),
                At(k2, i), At(k2, i + 1), At(k2, i + 2), At(k2, i + 3));
  }

  /** Absorbing a block loses nothing: two blocks that lead to one state are equal. */
  lemma AbsorbInjective(s: Abc, k1: seq<byte>, k2: seq<byte>)
    requires |k1| == |k2| && Absorb(s, k1) == Absorb(s, k2)
    ensures forall j :: 0 <= j < 12 && j < |k1| ==> k1[j] == k2[j]
  {
    hide Plus, Word;
    PlusInjective(s.a, Word(k1, 0), Word(k2, 0));
    PlusInjective(s.b, Word(k1, 4), Word(k2, 4));
    PlusInjective(s.c, Word(k1, 8), Word(k2, 8));
    WordInjective(k1, k2, 0);
    WordInjective(k1, k2, 4);
    WordInjective(k1, k2, 8);
    forall j | 0 <= j < 12 && j < |k1| ensures k1[j] == k2[j] {
      assert At(k1, j) == At(k2, j);
    }
  }

  lemma AbsorbSame(s: Abc, k1: seq<byte>, k2: seq<byte>)
    requires forall j :: 0 <= j < 12 ==> At(k1, j) == At(k2, j)
    ensures Absorb(s, k1) == Absorb(s, k2)
  {
    hide Plus, Le;
  }

  /** Two keys of one length that differ in exactly one 12-byte block always end with different
      internal triples, whatever state they start from. */
  lemma {:induction false} OneBlockDifferenceSurvives(k1: seq<byte>, k2: seq<byte>, block: nat, s: Abc)
    requires |k1| == |k2| && k1 != k2
    requires forall i :: 0 <= i < |k1| && !(12 * block <= i < 12 * block + 12) ==> k1[i] == k2[i]
    ensures Triple(k1, s) != Triple(k2, s)
    decreases |k1|
  {
    hide Mix, Unmix, Final, Unfinal, Absorb, Unabsorb;
    var s1, s2 := Absorb(s, k1), Absorb(s, k2);
    if |k1| <= 12 || block == 0 {
      if s1 == s2 {
        AbsorbInjective(s, k1, k2);
        assert false;
      }
      if |k1| <= 12 {
        FinalBijective(s1);
        FinalBijective(s2);
      } else {
        assert k1[12..] == k2[12..];
        MixBijective(s1);
        MixBijective(s2);
        TripleBijective(k1[12..], Mix(s1));
        TripleBijective(k2[12..], Mix(s2));
      }
    } else {
      AbsorbSame(s, k1, k2);
      var t1, t2 := k1[12..], k2[12..];
      assert k1 == k1[..12] + t1 && k2 == k2[..12] + t2 && k1[..12] == k2[..12];
      forall i | 0 <= i < |t1| && !(12 * (block - 1) <= i < 12 * (block - 1) + 12)
        ensures t1[i] == t2[i]
      {
        assert t1[i] == k1[i + 12] && t2[i] == k2[i + 12];
      }
      OneBlockDifferenceSurvives(t1, t2, block - 1, Mix(s1));
    }
  }

  // ---------------------------------------------------------------- keys that collide with their beginnings

  /** The state after whole blocks that are not the last. */
  function Reach(key: seq<byte>, s: Abc): Abc
    requires |key| % 12 == 0
  {
    if key == [] then s else Reach(key[12..], Mix(Absorb(s, key)))
  }

  lemma {:induction false} TripleExtends(key: seq<byte>, d: seq<byte>, s: Abc)
    requires |key| % 12 == 0 && |d| == 12
    ensures Triple(key + d, s) == Final(Absorb(Reach(key, s), d))
  {
    hide Mix, Final, Absorb;
    if key == [] {
      assert key + d == d;
    } else {
      assert (key + d)[12..] == key[12..] + d;
      AbsorbSame(s, key + d, key);
      TripleExtends(key[12..], d, Mix(Absorb(s, key)));
    }
  }

  /** The four bytes of a word. */
  function Bytes(x: bv32): seq<byte> {
    [(x & 0xff) as byte, ((x >> 8) & 0xff) as byte, ((x >> 16) & 0xff) as byte, (x >> 24) as byte]
  }

  lemma BytesWord(x: bv32)
    ensures |Bytes(x)| == 4 && Le(Bytes(x)[0], Bytes(x)[1], Bytes(x)[2], Bytes(x)[3]) == x
  {
  }

  /** The block that leads from one state to another. */
  lemma Steer(s: Abc, t: Abc) returns (d: seq<byte>)
    ensures |d| == 12 && Absorb(s, d) == t
  {
    var x, y, z := Minus(t.a, s.a), Minus(t.b, s.b), Minus(t.c, s.c);
    d := Bytes(x) + Bytes(y) + Bytes(z);
    BytesWord(x); BytesWord(y); BytesWord(z);
    hide Plus, Minus, Le, Bytes;
    assert Word(d, 0) == x && Word(d, 4) == y && Word(d, 8) == z;
    PlusMinus(t.a, s.a); PlusMinus(t.b, s.b); PlusMinus(t.c, s.c);
    PlusCommutative(x, s.a); PlusCommutative(y, s.b); PlusCommutative(z, s.c);
  }

  /** Every key is the beginning of a longer key with the same hash value. */
  lemma Collide(key: seq<byte>, initval: bv32) returns (d: seq<byte>)
    ensures 12 <= |d| < 24 && Value(key + d, initval) == Value(key, initval)
  {
    hide Mix, Final, Absorb, Seed, Unfinal;
    var pad: seq<byte> := seq((12 - |key| % 12) % 12, _ => 0);
    var head, seed := key + pad, Seed(|key| + |pad| + 12, initval);
    var target := Triple(key, Seed(|key|, initval));
    var block := Steer(Reach(head, seed), Unfinal(target));
    TripleExtends(head, block, seed);
    FinalBijective(target);
    d := pad + block;
    assert key + d == head + block;
  }

  // ---------------------------------------------------------------- the macros, as the source writes them

  method MixMacro(a0: bv32, b0: bv32, c0: bv32) returns (a: bv32, b: bv32, c: bv32)
    ensures Abc(a, b, c) == Mix(Abc(a0, b0, c0))
  {
    hide Plus, Minus, Xor, Rot;
    a, b, c := a0, b0, c0;
    a := Minus(a, c); a := Xor(a, Rot(c, 4)); c := Plus(c, b);
    b := Minus(b, a); b := Xor(b, Rot(a, 6)); a := Plus(a, c);
    c := Minus(c, b); c := Xor(c, Rot(b, 8)); b := Plus(b, a);
    a := Minus(a, c); a := Xor(a, Rot(c, 16)); c := Plus(c, b);
    b := Minus(b, a); b := Xor(b, Rot(a, 19)); a := Plus(a, c);
    c := Minus(c, b); c := Xor(c, Rot(b, 4)); b := Plus(b, a);
  }

  method FinalMacro(a0: bv32, b0: bv32, c0: bv32) returns (a: bv32, b: bv32, c: bv32)
    ensures Abc(a, b, c) == Final(Abc(a0, b0, c0))
  {
    hide Plus, Minus, Xor, Rot;
    a, b, c := a0, b0, c0;
    c := Xor(c, b); c := Minus(c, Rot(b, 14));
    a := Xor(a, c); a := Minus(a, Rot(c, 11));
    b := Xor(b, a); b := Minus(b, Rot(a, 25));
    c := Xor(c, b); c := Minus(c, Rot(b, 16));
    a := Xor(a, c); a := Minus(a, Rot(c, 4));
    b := Xor(b, a); b := Minus(b, Rot(a, 14));
    c := Xor(c, b); c := Minus(c, Rot(b, 24));
  }

  // ---------------------------------------------------------------- loads

  function And(x: bv32, m: bv32): bv32 { x & m }

  /** One byte, moved up by 0, 8, 16 or 24 bits. */
  function Byte0(b: byte): bv32 { b as bv32 }
  function Byte1(b: byte): bv32 { (b as bv32) << 8 }
  function Byte2(b: byte): bv32 { (b as bv32) << 16 }
  function Byte3(b: byte): bv32 { (b as bv32) << 24 }

  /** The `uint32_t` at byte offset i of memory. */
  function Load32(mem: seq<byte>, i: nat): bv32
    requires i + 4 <= |mem|
  {
    Le(mem[i], mem[i + 1], mem[i + 2], mem[i + 3])
  }

  /** The `uint16_t` at byte offset i of memory, promoted to 32 bits. */
  function Load16(mem: seq<byte>, i: nat): bv32
    requires i + 2 <= |mem|
  {
    Half(mem[i], mem[i + 1])
  }

  function Half(b0: byte, b1: byte): bv32 { (b0 as bv32) | ((b1 as bv32) << 8) }
  function HighHalf(h: bv32): bv32 { h << 16 }

  lemma Mask24(b0: byte, b1: byte, b2: byte, b3: byte)
    ensures And(Le(b0, b1, b2, b3), 0xffffff) == Le(b0, b1, b2, 0)
  {
  }

  lemma Mask16(b0: byte, b1: byte, b2: byte, b3: byte)
    ensures And(Le(b0, b1, b2, b3), 0xffff) == Le(b0, b1, 0, 0)
  {
  }

  lemma Mask8(b0: byte, b1: byte, b2: byte, b3: byte)
    ensures And(Le(b0, b1, b2, b3), 0xff) == Le(b0, 0, 0, 0)
  {
  }

  lemma HalvesLe(b0: byte, b1: byte, b2: byte, b3: byte)
    ensures Plus(Half(b0, b1), HighHalf(Half(b2, b3))) == Le(b0, b1, b2, b3)
  {
  }

  lemma HalfLe(b0: byte, b1: byte, b2: byte)
    ensures Half(b0, b1) == Le(b0, b1, 0, 0)
  {
  }

  lemma Bytes1(b0: byte)
    ensures Byte0(b0) == Le(b0, 0, 0, 0)
  {
  }

  lemma Bytes2(b0: byte, b1: byte)
    ensures Plus(Byte0(b0), Byte1(b1)) == Le(b0, b1, 0, 0)
  {
  }

  lemma Bytes3(b0: byte, b1: byte, b2: byte)
    ensures Plus(Le(b0, b1, 0, 0), Byte2(b2)) == Le(b0, b1, b2, 0)
  {
  }

  lemma Bytes4(b0: byte, b1: byte, b2: byte, b3: byte)
    ensures Plus(Le(b0, b1, b2, 0), Byte3(b3)) == Le(b0, b1, b2, b3)
  {
  }

  lemma PlusAssociative(x: bv32, y: bv32, z: bv32)
    ensures Plus(Plus(x, y), z) == Plus(x, Plus(y, z))
  {
    assert Plus(x + y, z) == Plus(x, y + z);
  }

  lemma PlusCommutative(x: bv32, y: bv32)
    ensures Plus(x, y) == Plus(y, x)
  {
  }

  lemma PlusZero(x: bv32)
    ensures Plus(x, Le(0, 0, 0, 0)) == x
  {
    assert Le(0, 0, 0, 0) == 0;
    assert Plus(x, 0) == x;
  }

  /** Adding four bytes lowest first. */
  lemma SumUp(x: bv32, b0: byte, b1: byte, b2: byte, b3: byte)
    ensures Plus(Plus(Plus(Plus(x, Byte0(b0)), Byte1(b1)), Byte2(b2)), Byte3(b3)) == Plus(x, Le(b0, b1, b2, b3))
  {
    hide Plus, Le, Byte0, Byte1, Byte2, Byte3;
    Bytes2(b0, b1); Bytes3(b0, b1, b2); Bytes4(b0, b1, b2, b3);
    PlusAssociative(x, Byte0(b0), Byte1(b1));
    PlusAssociative(x, Le(b0, b1, 0, 0), Byte2(b2));
    PlusAssociative(x, Le(b0, b1, b2, 0), Byte3(b3));
  }

  /** Adding one to four bytes highest first. */
  lemma SumDown(x: bv32, b0: byte, b1: byte, b2: byte, b3: byte)
    ensures Plus(x, Byte0(b0)) == Plus(x, Le(b0, 0, 0, 0))
    ensures Plus(Plus(x, Byte1(b1)), Byte0(b0)) == Plus(x, Le(b0, b1, 0, 0))
    ensures Plus(Plus(Plus(x, Byte2(b2)), Byte1(b1)), Byte0(b0)) == Plus(x, Le(b0, b1, b2, 0))
    ensures Plus(Plus(Plus(Plus(x, Byte3(b3)), Byte2(b2)), Byte1(b1)), Byte0(b0)) == Plus(x, Le(b0, b1, b2, b3))
  {
    hide Plus, Le, Byte0, Byte1, Byte2, Byte3;
    Bytes1(b0);
    SumDown2(x, b0, b1);
    var x2 := Plus(x, Byte2(b2));
    SumDown2(x2, b0, b1);
    SumDown3(x, b0, b1, b2);
    var x3 := Plus(x, Byte3(b3));
    SumDown2(Plus(x3, Byte2(b2)), b0, b1);
    SumDown3(x3, b0, b1, b2);
    PlusAssociative(x, Byte3(b3), Le(b0, b1, b2, 0));
    PlusCommutative(Byte3(b3), Le(b0, b1, b2, 0));
    Bytes4(b0, b1, b2, b3);
  }

  lemma SumDown2(x: bv32, b0: byte, b1: byte)
    ensures Plus(Plus(x, Byte1(b1)), Byte0(b0)) == Plus(x, Le(b0, b1, 0, 0))
  {
    hide Plus, Le, Byte0, Byte1;
    PlusAssociative(x, Byte1(b1), Byte0(b0));
    PlusCommutative(Byte1(b1), Byte0(b0));
    Bytes2(b0, b1);
  }

  lemma SumDown3(x: bv32, b0: byte, b1: byte, b2: byte)
    ensures Plus(Plus(x, Byte2(b2)), Le(b0, b1, 0, 0)) == Plus(x, Le(b0, b1, b2, 0))
  {
    hide Plus, Le, Byte2;
    PlusAssociative(x, Byte2(b2), Le(b0, b1, 0, 0));
    PlusCommutative(Byte2(b2), Le(b0, b1, 0, 0));
    Bytes3(b0, b1, b2);
  }

  // ---------------------------------------------------------------- the last, possibly partial, block

  /** How a word of the zero-padded block of n bytes at off relates to the bytes in memory. */
  lemma BlockWord(mem: seq<byte>, off: nat, n: nat, i: nat)
    requires off + n <= |mem|
    ensures i + 4 <= n ==> Word(mem[off..off + n], i) == Load32(mem, off + i)
    ensures i + 3 == n ==> Word(mem[off..off + n], i) == Le(mem[off + i], mem[off + i + 1], mem[off + i + 2], 0)
    ensures i + 2 == n ==> Word(mem[off..off + n], i) == Le(mem[off + i], mem[off + i + 1], 0, 0)
    ensures i + 1 == n ==> Word(mem[off..off + n], i) == Le(mem[off + i], 0, 0, 0)
    ensures n <= i ==> Word(mem[off..off + n], i) == Le(0, 0, 0, 0)
  {
    hide Le;
  }

  /** A whole word, masked to the bytes that belong to the key. */
  lemma MaskedWord(mem: seq<byte>, off: nat, n: nat, i: nat)
    requires i < n < i + 4 && off + i + 4 <= |mem|
    ensures i + 3 == n ==> Word(mem[off..off + n], i) == And(Load32(mem, off + i), 0xffffff)
    ensures i + 2 == n ==> Word(mem[off..off + n], i) == And(Load32(mem, off + i), 0xffff)
    ensures i + 1 == n ==> Word(mem[off..off + n], i) == And(Load32(mem, off + i), 0xff)
  {
    hide Le, And, Word;
    BlockWord(mem, off, n, i);
    var p := off + i;
    Mask24(mem[p], mem[p + 1], mem[p + 2], mem[p + 3]);
    Mask16(mem[p], mem[p + 1], mem[p + 2], mem[p + 3]);
    Mask8(mem[p], mem[p + 1], mem[p + 2], mem[p + 3]);
  }

  /** The number of bytes in the 32-bit words that hold n bytes. */
  function Words(n: nat): nat { (n + 3) / 4 * 4 }

  lemma WordsShift(n: nat, block: nat)
    ensures Words(12 * block + n) == 12 * block + Words(n)
  {
  }

  method LastBlockByWords(mem: seq<byte>, off: nat, n: nat, a0: bv32, b0: bv32, c0: bv32)
    returns (a: bv32, b: bv32, c: bv32)
    requires 1 <= n <= 12 && off + Words(n) <= |mem|
    ensures Abc(a, b, c) == Absorb(Abc(a0, b0, c0), mem[off..off + n])
  {
    hide Plus, And, Word, Load32, Le;
    a, b, c := a0, b0, c0;
    BlockWord(mem, off, n, 0); BlockWord(mem, off, n, 4); BlockWord(mem, off, n, 8);
    PlusZero(b0); PlusZero(c0);
    if n % 4 != 0 {
      MaskedWord(mem, off, n, n / 4 * 4);
    }
    match n {
      case 12 => c := Plus(c, Load32(mem, off + 8)); b := Plus(b, Load32(mem, off + 4)); a := Plus(a, Load32(mem, off));
      case 11 =>
        c := Plus(c, And(Load32(mem, off + 8), 0xffffff));
        b := Plus(b, Load32(mem, off + 4)); a := Plus(a, Load32(mem, off));
      case 10 =>
        c := Plus(c, And(Load32(mem, off + 8), 0xffff));
        b := Plus(b, Load32(mem, off + 4)); a := Plus(a, Load32(mem, off));
      case 9 =>
        c := Plus(c, And(Load32(mem, off + 8), 0xff));
        b := Plus(b, Load32(mem, off + 4)); a := Plus(a, Load32(mem, off));
      case 8 => b := Plus(b, Load32(mem, off + 4)); a := Plus(a, Load32(mem, off));
      case 7 => b := Plus(b, And(Load32(mem, off + 4), 0xffffff)); a := Plus(a, Load32(mem, off));
      case 6 => b := Plus(b, And(Load32(mem, off + 4), 0xffff)); a := Plus(a, Load32(mem, off));
      case 5 => b := Plus(b, And(Load32(mem, off + 4), 0xff)); a := Plus(a, Load32(mem, off));
      case 4 => a := Plus(a, Load32(mem, off));
      case 3 => a := Plus(a, And(Load32(mem, off), 0xffffff));
      case 2 => a := Plus(a, And(Load32(mem, off), 0xffff));
      case _ => a := Plus(a, And(Load32(mem, off), 0xff));
    }
  }

  /** `k[j] + (((uint32_t)k[j+1])<<16)`. */
  function Pair(mem: seq<byte>, p: nat): bv32
    requires p + 4 <= |mem|
  {
    Plus(Load16(mem, p), HighHalf(Load16(mem, p + 2)))
  }

  /** Two 16-bit loads make one 32-bit load; a byte above a 16-bit load makes three bytes of one. */
  lemma HalfLoads(mem: seq<byte>, p: nat)
    ensures p + 4 <= |mem| ==> Pair(mem, p) == Load32(mem, p)
    ensures p + 2 <= |mem| ==> Load16(mem, p) == Le(mem[p], mem[p + 1], 0, 0)
  {
    hide Plus, HighHalf, Half, Le;
    if p + 4 <= |mem| {
      HalvesLe(mem[p], mem[p + 1], mem[p + 2], mem[p + 3]);
    }
    if p + 2 <= |mem| {
      HalfLe(mem[p], mem[p + 1], 0);
    }
  }

  /** The 16-bit path adds the odd third byte before the pair below it. */
  lemma ThreeBytes(x: bv32, mem: seq<byte>, p: nat)
    requires p + 3 <= |mem|
    ensures Plus(Plus(x, Byte2(mem[p + 2])), Load16(mem, p)) == Plus(x, Le(mem[p], mem[p + 1], mem[p + 2], 0))
  {
    hide Plus, Byte2, Le, Load16;
    HalfLoads(mem, p);
    SumDown3(x, mem[p], mem[p + 1], mem[p + 2]);
  }

  /** What the half-word path adds for the word at i. */
  lemma HalfWord(x: bv32, mem: seq<byte>, off: nat, n: nat, i: nat)
    requires off + n <= |mem|
    ensures Plus(x, Word(mem[off..off + n], i)) ==
      if i + 4 <= n then Plus(x, Pair(mem, off + i))
      else if i + 3 == n then Plus(Plus(x, Byte2(mem[off + i + 2])), Load16(mem, off + i))
      else if i + 2 == n then Plus(x, Load16(mem, off + i))
      else if i + 1 == n then Plus(x, Byte0(mem[off + i]))
      else x
  {
    hide Plus, Pair, Word, Load32, Load16, Le, Byte0, Byte2;
    BlockWord(mem, off, n, i);
    PlusZero(x);
    HalfLoads(mem, off + i);
    if i + 3 == n {
      ThreeBytes(x, mem, off + i);
    }
    if i + 1 == n {
      Bytes1(mem[off + i]);
    }
  }

  method LastBlockByHalves(mem: seq<byte>, off: nat, n: nat, a0: bv32, b0: bv32, c0: bv32)
    returns (a: bv32, b: bv32, c: bv32)
    requires 1 <= n <= 12 && off + n <= |mem|
    ensures Abc(a, b, c) == Absorb(Abc(a0, b0, c0), mem[off..off + n])
  {
    hide Plus, Pair, Word, Load16, Byte0, Byte2;
    a, b, c := a0, b0, c0;
    HalfWord(a0, mem, off, n, 0); HalfWord(b0, mem, off, n, 4); HalfWord(c0, mem, off, n, 8);
    match n {
      case 12 => c := Plus(c, Pair(mem, off + 8)); b := Plus(b, Pair(mem, off + 4)); a := Plus(a, Pair(mem, off));
      case 11 =>
        c := Plus(c, Byte2(mem[off + 10])); c := Plus(c, Load16(mem, off + 8));
        b := Plus(b, Pair(mem, off + 4)); a := Plus(a, Pair(mem, off));
      case 10 => c := Plus(c, Load16(mem, off + 8)); b := Plus(b, Pair(mem, off + 4)); a := Plus(a, Pair(mem, off));
      case 9 => c := Plus(c, Byte0(mem[off + 8])); b := Plus(b, Pair(mem, off + 4)); a := Plus(a, Pair(mem, off));
      case 8 => b := Plus(b, Pair(mem, off + 4)); a := Plus(a, Pair(mem, off));
      case 7 =>
        b := Plus(b, Byte2(mem[off + 6])); b := Plus(b, Load16(mem, off + 4)); a := Plus(a, Pair(mem, off));
      case 6 => b := Plus(b, Load16(mem, off + 4)); a := Plus(a, Pair(mem, off));
      case 5 => b := Plus(b, Byte0(mem[off + 4])); a := Plus(a, Pair(mem, off));
      case 4 => a := Plus(a, Pair(mem, off));
      case 3 => a := Plus(a, Byte2(mem[off + 2])); a := Plus(a, Load16(mem, off));
      case 2 => a := Plus(a, Load16(mem, off));
      case _ => a := Plus(a, Byte0(mem[off]));
    }
  }

  /** What the byte path adds for the word at i. */
  lemma ByteWord(x: bv32, mem: seq<byte>, off: nat, n: nat, i: nat)
    requires off + n <= |mem|
    ensures Plus(x, Word(mem[off..off + n], i)) ==
      var x3 := if i + 4 <= n then Plus(x, Byte3(mem[off + i + 3])) else x;
      var x2 := if i + 3 <= n then Plus(x3, Byte2(mem[off + i + 2])) else x3;
      var x1 := if i + 2 <= n then Plus(x2, Byte1(mem[off + i + 1])) else x2;
      if i + 1 <= n then Plus(x1, Byte0(mem[off + i])) else x1
  {
    hide Plus, Word, Le, Byte0, Byte1, Byte2, Byte3;
    BlockWord(mem, off, n, i);
    PlusZero(x);
    SumDown(x, At(mem, off + i), At(mem, off + i + 1), At(mem, off + i + 2), At(mem, off + i + 3));
  }

  method LastBlockByBytes(mem: seq<byte>, off: nat, n: nat, a0: bv32, b0: bv32, c0: bv32)
    returns (a: bv32, b: bv32, c: bv32)
    requires 1 <= n <= 12 && off + n <= |mem|
    ensures Abc(a, b, c) == Absorb(Abc(a0, b0, c0), mem[off..off + n])
  {
    hide Plus, Word, Byte0, Byte1, Byte2, Byte3;
    a, b, c := a0, b0, c0;
    ByteWord(a0, mem, off, n, 0); ByteWord(b0, mem, off, n, 4); ByteWord(c0, mem, off, n, 8);
    if n >= 12 { c := Plus(c, Byte3(mem[off + 11])); }
    if n >= 11 { c := Plus(c, Byte2(mem[off + 10])); }
    if n >= 10 { c := Plus(c, Byte1(mem[off + 9])); }
    if n >= 9 { c := Plus(c, Byte0(mem[off + 8])); }
    if n >= 8 { b := Plus(b, Byte3(mem[off + 7])); }
    if n >= 7 { b := Plus(b, Byte2(mem[off + 6])); }
    if n >= 6 { b := Plus(b, Byte1(mem[off + 5])); }
    if n >= 5 { b := Plus(b, Byte0(mem[off + 4])); }
    if n >= 4 { a := Plus(a, Byte3(mem[off + 3])); }
    if n >= 3 { a := Plus(a, Byte2(mem[off + 2])); }
    if n >= 2 { a := Plus(a, Byte1(mem[off + 1])); }
    a := Plus(a, Byte0(mem[off]));
  }

  // ---------------------------------------------------------------- the whole hash

  lemma NextBlock(mem: seq<byte>, off: nat, end: nat, s: Abc)
    requires off + 12 < end <= |mem|
    ensures Triple(mem[off..end], s) == Triple(mem[off + 12..end], Mix(Absorb(s, mem[off..off + 12])))
  {
    hide Mix, Plus, Le, Final;
    var key := mem[off..end];
    assert key[12..] == mem[off + 12..end];
    AbsorbSame(s, key, mem[off..off + 12]);
  }

  /** The loop body's loads on the three paths. */
  method WholeBlock(mem: seq<byte>, off: nat, address: nat, a0: bv32, b0: bv32, c0: bv32)
    returns (a: bv32, b: bv32, c: bv32)
    requires off + 12 <= |mem|
    ensures Abc(a, b, c) == Absorb(Abc(a0, b0, c0), mem[off..off + 12])
  {
    hide Plus, Pair, Word, Load16, Le, Byte0, Byte1, Byte2, Byte3;
    a, b, c := a0, b0, c0;
    BlockWord(mem, off, 12, 0); BlockWord(mem, off, 12, 4); BlockWord(mem, off, 12, 8);
    if address % 4 == 0 {
      a := Plus(a, Load32(mem, off));
      b := Plus(b, Load32(mem, off + 4));
      c := Plus(c, Load32(mem, off + 8));
    } else if address % 2 == 0 {
      HalfLoads(mem, off); HalfLoads(mem, off + 4); HalfLoads(mem, off + 8);
      a := Plus(a, Pair(mem, off));
      b := Plus(b, Pair(mem, off + 4));
      c := Plus(c, Pair(mem, off + 8));
    } else {
      SumUp(a, mem[off], mem[off + 1], mem[off + 2], mem[off + 3]);
      SumUp(b, mem[off + 4], mem[off + 5], mem[off + 6], mem[off + 7]);
      SumUp(c, mem[off + 8], mem[off + 9], mem[off + 10], mem[off + 11]);
      a := Plus(a, Byte0(mem[off])); a := Plus(a, Byte1(mem[off + 1]));
      a := Plus(a, Byte2(mem[off + 2])); a := Plus(a, Byte3(mem[off + 3]));
      b := Plus(b, Byte0(mem[off + 4])); b := Plus(b, Byte1(mem[off + 5]));
      b := Plus(b, Byte2(mem[off + 6])); b := Plus(b, Byte3(mem[off + 7]));
      c := Plus(c, Byte0(mem[off + 8])); c := Plus(c, Byte1(mem[off + 9]));
      c := Plus(c, Byte2(mem[off + 10])); c := Plus(c, Byte3(mem[off + 11]));
    }
  }

  /** The three read paths; the path is chosen by the alignment of the key's address.  Memory may
      hold anything after the key, and on the aligned path whole words are read beyond it. */
  method Hash(mem: seq<byte>, address: nat, length: nat, initval: bv32) returns (h: bv32)
    requires length <= |mem|
    requires address % 4 == 0 ==> Words(length) <= |mem|
    ensures h == Value(mem[..length], initval)
  {
    hide Mix, Final, Absorb, Words, Seed;
    var s0 := Seed(length, initval);
    var a, b, c := s0.a, s0.b, s0.c;
    var off, left := 0, length;
    while left > 12
      invariant off + left == length && off % 12 == 0
      invariant left == 0 ==> length == 0
      invariant Triple(mem[off..length], Abc(a, b, c)) == Triple(mem[..length], s0)
    {
      NextBlock(mem, off, length, Abc(a, b, c));
      a, b, c := WholeBlock(mem, off, address, a, b, c);
      a, b, c := MixMacro(a, b, c);
      off, left := off + 12, left - 12;
    }
    if left == 0 {
      return c;
    }
    WordsShift(left, off / 12);
    assert mem[off..off + left] == mem[off..length];
    if address % 4 == 0 {
      a, b, c := LastBlockByWords(mem, off, left, a, b, c);
    } else if address % 2 == 0 {
      a, b, c := LastBlockByHalves(mem, off, left, a, b, c);
    } else {
      a, b, c := LastBlockByBytes(mem, off, left, a, b, c);
    }
    a, b, c := FinalMacro(a, b, c);
    return c;
  }
}
