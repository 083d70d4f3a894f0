/** The 32-bit word operations of kernel/hash.hpp. Each is a permutation of the words. */
module Words {

  type Byte = bv8
  type Word = bv32

  /** Multiplication by the odd constant of the algorithm, and by its inverse modulo 2^32. */
  function Times(x: Word): Word { x * 0x5bd1e995 }

  function Untimes(x: Word): Word { x * 0xe59b19bd }

  /** x ^= x >> r for the three shifts of the algorithm, and the inverses. */
  function Fold13(x: Word): Word { x ^ (x >> 13) }

  function Unfold13(x: Word): Word { x ^ (x >> 13) ^ (x >> 26) }

  function Fold15(x: Word): Word { x ^ (x >> 15) }

  function Unfold15(x: Word): Word { x ^ (x >> 15) ^ (x >> 30) }

  function Fold24(x: Word): Word { x ^ (x >> 24) }

  function Xor(x: Word, y: Word): Word { x ^ y }

  /** A byte as a word, and the two shifted bytes of the tail. */
  function At0(b: Byte): Word { b as Word }

  function At8(b: Byte): Word { (b as Word) << 8 }

  function At16(b: Byte): Word { (b as Word) << 16 }

  /** A word from its four bytes, lowest first. */
  function Assemble(b0: Byte, b1: Byte, b2: Byte, b3: Byte): Word {
    (b0 as Word) | ((b1 as Word) << 8) | ((b2 as Word) << 16) | ((b3 as Word) << 24)
  }

  lemma TimesInverse(x: Word)
    ensures Untimes(Times(x)) == x && Times(Untimes(x)) == x
  {
    assert Untimes(x * 0x5bd1e995) == x;
    assert Times(x * 0xe59b19bd) == x;
  }

  lemma Fold13Inverse(x: Word)
    ensures Unfold13(Fold13(x)) == x && Fold13(Unfold13(x)) == x
  {
    assert Unfold13(x ^ (x >> 13)) == x;
    assert Fold13(x ^ (x >> 13) ^ (x >> 26)) == x;
  }

  lemma Fold15Inverse(x: Word)
    ensures Unfold15(Fold15(x)) == x && Fold15(Unfold15(x)) == x
  {
    assert Unfold15(x ^ (x >> 15)) == x;
    assert Fold15(x ^ (x >> 15) ^ (x >> 30)) == x;
  }

  lemma Fold24Inverse(x: Word)
    ensures Fold24(Fold24(x)) == x
  {
    assert Fold24(x ^ (x >> 24)) == x;
  }

  lemma XorInverse(x: Word, y: Word)
    ensures Xor(Xor(x, y), y) == x && Xor(x, Xor(x, y)) == y
  {
    assert Xor(x ^ y, y) == x && Xor(x, x ^ y) == y;
  }

  lemma XorAssociates(x: Word, y: Word, z: Word)
    ensures Xor(Xor(x, y), z) == Xor(x, Xor(y, z))
  {
    assert Xor(x ^ y, z) == x ^ y ^ z;
    assert Xor(x, y ^ z) == x ^ y ^ z;
  }

  /** A tail byte that is not there changes nothing. */
  lemma NoBytes(h: Word)
    ensures At16(0) == 0 && At8(0) == 0 && Xor(h, 0) == h
  {}

  lemma AssembleInjective(a0: Byte, a1: Byte, a2: Byte, a3: Byte, b0: Byte, b1: Byte, b2: Byte, b3: Byte)
    requires Assemble(a0, a1, a2, a3) == Assemble(b0, b1, b2, b3)
    ensures a0 == b0 && a1 == b1 && a2 == b2 && a3 == b3
  {}

  lemma XorTailInjective(a0: Byte, a1: Byte, a2: Byte, b0: Byte, b1: Byte, b2: Byte)
    requires Xor(Xor(At16(a2), At8(a1)), At0(a0)) == Xor(Xor(At16(b2), At8(b1)), At0(b0))
    ensures a0 == b0 && a1 == b1 && a2 == b2
  {}

  lemma AssembleSurjective(w: Word) returns (b0: Byte, b1: Byte, b2: Byte, b3: Byte)
    ensures Assemble(b0, b1, b2, b3) == w
  {
    b0, b1, b2, b3 := (w & 0xff) as Byte, ((w >> 8) & 0xff) as Byte, ((w >> 16) & 0xff) as Byte, (w >> 24) as Byte;
  }
}

/** The murmur hash of kernel/hash.hpp: the native-endian loop, its portable twin, and what its
    comment promises about collisions.

    Every mixing step is a permutation of the 32-bit words, so a difference confined to one
    place of the key is never lost on the way to the result. */
module Hash {
  import opened Words

  const TWO_TO_THE_32: nat := 0x1_0000_0000

  // --- The specification: a fold over the blocks, a tail, and a final mix -------------------

  /** A four byte load, in the byte order of the machine. */
  function Load(bigEndian: bool, b: seq<Byte>): Word
    requires |b| >= 4
  {
    if bigEndian then Assemble(b[3], b[2], b[1], b[0]) else Assemble(b[0], b[1], b[2], b[3])
  }

  function Scramble(k: Word): Word { Times(Fold24(Times(k))) }

  function MixBlock(h: Word, k: Word): Word { Xor(Times(h), Scramble(k)) }

  function TailByte(tail: seq<Byte>, i: nat): Byte { if i < |tail| then tail[i] else 0 }

  function TailWord(tail: seq<Byte>): Word {
    Xor(Xor(At16(TailByte(tail, 2)), At8(TailByte(tail, 1))), At0(TailByte(tail, 0)))
  }

  function MixTail(h: Word, tail: seq<Byte>): Word
    requires |tail| < 4
  {
    if tail == [] then h else Times(Xor(h, TailWord(tail)))
  }

  function Finish(h: Word): Word { Fold15(Times(Fold13(h))) }

  function MixData(bigEndian: bool, data: seq<Byte>, h: Word): Word {
    if |data| >= 4 then MixData(bigEndian, data[4..], MixBlock(h, Load(bigEndian, data))) else MixTail(h, data)
  }

  /** The conversion of a length to a 32-bit unsigned variable. */
  function Length32(n: nat): Word { (n % TWO_TO_THE_32) as Word }

  /** The length is kept in a 32-bit unsigned variable, so only that many bytes are hashed. */
  function HashedPart(key: seq<Byte>): (data: seq<Byte>)
    ensures |key| < TWO_TO_THE_32 ==> data == key
  {
    key[..|key| % TWO_TO_THE_32]
  }

  function Murmur(bigEndian: bool, key: seq<Byte>): Word {
    Finish(MixData(bigEndian, HashedPart(key), Length32(|key|)))
  }

  // --- The two loops ------------------------------------------------------------------------

  /** What both loops do with a block. */
  method MixIn(h0: Word, k0: Word) returns (h: Word)
    ensures h == MixBlock(h0, k0)
  {
    var k := k0;
    k := Times(k);
    k := Fold24(k);
    k := Times(k);
    h := Times(h0);
    h := Xor(h, k);
  }

  /** The few final mixes. */
  method MixLastly(h0: Word) returns (h: Word)
    ensures h == Finish(h0)
  {
    h := Fold13(h0);
    h := Times(h);
    h := Fold15(h);
  }

  method MurmurHash(bigEndianHost: bool, key: seq<Byte>) returns (h: Word)
    ensures h == Murmur(bigEndianHost, key)
  {
    var len := |key| % TWO_TO_THE_32;
    ghost var all := HashedPart(key);
    h := Length32(|key|);
    var data := 0;
    while len >= 4
      invariant 0 <= data && 0 <= len && data + len == |all|
      invariant MixData(bigEndianHost, all[data..], h) == MixData(bigEndianHost, all, Length32(|key|))
    {
      var k := Load(bigEndianHost, key[data..]);
      assert all[data..][4..] == all[data + 4..];
      assert Load(bigEndianHost, all[data..]) == k;
      h := MixIn(h, k);
      data := data + 4;
      len := len - 4;
    }
    assert all[data..] == key[data..data + len];
    h := MixLastBytes(h, key[data..data + len]);
    h := MixLastly(h);
  }

  method PortableMurmurHash(key: seq<Byte>) returns (h: Word)
    ensures h == Murmur(false, key)
  {
    var len := |key| % TWO_TO_THE_32;
    ghost var all := HashedPart(key);
    h := Length32(|key|);
    var data := 0;
    while len >= 4
      invariant 0 <= data && 0 <= len && data + len == |all|
      invariant MixData(false, all[data..], h) == MixData(false, all, Length32(|key|))
    {
      var k := LoadPortably(key[data..]);
      assert all[data..][4..] == all[data + 4..];
      assert Load(false, all[data..]) == k;
      h := MixIn(h, k);
      data := data + 4;
      len := len - 4;
    }
    assert all[data..] == key[data..data + len];
    h := MixLastBytes(h, key[data..data + len]);
    h := MixLastly(h);
  }

  method LoadPortably(data: seq<Byte>) returns (k: Word)
    requires |data| >= 4
    ensures k == Load(false, data)
  {
    k := data[0] as Word;
    k := k | ((data[1] as Word) << 8);
    k := k | ((data[2] as Word) << 16);
    k := k | ((data[3] as Word) << 24);
  }

  /** The switch with fall-through that both loops end with. */
  method MixLastBytes(h0: Word, data: seq<Byte>) returns (h: Word)
    requires |data| < 4
    ensures h == MixTail(h0, data)
  {
    h := h0;
    if |data| == 3 { h := Xor(h, At16(data[2])); }
    if |data| >= 2 { h := Xor(h, At8(data[1])); }
    if |data| >= 1 {
      h := Xor(h, At0(data[0]));
      h := Times(h);
    }
    XorTail(h0, data);
  }

  lemma XorThree(h: Word, a: Word, b: Word, c: Word)
    ensures Xor(Xor(Xor(h, a), b), c) == Xor(h, Xor(Xor(a, b), c))
  {
    XorAssociates(Xor(h, a), b, c);
    XorAssociates(h, a, Xor(b, c));
    XorAssociates(a, b, c);
  }

  lemma XorTail(h: Word, data: seq<Byte>)
    requires |data| < 4
    ensures |data| == 3 ==> Xor(Xor(Xor(h, At16(data[2])), At8(data[1])), At0(data[0])) == Xor(h, TailWord(data))
    ensures |data| == 2 ==> Xor(Xor(h, At8(data[1])), At0(data[0])) == Xor(h, TailWord(data))
    ensures |data| == 1 ==> Xor(h, At0(data[0])) == Xor(h, TailWord(data))
  {
    NoBytes(h);
    XorThree(h, At16(TailByte(data, 2)), At8(TailByte(data, 1)), At0(TailByte(data, 0)));
  }

  // --- Composed steps are permutations too --------------------------------------------------

  function UnFinish(r: Word): Word { Unfold13(Untimes(Unfold15(r))) }

  function UnScramble(r: Word): Word { Untimes(Fold24(Untimes(r))) }

  lemma FinishInverse(h: Word)
    ensures UnFinish(Finish(h)) == h && Finish(UnFinish(h)) == h
  {
    Fold13Inverse(h); TimesInverse(Fold13(h)); Fold15Inverse(Times(Fold13(h)));
    Fold15Inverse(h); TimesInverse(Unfold15(h)); Fold13Inverse(Untimes(Unfold15(h)));
  }

  lemma ScrambleInverse(k: Word)
    ensures UnScramble(Scramble(k)) == k && Scramble(UnScramble(k)) == k
  {
    TimesInverse(k); Fold24Inverse(Times(k)); TimesInverse(Fold24(Times(k)));
    Fold24Inverse(Untimes(k)); TimesInverse(Fold24(Untimes(k)));
  }

  lemma MixBlockInjective(h1: Word, h2: Word, k1: Word, k2: Word)
    ensures MixBlock(h1, k1) == MixBlock(h2, k1) ==> h1 == h2
    ensures MixBlock(h1, k1) == MixBlock(h1, k2) ==> k1 == k2
  {
    XorInverse(Times(h1), Scramble(k1)); XorInverse(Times(h2), Scramble(k1)); XorInverse(Times(h1), Scramble(k2));
    TimesInverse(h1); TimesInverse(h2);
    ScrambleInverse(k1); ScrambleInverse(k2);
  }

  lemma LoadInjective(bigEndian: bool, a: seq<Byte>, b: seq<Byte>)
    requires |a| >= 4 && |b| >= 4 && Load(bigEndian, a) == Load(bigEndian, b)
    ensures a[..4] == b[..4]
  {
    if bigEndian {
      AssembleInjective(a[3], a[2], a[1], a[0], b[3], b[2], b[1], b[0]);
    } else {
      AssembleInjective(a[0], a[1], a[2], a[3], b[0], b[1], b[2], b[3]);
    }
  }

  /** The four bytes that are loaded as the given word. */
  lemma LoadSurjective(bigEndian: bool, w: Word) returns (b: seq<Byte>)
    ensures |b| == 4 && Load(bigEndian, b) == w
  {
    var b0, b1, b2, b3 := AssembleSurjective(w);
    b := if bigEndian then [b3, b2, b1, b0] else [b0, b1, b2, b3];
  }

  lemma FinishInjective(h1: Word, h2: Word)
    ensures Finish(h1) == Finish(h2) ==> h1 == h2
  {
    FinishInverse(h1);
    FinishInverse(h2);
  }

  lemma TailWordInjective(s: seq<Byte>, t: seq<Byte>)
    requires |s| == |t| < 4 && TailWord(s) == TailWord(t)
    ensures s == t
  {
    XorTailInjective(TailByte(s, 0), TailByte(s, 1), TailByte(s, 2), TailByte(t, 0), TailByte(t, 1), TailByte(t, 2));
    assert forall i | 0 <= i < |s| :: s[i] == TailByte(s, i) == TailByte(t, i) == t[i];
  }

  lemma TimesXorInjective(h1: Word, h2: Word, w1: Word, w2: Word)
    ensures Times(Xor(h1, w1)) == Times(Xor(h2, w1)) ==> h1 == h2
    ensures Times(Xor(h1, w1)) == Times(Xor(h1, w2)) ==> w1 == w2
  {
    XorInverse(h1, w1); XorInverse(h2, w1); XorInverse(h1, w2);
    TimesInverse(Xor(h1, w1)); TimesInverse(Xor(h2, w1)); TimesInverse(Xor(h1, w2));
  }

  lemma TailWordInjectiveIff(s: seq<Byte>, t: seq<Byte>)
    requires |s| == |t| < 4
    ensures TailWord(s) == TailWord(t) <==> s == t
  {
    if TailWord(s) == TailWord(t) { TailWordInjective(s, t); }
  }

  lemma MixTailInjective(h1: Word, h2: Word, s: seq<Byte>, t: seq<Byte>)
    requires |s| == |t| < 4
    ensures MixTail(h1, s) == MixTail(h2, s) ==> h1 == h2
    ensures MixTail(h1, s) == MixTail(h1, t) ==> s == t
  {
    TailWordInjectiveIff(s, t);
    TimesXorInjective(h1, h2, TailWord(s), TailWord(t));
  }

  /** Whatever data follows, two different hash states stay different. */
  lemma {:induction false} MixDataInjective(bigEndian: bool, data: seq<Byte>, h1: Word, h2: Word)
    ensures MixData(bigEndian, data, h1) == MixData(bigEndian, data, h2) ==> h1 == h2
  {
    if |data| >= 4 {
      var k := Load(bigEndian, data);
      MixBlockInjective(h1, h2, k, k);
      MixDataInjective(bigEndian, data[4..], MixBlock(h1, k), MixBlock(h2, k));
    } else {
      MixTailInjective(h1, h2, data, data);
    }
  }

  // --- What the hash promises ---------------------------------------------------------------

  /** Two keys that agree everywhere but inside the i-th aligned block of four bytes. */
  predicate DifferInBlockOnly(a: seq<Byte>, b: seq<Byte>, i: nat) {
    |a| == |b| && 4 * i + 4 <= |a| && a[..4 * i] == b[..4 * i] && a[4 * i + 4..] == b[4 * i + 4..] && a != b
  }

  /** Two keys that agree everywhere but in the one to three bytes after the last whole block. */
  predicate DifferInTailOnly(a: seq<Byte>, b: seq<Byte>) {
    |a| == |b| && a[..|a| - |a| % 4] == b[..|a| - |a| % 4] && a != b
  }

  lemma {:induction false} MixDataOneBlock(bigEndian: bool, a: seq<Byte>, b: seq<Byte>, i: nat, h: Word)
    requires DifferInBlockOnly(a, b, i)
    ensures MixData(bigEndian, a, h) != MixData(bigEndian, b, h)
  {
    assert a == a[..4] + a[4..] && b == b[..4] + b[4..];
    var ka, kb := Load(bigEndian, a), Load(bigEndian, b);
    if i == 0 {
      if ka == kb { LoadInjective(bigEndian, a, b); }
      MixBlockInjective(h, h, ka, kb);
      MixDataInjective(bigEndian, a[4..], MixBlock(h, ka), MixBlock(h, kb));
    } else {
      SameFirstBlock(a, b, 4 * i);
      assert ka == kb;
      assert a[4..][4 * (i - 1) + 4..] == a[4 * i + 4..] && b[4..][4 * (i - 1) + 4..] == b[4 * i + 4..];
      MixDataOneBlock(bigEndian, a[4..], b[4..], i - 1, MixBlock(h, ka));
    }
  }

  lemma SameFirstBlock(a: seq<Byte>, b: seq<Byte>, p: nat)
    requires 4 <= p <= |a| == |b| && a[..p] == b[..p]
    ensures a[..4] == b[..4] && a[4..][..p - 4] == b[4..][..p - 4]
    ensures forall j | 0 <= j < 4 :: a[j] == b[j]
  {
    assert a[..p][..4] == a[..4] && b[..p][..4] == b[..4];
    assert a[..p][4..] == a[4..][..p - 4] && b[..p][4..] == b[4..][..p - 4];
    assert forall j | 0 <= j < 4 :: a[j] == a[..4][j] == b[..4][j] == b[j];
  }

  lemma {:induction false} MixDataTail(bigEndian: bool, a: seq<Byte>, b: seq<Byte>, h: Word)
    requires DifferInTailOnly(a, b)
    ensures MixData(bigEndian, a, h) != MixData(bigEndian, b, h)
  {
    if |a| < 4 {
      MixTailInjective(h, h, a, b);
    } else {
      assert a == a[..4] + a[4..] && b == b[..4] + b[4..];
      SameFirstBlock(a, b, |a| - |a| % 4);
      MixDataTail(bigEndian, a[4..], b[4..], MixBlock(h, Load(bigEndian, a)));
    }
  }

  /** A difference inside one block, or in the tail, always shows in the hash. */
  lemma LocalDifferenceNeverCollides(bigEndian: bool, a: seq<Byte>, b: seq<Byte>)
    requires |a| < 0x1_0000_0000
    requires (exists i: nat :: DifferInBlockOnly(a, b, i)) || DifferInTailOnly(a, b)
    ensures Murmur(bigEndian, a) != Murmur(bigEndian, b)
  {
    var len := Length32(|a|);
    if DifferInTailOnly(a, b) {
      MixDataTail(bigEndian, a, b, len);
    } else {
      var i: nat :| DifferInBlockOnly(a, b, i);
      MixDataOneBlock(bigEndian, a, b, i, len);
    }
    FinishInjective(MixData(bigEndian, a, len), MixData(bigEndian, b, len));
  }

  /** "No collisions possible for 4 byte keys": on them the hash is a permutation. */
  lemma FourByteKeysNeverCollide(bigEndian: bool, a: seq<Byte>, b: seq<Byte>)
    requires |a| == |b| == 4
    ensures Murmur(bigEndian, a) == Murmur(bigEndian, b) <==> a == b
  {
    if a != b {
      assert DifferInBlockOnly(a, b, 0);
      LocalDifferenceNeverCollides(bigEndian, a, b);
    }
  }

  /** The block that drives one state to another. */
  function SteeringBlock(h: Word, wanted: Word): Word { UnScramble(Xor(Times(h), wanted)) }

  lemma SteeringBlockWorks(h: Word, wanted: Word)
    ensures MixBlock(h, SteeringBlock(h, wanted)) == wanted
  {
    ScrambleInverse(Xor(Times(h), wanted));
    XorInverse(Times(h), wanted);
  }

  lemma MixDataOneWord(bigEndian: bool, word: seq<Byte>, h: Word)
    requires |word| == 4
    ensures MixData(bigEndian, word, h) == MixBlock(h, Load(bigEndian, word))
  {
    assert word[4..] == [];
  }

  lemma MixDataTwoWords(bigEndian: bool, first: seq<Byte>, second: seq<Byte>, h: Word)
    requires |first| == |second| == 4
    ensures MixData(bigEndian, first + second, h)
         == MixBlock(MixBlock(h, Load(bigEndian, first)), Load(bigEndian, second))
  {
    assert (first + second)[4..] == second;
    MixDataOneWord(bigEndian, second, MixBlock(h, Load(bigEndian, first)));
  }

  lemma FourByteKeysReachEveryWord(bigEndian: bool, r: Word) returns (key: seq<Byte>)
    ensures |key| == 4 && Murmur(bigEndian, key) == r
  {
    var len := Length32(4);
    key := LoadSurjective(bigEndian, SteeringBlock(len, UnFinish(r)));
    SteeringBlockWorks(len, UnFinish(r));
    FinishInverse(r);
    MixDataOneWord(bigEndian, key, len);
  }

  /** The promise stops at one block: any eight byte key collides with one that starts with any
      other first block. */
  lemma EightByteKeysCollide(bigEndian: bool, a: seq<Byte>, first: seq<Byte>) returns (b: seq<Byte>)
    requires |a| == 8 && |first| == 4 && first != a[..4]
    ensures |b| == 8 && b[..4] == first && Murmur(bigEndian, a) == Murmur(bigEndian, b)
  {
    var len := Length32(8);
    var ha, hb := MixBlock(len, Load(bigEndian, a[..4])), MixBlock(len, Load(bigEndian, first));
    var target := MixBlock(ha, Load(bigEndian, a[4..]));
    var second := LoadSurjective(bigEndian, SteeringBlock(hb, target));
    SteeringBlockWorks(hb, target);
    b := first + second;
    assert a == a[..4] + a[4..];
    MixDataTwoWords(bigEndian, a[..4], a[4..], len);
    MixDataTwoWords(bigEndian, first, second, len);
  }

  /** The state from which the data leads to the given one. */
  function UnMixData(bigEndian: bool, data: seq<Byte>, r: Word): Word {
    if |data| >= 4 then Untimes(Xor(UnMixData(bigEndian, data[4..], r), Scramble(Load(bigEndian, data))))
    else if data == [] then r
    else Xor(Untimes(r), TailWord(data))
  }

  lemma UnMixBlock(h: Word, k: Word)
    ensures MixBlock(Untimes(Xor(h, Scramble(k))), k) == h
  {
    TimesInverse(Xor(h, Scramble(k)));
    XorInverse(h, Scramble(k));
  }

  lemma UnMixTail(r: Word, tail: seq<Byte>)
    requires 0 < |tail| < 4
    ensures MixTail(Xor(Untimes(r), TailWord(tail)), tail) == r
  {
    XorInverse(Untimes(r), TailWord(tail));
    TimesInverse(r);
  }

  lemma {:induction false} UnMixDataWorks(bigEndian: bool, data: seq<Byte>, r: Word)
    ensures MixData(bigEndian, data, UnMixData(bigEndian, data, r)) == r
  {
    if |data| >= 4 {
      UnMixDataWorks(bigEndian, data[4..], r);
      UnMixBlock(UnMixData(bigEndian, data[4..], r), Load(bigEndian, data));
    } else if data != [] {
      UnMixTail(r, data);
    }
  }

  /** Whatever else follows the first block, some first block makes up for it. */
  lemma {:induction false} SteeredCollision(bigEndian: bool, a: seq<Byte>, rest: seq<Byte>) returns (b: seq<Byte>)
    requires 4 <= |a| < TWO_TO_THE_32 && |rest| == |a| - 4
    ensures |b| == |a| && b[4..] == rest && Murmur(bigEndian, b) == Murmur(bigEndian, a)
  {
    var len := Length32(|a|);
    var r := MixData(bigEndian, a, len);
    var h := UnMixData(bigEndian, rest, r);
    UnMixDataWorks(bigEndian, rest, r);
    var first := LoadSurjective(bigEndian, SteeringBlock(len, h));
    SteeringBlockWorks(len, h);
    b := first + rest;
    assert b[4..] == rest;
    assert Load(bigEndian, b) == Load(bigEndian, first);
  }

  lemma {:induction false} ShortKeysDifferInTail(a: seq<Byte>, b: seq<Byte>)
    requires |a| == |b| < 4 && a != b
    ensures DifferInTailOnly(a, b)
  {
    assert |a| % 4 == |a|;
    assert a[..0] == [] && b[..0] == [];
  }

  lemma {:induction false} ShortKeysNeverCollide(bigEndian: bool, a: seq<Byte>, b: seq<Byte>)
    requires |a| == |b| <= 4 && Murmur(bigEndian, a) == Murmur(bigEndian, b)
    ensures a == b
  {
    if |a| == 4 {
      FourByteKeysNeverCollide(bigEndian, a, b);
    } else if a != b {
      ShortKeysDifferInTail(a, b);
      MixDataTail(bigEndian, a, b, Length32(|a|));
      FinishInjective(MixData(bigEndian, a, Length32(|a|)), MixData(bigEndian, b, Length32(|a|)));
    }
  }

  ghost predicate NeverCollide(bigEndian: bool, n: nat) {
    forall a, b | |a| == |b| == n && Murmur(bigEndian, a) == Murmur(bigEndian, b) :: a == b
  }

  /** The exact reach of the promise: keys of one length never collide up to four bytes. */
  lemma {:induction false} NeverCollideIff(bigEndian: bool, n: nat)
    requires n < 0x1_0000_0000
    ensures NeverCollide(bigEndian, n) <==> n <= 4
  {
    if n <= 4 {
      forall a, b | |a| == |b| == n && Murmur(bigEndian, a) == Murmur(bigEndian, b)
        ensures a == b
      {
        ShortKeysNeverCollide(bigEndian, a, b);
      }
    } else {
      var a: seq<Byte> := seq(n, i => 0);
      var b := SteeredCollision(bigEndian, a, seq(n - 4, i => 1));
      assert a[4] == 0 && b[4] == b[4..][0] == 1;
    }
  }

  // --- Byte order ---------------------------------------------------------------------------

  /** The key with the bytes of every whole block reversed; the trailing bytes stay. */
  function SwapBlocks(key: seq<Byte>): (s: seq<Byte>)
    ensures |s| == |key|
  {
    if |key| >= 4 then [key[3], key[2], key[1], key[0]] + SwapBlocks(key[4..]) else key
  }

  lemma {:induction false} MixDataByteOrder(data: seq<Byte>, h: Word)
    ensures MixData(true, data, h) == MixData(false, SwapBlocks(data), h)
  {
    if |data| >= 4 {
      assert SwapBlocks(data)[4..] == SwapBlocks(data[4..]);
      MixDataByteOrder(data[4..], MixBlock(h, Load(true, data)));
    }
  }

  /** A big-endian machine's native loop computes the portable hash of the block-swapped key. */
  lemma NativeIsPortableOfSwapped(key: seq<Byte>)
    requires |key| < TWO_TO_THE_32
    ensures Murmur(true, key) == Murmur(false, SwapBlocks(key))
  {
    MixDataByteOrder(key, Length32(|key|));
  }

  /** On four byte keys the two byte orders agree on palindromes and nowhere else. */
  lemma ByteOrdersAgreeOnPalindromes(key: seq<Byte>)
    requires |key| == 4
    ensures Murmur(true, key) == Murmur(false, key) <==> key[0] == key[3] && key[1] == key[2]
  {
    NativeIsPortableOfSwapped(key);
    FourByteKeysNeverCollide(false, SwapBlocks(key), key);
    SwappedWord(key);
  }

  lemma SwappedWord(key: seq<Byte>)
    requires |key| == 4
    ensures SwapBlocks(key) == key <==> key[0] == key[3] && key[1] == key[2]
  {
    assert key[4..] == [];
    assert SwapBlocks(key) == [key[3], key[2], key[1], key[0]];
    assert key == [key[0], key[1], key[2], key[3]];
  }

  // --- The numbers of the algorithm ---------------------------------------------------------

  lemma ShortLengths()
    ensures Length32(1) == 1 && Length32(2) == 2 && Length32(3) == 3 && Length32(4) == 4 && Length32(8) == 8
  {
  }

  lemma TimesLiterally(x: Word, y: Word)
    requires y == x * 0x5bd1e995
    ensures Times(x) == y
  {
  }

  lemma Fold13Literally(x: Word, y: Word)
    requires y == x ^ (x >> 13)
    ensures Fold13(x) == y
  {
  }

  lemma Fold15Literally(x: Word, y: Word)
    requires y == x ^ (x >> 15)
    ensures Fold15(x) == y
  {
  }

  lemma Fold24Literally(x: Word, y: Word)
    requires y == x ^ (x >> 24)
    ensures Fold24(x) == y
  {
  }

  lemma XorLiterally(x: Word, y: Word, z: Word)
    requires z == x ^ y
    ensures Xor(x, y) == z
  {
  }

  /** The hash of every four byte key, one operation on words at a time. */
  lemma FourByteHash(key: seq<Byte>, k: Word, k1: Word, k2: Word, k3: Word,
                     l: Word, h: Word, h1: Word, h2: Word, r: Word)
    requires |key| == 4
    requires k == (key[0] as Word) | ((key[1] as Word) << 8) | ((key[2] as Word) << 16) | ((key[3] as Word) << 24)
    requires k1 == k * 0x5bd1e995 && k2 == k1 ^ (k1 >> 24) && k3 == k2 * 0x5bd1e995
    requires l == 4 * 0x5bd1e995 && h == l ^ k3
    requires h1 == h ^ (h >> 13) && h2 == h1 * 0x5bd1e995 && r == h2 ^ (h2 >> 15)
    ensures Murmur(false, key) == r
  {
    ShortLengths();
    MixDataOneWord(false, key, 4);
    TimesLiterally(k, k1);
    Fold24Literally(k1, k2);
    TimesLiterally(k2, k3);
    TimesLiterally(4, l);
    XorLiterally(l, k3, h);
    Fold13Literally(h, h1);
    TimesLiterally(h1, h2);
    Fold15Literally(h2, r);
  }

  /** Of a longer key only as many bytes count as its length in 32 bits says. */
  lemma LengthWraps(bigEndian: bool, key: seq<Byte>, times: nat)
    requires times * 0x1_0000_0000 <= |key| < times * 0x1_0000_0000 + 0x1_0000_0000
    ensures Murmur(bigEndian, key) == Murmur(bigEndian, key[..|key| - times * 0x1_0000_0000])
  {
    var n := |key| - times * 0x1_0000_0000;
    RemainderIs(|key|, times, n);
    RemainderIs(n, 0, n);
    assert key[..n][..n] == key[..n];
  }

  lemma RemainderIs(x: nat, times: nat, n: nat)
    requires x == times * TWO_TO_THE_32 + n && n < TWO_TO_THE_32
    ensures x % TWO_TO_THE_32 == n
  {
    if times > 0 { RemainderIs(x - TWO_TO_THE_32, times - 1, n); }
  }

  // The hashes of "a", "ab", "abc", "abcd" and "abcdefgh", and of "abcd" on a big-endian machine.

  lemma HashOfOneByte()
    ensures Murmur(false, [97]) == 0x92685f5e
  {
    ShortLengths();
    XorLiterally(0x0, 0x0, 0x0);
    XorLiterally(0x0, 0x61, 0x61);
    XorLiterally(0x1, 0x61, 0x60);
    TimesLiterally(0x60, 0x6eb797e0);
    Fold13Literally(0x6eb797e0, 0x6eb4e25c);
    TimesLiterally(0x6eb4e25c, 0x92697b8c);
    Fold15Literally(0x92697b8c, 0x92685f5e);
  }

  lemma HashOfTwoBytes()
    ensures Murmur(false, [97, 98]) == 0x1aa14063
  {
    ShortLengths();
    XorLiterally(0x0, 0x6200, 0x6200);
    XorLiterally(0x6200, 0x61, 0x6261);
    XorLiterally(0x2, 0x6261, 0x6263);
    TimesLiterally(0x6263, 0xdd985e9f);
    Fold13Literally(0xdd985e9f, 0xdd9eb25d);
    TimesLiterally(0xdd9eb25d, 0x1aa17521);
    Fold15Literally(0x1aa17521, 0x1aa14063);
  }

  lemma HashOfThreeBytes()
    ensures Murmur(false, [97, 98, 99]) == 0x13577c9b
  {
    ShortLengths();
    XorLiterally(0x630000, 0x6200, 0x636200);
    XorLiterally(0x636200, 0x61, 0x636261);
    XorLiterally(0x3, 0x636261, 0x636262);
    TimesLiterally(0x636262, 0xd665750a);
    Fold13Literally(0xd665750a, 0xd663c621);
    TimesLiterally(0xd663c621, 0x13575a35);
    Fold15Literally(0x13575a35, 0x13577c9b);
  }

  lemma HashOfFourBytes()
    ensures Murmur(false, [97, 98, 99, 100]) == 0x26873021
  {
    ShortLengths();
    assert [97, 98, 99, 100][4..] == [];
    TimesLiterally(0x64636261, 0xae938b75);
    Fold24Literally(0xae938b75, 0xae938bdb);
    TimesLiterally(0xae938bdb, 0xecf5b977);
    TimesLiterally(0x4, 0x6f47a654);
    XorLiterally(0x6f47a654, 0xecf5b977, 0x83b21f23);
    Fold13Literally(0x83b21f23, 0x83b602b3);
    TimesLiterally(0x83b602b3, 0x26877d2f);
    Fold15Literally(0x26877d2f, 0x26873021);
  }

  lemma HashOfEightBytes()
    ensures Murmur(false, [97, 98, 99, 100, 101, 102, 103, 104]) == 0x42287e6
  {
    ShortLengths();
    assert [97, 98, 99, 100, 101, 102, 103, 104][4..] == [101, 102, 103, 104];
    assert [101, 102, 103, 104][4..] == [];
    TimesLiterally(0x64636261, 0xae938b75);
    Fold24Literally(0xae938b75, 0xae938bdb);
    TimesLiterally(0xae938bdb, 0xecf5b977);
    TimesLiterally(0x8, 0xde8f4ca8);
    XorLiterally(0xde8f4ca8, 0xecf5b977, 0x327af5df);
    TimesLiterally(0x68676665, 0x5fd585c9);
    Fold24Literally(0x5fd585c9, 0x5fd58596);
    TimesLiterally(0x5fd58596, 0x7f52464e);
    TimesLiterally(0x327af5df, 0x4b6811cb);
    XorLiterally(0x4b6811cb, 0x7f52464e, 0x343a5785);
    Fold13Literally(0x343a5785, 0x343bf657);
    TimesLiterally(0x343bf657, 0x4228fa3);
    Fold15Literally(0x4228fa3, 0x42287e6);
  }

  lemma BigEndianHashOfFourBytes()
    ensures Murmur(true, [97, 98, 99, 100]) == 0xa71ab2c5
  {
    ShortLengths();
    assert [97, 98, 99, 100][4..] == [];
    TimesLiterally(0x61626364, 0xeb5ddd34);
    Fold24Literally(0xeb5ddd34, 0xeb5ddddf);
    TimesLiterally(0xeb5ddddf, 0xd4a119cb);
    TimesLiterally(0x4, 0x6f47a654);
    XorLiterally(0x6f47a654, 0xd4a119cb, 0xbbe6bf9f);
    Fold13Literally(0xbbe6bf9f, 0xbbe360aa);
    TimesLiterally(0xbbe360aa, 0xa71bfcf2);
    Fold15Literally(0xa71bfcf2, 0xa71ab2c5);
  }
}
