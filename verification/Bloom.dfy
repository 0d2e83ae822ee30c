/** The Bloom filter (Bloom.h): a set of bit indices packed into an array of 64-bit words. */
module BloomFilters {
  import opened Hashing

  const GOLDEN := 0x9e37_79b9_7f4a_7c15

  function XorWords(a: Word, b: Word): nat {
    (a as bv64 ^ b as bv64) as nat
  }

  /** `h(s, seed)`; the multiplication wraps around to 64 bits. */
  function SeededHash(s: string, seed: nat): nat
    requires seed < 3
  {
    XorWords(FnvFrom(XorByte(FNV_OFFSET, seed), s, 0), seed * GOLDEN % WORDS)
  }

  /** The numbers of the three hashes, on the empty string. */
  lemma {:induction false} HashesOfEmpty()
    ensures SeededHash("", 0) == 1469598103934665603
    ensures SeededHash("", 1) == 9967158706566561687
    ensures SeededHash("", 2) == 2885677898781031339
  {
    hide XorWords, XorByte;
    Starts();
    Mixes();
  }

  lemma {:induction false} Starts()
    ensures XorByte(1469598103934665603, 0) == 1469598103934665603
    ensures XorByte(1469598103934665603, 1) == 1469598103934665602
    ensures XorByte(1469598103934665603, 2) == 1469598103934665601
  {
    hide XorBytes, XorByte;
    BytesXored();
    OnLowestByte(1469598103934665603, 0);
    OnLowestByte(1469598103934665603, 1);
    OnLowestByte(1469598103934665603, 2);
  }

  lemma {:induction false} OnLowestByte(hash: Word, b: nat)
    requires b < 256
    ensures XorByte(hash, b) == hash - hash % 256 + XorBytes(hash % 256, b)
  {
    hide XorBytes;
  }

  lemma {:induction false} BytesXored()
    ensures XorBytes(131, 0) == 131 && XorBytes(131, 1) == 130 && XorBytes(131, 2) == 129
  {
  }

  lemma {:induction false} Mixes()
    ensures XorWords(1469598103934665603, 0) == 1469598103934665603
    ensures XorWords(1469598103934665602, 11400714819323198485) == 9967158706566561687
    ensures XorWords(1469598103934665601, 4354685564936845354) == 2885677898781031339
  {
  }

  /** The three bits of a string in a filter of `m` bits. */
  function BitsOf(s: string, m: nat): set<nat>
    requires m > 0
  {
    set j: nat | j < 3 :: SeededHash(s, j) % m
  }

  /** The bits of all strings of a list. */
  function Indices(added: seq<string>, m: nat): set<nat>
    requires m > 0
  {
    if added == [] then {} else Indices(added[..|added| - 1], m) + BitsOf(added[|added| - 1], m)
  }

  /** What the filter answers after the strings `added`. */
  predicate Passes(s: string, added: seq<string>, m: nat)
    requires m > 0
  {
    BitsOf(s, m) <= Indices(added, m)
  }

  /** `i` is one of the three bits of an added string. */
  ghost predicate SetBySome(added: seq<string>, m: nat, i: nat)
    requires m > 0
  {
    exists s, j: nat :: s in added && j < 3 && SeededHash(s, j) % m == i
  }

  /** A bit is set if and only if it is one of the three bits of a string that was added. */
  lemma {:induction false} IndicesAre(added: seq<string>, m: nat, i: nat)
    requires m > 0
    ensures i in Indices(added, m) <==> SetBySome(added, m, i)
    decreases |added|
  {
    hide SeededHash;
    if added != [] {
      var front, last := added[..|added| - 1], added[|added| - 1];
      IndicesAre(front, m, i);
      assert added == front + [last];
      if i in BitsOf(last, m) {
        assert SeededHash(last, 0) % m == i || SeededHash(last, 1) % m == i || SeededHash(last, 2) % m == i;
      }
    }
  }

  /** No string that was added is ever denied. */
  lemma {:induction false} NeverDenied(added: seq<string>, m: nat, s: string)
    requires m > 0 && s in added
    ensures Passes(s, added, m)
  {
    hide SeededHash;
    forall i | i in BitsOf(s, m)
      ensures i in Indices(added, m)
    {
      var j: nat :| j < 3 && SeededHash(s, j) % m == i;
      IndicesAre(added, m, i);
    }
  }

  /** What passes: a string all of whose three bits were set by strings added. */
  lemma {:induction false} PassesIff(s: string, added: seq<string>, m: nat)
    requires m > 0
    ensures Passes(s, added, m) <==> forall j: nat :: j < 3 ==> SetBySome(added, m, SeededHash(s, j) % m)
  {
    hide SeededHash, Indices, SetBySome;
    forall i
      ensures i in Indices(added, m) <==> SetBySome(added, m, i)
    {
      IndicesAre(added, m, i);
    }
    if Passes(s, added, m) {
      forall j: nat | j < 3
        ensures SetBySome(added, m, SeededHash(s, j) % m)
      {
        assert SeededHash(s, j) % m in BitsOf(s, m);
      }
    }
  }

  /** The place of bit `i` in its word: `i & 63`. */
  function Place(i: nat): bv6 {
    (i % 64) as bv6
  }

  predicate BitSet(word: bv64, k: bv6) {
    (word >> k) & 1 == 1
  }

  function WithBit(word: bv64, k: bv6): bv64 {
    word | ((1 as bv64) << k)
  }

  /** Setting bit j of a word sets that bit and no other. */
  lemma {:induction false} SetOneBit(word: bv64, j: bv6, k: bv6)
    ensures BitSet(WithBit(word, j), k) <==> j == k || BitSet(word, k)
  {
  }

  lemma {:induction false} NoBits(k: bv6)
    ensures !BitSet(0, k)
  {
  }

  lemma {:induction false} PlaceExact(i: nat)
    ensures Place(i) as nat == i % 64
  {
    PlaceOf(i % 64);
  }

  lemma {:induction false} PlaceOf(k: nat)
    requires k < 64
    ensures (k as bv6) as nat == k
  {
  }

  /** Two bits are the same if and only if word and place are. */
  lemma {:induction false} SameBitIff(i: nat, k: nat)
    ensures i == k <==> i / 64 == k / 64 && Place(i) == Place(k)
  {
    hide Place;
    PlaceExact(i);
    PlaceExact(k);
  }

  class Bloom {
    const words: array<bv64>
    const m: nat
    ghost var added: seq<string>

    predicate Bit(i: nat)
      requires i / 64 < words.Length
      reads words
    {
      BitSet(words[i / 64], Place(i))
    }

    /** The words hold exactly the bits of the strings added. */
    ghost predicate Valid()
      reads this, words
    {
      && m > 0 && words.Length == (m + 63) / 64
      && forall i: nat :: i < m ==> (Bit(i) <==> i in Indices(added, m))
    }

    constructor (bits: nat)
      requires bits > 0
      ensures Valid() && fresh(words) && m == bits && added == []
    {
      words := new bv64[(bits + 63) / 64](_ => 0);
      m := bits;
      added := [];
      new;
      forall i: nat | i < m
        ensures !Bit(i)
      {
        NoBits(Place(i));
      }
    }

    method SetBit(i: nat)
      requires words.Length == (m + 63) / 64 && i < m
      modifies words
      ensures forall k: nat :: k < m ==> (Bit(k) <==> k == i || old(Bit(k)))
    {
      hide Place, BitSet, WithBit;
      var before := words[i / 64];
      words[i / 64] := WithBit(before, Place(i));
      forall k: nat | k < m
        ensures Bit(k) <==> k == i || old(Bit(k))
      {
        SameBitIff(i, k);
        SetOneBit(before, Place(i), Place(k));
      }
    }

    method HashOf(s: string, seed: nat) returns (i: nat)
      requires m > 0 && seed < 3
      ensures i == SeededHash(s, seed) % m
    {
      hide XorWords, XorByte;
      var hash := FnvLoop(XorByte(FNV_OFFSET, seed), s);
      i := XorWords(hash, seed * GOLDEN % WORDS) % m;
    }

    method Add(s: string)
      requires Valid()
      modifies this, words
      ensures Valid() && added == old(added) + [s]
    {
      hide SeededHash, BitSet, Place;
      var i0 := HashOf(s, 0);
      var i1 := HashOf(s, 1);
      var i2 := HashOf(s, 2);
      SetBit(i0);
      SetBit(i1);
      SetBit(i2);
      added := added + [s];
      assert Indices(added, m) == Indices(old(added), m) + BitsOf(s, m);
    }

    method MightContain(s: string) returns (b: bool)
      requires Valid()
      ensures m > 0 && b == Passes(s, added, m)
    {
      hide SeededHash, BitSet, Place;
      var i0 := HashOf(s, 0);
      var i1 := HashOf(s, 1);
      var i2 := HashOf(s, 2);
      b := Bit(i0) && Bit(i1) && Bit(i2);
    }
  }
}
