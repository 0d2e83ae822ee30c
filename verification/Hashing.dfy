/** The FNV-1a hash that the ring (HashRing.h) and the filter (Bloom.h) share. A `uint64_t` is a
    number below 2^64, and multiplying wraps around. */
module Hashing {
  const WORDS := 0x1_0000_0000_0000_0000
  const FNV_OFFSET := 1469598103934665603

  type Word = x: nat | x < 0x1_0000_0000_0000_0000

  /** `unsigned char`. */
  function Byte(c: char): (b: nat)
    ensures b < 256
  {
    c as int % 256
  }

  function XorBytes(a: nat, b: nat): (x: nat)
    requires a < 256 && b < 256
    ensures x < 256
  {
    (a as bv8 ^ b as bv8) as nat
  }

  /** `hash ^= c` with a byte, which reaches the lowest byte alone. */
  function XorByte(hash: Word, b: nat): Word
    requires b < 256
  {
    hash / 256 * 256 + XorBytes(hash % 256, b)
  }

  function TimesPrime(x: Word): Word {
    x * 1099511628211 % WORDS
  }

  /** One byte taken on. */
  function FnvStep(hash: Word, b: nat): Word
    requires b < 256
  {
    TimesPrime(XorByte(hash, b))
  }

  /** The hash so far, taken on over the bytes of `s` from `i` on. */
  function FnvFrom(hash: Word, s: string, i: nat): Word
    requires i <= |s|
    decreases |s| - i
  {
    if i == |s| then hash else FnvFrom(FnvStep(hash, Byte(s[i])), s, i + 1)
  }

  /** The loop both of them run. */
  method FnvLoop(start: Word, s: string) returns (hash: Word)
    ensures hash == FnvFrom(start, s, 0)
  {
    hide FnvStep;
    hash := start;
    var i := 0;
    while i < |s|
      invariant i <= |s| && FnvFrom(hash, s, i) == FnvFrom(start, s, 0)
    {
      hash := FnvStep(hash, Byte(s[i]));
      i := i + 1;
    }
  }

  // ----- no byte is lost

  lemma {:induction false} Remainder(x: Word, t: int)
    ensures (x + t * WORDS) % WORDS == x
  {
  }

  /** The prime is odd, so multiplying by it can be undone. */
  lemma {:induction false} PrimeUndone(x: Word)
    ensures x * 1099511628211 % 0x1_0000_0000_0000_0000 * 14886173955864302971 % 0x1_0000_0000_0000_0000 == x
  {
    var q := x * 1099511628211 / WORDS;
    var t := 887285111055 * x - q * 14886173955864302971;
    assert (x * 1099511628211 - q * WORDS) * 14886173955864302971 == x + t * WORDS;
    Remainder(x, t);
  }

  lemma {:induction false} NextByte(w: bv8)
    requires w != 255
    ensures (w + 1) as nat == w as nat + 1
  {
  }

  lemma {:induction false} ByteBack(w: bv8)
    ensures (w as nat) as bv8 == w
  {
  }

  lemma {:induction false} ByteOf(b: nat) returns (w: bv8)
    requires b < 256
    ensures IsByte(b, w)
    decreases b
  {
    if b == 0 {
      w := 0;
    } else {
      var v := ByteOf(b - 1);
      NextByte(v);
      w := v + 1;
    }
    ByteBack(w);
  }

  lemma {:induction false} XorUndone(g: bv8, h: bv8, v: bv8, w: bv8)
    requires (g ^ v) as nat == (h ^ w) as nat
    ensures g == h ==> v == w
    ensures v == w ==> g == h
  {
    ByteBack(g ^ v);
    ByteBack(h ^ w);
  }

  /** A number below 256 together with its byte. */
  predicate IsByte(a: nat, x: bv8) {
    a < 256 && x as nat == a && a as bv8 == x
  }

  lemma {:induction false} XorBytesAre(a: nat, b: nat, x: bv8, y: bv8)
    requires IsByte(a, x) && IsByte(b, y)
    ensures XorBytes(a, b) == (x ^ y) as nat
  {
  }

  lemma {:induction false} XorBytesInjective(a: nat, b: nat, c: nat, d: nat)
    requires a < 256 && b < 256 && c < 256 && d < 256 && XorBytes(a, c) == XorBytes(b, d)
    ensures c == d ==> a == b
    ensures a == b ==> c == d
  {
    hide XorBytes, IsByte;
    var x := ByteOf(a);
    var y := ByteOf(b);
    var v := ByteOf(c);
    var w := ByteOf(d);
    XorBytesAre(a, c, x, v);
    XorBytesAre(b, d, y, w);
    SameBytes(a, b, x, y);
    SameBytes(c, d, v, w);
    XorUndone(x, y, v, w);
  }

  lemma {:induction false} SameBytes(a: nat, b: nat, x: bv8, y: bv8)
    requires IsByte(a, x) && IsByte(b, y)
    ensures a == b <==> x == y
  {
  }

  lemma {:induction false} XorInjective(g: Word, h: Word, c: nat, d: nat)
    requires c < 256 && d < 256 && XorByte(g, c) == XorByte(h, d)
    ensures c == d ==> g == h
    ensures g == h ==> c == d
  {
    hide XorBytes;
    XorBytesInjective(g % 256, h % 256, c, d);
  }

  lemma {:induction false} StepInjective(g: Word, h: Word, c: nat, d: nat)
    requires c < 256 && d < 256 && FnvStep(g, c) == FnvStep(h, d)
    ensures c == d ==> g == h
    ensures g == h ==> c == d
  {
    hide XorByte;
    PrimeUndone(XorByte(g, c));
    PrimeUndone(XorByte(h, d));
    XorInjective(g, h, c, d);
  }

  /** Different hashes so far stay different. */
  lemma {:induction false} StateMatters(g: Word, h: Word, s: string, i: nat)
    requires i <= |s| && g != h
    ensures FnvFrom(g, s, i) != FnvFrom(h, s, i)
    decreases |s| - i
  {
    hide FnvStep;
    if i < |s| {
      var c := Byte(s[i]);
      if FnvStep(g, c) == FnvStep(h, c) {
        StepInjective(g, h, c, c);
      }
      StateMatters(FnvStep(g, c), FnvStep(h, c), s, i + 1);
    }
  }

  /** The hash depends on every byte: texts that differ in one byte alone have different hashes. */
  lemma {:induction false} OneByteMatters(h: Word, s: string, t: string, i: nat, k: nat)
    requires k <= i < |s| == |t| && s[i] as int % 256 != t[i] as int % 256
    requires forall j :: 0 <= j < |s| && j != i ==> s[j] == t[j]
    ensures FnvFrom(h, s, k) != FnvFrom(h, t, k)
    decreases i - k
  {
    hide FnvStep;
    var c, d := Byte(s[k]), Byte(t[k]);
    if k < i {
      OneByteMatters(FnvStep(h, c), s, t, i, k + 1);
    } else {
      if FnvStep(h, c) == FnvStep(h, d) {
        StepInjective(h, h, c, d);
      }
      StateMatters(FnvStep(h, c), FnvStep(h, d), s, k + 1);
      SameTail(FnvStep(h, d), s, t, k + 1);
    }
  }

  lemma {:induction false} SameTail(h: Word, s: string, t: string, i: nat)
    requires i <= |s| == |t| && forall j :: i <= j < |s| ==> s[j] == t[j]
    ensures FnvFrom(h, s, i) == FnvFrom(h, t, i)
    decreases |s| - i
  {
    hide FnvStep;
    if i < |s| {
      SameTail(FnvStep(h, Byte(s[i])), s, t, i + 1);
    }
  }

  /** The numbers of the hash, on the text `a`: 97 taken on from the offset. */
  lemma {:induction false} HashOfA()
    ensures FnvFrom(1469598103934665603, "a", 0) == 4953267810257967366
  {
    assert 1469598103934665603 % 256 == 131 && XorBytes(131, 97) == 226;
    assert FnvFrom(FnvStep(1469598103934665603, 97), "a", 1) == FnvStep(1469598103934665603, 97);
  }
}
