/** FNV-1a (section 2 of draft-eastlake-fnv) on unsigned words of 32 and 64 bits: xor the low byte, multiply, wrap
    around. */
module Fnv {
  import opened Binary

  datatype Variant = Fnv32 | Fnv64 {
    function Word(): nat {
      if Fnv32? then 0x1_0000_0000 else 0x1_0000_0000_0000_0000
    }

    function Prime(): nat {
      if Fnv32? then 0x0100_0193 else 0x0100_0000_01b3
    }

    function Offset(): nat {
      if Fnv32? then 0x811c_9dc5 else 0xcbf2_9ce4_8422_2325
    }

    /** The inverse of the prime modulo the word. */
    function Inverse(): nat {
      if Fnv32? then 0x359c_449b else 0xce96_5057_aff6_957b
    }
  }

  function XorBits(a: seq<bool>, b: seq<bool>): seq<bool>
    requires |a| == |b|
  {
    seq(|a|, i requires 0 <= i < |a| => a[i] != b[i])
  }

  function ByteBits8(n: nat): (bits: seq<bool>)
    requires n < 256
    ensures |bits| == 8 && Number(bits) == n
  {
    assert Power2(8) == 256;
    NumberOfBits(n, 8);
    Bits(n, 8)
  }

  /** Bitwise exclusive or of two bytes. */
  function XorBytes(a: nat, b: nat): (r: nat)
    requires a < 256 && b < 256
    ensures r < 256
  {
    var bits := XorBits(ByteBits8(a), ByteBits8(b));
    NumberFits(bits);
    assert Power2(8) == 256;
    Number(bits)
  }

  /** `hash ^ byte`: a zero-extended byte changes the low byte only. */
  function XorLow(hash: nat, byte: nat): nat
    requires byte < 256
  {
    hash / 256 * 256 + XorBytes(hash % 256, byte)
  }

  function Code(c: char): nat {
    c as int % 256
  }

  function Step(v: Variant, hash: nat, byte: nat): (r: nat)
    requires byte < 256
    ensures r < v.Word()
  {
    XorLow(hash, byte) * v.Prime() % v.Word()
  }

  /** The bytes in order, from the state `hash`. */
  function Hash(v: Variant, hash: nat, bytes: string): nat
    decreases |bytes|
  {
    if bytes == "" then hash else Hash(v, Step(v, hash, Code(bytes[0])), bytes[1..])
  }

  function Fnv1a(v: Variant, bytes: string): nat {
    Hash(v, v.Offset(), bytes)
  }

  // ---------------------------------------------------------------- exclusive or

  lemma BitOfXorBytes(a: nat, b: nat, k: nat)
    requires a < 256 && b < 256 && k < 8
    ensures Bit(XorBytes(a, b), k) <==> Bit(a, k) != Bit(b, k)
  {
    BitsOfNumber(XorBits(ByteBits8(a), ByteBits8(b)));
    BitsAt(a, 8, k);
    BitsAt(b, 8, k);
    BitsAt(XorBytes(a, b), 8, k);
  }

  /** Exclusive or of a word and a byte, bit by bit. */
  lemma BitOfXor(hash: nat, byte: nat, k: nat)
    requires byte < 256
    ensures Bit(XorLow(hash, byte), k) <==> Bit(hash, k) != Bit(byte, k)
  {
    hide XorBytes;
    var x, low := XorLow(hash, byte), XorBytes(hash % 256, byte);
    assert x / 256 == hash / 256 && x % 256 == low;
    if k < 8 {
      assert Power2(8) == 256;
      BitOfRemainder(x, k, 8);
      BitOfRemainder(hash, k, 8);
      BitOfXorBytes(hash % 256, byte, k);
    } else {
      BitOfQuotient(x, k);
      BitOfQuotient(hash, k);
      BitOfQuotient(byte, k);
      NoBitOfZero(k - 8);
    }
  }

  lemma XorBytesTwice(a: nat, b: nat)
    requires a < 256 && b < 256
    ensures XorBytes(XorBytes(a, b), b) == a
    ensures XorBytes(a, XorBytes(a, b)) == b
  {
    var p, q := ByteBits8(a), ByteBits8(b);
    var x := XorBits(p, q);
    BitsOfNumber(x);
    assert ByteBits8(XorBytes(a, b)) == x;
    assert XorBits(x, q) == p && XorBits(p, x) == q;
  }

  lemma XorLowTwice(v: Variant, hash: nat, byte: nat)
    requires byte < 256
    ensures XorLow(XorLow(hash, byte), byte) == hash
    ensures hash < v.Word() ==> XorLow(hash, byte) < v.Word()
  {
    hide XorBytes;
    var high, low := hash / 256, XorBytes(hash % 256, byte);
    assert XorLow(hash, byte) / 256 == high && XorLow(hash, byte) % 256 == low;
    XorBytesTwice(hash % 256, byte);
  }

  lemma XorLowSeparatesBytes(hash: nat, a: nat, b: nat)
    requires a < 256 && b < 256 && XorLow(hash, a) == XorLow(hash, b)
    ensures a == b
  {
    XorBytesTwice(hash % 256, a);
    XorBytesTwice(hash % 256, b);
  }

  // ---------------------------------------------------------------- multiplication

  /** Multiplying by the prime is undone by multiplying by its inverse. */
  lemma PrimeIsInvertible(v: Variant, x: nat)
    requires x < v.Word()
    ensures (x * v.Prime() % v.Word()) * v.Inverse() % v.Word() == x
    ensures (x * v.Inverse() % v.Word()) * v.Prime() % v.Word() == x
  {
    match v
    case Fnv32 =>
      assert v.Prime() * v.Inverse() == 0x35_9c99 * v.Word() + 1;
      UndoneBy(x, v.Prime(), v.Inverse(), v.Word(), 0x35_9c99);
      UndoneBy(x, v.Inverse(), v.Prime(), v.Word(), 0x35_9c99);
    case Fnv64 =>
      assert v.Prime() * v.Inverse() == 0xce_9650_590f * v.Word() + 1;
      UndoneBy(x, v.Prime(), v.Inverse(), v.Word(), 0xce_9650_590f);
      UndoneBy(x, v.Inverse(), v.Prime(), v.Word(), 0xce_9650_590f);
  }

  lemma UndoneBy(x: nat, p: nat, i: nat, word: nat, k: nat)
    requires x < word && p * i == k * word + 1
    ensures (x * p % word) * i % word == x
  {
    var q, r := x * p / word, x * p % word;
    assert r == x * p - q * word;
    assert r * i == x * (p * i) - q * i * word;
    assert r * i == (x * k - q * i) * word + x;
    QuotientIsNatural(x * k - q * i, word, x);
    RemainderIs(r * i, x * k - q * i, x, word);
  }

  lemma QuotientIsNatural(q: int, p: nat, r: nat)
    requires r < p && q * p + r >= 0
    ensures q >= 0
  {
    if q < 0 {
      ProductGrows(1, -q, p);
    }
  }

  function Unstep(v: Variant, hash: nat, byte: nat): nat
    requires byte < 256
  {
    XorLow(hash * v.Inverse() % v.Word(), byte)
  }

  /** For a fixed byte a step is a bijection on the words. */
  lemma StepIsBijective(v: Variant, hash: nat, byte: nat)
    requires hash < v.Word() && byte < 256
    ensures Unstep(v, Step(v, hash, byte), byte) == hash
    ensures Step(v, Unstep(v, hash, byte), byte) == hash
  {
    hide XorLow;
    XorLowTwice(v, hash, byte);
    PrimeIsInvertible(v, XorLow(hash, byte));
    PrimeIsInvertible(v, hash);
    XorLowTwice(v, hash * v.Inverse() % v.Word(), byte);
  }

  lemma StepSeparatesBytes(v: Variant, hash: nat, a: nat, b: nat)
    requires hash < v.Word() && a < 256 && b < 256 && Step(v, hash, a) == Step(v, hash, b)
    ensures a == b
  {
    hide XorLow;
    XorLowTwice(v, hash, a);
    XorLowTwice(v, hash, b);
    PrimeIsInvertible(v, XorLow(hash, a));
    PrimeIsInvertible(v, XorLow(hash, b));
    XorLowSeparatesBytes(hash, a, b);
  }

  // ---------------------------------------------------------------- whole streams

  /** The bytes are taken in order: the last one is hashed last. */
  lemma {:induction false} HashSnoc(v: Variant, hash: nat, bytes: string, c: char)
    ensures Hash(v, hash, bytes + [c]) == Step(v, Hash(v, hash, bytes), Code(c))
    decreases |bytes|
  {
    hide Step;
    if bytes == "" {
      assert bytes + [c] == [c] && [c][1..] == "";
    } else {
      assert (bytes + [c])[1..] == bytes[1..] + [c];
      HashSnoc(v, Step(v, hash, Code(bytes[0])), bytes[1..], c);
    }
  }

  lemma {:induction false} HashSeparatesStates(v: Variant, g: nat, h: nat, bytes: string)
    requires g < v.Word() && h < v.Word() && Hash(v, g, bytes) == Hash(v, h, bytes)
    ensures g == h
    decreases |bytes|
  {
    hide Step;
    if bytes != "" {
      var b := Code(bytes[0]);
      HashSeparatesStates(v, Step(v, g, b), Step(v, h, b), bytes[1..]);
      StepIsBijective(v, g, b);
      StepIsBijective(v, h, b);
    }
  }

  /** Streams that differ in exactly one byte never collide. */
  lemma {:induction false} OneByteNeverCollides(v: Variant, hash: nat, a: string, b: string, i: nat)
    requires hash < v.Word() && IsBytes(a) && IsBytes(b)
    requires i < |a| == |b| && a[i] != b[i] && a[..i] == b[..i] && a[i + 1..] == b[i + 1..]
    ensures Hash(v, hash, a) != Hash(v, hash, b)
    decreases i
  {
    hide Step;
    if i == 0 {
      if Hash(v, hash, a) == Hash(v, hash, b) {
        HashSeparatesStates(v, Step(v, hash, Code(a[0])), Step(v, hash, Code(b[0])), a[1..]);
        StepSeparatesBytes(v, hash, Code(a[0]), Code(b[0]));
      }
    } else {
      assert a[0] == a[..i][0] && b[0] == b[..i][0];
      assert a[1..][..i - 1] == a[..i][1..] && b[1..][..i - 1] == b[..i][1..];
      assert a[1..][i..] == a[i + 1..] && b[1..][i..] == b[i + 1..];
      OneByteNeverCollides(v, Step(v, hash, Code(a[0])), a[1..], b[1..], i - 1);
    }
  }

  lemma {:induction false} HashIsAWord(v: Variant, hash: nat, bytes: string)
    requires hash < v.Word()
    ensures Hash(v, hash, bytes) < v.Word()
    decreases |bytes|
  {
    hide Step;
    if bytes != "" {
      HashIsAWord(v, Step(v, hash, Code(bytes[0])), bytes[1..]);
    }
  }

  /** Places of a byte. */
  function Weight(b: seq<bool>): nat
    requires |b| == 8
  {
    128 * Place(b[0]) + 64 * Place(b[1]) + 32 * Place(b[2]) + 16 * Place(b[3]) +
    8 * Place(b[4]) + 4 * Place(b[5]) + 2 * Place(b[6]) + Place(b[7])
  }

  function Place(bit: bool): (r: nat)
    ensures r < 2
  {
    if bit then 1 else 0
  }

  lemma NumberOfPrefix(b: seq<bool>, k: nat)
    requires k < |b|
    ensures Number(b[..k + 1]) == 2 * Number(b[..k]) + Place(b[k])
  {
    assert b[..k + 1][..k] == b[..k];
  }

  lemma WeightIsNumber(b: seq<bool>)
    requires |b| == 8
    ensures Number(b) == Weight(b) < 256
  {
    assert Number(b[..0]) == 0;
    hide Number, Place;
    NumberOfPrefix(b, 0);
    NumberOfPrefix(b, 1);
    NumberOfPrefix(b, 2);
    NumberOfPrefix(b, 3);
    NumberOfPrefix(b, 4);
    NumberOfPrefix(b, 5);
    NumberOfPrefix(b, 6);
    NumberOfPrefix(b, 7);
    assert b[..8] == b;
  }

  lemma XorByPlaces(p: seq<bool>, q: seq<bool>)
    requires |p| == |q| == 8 && Weight(p) < 256 && Weight(q) < 256
    ensures XorBytes(Weight(p), Weight(q)) == Weight(XorBits(p, q))
  {
    WeightIsNumber(p);
    WeightIsNumber(q);
    WeightIsNumber(XorBits(p, q));
    BitsOfNumber(p);
    BitsOfNumber(q);
  }

  /** The published values of the hash: of the empty text and of "a". */
  lemma KnownHashes()
    ensures Fnv1a(Fnv32, "") == 0x811c_9dc5 && Fnv1a(Fnv64, "") == 0xcbf2_9ce4_8422_2325
    ensures Fnv1a(Fnv32, "a") == 0xe40c_292c && Fnv1a(Fnv64, "a") == 0xaf63_dc4c_8601_ec8c
  {
    hide XorBytes;
    var low32 := [true, true, false, false, false, true, false, true];
    var low64 := [false, false, true, false, false, true, false, true];
    var a := [false, true, true, false, false, false, false, true];
    assert Weight(low32) == 0xc5 && Weight(low64) == 0x25 && Weight(a) == 0x61;
    XorByPlaces(low32, a);
    XorByPlaces(low64, a);
    assert Weight(XorBits(low32, a)) == 0xa4 && Weight(XorBits(low64, a)) == 0x44;
    assert Code('a') == 0x61 && "a"[1..] == "";
    assert Step(Fnv32, 0x811c_9dc5, 0x61) == 0xe40c_292c;
    assert Step(Fnv64, 0xcbf2_9ce4_8422_2325, 0x61) == 0xaf63_dc4c_8601_ec8c;
  }
}
