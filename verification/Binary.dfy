/** Bytes, and numbers in binary. */
module Binary {
  predicate IsBytes(s: string) {
    forall i :: 0 <= i < |s| ==> s[i] as int < 256
  }

  /** The `width` low bits of `n`, most significant first. */
  function Bits(n: nat, width: nat): seq<bool> {
    if width == 0 then [] else Bits(n / 2, width - 1) + [n % 2 == 1]
  }

  function Number(bits: seq<bool>): nat {
    if bits == [] then 0 else 2 * Number(bits[..|bits| - 1]) + if bits[|bits| - 1] then 1 else 0
  }

  /** `mask & (1 << i) != 0` */
  predicate Bit(mask: nat, i: nat) {
    if i == 0 then mask % 2 == 1 else Bit(mask / 2, i - 1)
  }

  function Power2(n: nat): (r: nat)
    ensures r > 0
  {
    if n == 0 then 1 else 2 * Power2(n - 1)
  }

  lemma {:induction false} NumberFits(bits: seq<bool>)
    ensures Number(bits) < Power2(|bits|)
  {
    if bits != [] {
      NumberFits(bits[..|bits| - 1]);
    }
  }

  lemma {:induction false} BitsOfNumber(bits: seq<bool>)
    ensures Bits(Number(bits), |bits|) == bits
  {
    if bits != [] {
      BitsOfNumber(bits[..|bits| - 1]);
    }
  }

  lemma {:induction false} BitsLength(n: nat, width: nat)
    ensures |Bits(n, width)| == width
  {
    if width > 0 {
      BitsLength(n / 2, width - 1);
    }
  }

  lemma {:induction false} NumberOfBits(n: nat, width: nat)
    requires n < Power2(width)
    ensures |Bits(n, width)| == width && Number(Bits(n, width)) == n
  {
    if width > 0 {
      NumberOfBits(n / 2, width - 1);
      assert Bits(n, width)[..width - 1] == Bits(n / 2, width - 1);
    }
  }

  // ---------------------------------------------------------------- single bits

  lemma {:induction false} BitsAt(n: nat, width: nat, k: nat)
    requires k < width
    ensures |Bits(n, width)| == width && (Bits(n, width)[width - 1 - k] <==> Bit(n, k))
  {
    if width > 1 {
      BitsAt(n / 2, width - 1, if k == 0 then 0 else k - 1);
    }
  }

  lemma {:induction false} NoBitOfZero(k: nat)
    ensures !Bit(0, k)
  {
    if k > 0 {
      NoBitOfZero(k - 1);
    }
  }

  /** The bits from the eighth on are those of the quotient by 256, the others those of the remainder. */
  lemma BitOfQuotient(n: nat, k: nat)
    requires k >= 8
    ensures Bit(n, k) == Bit(n / 256, k - 8)
  {
    assert Bit(n, k) == Bit(n / 2, k - 1) == Bit(n / 2 / 2, k - 2) == Bit(n / 4 / 2, k - 3) == Bit(n / 8 / 2, k - 4);
    assert Bit(n / 16, k - 4) == Bit(n / 16 / 2, k - 5) == Bit(n / 32 / 2, k - 6) == Bit(n / 64 / 2, k - 7);
    assert Bit(n / 128, k - 7) == Bit(n / 128 / 2, k - 8);
  }

  lemma {:induction false} BitOfRemainder(n: nat, k: nat, width: nat)
    requires k < width
    ensures Bit(n, k) == Bit(n % Power2(width), k)
  {
    HalfOfRemainder(n, Power2(width - 1));
    if k > 0 {
      BitOfRemainder(n / 2, k - 1, width - 1);
    }
  }

  lemma HalfOfRemainder(n: nat, p: nat)
    requires p > 0
    ensures n % (2 * p) / 2 == n / 2 % p && n % (2 * p) % 2 == n % 2
  {
    var q, r := n / (2 * p), n % (2 * p);
    assert n == 2 * (q * p) + r;
    assert n / 2 == q * p + r / 2 && n % 2 == r % 2;
    RemainderIs(n / 2, q, r / 2, p);
  }

  lemma RemainderIs(n: nat, q: nat, r: nat, p: nat)
    requires n == q * p + r && r < p
    ensures n % p == r
  {
    QuotientIs(n, q, r, p);
  }

  lemma QuotientIs(n: nat, q: nat, r: nat, p: nat)
    requires n == q * p + r && r < p
    ensures n / p == q
  {
    var d := n / p;
    assert d * p <= n < (d + 1) * p;
    if d < q {
      ProductGrows(d + 1, q, p);
    } else if q < d {
      ProductGrows(q + 1, d, p);
    }
  }

  lemma ProductGrows(a: nat, b: nat, p: nat)
    requires a <= b
    ensures a * p <= b * p
  {
    assert b * p == a * p + (b - a) * p;
  }
}
