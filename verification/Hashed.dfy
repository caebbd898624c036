/** Routing aggregates to buckets: FNV-1a over a length-prefixed byte stream, and the names of the buckets. */
module Hashed {
  import opened Binary
  import opened Core
  import opened Fnv

  const U32_MAX: nat := 0xffff_ffff

  /** `u32::try_from(len).unwrap_or(u32::MAX).to_le_bytes()` */
  function LengthPrefix(length: nat): (prefix: string)
    ensures |prefix| == 4 && IsBytes(prefix)
  {
    var n := if length <= U32_MAX then length else U32_MAX;
    [(n % 256) as char, (n / 0x100 % 256) as char, (n / 0x1_0000 % 256) as char, (n / 0x100_0000 % 256) as char]
  }

  /** The byte stream that is hashed: the type's length, the type, the key. */
  function HashInput(id: AggregateId): string {
    LengthPrefix(|id.aggregateType|) + id.aggregateType + id.key
  }

  method HashAggregateId(id: AggregateId) returns (hash: nat)
    ensures hash == Fnv1a(Fnv32, HashInput(id)) < Fnv32.Word()
  {
    hide HashInput, Step;
    hash := Fnv32.Offset();
    var bytes := HashInput(id);
    for i := 0 to |bytes|
      invariant Fnv1a(Fnv32, bytes) == Hash(Fnv32, hash, bytes[i..]) && hash < Fnv32.Word()
    {
      assert bytes[i..][0] == bytes[i] && bytes[i..][1..] == bytes[i + 1..];
      hash := Step(Fnv32, hash, Code(bytes[i]));
    }
  }

  lemma LengthPrefixIsInjective(a: nat, b: nat)
    requires a <= U32_MAX && b <= U32_MAX && LengthPrefix(a) == LengthPrefix(b)
    ensures a == b
  {
    var p, q := LengthPrefix(a), LengthPrefix(b);
    assert p[0] == q[0] && p[1] == q[1] && p[2] == q[2] && p[3] == q[3];
    LittleEndianSum(a);
    LittleEndianSum(b);
  }

  lemma LittleEndianSum(n: nat)
    requires n <= U32_MAX
    ensures n == n % 256 + 0x100 * (n / 0x100 % 256) + 0x1_0000 * (n / 0x1_0000 % 256)
                 + 0x100_0000 * (n / 0x100_0000 % 256)
  {
  }

  /** No two ids feed the same bytes to the hash: the length prefix keeps the boundary between type and key. */
  lemma HashInputIsInjective(a: AggregateId, b: AggregateId)
    requires |a.aggregateType| <= U32_MAX && |b.aggregateType| <= U32_MAX
    requires HashInput(a) == HashInput(b)
    ensures a == b
  {
    hide LengthPrefix;
    var x, y := HashInput(a), HashInput(b);
    var n, m := |a.aggregateType|, |b.aggregateType|;
    assert x[..4] == LengthPrefix(n) && y[..4] == LengthPrefix(m);
    LengthPrefixIsInjective(n, m);
    assert x[4..][..n] == a.aggregateType && y[4..][..m] == b.aggregateType;
    assert x[4..][n..] == a.key && y[4..][m..] == b.key;
  }

  /** Two ids of one type whose keys differ in exactly one byte are never routed by the same hash. */
  lemma KeysDifferingInOneByteNeverCollide(a: AggregateId, b: AggregateId, i: nat)
    requires a.aggregateType == b.aggregateType && IsBytes(a.aggregateType) && IsBytes(a.key) && IsBytes(b.key)
    requires i < |a.key| == |b.key| && a.key[i] != b.key[i]
    requires a.key[..i] == b.key[..i] && a.key[i + 1..] == b.key[i + 1..]
    ensures Fnv1a(Fnv32, HashInput(a)) != Fnv1a(Fnv32, HashInput(b))
  {
    hide LengthPrefix;
    var front := LengthPrefix(|a.aggregateType|) + a.aggregateType;
    var x, y, n := HashInput(a), HashInput(b), |front| + i;
    assert x == front + a.key && y == front + b.key;
    assert x[n] == a.key[i] && y[n] == b.key[i];
    assert x[..n] == front + a.key[..i] && y[..n] == front + b.key[..i];
    assert x[n + 1..] == a.key[i + 1..] && y[n + 1..] == b.key[i + 1..];
    OneByteNeverCollides(Fnv32, Fnv32.Offset(), x, y, n);
  }

  /** Moving the boundary between type and key always changes the hash, as long as both types are shorter than 256
      bytes: the two streams differ in the first byte of the prefix only. */
  lemma BoundaryNeverCollides(a: AggregateId, b: AggregateId)
    requires a.aggregateType + a.key == b.aggregateType + b.key && IsBytes(a.aggregateType) && IsBytes(a.key)
    requires |a.aggregateType| < 256 && |b.aggregateType| < 256 && |a.aggregateType| != |b.aggregateType|
    ensures Fnv1a(Fnv32, HashInput(a)) != Fnv1a(Fnv32, HashInput(b))
  {
    var n, m := |a.aggregateType|, |b.aggregateType|;
    var x, y, text := HashInput(a), HashInput(b), a.aggregateType + a.key;
    assert LengthPrefix(n) == [n as char] + ShortPrefix() && LengthPrefix(m) == [m as char] + ShortPrefix();
    assert x == [n as char] + (ShortPrefix() + text) && y == [m as char] + (ShortPrefix() + text);
    OneByteNeverCollides(Fnv32, Fnv32.Offset(), x, y, 0);
  }

  /** The rest of the prefix of a short type. */
  function ShortPrefix(): string {
    [0 as char, 0 as char, 0 as char]
  }

  // ---------------------------------------------------------------- buckets and their names

  const BUCKET_PREFIX: string := "bucket-"

  function BucketOf(id: AggregateId, buckets: nat): nat
    requires 0 < buckets <= U32_MAX
  {
    Fnv1a(Fnv32, HashInput(id)) % buckets
  }

  function Decimal(n: nat): string {
    (if n < 10 then "" else Decimal(n / 10)) + [('0' as int + n % 10) as char]
  }

  function DecimalValue(text: string): Option<nat> {
    if text == "" then Some(0)
    else
      var high, c := DecimalValue(text[..|text| - 1]), text[|text| - 1];
      if high.Some? && '0' <= c <= '9' then Some(high.value * 10 + (c as int - '0' as int)) else None
  }

  /** `str::parse::<u32>`: an optional plus sign, at least one digit, no overflow. */
  function ParseU32(text: string): Option<nat> {
    var digits := if text != "" && text[0] == '+' then text[1..] else text;
    var value := DecimalValue(digits);
    if digits != "" && value.Some? && value.value <= U32_MAX then value else None
  }

  function BucketName(bucket: nat): string {
    BUCKET_PREFIX + Decimal(bucket)
  }

  function BucketFromName(name: string): Option<nat> {
    if BUCKET_PREFIX <= name then ParseU32(name[|BUCKET_PREFIX|..]) else None
  }

  lemma {:induction false} DecimalReadsBack(n: nat)
    ensures Decimal(n) != "" && '0' <= Decimal(n)[0] <= '9' && DecimalValue(Decimal(n)) == Some(n)
  {
    var front := if n < 10 then "" else Decimal(n / 10);
    if n >= 10 {
      DecimalReadsBack(n / 10);
    }
    assert Decimal(n)[..|front|] == front;
  }

  lemma KnownBucketNames()
    ensures BucketName(0) == "bucket-0" && BucketName(27) == "bucket-27"
  {
    assert Decimal(0) == "0" && Decimal(2) == "2";
    assert Decimal(27) == Decimal(2) + "7" == "27";
  }

  /** A bucket name restores its bucket exactly if the bucket is a `u32`. */
  lemma BucketNameRoundTrips(bucket: nat)
    ensures BucketFromName(BucketName(bucket)) == Some(bucket) <==> bucket < 0x1_0000_0000
  {
    hide Decimal, DecimalValue;
    DecimalReadsBack(bucket);
    assert BucketName(bucket)[|BUCKET_PREFIX|..] == Decimal(bucket);
  }

  /** Whatever an id hashes to, it lands in one of the buckets, and the bucket's name restores it. */
  lemma RoutedBucketIsRestored(id: AggregateId, buckets: nat)
    requires 0 < buckets <= U32_MAX
    ensures BucketOf(id, buckets) < buckets
    ensures BucketFromName(BucketName(BucketOf(id, buckets))) == Some(BucketOf(id, buckets))
  {
    BucketNameRoundTrips(BucketOf(id, buckets));
  }
}
