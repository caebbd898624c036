/** The partition strategies: where an aggregate's events go, how a partition is named and restored from its name, and
    how it is read when the store enumerates its aggregates. */
module Strategies {
  import opened Core
  import opened AggregateIds
  import opened Fnv
  import opened Hashed

  /** `Bucketed` is `HashedStrategy`, with any hash; `Custom` is `PartitionByStrategy`, with any partitioner. */
  datatype Strategy =
    | Global
    | ByType
    | ByAggregate
    | Bucketed(buckets: nat, hash: AggregateId -> nat)
    | Custom(partitioner: AggregateId -> string)
  {
    /** `NonZeroU32` */
    predicate Valid() {
      Bucketed? ==> 0 < buckets <= U32_MAX
    }
  }

  datatype Key =
    | TypeKey(aggregateType: string)
    | IdKey(id: AggregateId)
    | BucketKey(bucket: nat)
    | NameKey(text: string)

  /** `GlobalPartition`, or a `NamedPartition` of some key type. */
  datatype Partition = Whole | Named(name: string, key: Key)

  datatype PartitionRead = ScanAll | ScanType(aggregateType: string) | Direct(id: AggregateId) | Skip

  datatype NameError = NotNamed | BadAggregateId(error: ParseError) | BadBucket

  function PartitionFor(s: Strategy, id: AggregateId): Partition
    requires s.Valid()
  {
    match s
    case Global => Whole
    case ByType => Named(id.aggregateType, TypeKey(id.aggregateType))
    case ByAggregate => Named(Print(id), IdKey(id))
    case Bucketed(buckets, hash) => var bucket := hash(id) % buckets; Named(BucketName(bucket), BucketKey(bucket))
    case Custom(partitioner) => Named(partitioner(id), NameKey(partitioner(id)))
  }

  /** `partition_from_name` */
  function FromName(s: Strategy, name: string): Result<Partition, NameError> {
    match s
    case Global => Err(NotNamed)
    case ByType => Ok(Named(name, TypeKey(name)))
    case ByAggregate =>
      (match Parse(name)
       case Err(error) => Err(BadAggregateId(error))
       case Ok(id) => Ok(Named(Print(id), IdKey(id))))
    case Bucketed(_, _) =>
      (match BucketFromName(name)
       case None => Err(BadBucket)
       case Some(bucket) => Ok(Named(BucketName(bucket), BucketKey(bucket))))
    case Custom(_) => Ok(Named(name, NameKey(name)))
  }

  /** `read_plan`, and `read_plan_by_type` when a type is given; `p` is a partition of the strategy. */
  function ReadPlan(s: Strategy, p: Partition, of: Option<string>): PartitionRead {
    match s
    case ByType =>
      if p.Whole? || !p.key.TypeKey? || (of.Some? && of.value != p.key.aggregateType) then Skip
      else ScanType(p.key.aggregateType)
    case ByAggregate =>
      if p.Whole? || !p.key.IdKey? || (of.Some? && of.value != p.key.id.aggregateType) then Skip
      else Direct(p.key.id)
    case _ => if of.Some? then ScanType(of.value) else ScanAll
  }

  /** The strategy with the hash that the code uses. */
  function HashedStrategy(buckets: nat): Strategy {
    Bucketed(buckets, id => Fnv1a(Fnv32, HashInput(id)))
  }

  /** What two aggregates of one partition have in common. */
  ghost predicate SameShare(s: Strategy, a: AggregateId, b: AggregateId)
    requires s.Valid()
  {
    match s
    case Global => true
    case ByType => a.aggregateType == b.aggregateType
    case ByAggregate => a == b
    case Bucketed(buckets, hash) => hash(a) % buckets == hash(b) % buckets
    case Custom(partitioner) => partitioner(a) == partitioner(b)
  }

  /** Exactly which aggregates share a partition, under every strategy; and the names that the code does not make up:
      the type, the id's text, and what the partitioner says. */
  lemma PartitionIsSharedIff(s: Strategy, a: AggregateId, b: AggregateId)
    requires s.Valid()
    ensures PartitionFor(s, a) == PartitionFor(s, b) <==> SameShare(s, a, b)
    ensures s.ByType? ==> PartitionFor(s, a).name == a.aggregateType
    ensures s.ByAggregate? ==> PartitionFor(s, a).name == a.aggregateType + ":" + a.key
    ensures s.Custom? ==> PartitionFor(s, a).name == s.partitioner(a)
  {
  }

  /** Under the hashed strategy two aggregates share a partition, and a partition name, exactly if their hashes agree
      modulo the number of buckets; the name restores the partition. */
  lemma HashedPartitionIsSharedIff(buckets: nat, a: AggregateId, b: AggregateId)
    requires 0 < buckets <= U32_MAX
    ensures var s := HashedStrategy(buckets);
            var p, q := PartitionFor(s, a), PartitionFor(s, b);
            (p == q <==> BucketOf(a, buckets) == BucketOf(b, buckets)) && (p.name == q.name <==> p == q) &&
            FromName(s, p.name) == Ok(p)
  {
    hide Decimal, ParseU32, BucketName, BucketFromName;
    BucketNameRoundTrips(BucketOf(a, buckets));
    BucketNameRoundTrips(BucketOf(b, buckets));
  }

  /** A named partition is restored from its name: always, except that an aggregate partition is restored exactly if
      its id round-trips through its text. */
  lemma RestoredIff(s: Strategy, id: AggregateId)
    requires s.Valid() && !s.Global?
    ensures FromName(s, PartitionFor(s, id).name) == Ok(PartitionFor(s, id)) <==> (s.ByAggregate? ==> RoundTrips(id))
  {
    match s {
      case ByAggregate =>
        ParsePrintedIff(id);
      case Bucketed(buckets, hash) =>
        BucketNameRoundTrips(hash(id) % buckets);
      case _ =>
    }
  }

  /** An id that does not round-trip is never restored as itself: its partition's name is either rejected or taken for
      the partition of another aggregate. */
  lemma UnprintableIdIsMistaken(id: AggregateId)
    requires !RoundTrips(id)
    ensures var p := PartitionFor(ByAggregate, id);
            var restored := FromName(ByAggregate, p.name);
            restored.Ok? ==> restored.value.name == p.name && restored.value.key != p.key
  {
    ParsePrintedIff(id);
    if Parse(Print(id)).Ok? {
      PrintParsed(Print(id));
    }
  }

  /** Restored partitions are determined by their names. */
  lemma NameDeterminesPartition(s: Strategy, a: AggregateId, b: AggregateId)
    requires s.Valid() && (s.ByAggregate? ==> RoundTrips(a) && RoundTrips(b))
    requires s.Global? || PartitionFor(s, a).name == PartitionFor(s, b).name
    ensures PartitionFor(s, a) == PartitionFor(s, b)
  {
    if !s.Global? {
      RestoredIff(s, a);
      RestoredIff(s, b);
    }
  }
}
