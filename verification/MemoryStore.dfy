/** The memory store's calls, one at a time; MemoryRuns interleaves their steps. */
module MemoryStore {
  import opened Core
  import opened AppendLog
  import opened Minting
  import opened MemoryRuns

  /** Every stream increases, and the generator is past all of them. */
  ghost predicate Ordered(streams: Log, last: Ulid) {
    forall id :: id in streams ==>
      Increasing(streams[id]) && forall i :: 0 <= i < |streams[id]| ==> streams[id][i].revision <= last
  }

  lemma MintedBatchAppends(streams: Log, last: Ulid, id: AggregateId, options: PublishOptions, raws: seq<RawEvent>,
                           mints: seq<Mint>, later: Ulid)
    requires Ordered(streams, last) && 0 < |raws| == |mints| && MintedAfter(last, mints) && last <= later
    requires forall i :: 0 <= i < |mints| ==> mints[i].revision <= later
    requires Expected(StreamOf(streams, id), options.expected)
    ensures var recorded := RecordAll(raws, options.metadata, mints);
            Carries(recorded, raws, options.metadata) &&
            Admissible(streams, Commit(id, options.expected, recorded)) &&
            Ordered(Apply(streams, Commit(id, options.expected, recorded)), later)
  {
    MintedExtends(StreamOf(streams, id), raws, options.metadata, mints, last);
  }

  lemma EmptyStreamIsOrdered(streams: Log, last: Ulid, id: AggregateId)
    requires Ordered(streams, last)
    ensures Ordered(streams[id := StreamOf(streams, id)], last)
  {
  }

  /** What the check compares is the stream's revision. */
  lemma ExpectedIsLast(streams: Log, last: Ulid, id: AggregateId, expected: Option<Revision>)
    requires Ordered(streams, last)
    ensures Expected(StreamOf(streams, id), expected) <==>
            (expected.Some? ==> expected.value == LastRevision(StreamOf(streams, id)))
  {
  }

  /** An empty stream and an absent one admit the same commits. */
  lemma AdmissibleEither(absent: Log, streams: Log, c: Commit)
    requires StreamOf(absent, c.id) == StreamOf(streams, c.id)
    ensures Admissible(absent, c) <==> Admissible(streams, c)
  {
  }

  class Store {
    var streams: map<AggregateId, seq<Event>>
    var last: Ulid
    /** How often the generator has failed. */
    ghost var faults: nat

    ghost predicate Valid()
      reads this
    {
      Ordered(streams, last)
    }

    constructor ()
      ensures Valid() && streams == map[] && faults == 0
    {
      streams, last, faults := map[], 0, 0;
    }

    method Generate() returns (r: Option<Ulid>)
      modifies this`last, this`faults
      ensures if r.Some? then old(last) < r.value == last else last == old(last)
      ensures faults == old(faults) + if r.Some? then 0 else 1
    {
      var next: Ulid := *;
      if next > last {
        last := next;
        return Some(next);
      }
      faults := faults + 1;
      return None;
    }

    /** Mints `count` pairs, or fails with the generator advanced by what it minted before. */
    method MintEventIds(count: nat) returns (r: Option<seq<Mint>>)
      modifies this`last, this`faults
      ensures old(last) <= last && faults == old(faults) + if r.Some? then 0 else 1
      ensures r.Some? ==>
                |r.value| == count && MintedAfter(old(last), r.value) &&
                forall i :: 0 <= i < count ==> r.value[i].revision <= last
    {
      var out := [];
      for n := 0 to count
        invariant |out| == n && old(last) <= last && MintedAfter(old(last), out) && faults == old(faults)
        invariant forall i :: 0 <= i < n ==> out[i].revision <= last
      {
        var eventId := Generate();
        if eventId.None? { return None; }
        var revision := Generate();
        if revision.None? { return None; }
        out := out + [Mint(eventId.value, revision.value)];
      }
      return Some(out);
    }

    method LoadSync(id: AggregateId) returns (aggregate: Aggregate)
      ensures aggregate == FromEvents(id, StreamOf(streams, id))
    {
      if id in streams && streams[id] != [] {
        return FromEvents(id, streams[id]);
      }
      return Aggregate(id, [], ZERO);
    }

    method CurrentRevisionSync(id: AggregateId) returns (revision: Revision)
      ensures revision == LastRevision(StreamOf(streams, id))
    {
      if id in streams && streams[id] != [] {
        return streams[id][|streams[id]| - 1].revision;
      }
      return ZERO;
    }

    /** Success appends exactly the returned batch to exactly the expected stream.  Any other revision is a conflict,
        which changes nothing at all and names the stream's true revision.  Otherwise only the generator can fail: that
        changes no stream's events, but leaves the new aggregate listed. */
    method PublishSync(id: AggregateId, options: PublishOptions, raws: seq<RawEvent>)
      returns (r: Result<ChangeSet, PublishError>)
      requires Valid() && raws != []
      modifies this
      ensures Valid()
      ensures r.Ok? ==>
                r.value.id == id && MintedBatch(r.value.events, raws, options.metadata, old(last)) &&
                r.value.revision == LastRevision(r.value.events) &&
                Admissible(old(streams), Commit(id, options.expected, r.value.events)) &&
                streams == Apply(old(streams), Commit(id, options.expected, r.value.events))
      ensures r.Err? && r.error.RevisionConflict? <==>
                options.expected.Some? && options.expected.value != LastRevision(StreamOf(old(streams), id))
      ensures r.Err? && r.error.RevisionConflict? ==>
                r.error == RevisionConflict(options.expected.value, LastRevision(StreamOf(old(streams), id))) &&
                streams == old(streams) && last == old(last)
      ensures faults == old(faults) + if r == Err(MintFailed) then 1 else 0
      ensures r.Err? && r.error.MintFailed? ==>
                streams == old(streams)[id := StreamOf(old(streams), id)]
    {
      hide Admissible, Carries, RecordAll, Increasing, MintedAfter;
      EmptyStreamIsOrdered(streams, last, id);
      ExpectedIsLast(streams, last, id, options.expected);
      if id !in streams {
        if options.expected.Some? && options.expected.value != ZERO {
          return Err(RevisionConflict(options.expected.value, ZERO));
        }
        streams := streams[id := []];
      }
      if !Expected(streams[id], options.expected) {
        return Err(RevisionConflict(options.expected.value, LastRevision(streams[id])));
      }
      ghost var before := last;
      var minted := MintEventIds(|raws|);
      if minted.None? {
        return Err(MintFailed);
      }
      var recorded := RecordAll(raws, options.metadata, minted.value);
      MintedBatchAppends(streams, before, id, options, raws, minted.value, last);
      AdmissibleEither(old(streams), streams, Commit(id, options.expected, recorded));
      streams := streams[id := streams[id] + recorded];
      return Ok(ChangeSet(id, LastRevision(recorded), recorded));
    }

    /** An empty batch ignores the expected revision and reports the current one; any other conflicts exactly if a
        revision was expected that is not the current one. */
    method Publish(id: AggregateId, options: PublishOptions, raws: seq<RawEvent>)
      returns (r: Result<ChangeSet, PublishError>)
      requires Valid()
      modifies this
      ensures Valid()
      ensures raws == [] ==>
                r == Ok(ChangeSet(id, LastRevision(StreamOf(old(streams), id)), [])) && streams == old(streams)
      ensures raws != [] ==>
                (r.Err? && r.error.RevisionConflict? <==>
                 options.expected.Some? && options.expected.value != LastRevision(StreamOf(old(streams), id)))
      ensures r.Err? && r.error.RevisionConflict? ==>
                r.error == RevisionConflict(options.expected.value, LastRevision(StreamOf(old(streams), id)))
      ensures faults == old(faults) + if r == Err(MintFailed) then 1 else 0
      ensures r.Ok? ==> r.value.id == id
      ensures raws != [] && r.Ok? ==>
                r.value.revision == LastRevision(r.value.events) &&
                MintedBatch(r.value.events, raws, options.metadata, old(last)) &&
                Admissible(old(streams), Commit(id, options.expected, r.value.events)) &&
                streams == Apply(old(streams), Commit(id, options.expected, r.value.events))
      ensures r.Err? ==> forall any :: StreamOf(streams, any) == StreamOf(old(streams), any)
    {
      if raws == [] {
        var revision := CurrentRevisionSync(id);
        return Ok(ChangeSet(id, revision, []));
      }
      r := PublishSync(id, options, raws);
    }
  }
}
