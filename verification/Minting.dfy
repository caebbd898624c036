/** What a store's ULID generator hands out, and the batches recorded with it. */
module Minting {
  import opened Core

  /** The two ULIDs minted for one event. */
  datatype Mint = Mint(eventId: Ulid, revision: Ulid)

  /** Minted one after the other by a generator that stood at `clock`. */
  predicate MintedAfter(clock: Ulid, mints: seq<Mint>) {
    (forall i :: 0 <= i < |mints| ==> clock < mints[i].eventId < mints[i].revision) &&
    (forall i, j :: 0 <= i < j < |mints| ==> mints[i].revision < mints[j].eventId)
  }

  function RecordAll(raws: seq<RawEvent>, metadata: Metadata, mints: seq<Mint>): seq<Event>
    requires |raws| == |mints|
  {
    seq(|raws|, i requires 0 <= i < |raws| => Record(raws[i], metadata, mints[i].eventId, mints[i].revision))
  }

  /** The batch records the raw events, in order, under ids and revisions that a generator standing at `clock` minted
      for them. */
  ghost predicate MintedBatch(events: seq<Event>, raws: seq<RawEvent>, metadata: Metadata, clock: Ulid) {
    exists mints: seq<Mint> ::
      |mints| == |raws| && MintedAfter(clock, mints) && events == RecordAll(raws, metadata, mints)
  }

  lemma MintedBatchCarries(events: seq<Event>, raws: seq<RawEvent>, metadata: Metadata, clock: Ulid, earlier: Ulid)
    requires MintedBatch(events, raws, metadata, clock) && earlier <= clock
    ensures Carries(events, raws, metadata) && MintedBatch(events, raws, metadata, earlier)
    ensures forall i :: 0 <= i < |events| ==> clock < events[i].eventId < events[i].revision
    ensures forall i, j :: 0 <= i < j < |events| ==> events[i].revision < events[j].eventId
  {
    var mints: seq<Mint> :|
      |mints| == |raws| && MintedAfter(clock, mints) && events == RecordAll(raws, metadata, mints);
    assert MintedAfter(earlier, mints);
  }
}
