/** The values the stores exchange.

    A Rust `str` is modelled as the sequence of its UTF-8 bytes, one character below 256 per byte, so that
    length, order and equality are those of the bytes.  A `Revision` is the 128-bit value of its ULID; module
    RevisionText proves that its 26-character text carries the same order. */
module Core {
  datatype Option<+T> = None | Some(value: T)

  datatype Result<+T, +E> = Ok(value: T) | Err(error: E)

  const ULID_LIMIT: nat := 0x1_0000_0000_0000_0000_0000_0000_0000_0000

  type Ulid = n: nat | n < ULID_LIMIT witness 0

  type Revision = Ulid

  /** "No events yet": the nil ULID, printed as 26 zeros. */
  const ZERO: Revision := 0

  datatype AggregateId = AggregateId(aggregateType: string, key: string)

  datatype Encoding = Json | Cbor

  datatype EventData = EventData(encoding: Encoding, data: seq<bv8>)

  datatype RawEvent = RawEvent(eventType: string, data: EventData)

  datatype Metadata = Metadata(causation: Option<string>, correlation: Option<string>)

  datatype Event = Event(eventId: Ulid, eventType: string, revision: Revision, metadata: Metadata, data: EventData)

  datatype PublishOptions = PublishOptions(expected: Option<Revision>, metadata: Metadata)

  datatype ChangeSet = ChangeSet(id: AggregateId, revision: Revision, events: seq<Event>)

  datatype Aggregate = Aggregate(id: AggregateId, events: seq<Event>, revision: Revision)

  /** The revision of a stream: that of its last event, zero when it has none. */
  function LastRevision(events: seq<Event>): Revision {
    if events == [] then ZERO else events[|events| - 1].revision
  }

  function FromEvents(id: AggregateId, events: seq<Event>): Aggregate {
    Aggregate(id, events, LastRevision(events))
  }

  /** The event a store records for a raw event. */
  function Record(raw: RawEvent, metadata: Metadata, eventId: Ulid, revision: Revision): Event {
    Event(eventId, raw.eventType, revision, metadata, raw.data)
  }

  /** The recorded batch carries the raw batch: same order, same types, same payloads, one metadata. */
  predicate Carries(events: seq<Event>, raws: seq<RawEvent>, metadata: Metadata) {
    |events| == |raws| &&
    forall i :: 0 <= i < |raws| ==>
      events[i].eventType == raws[i].eventType && events[i].data == raws[i].data && events[i].metadata == metadata
  }
}
