/** The `events` table and one publish transaction over it: three guarded INSERTs, as functions of the rows. */
module SqliteTable {
  import opened Core
  import opened AppendLog
  import opened Minting

  datatype Row = Row(id: AggregateId, event: Event)

  /** The rows of one aggregate, in insertion order. */
  function Select(rows: seq<Row>, id: AggregateId): seq<Event> {
    if rows == [] then []
    else
      var rest := Select(rows[..|rows| - 1], id);
      var row := rows[|rows| - 1];
      if row.id == id then rest + [row.event] else rest
  }

  /** `SELECT MAX(revision)`: NULL, here `None`, when the aggregate has no row. */
  function MaxRevision(rows: seq<Row>, id: AggregateId): Option<Revision> {
    if rows == [] then None
    else
      var rest := MaxRevision(rows[..|rows| - 1], id);
      var row := rows[|rows| - 1];
      if row.id == id && (rest.None? || rest.value < row.event.revision) then Some(row.event.revision) else rest
  }

  function RowsFor(id: AggregateId, events: seq<Event>): seq<Row> {
    seq(|events|, i requires 0 <= i < |events| => Row(id, events[i]))
  }

  /** `ORDER BY revision`. */
  function OrderByRevision(events: seq<Event>): seq<Event> {
    if events == [] then []
    else InsertByRevision(events[|events| - 1], OrderByRevision(events[..|events| - 1]))
  }

  function InsertByRevision(e: Event, sorted: seq<Event>): seq<Event> {
    if sorted == [] || sorted[|sorted| - 1].revision <= e.revision then sorted + [e]
    else InsertByRevision(e, sorted[..|sorted| - 1]) + [sorted[|sorted| - 1]]
  }

  /** One SELECT, hence one snapshot. */
  function Load(rows: seq<Row>, id: AggregateId): Aggregate {
    FromEvents(id, OrderByRevision(Select(rows, id)))
  }

  // SQL's three-valued logic: a WHERE clause lets a row through only when it is True.

  datatype Truth = True | False | Unknown

  function SqlEqual(a: Option<Revision>, b: Option<Revision>): Truth {
    if a.None? || b.None? then Unknown else if a.value == b.value then True else False
  }

  function SqlGreater(a: Option<Revision>, b: Option<Revision>): Truth {
    if a.None? || b.None? then Unknown else if a.value > b.value then True else False
  }

  function SqlAnd(a: Truth, b: Truth): Truth {
    if a.False? || b.False? then False else if a.True? && b.True? then True else Unknown
  }

  function Coalesce(a: Option<Revision>, b: Revision): Option<Revision> {
    if a.None? then Some(b) else a
  }

  datatype Mode = Initial | Exact(expected: Revision) | Advance

  function ModeOf(index: nat, expected: Option<Revision>): Mode {
    if index == 0 && expected.Some? then
      if expected.value == ZERO then Initial else Exact(expected.value)
    else Advance
  }

  /** The WHERE clause of the INSERT that a mode executes. */
  function Where(rows: seq<Row>, id: AggregateId, mode: Mode, revision: Revision): Truth {
    var max := MaxRevision(rows, id);
    match mode
    case Initial => if Select(rows, id) == [] then True else False
    case Exact(expected) =>
      SqlAnd(SqlGreater(Some(revision), Coalesce(max, ZERO)), SqlEqual(max, Some(expected)))
    case Advance => SqlGreater(Some(revision), Coalesce(max, ZERO))
  }

  datatype PublishConflict = PublishConflict(expected: Revision, actual: Revision, attempted: Revision)

  /** What the transaction has come to: still open, stopped by an INSERT that changed no row, or stopped by the
      primary key on `event_id`. */
  datatype Tx =
    | Open(rows: seq<Row>, recorded: seq<Event>)
    | Conflicted(at: nat, conflict: PublishConflict)
    | Duplicate(at: nat)

  predicate EventIdTaken(rows: seq<Row>, eventId: Ulid) {
    exists i :: 0 <= i < |rows| && rows[i].event.eventId == eventId
  }

  /** The INSERT for the event at `index`, on the rows that the transaction sees. */
  function Insert(tx: seq<Row>, recorded: seq<Event>, id: AggregateId, options: PublishOptions, raw: RawEvent,
                  mint: Mint, index: nat): Tx {
    if Where(tx, id, ModeOf(index, options.expected), mint.revision) != True then
      Conflicted(index, PublishConflict(
        if options.expected.Some? then options.expected.value else mint.revision,
        Coalesce(MaxRevision(tx, id), ZERO).value,
        mint.revision))
    else if EventIdTaken(tx, mint.eventId) then Duplicate(index)
    else
      var e := Record(raw, options.metadata, mint.eventId, mint.revision);
      Open(tx + [Row(id, e)], recorded + [e])
  }

  /** The transaction after its first `n` INSERTs. */
  function RunTx(rows: seq<Row>, id: AggregateId, options: PublishOptions, raws: seq<RawEvent>, mints: seq<Mint>,
                 n: nat): Tx
    requires n <= |raws| && n <= |mints|
  {
    if n == 0 then Open(rows, [])
    else
      match RunTx(rows, id, options, raws, mints, n - 1)
      case Open(tx, recorded) => Insert(tx, recorded, id, options, raws[n - 1], mints[n - 1], n - 1)
      case stopped => stopped
  }

  ghost predicate DistinctEventIds(rows: seq<Row>) {
    forall i, j :: 0 <= i < j < |rows| ==> rows[i].event.eventId != rows[j].event.eventId
  }

  // ---------------------------------------------------------------- reading

  /** `MAX(revision)` is the revision of the last event, as long as the stream increases. */
  lemma {:induction false} MaxIsLast(rows: seq<Row>, id: AggregateId)
    requires Increasing(Select(rows, id))
    ensures MaxRevision(rows, id) == if Select(rows, id) == [] then None else Some(LastRevision(Select(rows, id)))
  {
    if rows != [] {
      var front, row := rows[..|rows| - 1], rows[|rows| - 1];
      var rest, all := Select(front, id), Select(rows, id);
      assert rest <= all;
      assert Increasing(rest) by {
        assert forall i :: 0 <= i < |rest| ==> rest[i] == all[i];
      }
      MaxIsLast(front, id);
      if row.id == id && rest != [] {
        assert all[|rest| - 1].revision < all[|rest|].revision;
      }
    }
  }

  predicate Ascending(events: seq<Event>) {
    forall i, j :: 0 <= i < j < |events| ==> events[i].revision <= events[j].revision
  }

  lemma {:induction false} InsertKeepsAscending(e: Event, sorted: seq<Event>)
    requires Ascending(sorted)
    ensures Ascending(InsertByRevision(e, sorted))
    ensures multiset(InsertByRevision(e, sorted)) == multiset(sorted) + multiset{e}
    ensures forall x :: x in InsertByRevision(e, sorted) ==> x in sorted || x == e
  {
    if sorted != [] && e.revision < sorted[|sorted| - 1].revision {
      var front, last := sorted[..|sorted| - 1], sorted[|sorted| - 1];
      assert sorted == front + [last];
      InsertKeepsAscending(e, front);
      var inserted := InsertByRevision(e, front);
      forall i | 0 <= i < |inserted| ensures inserted[i].revision <= last.revision {
        assert inserted[i] in inserted;
        if j :| 0 <= j < |front| && front[j] == inserted[i] {
          assert sorted[j] == front[j];
        }
      }
      hide InsertByRevision;
    }
  }

  /** `ORDER BY revision` sorts whatever is in the table. */
  lemma {:induction false} OrderSorts(events: seq<Event>)
    ensures Ascending(OrderByRevision(events)) && multiset(OrderByRevision(events)) == multiset(events)
  {
    if events != [] {
      OrderSorts(events[..|events| - 1]);
      InsertKeepsAscending(events[|events| - 1], OrderByRevision(events[..|events| - 1]));
      assert events == events[..|events| - 1] + [events[|events| - 1]];
    }
  }

  /** `ORDER BY revision` reads an increasing stream back in the order it was appended. */
  lemma {:induction false} OrderOfIncreasing(events: seq<Event>)
    requires Increasing(events)
    ensures OrderByRevision(events) == events
  {
    if events != [] {
      var front := events[..|events| - 1];
      assert Increasing(front);
      OrderOfIncreasing(front);
      assert front != [] ==> front[|front| - 1].revision < events[|events| - 1].revision;
      assert front + [events[|events| - 1]] == events;
    }
  }

  lemma LoadOfIncreasing(rows: seq<Row>, id: AggregateId)
    requires Increasing(Select(rows, id))
    ensures Load(rows, id) == FromEvents(id, Select(rows, id))
  {
    OrderOfIncreasing(Select(rows, id));
  }

  // ---------------------------------------------------------------- one transaction

  lemma SelectSnoc(rows: seq<Row>, row: Row, id: AggregateId)
    ensures Select(rows + [row], id) == Select(rows, id) + if row.id == id then [row.event] else []
  {
    assert (rows + [row])[..|rows|] == rows;
  }

  lemma IncreasingSnoc(stream: seq<Event>, e: Event)
    requires Increasing(stream) && LastRevision(stream) < e.revision
    ensures Increasing(stream + [e])
  {
    var s := stream + [e];
    forall i, j | 0 <= i < j < |s| ensures s[i].revision < s[j].revision {
      if j == |stream| && i < |stream| - 1 {
        assert stream[i].revision < stream[|stream| - 1].revision;
      }
    }
  }

  lemma {:induction false} SelectAppend(rows: seq<Row>, id: AggregateId, events: seq<Event>, any: AggregateId)
    ensures Select(rows + RowsFor(id, events), any) == Select(rows, any) + if any == id then events else []
  {
    if events == [] {
      assert rows + RowsFor(id, events) == rows;
    } else {
      var front, e := events[..|events| - 1], events[|events| - 1];
      assert events == front + [e];
      assert rows + RowsFor(id, events) == rows + RowsFor(id, front) + [Row(id, e)];
      SelectAppend(rows, id, front, any);
      SelectSnoc(rows + RowsFor(id, front), Row(id, e), any);
    }
  }

  /** What an open transaction has recorded: the raw events in order, each with its minted ids. */
  lemma {:induction false} OpenTxRecords(rows: seq<Row>, id: AggregateId, options: PublishOptions,
                                         raws: seq<RawEvent>, mints: seq<Mint>, n: nat)
    requires n <= |raws| && n <= |mints|
    requires RunTx(rows, id, options, raws, mints, n).Open?
    ensures var tx := RunTx(rows, id, options, raws, mints, n);
            |tx.recorded| == n && tx.rows == rows + RowsFor(id, tx.recorded) &&
            (forall i :: 0 <= i < n ==>
              tx.recorded[i] == Record(raws[i], options.metadata, mints[i].eventId, mints[i].revision))
  {
    hide Where, Select;
    if n > 0 {
      OpenTxRecords(rows, id, options, raws, mints, n - 1);
      var before := RunTx(rows, id, options, raws, mints, n - 1);
      var after := RunTx(rows, id, options, raws, mints, n);
      var e := after.recorded[n - 1];
      assert after.rows == before.rows + [Row(id, e)];
      assert RowsFor(id, after.recorded) == RowsFor(id, before.recorded) + [Row(id, e)];
    }
  }

  lemma {:induction false} OpenTxKeepsIdsDistinct(rows: seq<Row>, id: AggregateId, options: PublishOptions,
                                                  raws: seq<RawEvent>, mints: seq<Mint>, n: nat)
    requires n <= |raws| && n <= |mints| && DistinctEventIds(rows)
    requires RunTx(rows, id, options, raws, mints, n).Open?
    ensures DistinctEventIds(RunTx(rows, id, options, raws, mints, n).rows)
  {
    if n > 0 {
      OpenTxKeepsIdsDistinct(rows, id, options, raws, mints, n - 1);
    }
  }

  /** An open transaction holds the old rows followed by exactly the recorded batch; nobody else's stream moves. */
  lemma OpenTxAppends(rows: seq<Row>, id: AggregateId, options: PublishOptions, raws: seq<RawEvent>,
                      mints: seq<Mint>, n: nat, any: AggregateId)
    requires n <= |raws| && n <= |mints|
    requires RunTx(rows, id, options, raws, mints, n).Open?
    ensures var tx := RunTx(rows, id, options, raws, mints, n);
            Select(tx.rows, any) == Select(rows, any) + if any == id then tx.recorded else []
  {
    OpenTxRecords(rows, id, options, raws, mints, n);
    SelectAppend(rows, id, RunTx(rows, id, options, raws, mints, n).recorded, any);
  }

  lemma AdvanceGuard(rows: seq<Row>, id: AggregateId, revision: Revision)
    requires Increasing(Select(rows, id))
    ensures Where(rows, id, Advance, revision) == True <==> LastRevision(Select(rows, id)) < revision
  {
    MaxIsLast(rows, id);
  }

  /** Whatever the mode, an INSERT that goes through extends an increasing stream by a greater revision. */
  lemma InsertAdvances(tx: seq<Row>, id: AggregateId, mode: Mode, revision: Revision)
    requires Increasing(Select(tx, id)) && Where(tx, id, mode, revision) == True && revision > ZERO
    ensures LastRevision(Select(tx, id)) < revision
  {
    MaxIsLast(tx, id);
  }

  /** While the transaction is open its stream keeps increasing. */
  lemma {:induction false} OpenTxIncreases(rows: seq<Row>, id: AggregateId, options: PublishOptions,
                                           raws: seq<RawEvent>, mints: seq<Mint>, n: nat, clock: Ulid)
    requires n <= |raws| && n <= |mints| && MintedAfter(clock, mints)
    requires Increasing(Select(rows, id))
    requires RunTx(rows, id, options, raws, mints, n).Open?
    ensures Increasing(Select(RunTx(rows, id, options, raws, mints, n).rows, id))
  {
    if n > 0 {
      OpenTxIncreases(rows, id, options, raws, mints, n - 1, clock);
      var before, mint := RunTx(rows, id, options, raws, mints, n - 1), mints[n - 1];
      var e := Record(raws[n - 1], options.metadata, mint.eventId, mint.revision);
      InsertAdvances(before.rows, id, ModeOf(n - 1, options.expected), mint.revision);
      IncreasingSnoc(Select(before.rows, id), e);
      SelectSnoc(before.rows, Row(id, e), id);
    }
  }

  /** A transaction that ran to its end is an admissible append: it saw exactly the expected revision, if one was
      named, and its batch extends the stream monotonically. */
  lemma FinishedTxIsAdmissible(rows: seq<Row>, id: AggregateId, options: PublishOptions, raws: seq<RawEvent>,
                               mints: seq<Mint>, clock: Ulid)
    requires 0 < |raws| == |mints| && MintedAfter(clock, mints)
    requires Increasing(Select(rows, id))
    requires RunTx(rows, id, options, raws, mints, |raws|).Open?
    ensures var recorded := RunTx(rows, id, options, raws, mints, |raws|).recorded;
            recorded != [] && Carries(recorded, raws, options.metadata) &&
            Increasing(Select(rows, id) + recorded) &&
            (options.expected.Some? ==> LastRevision(Select(rows, id)) == options.expected.value)
  {
    OpenTxRecords(rows, id, options, raws, mints, |raws|);
    assert Increasing(Select(rows, id) + RunTx(rows, id, options, raws, mints, |raws|).recorded) by {
      OpenTxAppends(rows, id, options, raws, mints, |raws|, id);
      OpenTxIncreases(rows, id, options, raws, mints, |raws|, clock);
    }
    FirstInsertSawExpected(rows, id, options, raws, mints, |raws|);
  }

  /** The guard of the first INSERT is the optimistic check. */
  lemma {:induction false} FirstInsertSawExpected(rows: seq<Row>, id: AggregateId, options: PublishOptions,
                                               raws: seq<RawEvent>, mints: seq<Mint>, n: nat)
    requires 0 < n <= |raws| && n <= |mints| && Increasing(Select(rows, id))
    requires RunTx(rows, id, options, raws, mints, n).Open?
    ensures options.expected.Some? ==> LastRevision(Select(rows, id)) == options.expected.value
  {
    if n > 1 {
      FirstInsertSawExpected(rows, id, options, raws, mints, n - 1);
    } else {
      assert RunTx(rows, id, options, raws, mints, 0) == Open(rows, []);
      MaxIsLast(rows, id);
    }
  }

  /** A conflict arises only at the transaction's first INSERT, and then reports the true maximum.  Without an
      expected revision the attempted one was not above it; with the zero revision the stream was not empty; with
      another one the stream was elsewhere, or the writer lags and could not advance past it. */
  lemma {:induction false} ConflictIsAtFirstInsert(rows: seq<Row>, id: AggregateId, options: PublishOptions,
                                                   raws: seq<RawEvent>, mints: seq<Mint>, n: nat, clock: Ulid)
    requires n <= |raws| && n <= |mints| && MintedAfter(clock, mints)
    requires Increasing(Select(rows, id))
    requires RunTx(rows, id, options, raws, mints, n).Conflicted?
    ensures var tx := RunTx(rows, id, options, raws, mints, n);
            n > 0 && tx.at == 0 &&
            tx.conflict.actual == LastRevision(Select(rows, id)) &&
            tx.conflict.attempted == mints[0].revision &&
            match options.expected {
              case None => tx.conflict.attempted <= tx.conflict.actual && tx.conflict.expected == tx.conflict.attempted
              case Some(e) =>
                tx.conflict.expected == e &&
                (if e == ZERO then tx.conflict.actual != ZERO
                 else tx.conflict.actual != e || tx.conflict.attempted <= tx.conflict.actual)
            }
  {
    var before := RunTx(rows, id, options, raws, mints, n - 1);
    if before.Conflicted? {
      ConflictIsAtFirstInsert(rows, id, options, raws, mints, n - 1, clock);
    } else if n > 1 {
      LaterInsertsAdvance(rows, id, options, raws, mints, n - 1, clock);
    } else {
      assert before == Open(rows, []);
      MaxIsLast(rows, id);
    }
  }

  /** Behind its own first row a transaction always advances: the generator that minted that row's revision is past
      it. */
  lemma LaterInsertsAdvance(rows: seq<Row>, id: AggregateId, options: PublishOptions, raws: seq<RawEvent>,
                            mints: seq<Mint>, n: nat, clock: Ulid)
    requires 0 < n < |raws| && n < |mints| && MintedAfter(clock, mints)
    requires Increasing(Select(rows, id))
    requires RunTx(rows, id, options, raws, mints, n).Open?
    ensures Where(RunTx(rows, id, options, raws, mints, n).rows, id, ModeOf(n, options.expected), mints[n].revision)
            == True
  {
    var tx := RunTx(rows, id, options, raws, mints, n);
    OpenTxIncreases(rows, id, options, raws, mints, n, clock);
    AdvanceGuard(tx.rows, id, mints[n].revision);
    assert LastRevision(Select(tx.rows, id)) == mints[n - 1].revision by {
      OpenTxRecords(rows, id, options, raws, mints, n);
      OpenTxAppends(rows, id, options, raws, mints, n, id);
    }
  }

  ghost predicate Agrees(rows: seq<Row>, history: seq<Commit>, id: AggregateId) {
    Select(rows, id) == Stream(history, id)
  }

  /** The table is the log: every aggregate's rows are its stream in the history of commits. */
  ghost predicate TableIsLog(rows: seq<Row>, history: seq<Commit>) {
    Valid(history) && DistinctEventIds(rows) && forall id :: Agrees(rows, history, id)
  }

  /** Committing a finished transaction appends one admissible commit to the log and touches one aggregate. */
  lemma CommitExtendsLog(rows: seq<Row>, history: seq<Commit>, id: AggregateId, options: PublishOptions,
                         raws: seq<RawEvent>, mints: seq<Mint>, clock: Ulid)
    requires TableIsLog(rows, history)
    requires 0 < |raws| == |mints| && MintedAfter(clock, mints)
    requires RunTx(rows, id, options, raws, mints, |raws|).Open?
    ensures var tx := RunTx(rows, id, options, raws, mints, |raws|);
            TableIsLog(tx.rows, history + [Commit(id, options.expected, tx.recorded)]) &&
            Admissible(Replay(history), Commit(id, options.expected, tx.recorded)) &&
            tx.rows == rows + RowsFor(id, tx.recorded) && Carries(tx.recorded, raws, options.metadata) &&
            forall any :: Select(tx.rows, any) == Select(rows, any) + if any == id then tx.recorded else []
  {
    var tx := RunTx(rows, id, options, raws, mints, |raws|);
    var c := Commit(id, options.expected, tx.recorded);
    assert Agrees(rows, history, id);
    StreamsIncrease(history, id);
    FinishedTxIsAdmissible(rows, id, options, raws, mints, clock);
    ValidExtend(history, c);
    ReplayExtend(history, c);
    OpenTxRecords(rows, id, options, raws, mints, |raws|);
    OpenTxKeepsIdsDistinct(rows, id, options, raws, mints, |raws|);
    forall any ensures Select(tx.rows, any) == Select(rows, any) + if any == id then tx.recorded else [] {
      OpenTxAppends(rows, id, options, raws, mints, |raws|, any);
    }
    forall any ensures Agrees(tx.rows, history + [c], any) {
      assert Agrees(rows, history, any);
    }
  }

  /** The optimistic condition of a publish, on the stream instead of the SQL. */
  ghost predicate MayStart(stream: seq<Event>, expected: Option<Revision>, attempted: Revision) {
    match expected
    case None => LastRevision(stream) < attempted
    case Some(e) => LastRevision(stream) == e && (e == ZERO || e < attempted)
  }

  lemma FirstGuard(rows: seq<Row>, id: AggregateId, expected: Option<Revision>, attempted: Revision)
    requires Increasing(Select(rows, id))
    ensures Where(rows, id, ModeOf(0, expected), attempted) == True <==>
            MayStart(Select(rows, id), expected, attempted)
  {
    MaxIsLast(rows, id);
  }

  ghost predicate FreshIds(rows: seq<Row>, mints: seq<Mint>, n: nat)
    requires n <= |mints|
  {
    forall i :: 0 <= i < n ==> !EventIdTaken(rows, mints[i].eventId)
  }

  /** Exactly when a transaction gets through its INSERTs: the optimistic condition holds at the start and none of
      the minted event ids is in the table. */
  lemma {:induction false} TxSucceedsIff(rows: seq<Row>, id: AggregateId, options: PublishOptions,
                                         raws: seq<RawEvent>, mints: seq<Mint>, n: nat, clock: Ulid)
    requires 0 < n <= |raws| && n <= |mints| && MintedAfter(clock, mints)
    requires Increasing(Select(rows, id))
    ensures RunTx(rows, id, options, raws, mints, n).Open? <==>
            MayStart(Select(rows, id), options.expected, mints[0].revision) && FreshIds(rows, mints, n)
  {
    if n == 1 {
      assert RunTx(rows, id, options, raws, mints, 0) == Open(rows, []);
      FirstGuard(rows, id, options.expected, mints[0].revision);
    } else {
      TxSucceedsIff(rows, id, options, raws, mints, n - 1, clock);
      if RunTx(rows, id, options, raws, mints, n - 1).Open? {
        OnlyDuplicatesStopIt(rows, id, options, raws, mints, n - 1, clock);
      }
    }
  }

  /** Behind its first row only a duplicate event id can stop a transaction. */
  lemma OnlyDuplicatesStopIt(rows: seq<Row>, id: AggregateId, options: PublishOptions, raws: seq<RawEvent>,
                             mints: seq<Mint>, n: nat, clock: Ulid)
    requires 0 < n < |raws| && n < |mints| && MintedAfter(clock, mints)
    requires Increasing(Select(rows, id))
    requires RunTx(rows, id, options, raws, mints, n).Open?
    ensures RunTx(rows, id, options, raws, mints, n + 1).Open? <==> !EventIdTaken(rows, mints[n].eventId)
  {
    hide Where, Select;
    var before := RunTx(rows, id, options, raws, mints, n);
    LaterInsertsAdvance(rows, id, options, raws, mints, n, clock);
    OpenTxRecords(rows, id, options, raws, mints, n);
    OwnIdsAreFresh(rows, id, before.recorded, mints, n);
  }

  lemma OwnIdsAreFresh(rows: seq<Row>, id: AggregateId, recorded: seq<Event>, mints: seq<Mint>, n: nat)
    requires |recorded| == n < |mints|
    requires forall i :: 0 <= i < n ==> recorded[i].eventId == mints[i].eventId < mints[n].eventId
    ensures EventIdTaken(rows + RowsFor(id, recorded), mints[n].eventId) <==> EventIdTaken(rows, mints[n].eventId)
  {
    var all := rows + RowsFor(id, recorded);
    if EventIdTaken(rows, mints[n].eventId) {
      var i :| 0 <= i < |rows| && rows[i].event.eventId == mints[n].eventId;
      assert all[i] == rows[i];
    }
    if EventIdTaken(all, mints[n].eventId) {
      var i :| 0 <= i < |all| && all[i].event.eventId == mints[n].eventId;
      assert i >= |rows| ==> all[i].event == recorded[i - |rows|];
    }
  }

  /** The lagging writer: a publish that names the current revision conflicts with it exactly when the freshly
      minted revision is not above it, so the reported conflict has `expected == actual`. */
  lemma LaggingWriterConflicts(rows: seq<Row>, id: AggregateId, options: PublishOptions, raws: seq<RawEvent>,
                               mints: seq<Mint>, clock: Ulid)
    requires |raws| > 0 && |mints| > 0 && MintedAfter(clock, mints)
    requires Increasing(Select(rows, id)) && LastRevision(Select(rows, id)) != ZERO
    requires options.expected == Some(LastRevision(Select(rows, id)))
    ensures var tx := RunTx(rows, id, options, raws, mints, 1);
            (tx.Conflicted? <==> mints[0].revision <= LastRevision(Select(rows, id))) &&
            (tx.Conflicted? ==> tx.conflict.expected == tx.conflict.actual)
  {
    assert RunTx(rows, id, options, raws, mints, 0) == Open(rows, []);
    FirstGuard(rows, id, options.expected, mints[0].revision);
    MaxIsLast(rows, id);
  }

  // ---------------------------------------------------------------- the skew hint

  const TIMESTAMP_UNIT: nat := 0x1_0000_0000_0000_0000_0000  // 80 random bits below the 48-bit timestamp

  function TimestampMs(u: Ulid): nat {
    u / TIMESTAMP_UNIT
  }

  /** A ULID's timestamp is its upper 48 bits, above 80 random ones. */
  lemma TimestampReadsBack(ms: nat, random: nat)
    requires ms < 0x1_0000_0000_0000 && random < 0x1_0000_0000_0000_0000_0000
    ensures ms * 0x1_0000_0000_0000_0000_0000 + random < ULID_LIMIT
    ensures TimestampMs(ms * 0x1_0000_0000_0000_0000_0000 + random) == ms
  {
  }

  /** `checked_sub` followed by `filter(|delta| delta > 0)`. */
  function PossibleClockSkewMs(attempted: Revision, actual: Revision): Option<nat> {
    var a, b := TimestampMs(attempted), TimestampMs(actual);
    if b < a || b - a == 0 then None else Some(b - a)
  }

  /** In a blind conflict the hint is absent exactly when both revisions carry the same millisecond, and otherwise
      is their exact gap. */
  lemma SkewHintOfBlindConflict(rows: seq<Row>, id: AggregateId, options: PublishOptions, raws: seq<RawEvent>,
                                mints: seq<Mint>, n: nat, clock: Ulid)
    requires n <= |raws| && n <= |mints| && MintedAfter(clock, mints)
    requires Increasing(Select(rows, id)) && options.expected.None?
    requires RunTx(rows, id, options, raws, mints, n).Conflicted?
    ensures var c := RunTx(rows, id, options, raws, mints, n).conflict;
            var hint := PossibleClockSkewMs(c.attempted, c.actual);
            (hint.None? <==> TimestampMs(c.attempted) == TimestampMs(c.actual)) &&
            (hint.Some? ==> hint.value > 0 && TimestampMs(c.attempted) + hint.value == TimestampMs(c.actual))
  {
    ConflictIsAtFirstInsert(rows, id, options, raws, mints, n, clock);
    var c := RunTx(rows, id, options, raws, mints, n).conflict;
    assert TimestampMs(c.attempted) <= TimestampMs(c.actual);
  }
}
