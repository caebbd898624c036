/** The SQLite store's publish path: one transaction inside a busy loop, inside a conflict loop, inside a
    partition-not-ready loop.

    Library outcomes that the code cannot predict (a busy database, a failed commit, a missing namespace, the value
    that a generator mints) are nondeterministic choices; delays are nothing.  Whatever other writers commit between
    two attempts is `Database.Interfere`.  The store counts, for its contracts only, the attempts, the conflicts, the
    openings of partitions, and by kind the faults that the libraries have produced: so the contracts can say that
    nothing but a fault is reported as one, and nothing else is retried. */
module SqliteStore {
  import opened Core
  import opened AppendLog
  import opened Minting
  import opened SqliteTable

  const MAX_AUTO_RETRIES: nat := 5
  const MAX_BUSY_RETRIES: nat := 8
  const PARTITION_READY_ATTEMPTS: nat := 30

  /** `Busy`: SQLITE_BUSY or SQLITE_LOCKED.  `NotReady`: the namespace does not exist yet. */
  datatype StoreError = Busy | NotReady | Failure

  datatype AttemptError = Conflict(conflict: PublishConflict) | Store(error: StoreError)

  datatype RetryDiagnostics = RetryDiagnostics(lastAttempted: Revision, observedMax: Revision, skewMs: Option<nat>)

  datatype PublishError =
    | RevisionConflict(expected: Revision, actual: Revision)
    | RetryExhausted(attempts: nat, diagnostics: RetryDiagnostics)
    | StoreFailed(error: StoreError)

  /** The commits that one publish call contributed to a history. */
  ghost function CommitsBy(call: nat, history: seq<Commit>, callers: seq<nat>): seq<Commit>
    requires |history| == |callers|
  {
    if history == [] then []
    else
      var n := |history| - 1;
      CommitsBy(call, history[..n], callers[..n]) + if callers[n] == call then [history[n]] else []
  }

  lemma CommitsBySnoc(call: nat, history: seq<Commit>, callers: seq<nat>, c: Commit, caller: nat)
    requires |history| == |callers|
    ensures CommitsBy(call, history + [c], callers + [caller])
            == CommitsBy(call, history, callers) + if caller == call then [c] else []
  {
    assert (history + [c])[..|history|] == history;
    assert (callers + [caller])[..|callers|] == callers;
  }

  /** The shared database of one partition.  `history` and `callers` record every commit and whose call made it. */
  class Database {
    var rows: seq<Row>
    ghost var history: seq<Commit>
    ghost var callers: seq<nat>

    ghost predicate Valid()
      reads this
    {
      |callers| == |history| && TableIsLog(rows, history)
    }

    ghost function By(call: nat): seq<Commit>
      requires Valid()
      reads this
    {
      CommitsBy(call, history, callers)
    }

    constructor ()
      ensures Valid() && rows == [] && history == []
    {
      rows, history, callers := [], [], [];
    }

    /** Makes a finished transaction permanent. */
    method Commit(call: nat, id: AggregateId, options: PublishOptions, raws: seq<RawEvent>, mints: seq<Mint>,
                  clock: Ulid)
      returns (recorded: seq<Event>)
      requires Valid() && 0 < |raws| == |mints| && MintedAfter(clock, mints)
      requires RunTx(rows, id, options, raws, mints, |raws|).Open?
      modifies this
      ensures Valid()
      ensures recorded == RecordAll(raws, options.metadata, mints) && rows == old(rows) + RowsFor(id, recorded)
      ensures history == old(history) + [AppendLog.Commit(id, options.expected, recorded)]
      ensures forall other :: By(other) ==
                old(By(other)) + if other == call then [AppendLog.Commit(id, options.expected, recorded)] else []
    {
      CommitExtendsLog(rows, history, id, options, raws, mints, clock);
      OpenTxRecords(rows, id, options, raws, mints, |raws|);
      var tx := RunTx(rows, id, options, raws, mints, |raws|);
      ghost var c := AppendLog.Commit(id, options.expected, tx.recorded);
      forall other ensures CommitsBy(other, history + [c], callers + [call]) ==
                             CommitsBy(other, history, callers) + if other == call then [c] else [] {
        CommitsBySnoc(other, history, callers, c, call);
      }
      rows, history, callers := tx.rows, history + [c], callers + [call];
      return tx.recorded;
    }

    /** Any number of other publish calls, of this or any other store instance, commit. */
    method Interfere(call: nat)
      requires Valid()
      modifies this
      ensures Valid() && old(history) <= history && By(call) == old(By(call))
    {
      var steps: int := *;
      while 0 < steps
        invariant Valid() && old(history) <= history && By(call) == old(By(call))
      {
        var other: nat, id: AggregateId, options: PublishOptions, raws: seq<RawEvent> := *, *, *, *;
        var mints: seq<Mint>, clock: Ulid := *, *;
        if other != call && 0 < |raws| == |mints| && MintedAfter(clock, mints) {
          var tx := RunTx(rows, id, options, raws, mints, |raws|);
          if tx.Open? {
            var _ := Commit(other, id, options, raws, mints, clock);
          }
        }
        steps := steps - 1;
      }
    }
  }

  class EventStore {
    const db: Database
    const strategy: AggregateId -> Result<string, StoreError>
    var last: Ulid
    var connections: set<string>
    ghost var attempts: nat
    ghost var conflicts: nat
    ghost var opens: nat
    ghost var faults: multiset<StoreError>

    constructor (db: Database, strategy: AggregateId -> Result<string, StoreError>)
      ensures this.db == db && this.strategy == strategy && last == 0 && connections == {}
      ensures attempts == conflicts == opens == 0 && faults == multiset{}
    {
      this.db, this.strategy, last, connections := db, strategy, 0, {};
      attempts, conflicts, opens, faults := 0, 0, 0, multiset{};
    }

    /** A library call that may fail, in any of the ways the code tells apart. */
    method CallLibrary() returns (failure: Option<StoreError>)
      modifies this`faults
      ensures faults == if failure.Some? then old(faults) + multiset{failure.value} else old(faults)
    {
      failure := *;
      if failure.Some? {
        faults := faults + multiset{failure.value};
      }
    }

    /** A successful `Generator::generate` is strictly above everything it returned before. */
    method GenerateUlid() returns (r: Option<Ulid>)
      modifies this`last, this`faults
      ensures if r.Some? then old(last) < r.value == last else last == old(last)
      ensures faults == if r.Some? then old(faults) else old(faults) + multiset{Failure}
    {
      var next: Ulid := *;
      if next > last {
        last := next;
        return Some(next);
      }
      faults := faults + multiset{Failure};
      return None;
    }

    /** The INSERTs of one transaction over `rows`: either all go through, with the returned mints, or the first one
        changes nothing, or something fails. */
    method InsertAll(rows: seq<Row>, id: AggregateId, options: PublishOptions, raws: seq<RawEvent>)
      returns (r: Result<seq<Mint>, AttemptError>)
      requires Increasing(Select(rows, id))
      modifies this`last, this`faults
      ensures Accounted(old(faults), faults, rows, old(last), FaultOf(r))
      ensures r.Ok? ==>
                |r.value| == |raws| && MintedAfter(old(last), r.value) &&
                RunTx(rows, id, options, raws, r.value, |raws|).Open?
      ensures r.Err? && r.error.Conflict? ==>
                ConflictReport(Select(rows, id), options.expected, old(last), r.error.conflict)
      ensures old(last) <= last
    {
      var tx, recorded, mints, clock := rows, [], [], last;
      assert RunTx(rows, id, options, raws, mints, 0) == Open(tx, recorded) && MintedAfter(clock, mints);
      hide Insert, RunTx, MintedAfter, ConflictReport, IdCollision, Select;  // NextInsert does the step
      for index := 0 to |raws|
        invariant |mints| == index && Minted(clock, mints, last) && faults == old(faults)
        invariant RunTx(rows, id, options, raws, mints, index) == Open(tx, recorded)
      {
        ghost var before := last;
        var eventId := GenerateUlid();
        if eventId.None? { return Err(Store(Failure)); }
        var revision := GenerateUlid();
        if revision.None? { return Err(Store(Failure)); }
        var mint := Mint(eventId.value, revision.value);
        MintOneMore(clock, mints, before, mint);
        NextInsert(rows, id, options, raws, mints, mint, clock, index);
        mints := mints + [mint];
        var failure := CallLibrary();  // the INSERT itself, or SELECT MAX(revision) behind it
        if failure.Some? { return Err(Store(failure.value)); }
        match Insert(tx, recorded, id, options, raws[index], mint, index) {
          case Conflicted(_, conflict) =>
            return Err(Conflict(conflict));
          case Duplicate(_) =>
            return Err(Store(Failure));
          case Open(tx', recorded') =>
            tx, recorded := tx', recorded';
        }
      }
      return Ok(mints);
    }

    /** One immediate transaction.  On success the database has gained exactly one commit, made of the returned
        changeset; on any error it has gained nothing.  A conflict is one of the first INSERT. */
    method TryPublishOnce(call: nat, id: AggregateId, options: PublishOptions, raws: seq<RawEvent>)
      returns (r: Result<ChangeSet, AttemptError>)
      requires db.Valid() && raws != []
      modifies this`last, this`attempts, this`conflicts, this`faults, db
      ensures db.Valid() && attempts == old(attempts) + 1 && old(last) <= last
      ensures conflicts == old(conflicts) + if r.Err? && r.error.Conflict? then 1 else 0
      ensures Accounted(old(faults), faults, db.rows, old(last), FaultOf(r))
      ensures AttemptReport(id, options, raws, Select(db.rows, id), old(last), r)
      ensures r.Err? ==> unchanged(db)
      ensures r.Ok? ==>
                db.history == old(db.history) + [Commit(id, options.expected, r.value.events)] &&
                db.By(call) == old(db.By(call)) + [Commit(id, options.expected, r.value.events)]
    {
      hide ConflictReport, Accounted, Explained, TableIsLog, CommitsBy, RunTx, MintedAfter, Select, Stream;
      OneFault(faults, db.rows, last);
      attempts := attempts + 1;
      var clock := last;
      var failure := CallLibrary();  // BEGIN IMMEDIATE
      if failure.Some? { return Err(Store(failure.value)); }
      LoadIsStream(db.rows, db.history, id);
      ghost var before := faults;
      var inserted := InsertAll(db.rows, id, options, raws);
      AccountedIsExplained(before, faults, db.rows, clock, FaultOf(inserted));
      if inserted.Err? {
        conflicts := conflicts + if inserted.error.Conflict? then 1 else 0;
        return Err(inserted.error);
      }
      failure := CallLibrary();  // COMMIT
      if failure.Some? { return Err(Store(failure.value)); }
      var recorded := db.Commit(call, id, options, raws, inserted.value, clock);
      OneFault(faults, db.rows, clock);
      return Ok(ChangeSet(id, recorded[|recorded| - 1].revision, recorded));
    }

    /** One attempt and up to 8 more while the database is busy. */
    method TryPublishWhileBusy(call: nat, id: AggregateId, options: PublishOptions, raws: seq<RawEvent>)
      returns (r: Result<ChangeSet, AttemptError>)
      requires db.Valid() && raws != [] && db.By(call) == []
      modifies this`last, this`attempts, this`conflicts, this`faults, db
      ensures db.Valid() && old(db.history) <= db.history && old(last) <= last
      ensures old(attempts) < attempts <= old(attempts) + 9 && (r == Err(Store(Busy)) ==> attempts == old(attempts) + 9)
      ensures attempts + old(faults[Busy]) == old(attempts) + faults[Busy] + if r == Err(Store(Busy)) then 0 else 1
      ensures conflicts == old(conflicts) + if r.Err? && r.error.Conflict? then 1 else 0
      ensures faults[NotReady] == old(faults[NotReady]) + if r == Err(Store(NotReady)) then 1 else 0
      ensures Explained(old(faults), faults, db.rows, old(last), FaultOf(r))
      ensures AttemptReport(id, options, raws, Select(db.rows, id), old(last), r)
      ensures db.By(call) == if r.Ok? then [Commit(id, options.expected, r.value.events)] else []
    {
      hide AttemptReport, TableIsLog, CommitsBy, Accounted, Explained;
      db.Interfere(call);
      ghost var clock, before := last, faults;
      r := TryPublishOnce(call, id, options, raws);
      AccountedIsExplained(before, faults, db.rows, clock, FaultOf(r));
      ExplainedFromEarlier(old(faults), before, faults, db.rows, clock, old(last), FaultOf(r));
      ReportFromEarlier(id, options, raws, Select(db.rows, id), clock, old(last), r);
      for busyAttempt := 0 to MAX_BUSY_RETRIES
        invariant db.Valid() && old(db.history) <= db.history && old(last) <= last
        invariant attempts == old(attempts) + 1 + busyAttempt
        invariant attempts + old(faults[Busy]) == old(attempts) + faults[Busy] + if r == Err(Store(Busy)) then 0 else 1
        invariant conflicts == old(conflicts) + if r.Err? && r.error.Conflict? then 1 else 0
        invariant faults[NotReady] == old(faults[NotReady]) + if r == Err(Store(NotReady)) then 1 else 0
        invariant Explained(old(faults), faults, db.rows, old(last), FaultOf(r)) && old(faults) <= faults
        invariant AttemptReport(id, options, raws, Select(db.rows, id), old(last), r)
        invariant db.By(call) == if r.Ok? then [Commit(id, options.expected, r.value.events)] else []
      {
        if r.Err? && r.error == Store(Busy) {
          db.Interfere(call);
          clock, before := last, faults;
          r := TryPublishOnce(call, id, options, raws);
          AccountedIsExplained(before, faults, db.rows, clock, FaultOf(r));
          ExplainedFromEarlier(old(faults), before, faults, db.rows, clock, old(last), FaultOf(r));
          ReportFromEarlier(id, options, raws, Select(db.rows, id), clock, old(last), r);
        } else {
          break;
        }
      }
    }

    /** Exactly once: `Ok` means that this call committed exactly the returned changeset, any error that it committed
        nothing, in at most 5 * 9 attempts.  Errors name the revision that the stream has.  An empty batch commits
        nothing, never conflicts, and reports the stream's revision, whatever revision was expected. */
    method PublishWithConnection(call: nat, id: AggregateId, options: PublishOptions, raws: seq<RawEvent>)
      returns (r: Result<ChangeSet, PublishError>)
      requires db.Valid() && db.By(call) == []
      modifies this`last, this`attempts, this`conflicts, this`faults, db
      ensures db.Valid() && old(db.history) <= db.history && old(last) <= last
      ensures old(attempts) <= attempts <= old(attempts) + 5 * 9
      ensures options.expected.Some? ==> attempts <= old(attempts) + 9
      ensures options.expected.Some? || RanOut(r) ==> conflicts == old(conflicts) + ConflictsReported(r)
      ensures old(conflicts) <= conflicts && (!RanOut(r) ==> conflicts < old(conflicts) + 5)
      ensures raws == [] ==> attempts == old(attempts) && conflicts == old(conflicts)
      ensures raws != [] ==>
                attempts + old(faults[Busy]) + old(conflicts) ==
                old(attempts) + faults[Busy] + conflicts + LastAttempt(r)
      ensures faults[NotReady] == old(faults[NotReady]) + if r == Err(StoreFailed(NotReady)) then 1 else 0
      ensures Explained(old(faults), faults, db.rows, old(last), FaultReported(r))
      ensures r.Err? && r.error.RetryExhausted? ==> old(attempts) + 5 <= attempts
      ensures r == Err(StoreFailed(Busy)) && raws != [] ==> old(attempts) + 9 <= attempts
      ensures db.By(call) == Contribution(id, options, raws, r)
      ensures r.Ok? ==> Faithful(id, options, raws, old(last), r.value)
      ensures r.Ok? && raws == [] ==> r.value.revision == LastRevision(Stream(db.history, id))
      ensures r.Err? ==> ErrorReport(options.expected, Select(db.rows, id), old(last), r.error)
      ensures r.Err? && raws == [] ==> r.error.StoreFailed?
    {
      hide Explained, MintedBatch, AttemptReport, ErrorReport, HonestDiagnostics, PossibleClockSkewMs, TableIsLog,
           Stream, CommitsBy;
      if raws == [] {
        ghost var before := faults;
        var failure := CallLibrary();
        OneFault(before, db.rows, last);
        AccountedIsExplained(before, faults, db.rows, last, failure);
        FaultIsReported(options.expected, Select(db.rows, id), old(last));
        if failure.Some? { return Err(StoreFailed(failure.value)); }
        var aggregate := Load(db.rows, id);
        LoadIsStream(db.rows, db.history, id);
        NothingIsMinted(options.metadata, old(last));
        return Ok(ChangeSet(id, aggregate.revision, []));
      }

      var canAutoRetry := options.expected.None?;
      var maxAttempts := if canAutoRetry then MAX_AUTO_RETRIES else 1;
      var lastConflict: Option<RetryDiagnostics> := None;
      for attempt := 0 to maxAttempts
        invariant db.Valid() && old(db.history) <= db.history && db.By(call) == []
        invariant old(attempts) + attempt <= attempts <= old(attempts) + attempt * 9 && old(last) <= last
        invariant attempt > 0 ==> canAutoRetry && lastConflict.Some?
        invariant conflicts == old(conflicts) + attempt && faults[NotReady] == old(faults[NotReady])
        invariant attempts + old(faults[Busy]) == old(attempts) + faults[Busy] + attempt
        invariant old(faults) <= faults
        invariant lastConflict.Some? ==> HonestDiagnostics(Select(db.rows, id), old(last), lastConflict.value)
      {
        ghost var clock, before := last, faults;
        var result := TryPublishWhileBusy(call, id, options, raws);
        ExplainedFromEarlier(old(faults), before, faults, db.rows, clock, old(last), FaultOf(result));
        ReportFromEarlier(id, options, raws, Select(db.rows, id), clock, old(last), result);
        AttemptIsReported(id, options, raws, Select(db.rows, id), old(last), result);
        match result {
          case Ok(changeset) => return Ok(changeset);
          case Err(Conflict(conflict)) =>
            if canAutoRetry {
              lastConflict := Some(RetryDiagnostics(conflict.attempted, conflict.actual,
                                                    PossibleClockSkewMs(conflict.attempted, conflict.actual)));
            } else {
              return Err(RevisionConflict(conflict.expected, conflict.actual));
            }
          case Err(Store(error)) => return Err(StoreFailed(error));
        }
      }
      NoFaultReported(old(faults), faults, db.rows, old(last));
      ExhaustionIsReported(Select(db.rows, id), old(last), lastConflict.value);
      assert lastConflict.Some?;  // the `expect` on the last conflict
      return Err(RetryExhausted(maxAttempts, lastConflict.value));
    }

    method EnsurePartitionOpen(partition: string) returns (r: Result<(), StoreError>)
      modifies this`connections, this`opens, this`faults
      ensures opens == old(opens) + 1
      ensures faults == if r.Err? then old(faults) + multiset{r.error} else old(faults)
      ensures connections == if r.Ok? then old(connections) + {partition} else old(connections)
    {
      opens := opens + 1;
      if partition !in connections {
        var failure := CallLibrary();
        if failure.Some? { return Err(failure.value); }
        connections := connections + {partition};
      }
      return Ok(());
    }

    /** One round of the outer loop: open the partition and publish through the connection. */
    method OpenAndPublish(call: nat, id: AggregateId, options: PublishOptions, raws: seq<RawEvent>, partition: string)
      returns (r: Result<ChangeSet, PublishError>)
      requires db.Valid() && db.By(call) == []
      modifies this`last, this`attempts, this`conflicts, this`opens, this`faults, this`connections, db
      ensures db.Valid() && old(db.history) <= db.history && old(last) <= last
      ensures old(attempts) <= attempts <= old(attempts) + 5 * 9 && opens == old(opens) + 1
      ensures options.expected.Some? ==>
                attempts <= old(attempts) + 9 && conflicts == old(conflicts) + ConflictsReported(r)
      ensures faults[NotReady] == old(faults[NotReady]) + if r == Err(StoreFailed(NotReady)) then 1 else 0
      ensures Explained(old(faults), faults, db.rows, old(last), FaultReported(r)) && old(faults) <= faults
      ensures db.By(call) == Contribution(id, options, raws, r)
      ensures r.Ok? ==> Faithful(id, options, raws, old(last), r.value)
      ensures r.Ok? && raws == [] ==> r.value.revision == LastRevision(Stream(db.history, id))
      ensures r.Err? ==> ErrorReport(options.expected, Select(db.rows, id), old(last), r.error)
      ensures r.Err? && raws == [] ==> r.error.StoreFailed?
    {
      hide Explained, Faithful, ErrorReport, TableIsLog, CommitsBy, Stream, Select;
      ghost var before := faults;
      var open := EnsurePartitionOpen(partition);
      if open.Err? {
        OneFault(before, db.rows, last);
        AccountedIsExplained(before, faults, db.rows, last, Some(open.error));
        FaultIsReported(options.expected, Select(db.rows, id), last);
        return Err(StoreFailed(open.error));
      }
      db.Interfere(call);
      r := PublishWithConnection(call, id, options, raws);
      ExplainedFromEarlier(before, before, faults, db.rows, old(last), old(last), FaultReported(r));
    }

    /** Exactly once through all three loops, in at most 30 * 5 * 9 attempts; a partition is opened again only because
        it was not ready, and given up as such after thirty openings. */
    method PublishToAggregate(call: nat, id: AggregateId, options: PublishOptions, raws: seq<RawEvent>)
      returns (r: Result<ChangeSet, PublishError>)
      requires db.Valid() && db.By(call) == []
      modifies this`last, this`attempts, this`conflicts, this`opens, this`faults, this`connections, db
      ensures db.Valid() && old(db.history) <= db.history && attempts <= old(attempts) + 30 * 5 * 9
      ensures options.expected.Some? ==>
                attempts <= old(attempts) + 30 * 9 && conflicts == old(conflicts) + ConflictsReported(r)
      ensures strategy(id).Err? ==> r == Err(StoreFailed(strategy(id).error)) && opens == old(opens)
      ensures strategy(id).Ok? ==>
                opens <= old(opens) + 30 && (r == Err(StoreFailed(NotReady)) ==> opens == old(opens) + 30) &&
                opens + old(faults[NotReady]) ==
                old(opens) + faults[NotReady] + (if r == Err(StoreFailed(NotReady)) then 0 else 1) &&
                Explained(old(faults), faults, db.rows, old(last), FaultReported(r))
      ensures db.By(call) == Contribution(id, options, raws, r)
      ensures r.Ok? ==> Faithful(id, options, raws, old(last), r.value)
      ensures r.Ok? && raws == [] ==> r.value.revision == LastRevision(Stream(db.history, id))
      ensures r.Err? ==> ErrorReport(options.expected, Select(db.rows, id), old(last), r.error)
      ensures r.Err? && raws == [] ==> r.error.StoreFailed?
    {
      hide Explained, Faithful, ErrorReport, TableIsLog, CommitsBy, Stream, Select;
      var partition: string;
      FaultIsReported(options.expected, Select(db.rows, id), old(last));
      match strategy(id) {
        case Ok(p) => partition := p;
        case Err(error) => return Err(StoreFailed(error));
      }
      for attempt := 0 to PARTITION_READY_ATTEMPTS
        invariant db.Valid() && old(db.history) <= db.history && db.By(call) == []
        invariant attempts <= old(attempts) + attempt * (5 * 9) && old(last) <= last
        invariant options.expected.Some? ==> attempts <= old(attempts) + attempt * 9 && conflicts == old(conflicts)
        invariant opens == old(opens) + attempt && faults[NotReady] == old(faults[NotReady]) + attempt
        invariant old(faults) <= faults && attempt < PARTITION_READY_ATTEMPTS
      {
        ghost var clock, before := last, faults;
        r := OpenAndPublish(call, id, options, raws, partition);
        ExplainedFromEarlier(old(faults), before, faults, db.rows, clock, old(last), FaultReported(r));
        if r.Ok? {
          FaithfulFromEarlier(id, options, raws, clock, old(last), r.value);
        } else {
          ErrorFromEarlier(options.expected, Select(db.rows, id), clock, old(last), r.error);
        }
        if r.Err? && r.error == StoreFailed(NotReady) && attempt + 1 < PARTITION_READY_ATTEMPTS {
          connections := connections - {partition};
        } else {
          return;
        }
      }
      assert false;  // the `unreachable!` behind the loop
    }
  }

  /** The fault that an attempt reports. */
  function FaultOf<T>(r: Result<T, AttemptError>): Option<StoreError> {
    if r.Err? && r.error.Store? then Some(r.error.error) else None
  }

  function FaultReported(r: Result<ChangeSet, PublishError>): Option<StoreError> {
    if r.Err? && r.error.StoreFailed? then Some(r.error.error) else None
  }

  /** A ULID that the generator could still mint is in the table: another writer's clock was ahead. */
  ghost predicate IdCollision(rows: seq<Row>, clock: Ulid) {
    exists u: Ulid :: clock < u && EventIdTaken(rows, u)
  }

  /** One attempt reports exactly the one fault that occurred in it, unless an event id collided. */
  ghost predicate Accounted(before: multiset<StoreError>, after: multiset<StoreError>, rows: seq<Row>, clock: Ulid,
                            fault: Option<StoreError>) {
    match fault
    case None => after == before
    case Some(e) => after == before + multiset{e} || (after == before && e == Failure && IdCollision(rows, clock))
  }

  /** What is reported as a fault did occur, unless an event id collided. */
  ghost predicate Explained(before: multiset<StoreError>, after: multiset<StoreError>, rows: seq<Row>, clock: Ulid,
                            fault: Option<StoreError>) {
    before <= after &&
    (fault.Some? ==> before[fault.value] < after[fault.value] || (fault.value == Failure && IdCollision(rows, clock)))
  }

  lemma OneFault(before: multiset<StoreError>, rows: seq<Row>, clock: Ulid)
    ensures Accounted(before, before, rows, clock, None)
    ensures forall e :: Accounted(before, before + multiset{e}, rows, clock, Some(e))
  {
  }

  lemma NoFaultReported(before: multiset<StoreError>, after: multiset<StoreError>, rows: seq<Row>, clock: Ulid)
    requires before <= after
    ensures Explained(before, after, rows, clock, None)
  {
  }

  lemma AccountedIsExplained(before: multiset<StoreError>, after: multiset<StoreError>, rows: seq<Row>, clock: Ulid,
                             fault: Option<StoreError>)
    requires Accounted(before, after, rows, clock, fault)
    ensures Explained(before, after, rows, clock, fault) && (fault.None? ==> after == before)
    ensures after[Busy] == before[Busy] + if fault == Some(Busy) then 1 else 0
    ensures after[NotReady] == before[NotReady] + if fault == Some(NotReady) then 1 else 0
  {
  }

  lemma ExplainedFromEarlier(start: multiset<StoreError>, before: multiset<StoreError>, after: multiset<StoreError>,
                             rows: seq<Row>, clock: Ulid, earlier: Ulid, fault: Option<StoreError>)
    requires start <= before && earlier <= clock && Explained(before, after, rows, clock, fault)
    ensures Explained(start, after, rows, earlier, fault) && start <= after
  {
  }

  predicate RanOut(r: Result<ChangeSet, PublishError>) {
    r.Err? && r.error.RetryExhausted?
  }

  /** The conflicts behind a report. */
  function ConflictsReported(r: Result<ChangeSet, PublishError>): nat {
    if RanOut(r) then 5 else if r.Err? && r.error.RevisionConflict? then 1 else 0
  }

  /** Whether the last attempt ended neither busy nor in a conflict. */
  function LastAttempt(r: Result<ChangeSet, PublishError>): nat {
    if r.Ok? || (r.error.StoreFailed? && r.error.error != Busy) then 1 else 0
  }

  /** What a conflict tells about the stream it lost against, at a generator that stood at `clock`. */
  ghost predicate ConflictReport(stream: seq<Event>, expected: Option<Revision>, clock: Ulid, c: PublishConflict) {
    c.actual == LastRevision(stream) && clock < c.attempted &&
    match expected
    case None => c.attempted <= c.actual && c.expected == c.attempted
    case Some(e) => c.expected == e && (if e == ZERO then c.actual != ZERO else c.actual != e || c.attempted <= e)
  }

  ghost predicate HonestDiagnostics(stream: seq<Event>, clock: Ulid, d: RetryDiagnostics) {
    clock < d.lastAttempted <= d.observedMax == LastRevision(stream) &&
    (d.skewMs.None? <==> TimestampMs(d.lastAttempted) == TimestampMs(d.observedMax)) &&
    (d.skewMs.Some? ==> d.skewMs.value > 0 &&
                        TimestampMs(d.lastAttempted) + d.skewMs.value == TimestampMs(d.observedMax))
  }

  /** A blind conflict makes honest diagnostics, any other an honest revision conflict. */
  lemma ConflictIsReported(stream: seq<Event>, expected: Option<Revision>, clock: Ulid, c: PublishConflict)
    requires ConflictReport(stream, expected, clock, c)
    ensures expected.None? ==>
              HonestDiagnostics(stream, clock, RetryDiagnostics(c.attempted, c.actual,
                                                                PossibleClockSkewMs(c.attempted, c.actual)))
    ensures expected.Some? ==> ErrorReport(expected, stream, clock, RevisionConflict(c.expected, c.actual))
  {
    assert c.attempted <= c.actual ==> TimestampMs(c.attempted) <= TimestampMs(c.actual);
  }

  lemma FaultIsReported(expected: Option<Revision>, stream: seq<Event>, clock: Ulid)
    ensures forall e :: ErrorReport(expected, stream, clock, StoreFailed(e))
  {
  }

  lemma ExhaustionIsReported(stream: seq<Event>, clock: Ulid, d: RetryDiagnostics)
    requires HonestDiagnostics(stream, clock, d)
    ensures ErrorReport(None, stream, clock, RetryExhausted(MAX_AUTO_RETRIES, d))
  {
  }

  /** How each outcome of an attempt may be passed on. */
  lemma AttemptIsReported(id: AggregateId, options: PublishOptions, raws: seq<RawEvent>, stream: seq<Event>,
                          clock: Ulid, result: Result<ChangeSet, AttemptError>)
    requires AttemptReport(id, options, raws, stream, clock, result)
    ensures match result
            case Ok(cs) => Faithful(id, options, raws, clock, cs)
            case Err(Conflict(c)) =>
              if options.expected.Some? then
                ErrorReport(options.expected, stream, clock, RevisionConflict(c.expected, c.actual))
              else
                HonestDiagnostics(stream, clock, RetryDiagnostics(c.attempted, c.actual,
                                                                  PossibleClockSkewMs(c.attempted, c.actual)))
            case Err(Store(e)) => ErrorReport(options.expected, stream, clock, StoreFailed(e))
  {
    if result.Err? && result.error.Conflict? {
      ConflictIsReported(stream, options.expected, clock, result.error.conflict);
    }
  }

  lemma LoadIsStream(rows: seq<Row>, history: seq<Commit>, id: AggregateId)
    requires TableIsLog(rows, history)
    ensures Load(rows, id) == FromEvents(id, Stream(history, id)) && Increasing(Select(rows, id))
  {
    assert Agrees(rows, history, id);
    StreamsIncrease(history, id);
    LoadOfIncreasing(rows, id);
  }

  lemma NothingIsMinted(metadata: Metadata, clock: Ulid)
    ensures MintedBatch([], [], metadata, clock)
  {
    var mints: seq<Mint> := [];
    assert MintedAfter(clock, mints) && RecordAll([], metadata, mints) == [];
  }

  ghost predicate AttemptReport(id: AggregateId, options: PublishOptions, raws: seq<RawEvent>, stream: seq<Event>,
                                clock: Ulid, result: Result<ChangeSet, AttemptError>) {
    match result
    case Ok(cs) => Faithful(id, options, raws, clock, cs)
    case Err(Conflict(c)) => ConflictReport(stream, options.expected, clock, c)
    case Err(Store(_)) => true
  }

  /** The commits that a publish call with this result has made. */
  ghost function Contribution(id: AggregateId, options: PublishOptions, raws: seq<RawEvent>,
                              r: Result<ChangeSet, PublishError>): seq<Commit> {
    if r.Ok? && raws != [] then [Commit(id, options.expected, r.value.events)] else []
  }

  /** The changeset is the raw batch, recorded under ids and revisions minted since the generator stood at `clock`. */
  ghost predicate Faithful(id: AggregateId, options: PublishOptions, raws: seq<RawEvent>, clock: Ulid, cs: ChangeSet) {
    cs.id == id && MintedBatch(cs.events, raws, options.metadata, clock) &&
    (raws != [] ==> cs.revision == LastRevision(cs.events))
  }

  lemma FaithfulFromEarlier(id: AggregateId, options: PublishOptions, raws: seq<RawEvent>, clock: Ulid, earlier: Ulid,
                            cs: ChangeSet)
    requires earlier <= clock && Faithful(id, options, raws, clock, cs)
    ensures Faithful(id, options, raws, earlier, cs)
  {
    MintedBatchCarries(cs.events, raws, options.metadata, clock, earlier);
  }

  lemma ReportFromEarlier(id: AggregateId, options: PublishOptions, raws: seq<RawEvent>, stream: seq<Event>,
                          clock: Ulid, earlier: Ulid, result: Result<ChangeSet, AttemptError>)
    requires earlier <= clock && AttemptReport(id, options, raws, stream, clock, result)
    ensures AttemptReport(id, options, raws, stream, earlier, result)
  {
    if result.Ok? {
      FaithfulFromEarlier(id, options, raws, clock, earlier, result.value);
    }
  }

  /** A revision conflict is reported to callers that expected a revision, exhaustion to those that did not.  Both name
      the revision that the stream really has; a conflict with the very revision that was expected comes only from a
      writer whose generator lags behind it. */
  ghost predicate ErrorReport(expected: Option<Revision>, stream: seq<Event>, clock: Ulid, error: PublishError) {
    match error
    case RevisionConflict(e, actual) =>
      expected == Some(e) && actual == LastRevision(stream) && (actual == e ==> clock < e)
    case RetryExhausted(n, d) => expected.None? && n == MAX_AUTO_RETRIES && HonestDiagnostics(stream, clock, d)
    case StoreFailed(_) => true
  }

  lemma ErrorFromEarlier(expected: Option<Revision>, stream: seq<Event>, clock: Ulid, earlier: Ulid,
                         error: PublishError)
    requires earlier <= clock && ErrorReport(expected, stream, clock, error)
    ensures ErrorReport(expected, stream, earlier, error)
  {
  }

  /** Minted after `clock`, by a generator that now stands at or past all of it. */
  ghost predicate Minted(clock: Ulid, mints: seq<Mint>, last: Ulid) {
    clock <= last && MintedAfter(clock, mints) && forall i :: 0 <= i < |mints| ==> mints[i].revision <= last
  }

  lemma MintOneMore(clock: Ulid, mints: seq<Mint>, last: Ulid, mint: Mint)
    requires Minted(clock, mints, last) && last < mint.eventId < mint.revision
    ensures Minted(clock, mints + [mint], mint.revision)
  {
  }

  /** The loop's step: with one more mint the transaction does one more INSERT on what it has. */
  lemma NextInsert(rows: seq<Row>, id: AggregateId, options: PublishOptions, raws: seq<RawEvent>, mints: seq<Mint>,
                   mint: Mint, clock: Ulid, index: nat)
    requires index == |mints| < |raws| && RunTx(rows, id, options, raws, mints, index).Open?
    requires Increasing(Select(rows, id))
    requires MintedAfter(clock, mints + [mint])
    ensures var tx := RunTx(rows, id, options, raws, mints, index);
            var after := Insert(tx.rows, tx.recorded, id, options, raws[index], mint, index);
            RunTx(rows, id, options, raws, mints + [mint], index + 1) == after &&
            (after.Conflicted? ==> ConflictReport(Select(rows, id), options.expected, clock, after.conflict)) &&
            (after.Duplicate? ==> IdCollision(rows, clock))
  {
    RunTxIgnoresLaterMints(rows, id, options, raws, mints, mints + [mint], index);
    if RunTx(rows, id, options, raws, mints + [mint], index + 1).Conflicted? {
      ConflictIsAtFirstInsert(rows, id, options, raws, mints + [mint], index + 1, clock);
    }
    DuplicateIsTaken(rows, id, options, raws, mints + [mint], clock, index);
  }

  /** Only an event id that was in the table before stops a transaction as a duplicate. */
  lemma DuplicateIsTaken(rows: seq<Row>, id: AggregateId, options: PublishOptions, raws: seq<RawEvent>,
                         mints: seq<Mint>, clock: Ulid, index: nat)
    requires index + 1 == |mints| <= |raws| && MintedAfter(clock, mints)
    requires RunTx(rows, id, options, raws, mints, index).Open?
    ensures RunTx(rows, id, options, raws, mints, index + 1).Duplicate? ==> IdCollision(rows, clock)
  {
    hide Where, Select;
    var tx := RunTx(rows, id, options, raws, mints, index);
    OpenTxRecords(rows, id, options, raws, mints, index);
    OwnIdsAreFresh(rows, id, tx.recorded, mints, index);
    assert clock < mints[index].eventId;
  }

  /** Mints made later do not change what earlier INSERTs did. */
  lemma {:induction false} RunTxIgnoresLaterMints(rows: seq<Row>, id: AggregateId, options: PublishOptions,
                                                  raws: seq<RawEvent>, mints: seq<Mint>, more: seq<Mint>, n: nat)
    requires n <= |raws| && n <= |mints| && mints <= more
    ensures RunTx(rows, id, options, raws, mints, n) == RunTx(rows, id, options, raws, more, n)
  {
    hide Insert;
    if n > 0 {
      RunTxIgnoresLaterMints(rows, id, options, raws, mints, more, n - 1);
    }
  }
}
