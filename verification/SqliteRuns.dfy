/** Every run of any number of store instances over one `events` table.

    An immediate transaction is exclusive, so one attempt is one step.  Each instance owns a generator; the clocks
    are unrelated and may lag.  `history` is auxiliary: the commits so far. */
module SqliteRuns {
  import opened Core
  import opened AppendLog
  import opened Minting
  import opened SqliteTable

  datatype World = World(rows: seq<Row>, clocks: map<nat, Ulid>, history: seq<Commit>)

  datatype Attempt = Attempt(instance: nat, id: AggregateId, options: PublishOptions, raws: seq<RawEvent>,
                             mints: seq<Mint>)

  function ClockOf(w: World, instance: nat): Ulid {
    if instance in w.clocks then w.clocks[instance] else 0
  }

  ghost predicate Start(w: World) {
    w == World([], map[], [])
  }

  /** The instance minted what it minted; other tasks of the same instance may have minted as well. */
  ghost predicate Minted(w: World, a: Attempt, w': World) {
    a.raws != [] && |a.mints| <= |a.raws| && MintedAfter(ClockOf(w, a.instance), a.mints) &&
    w'.clocks == w.clocks[a.instance := ClockOf(w', a.instance)] &&
    ClockOf(w, a.instance) <= ClockOf(w', a.instance) &&
    forall i :: 0 <= i < |a.mints| ==> a.mints[i].revision <= ClockOf(w', a.instance)
  }

  ghost predicate Commits(w: World, a: Attempt, w': World) {
    Minted(w, a, w') && |a.mints| == |a.raws| &&
    var tx := RunTx(w.rows, a.id, a.options, a.raws, a.mints, |a.raws|);
    tx.Open? && w'.rows == tx.rows &&
    w'.history == w.history + [Commit(a.id, a.options.expected, tx.recorded)]
  }

  /** Conflict, busy, failed commit, exhausted generator: nothing of the transaction is kept. */
  ghost predicate RollsBack(w: World, a: Attempt, w': World) {
    Minted(w, a, w') && w'.rows == w.rows && w'.history == w.history
  }

  ghost predicate Next(w: World, w': World) {
    exists a :: Commits(w, a, w') || RollsBack(w, a, w')
  }

  ghost predicate Run(trace: seq<World>) {
    |trace| > 0 && Start(trace[0]) && forall i :: 0 < i < |trace| ==> Next(trace[i - 1], trace[i])
  }

  ghost predicate Inv(w: World) {
    TableIsLog(w.rows, w.history)
  }

  lemma NextKeepsInv(w: World, w': World)
    requires Inv(w) && Next(w, w')
    ensures Inv(w') && AppendsAtMostOne(w.history, w'.history)
  {
    var a :| Commits(w, a, w') || RollsBack(w, a, w');
    if Commits(w, a, w') {
      CommitExtendsLog(w.rows, w.history, a.id, a.options, a.raws, a.mints, ClockOf(w, a.instance));
    }
  }

  /** Every attempt of every run is a step of the append log or invisible to it, and the table refines the log in every
      reachable state: loading any aggregate gives its stream, strictly increasing in commit order although the clocks
      are unrelated, and event ids are never reused. */
  lemma {:induction false} RunRefinesLog(trace: seq<World>, i: nat)
    requires Run(trace) && i < |trace|
    ensures Inv(trace[i]) && (i > 0 ==> AppendsAtMostOne(trace[i - 1].history, trace[i].history))
    ensures forall id :: Load(trace[i].rows, id) == FromEvents(id, Stream(trace[i].history, id)) &&
                         Increasing(Load(trace[i].rows, id).events)
  {
    if i > 0 {
      RunRefinesLog(trace, i - 1);
      NextKeepsInv(trace[i - 1], trace[i]);
    }
    forall id ensures Load(trace[i].rows, id) == FromEvents(id, Stream(trace[i].history, id)) &&
                      Increasing(Load(trace[i].rows, id).events) {
      assert Agrees(trace[i].rows, trace[i].history, id);
      StreamsIncrease(trace[i].history, id);
      LoadOfIncreasing(trace[i].rows, id);
    }
  }

  lemma {:induction false} HistoryGrows(trace: seq<World>, i: nat, j: nat)
    requires Run(trace) && i <= j < |trace|
    ensures trace[i].history <= trace[j].history
    decreases j
  {
    if i < j {
      HistoryGrows(trace, i, j - 1);
      RunRefinesLog(trace, j - 1);
      NextKeepsInv(trace[j - 1], trace[j]);
    }
  }

  /** Any earlier load is a prefix of every later load of the same aggregate. */
  lemma LoadsArePrefixes(trace: seq<World>, i: nat, j: nat, id: AggregateId)
    requires Run(trace) && i <= j < |trace|
    ensures Load(trace[i].rows, id).events <= Load(trace[j].rows, id).events
    ensures Load(trace[i].rows, id).revision <= Load(trace[j].rows, id).revision
  {
    RunRefinesLog(trace, i);
    RunRefinesLog(trace, j);
    HistoryGrows(trace, i, j);
    StreamsOnlyGrow(trace[i].history, trace[j].history, id);
    var a, b := Load(trace[i].rows, id).events, Load(trace[j].rows, id).events;
    if a != b {
      LongerIsNewer(a, b);
    }
  }

  /** A publish leaves every other aggregate as it was, and its own extended by exactly the raw batch. */
  lemma PublishTouchesOneAggregate(trace: seq<World>, i: nat, a: Attempt, id: AggregateId)
    requires Run(trace) && 0 < i < |trace| && Commits(trace[i - 1], a, trace[i])
    ensures id != a.id ==> Load(trace[i].rows, id) == Load(trace[i - 1].rows, id)
    ensures exists batch ::
              Carries(batch, a.raws, a.options.metadata) &&
              Load(trace[i].rows, a.id).events == Load(trace[i - 1].rows, a.id).events + batch
  {
    var w, w' := trace[i - 1], trace[i];
    RunRefinesLog(trace, i - 1);
    RunRefinesLog(trace, i);
    CommitExtendsLog(w.rows, w.history, a.id, a.options, a.raws, a.mints, ClockOf(w, a.instance));
    var batch := w'.history[|w.history|].events;
    assert Load(w'.rows, a.id).events == Load(w.rows, a.id).events + batch;
  }

  /** The commit of step `i` is still in the history at the end of the run, at the place it took then. */
  lemma CommitIsRecorded(trace: seq<World>, i: nat, a: Attempt)
    requires Run(trace) && 0 < i < |trace| && Commits(trace[i - 1], a, trace[i])
    ensures var n, final := |trace[i - 1].history|, trace[|trace| - 1].history;
            n < |final| && final[n].id == a.id && final[n].expected == a.options.expected
  {
    HistoryGrows(trace, i, |trace| - 1);
    var n := |trace[i - 1].history|;
    assert trace[|trace| - 1].history[n] == trace[i].history[n];
  }

  lemma LaterStepsCommitLater(trace: seq<World>, i: nat, a: Attempt, j: nat)
    requires Run(trace) && 0 < i < j < |trace| && Commits(trace[i - 1], a, trace[i])
    ensures |trace[i - 1].history| < |trace[j - 1].history|
  {
    HistoryGrows(trace, i, j - 1);
  }

  /** Over the whole run at most one non-empty publish that names a given expected revision of an aggregate
      commits. */
  lemma ExpectedRevisionCommitsOnce(trace: seq<World>, i: nat, a: Attempt, j: nat, b: Attempt)
    requires Run(trace) && 0 < i < |trace| && 0 < j < |trace|
    requires Commits(trace[i - 1], a, trace[i]) && Commits(trace[j - 1], b, trace[j])
    requires a.id == b.id && a.options.expected.Some? && a.options.expected == b.options.expected
    ensures i == j
  {
    var final := trace[|trace| - 1].history;
    assert Valid(final) by {
      RunRefinesLog(trace, |trace| - 1);
    }
    hide Inv, Next, Admissible;
    CommitIsRecorded(trace, i, a);
    CommitIsRecorded(trace, j, b);
    AtMostOncePerExpectedRevision(final, |trace[i - 1].history|, |trace[j - 1].history|);
    if i < j {
      LaterStepsCommitLater(trace, i, a, j);
    } else if j < i {
      LaterStepsCommitLater(trace, j, b, i);
    }
  }
}
