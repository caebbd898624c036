/** The memory store as interleaved steps of any number of tasks.

    A stream is an `Arc<RwLock<Vec>>`: a handle into `heap`.  A publishing task resolves its stream's handle, or
    inserts a fresh empty stream; takes its write lock; checks the expected revision again; mints from the one shared
    generator; appends and releases.  Each of these is one step, and other tasks step in between.  `log` is auxiliary:
    the appends so far. */
module MemoryRuns {
  import opened Core
  import opened AppendLog
  import opened Minting

  datatype Job = Job(id: AggregateId, options: PublishOptions, raws: seq<RawEvent>)

  datatype PublishError = RevisionConflict(expected: Revision, actual: Revision) | MintFailed

  datatype Task =
    | Resolving(job: Job)
    | Inserting(job: Job)
    | HasStream(job: Job, handle: nat)
    | Locked(job: Job, handle: nat)
    | Checked(job: Job, handle: nat)
    | Minted(job: Job, handle: nat, recorded: seq<Event>)
    | Published(job: Job, result: Result<ChangeSet, PublishError>)
    // `since` and `at` count the appends when the load was called and when it read
    | Loading(id: AggregateId, since: nat)
    | LoadingFrom(id: AggregateId, handle: nat, since: nat)
    | Loaded(aggregate: Aggregate, since: nat, at: nat)

  datatype World = World(
    streams: map<AggregateId, nat>,
    heap: map<nat, seq<Event>>,
    writer: map<nat, nat>,
    last: Ulid,
    tasks: map<nat, Task>,
    log: seq<Commit>)

  /** What the environment chooses for a step: the handle a fresh stream gets, the ULIDs minted, or that minting
      fails. */
  datatype Choice = Choice(handle: nat, mints: seq<Mint>, fails: bool, clock: Ulid)

  ghost predicate Start(w: World) {
    w.streams == map[] && w.heap == map[] && w.writer == map[] && w.log == [] &&
    forall t :: t in w.tasks ==> Idle(w.tasks[t])
  }

  predicate Idle(task: Task) {
    (task.Resolving? && task.job.raws != []) || (task.Loading? && task.since == 0)
  }

  function Contents(w: World, id: AggregateId): seq<Event> {
    if id in w.streams && w.streams[id] in w.heap then w.heap[w.streams[id]] else []
  }

  function Unlock(w: World, handle: nat): World {
    w.(writer := w.writer - {handle})
  }

  /** `match last { Some(r) => r == expected, None => expected.is_zero() }` */
  predicate Expected(stream: seq<Event>, expected: Option<Revision>) {
    expected.Some? ==>
      if stream == [] then expected.value == ZERO else stream[|stream| - 1].revision == expected.value
  }

  /** `streams.get`, and the early error that keeps a failed publish from inserting an empty stream. */
  ghost predicate ResolveStep(w: World, t: nat, w': World) {
    t in w.tasks && w.tasks[t].Resolving? &&
    var job := w.tasks[t].job;
    w' == w.(tasks := w.tasks[t :=
      if job.id in w.streams then HasStream(job, w.streams[job.id])
      else if job.options.expected.Some? && job.options.expected.value != ZERO then
        Published(job, Err(RevisionConflict(job.options.expected.value, ZERO)))
      else Inserting(job)])
  }

  /** `entry().or_insert_with()`: another task may have inserted the stream meanwhile. */
  ghost predicate InsertStep(w: World, t: nat, c: Choice, w': World) {
    t in w.tasks && w.tasks[t].Inserting? && c.handle !in w.heap &&
    var job := w.tasks[t].job;
    if job.id in w.streams then w' == w.(tasks := w.tasks[t := HasStream(job, w.streams[job.id])])
    else w' == w.(streams := w.streams[job.id := c.handle], heap := w.heap[c.handle := []],
                  tasks := w.tasks[t := HasStream(job, c.handle)])
  }

  ghost predicate LockStep(w: World, t: nat, w': World) {
    t in w.tasks && w.tasks[t].HasStream? &&
    var handle := w.tasks[t].handle;
    handle !in w.writer &&
    w' == w.(writer := w.writer[handle := t], tasks := w.tasks[t := Locked(w.tasks[t].job, handle)])
  }

  ghost predicate CheckStep(w: World, t: nat, w': World) {
    t in w.tasks && w.tasks[t].Locked? && w.tasks[t].handle in w.heap &&
    var task, stream := w.tasks[t], w.heap[w.tasks[t].handle];
    if Expected(stream, task.job.options.expected) then
      w' == w.(tasks := w.tasks[t := Checked(task.job, task.handle)])
    else
      w' == Unlock(w, task.handle).(tasks := w.tasks[t := Published(task.job,
        Err(RevisionConflict(task.job.options.expected.value, LastRevision(stream))))])
  }

  /** One acquisition of the generator lock for the whole batch; a failure releases the stream as well. */
  ghost predicate MintStep(w: World, t: nat, c: Choice, w': World) {
    t in w.tasks && w.tasks[t].Checked? &&
    var task := w.tasks[t];
    w.last <= c.clock &&
    if c.fails then
      w' == Unlock(w, task.handle).(last := c.clock,
                                    tasks := w.tasks[t := Published(task.job, Err(MintFailed))])
    else
      |c.mints| == |task.job.raws| && MintedAfter(w.last, c.mints) &&
      (forall i :: 0 <= i < |c.mints| ==> c.mints[i].revision <= c.clock) &&
      w' == w.(last := c.clock, tasks := w.tasks[t :=
        Minted(task.job, task.handle, RecordAll(task.job.raws, task.job.options.metadata, c.mints))])
  }

  ghost predicate ExtendStep(w: World, t: nat, w': World) {
    t in w.tasks && w.tasks[t].Minted? && w.tasks[t].handle in w.heap &&
    var task := w.tasks[t];
    w' == Unlock(w, task.handle).(
      heap := w.heap[task.handle := w.heap[task.handle] + task.recorded],
      log := w.log + [Commit(task.job.id, task.job.options.expected, task.recorded)],
      tasks := w.tasks[t := Published(task.job,
        Ok(ChangeSet(task.job.id, LastRevision(task.recorded), task.recorded)))])
  }

  ghost predicate LoadGetStep(w: World, t: nat, w': World) {
    t in w.tasks && w.tasks[t].Loading? &&
    var task := w.tasks[t];
    w' == w.(tasks := w.tasks[t :=
      if task.id in w.streams then LoadingFrom(task.id, w.streams[task.id], task.since)
      else Loaded(FromEvents(task.id, []), task.since, |w.log|)])
  }

  /** The read lock is only to be had while nobody writes. */
  ghost predicate LoadReadStep(w: World, t: nat, w': World) {
    t in w.tasks && w.tasks[t].LoadingFrom? && w.tasks[t].handle in w.heap && w.tasks[t].handle !in w.writer &&
    var task := w.tasks[t];
    w' == w.(tasks := w.tasks[t := Loaded(FromEvents(task.id, w.heap[task.handle]), task.since, |w.log|)])
  }

  /** A new call: publishes of an empty batch are loads, which is all the store does for them. */
  ghost predicate CallStep(w: World, t: nat, task: Task, w': World) {
    t !in w.tasks && w' == w.(tasks := w.tasks[t := task]) &&
    ((task.Resolving? && task.job.raws != []) || (task.Loading? && task.since == |w.log|))
  }

  ghost predicate Steps(w: World, t: nat, c: Choice, w': World) {
    ResolveStep(w, t, w') || InsertStep(w, t, c, w') || LockStep(w, t, w') || CheckStep(w, t, w') ||
    MintStep(w, t, c, w') || ExtendStep(w, t, w') || LoadGetStep(w, t, w') || LoadReadStep(w, t, w')
  }

  ghost predicate Next(w: World, w': World) {
    (exists t, c :: Steps(w, t, c, w')) || (exists t, task :: CallStep(w, t, task, w'))
  }

  ghost predicate Run(trace: seq<World>) {
    |trace| > 0 && Start(trace[0]) && forall i :: 0 < i < |trace| ==> Next(trace[i - 1], trace[i])
  }

  // ---------------------------------------------------------------- invariant

  predicate HoldsLock(task: Task) {
    task.Locked? || task.Checked? || task.Minted?
  }

  predicate InFlight(task: Task) {
    task.Resolving? || task.Inserting? || task.HasStream? || HoldsLock(task)
  }

  predicate Handles(task: Task) {
    task.HasStream? || HoldsLock(task)
  }

  /** A handle in flight is the handle of the one stream in the map. */
  ghost predicate Alias(w: World, id: AggregateId, handle: nat) {
    id in w.streams && w.streams[id] == handle && handle in w.heap
  }

  ghost predicate TaskOk(w: World, t: nat, task: Task) {
    (InFlight(task) ==> task.job.raws != []) &&
    (task.Inserting? ==> Welcoming(task.job)) &&
    (Handles(task) ==> Alias(w, task.job.id, task.handle)) &&
    (HoldsLock(task) ==> task.handle in w.writer && w.writer[task.handle] == t) &&
    (task.Checked? || task.Minted? ==> Expected(Contents(w, task.job.id), task.job.options.expected)) &&
    (task.Minted? ==>
      Carries(task.recorded, task.job.raws, task.job.options.metadata) &&
      Increasing(Contents(w, task.job.id) + task.recorded) &&
      (forall i :: 0 <= i < |task.recorded| ==> task.recorded[i].revision <= w.last)) &&
    (task.Published? && task.result.Ok? ==>
      task.result.value.id == task.job.id && task.result.value.revision == LastRevision(task.result.value.events) &&
      Carries(task.result.value.events, task.job.raws, task.job.options.metadata) &&
      Commit(task.job.id, task.job.options.expected, task.result.value.events) in w.log) &&
    (task.Published? && task.result == Err(MintFailed) ==> task.job.id in w.streams) &&
    (task.Loading? ==> task.since <= |w.log|) &&
    (task.LoadingFrom? ==> task.since <= |w.log| && Alias(w, task.id, task.handle)) &&
    (task.Loaded? ==>
      task.since <= task.at <= |w.log| &&
      task.aggregate == FromEvents(task.aggregate.id, Stream(w.log[..task.at], task.aggregate.id)))
  }

  /** A publish that an empty stream suits. */
  predicate Welcoming(job: Job) {
    job.options.expected.None? || job.options.expected.value == ZERO
  }

  ghost predicate StreamOk(w: World, id: AggregateId) {
    Contents(w, id) == Stream(w.log, id) &&
    (id in w.streams ==> w.streams[id] in w.heap) &&
    (forall i :: 0 <= i < |Contents(w, id)| ==> Contents(w, id)[i].revision <= w.last)
  }

  /** The publish that will fill an empty stream. */
  ghost predicate Fills(w: World, id: AggregateId, t: nat) {
    t in w.tasks && Handles(w.tasks[t]) && w.tasks[t].job.id == id && Welcoming(w.tasks[t].job)
  }

  /** A publish for the id whose mint failed. */
  ghost predicate MintFailedFor(w: World, id: AggregateId, t: nat) {
    t in w.tasks && w.tasks[t].Published? && w.tasks[t].result == Err(MintFailed) && w.tasks[t].job.id == id
  }

  /** An empty stream is listed because someone is about to fill it, or because a mint for it failed. */
  ghost predicate Accounts(w: World, id: AggregateId, t: nat) {
    Fills(w, id, t) || MintFailedFor(w, id, t)
  }

  ghost predicate AccountedFor(w: World, id: AggregateId) {
    id in w.streams && Contents(w, id) == [] ==> exists t :: Accounts(w, id, t)
  }

  ghost predicate Inv(w: World) {
    Valid(w.log) &&
    (forall id :: StreamOk(w, id)) &&
    (forall a, b :: a in w.streams && b in w.streams && w.streams[a] == w.streams[b] ==> a == b) &&
    (forall t :: t in w.tasks ==> TaskOk(w, t, w.tasks[t])) &&
    (forall id :: AccountedFor(w, id))
  }

  lemma StartInv(w: World)
    requires Start(w)
    ensures Inv(w)
  {
    forall id ensures StreamOk(w, id) {
    }
  }

  /** Steps that leave streams and log alone, and change one task. */
  ghost predicate Quiet(w: World, t: nat, w': World) {
    w'.streams == w.streams && w'.heap == w.heap && w'.log == w.log && w.last <= w'.last &&
    t in w'.tasks && w'.tasks == w.tasks[t := w'.tasks[t]] &&
    (forall h :: h in w.writer && w.writer[h] != t ==> h in w'.writer && w'.writer[h] == w.writer[h])
  }

  lemma QuietKeepsInv(w: World, t: nat, w': World)
    requires Inv(w) && Quiet(w, t, w')
    requires TaskOk(w', t, w'.tasks[t])
    requires forall id :: Accounts(w, id, t) ==> Accounts(w', id, t) || Contents(w', id) != []
    ensures Inv(w')
  {
    forall id ensures StreamOk(w', id) && AccountedFor(w', id) {
      assert StreamOk(w, id) && AccountedFor(w, id);
      if id in w'.streams && Contents(w', id) == [] {
        var u :| Accounts(w, id, u);
        assert Accounts(w', id, u);
      }
    }
    forall u | u in w'.tasks ensures TaskOk(w', u, w'.tasks[u]) {
      if u != t {
        assert TaskOk(w, u, w.tasks[u]);
      }
    }
  }

  lemma ResolveKeepsInv(w: World, t: nat, w': World)
    requires Inv(w) && ResolveStep(w, t, w')
    ensures Inv(w')
  {
    var job := w.tasks[t].job;
    assert TaskOk(w, t, w.tasks[t]) && StreamOk(w, job.id);
    QuietKeepsInv(w, t, w');
  }

  lemma LockKeepsInv(w: World, t: nat, w': World)
    requires Inv(w) && LockStep(w, t, w')
    ensures Inv(w')
  {
    assert TaskOk(w, t, w.tasks[t]);
    QuietKeepsInv(w, t, w');
  }

  lemma CheckKeepsInv(w: World, t: nat, w': World)
    requires Inv(w) && CheckStep(w, t, w')
    ensures Inv(w')
  {
    assert TaskOk(w, t, w.tasks[t]);
    QuietKeepsInv(w, t, w');
  }

  /** What a batch minted under the write lock does to its stream: every revision in the store was minted earlier. */
  lemma MintedExtends(stream: seq<Event>, raws: seq<RawEvent>, metadata: Metadata, mints: seq<Mint>, last: Ulid)
    requires |raws| == |mints| && MintedAfter(last, mints) && Increasing(stream)
    requires forall i :: 0 <= i < |stream| ==> stream[i].revision <= last
    ensures Increasing(stream + RecordAll(raws, metadata, mints))
  {
    var all := stream + RecordAll(raws, metadata, mints);
    forall i | 0 <= i < |all| ensures ZERO < all[i].revision {
      assert i >= |stream| ==> all[i].revision == mints[i - |stream|].revision;
    }
    forall i, j | 0 <= i < j < |all| ensures all[i].revision < all[j].revision {
      if j >= |stream| {
        var m := mints[j - |stream|];
        assert all[j].revision == m.revision && last < m.eventId < m.revision;
        assert i >= |stream| ==> all[i].revision == mints[i - |stream|].revision;
      }
    }
  }

  lemma MintKeepsInv(w: World, t: nat, c: Choice, w': World)
    requires Inv(w) && MintStep(w, t, c, w')
    ensures Inv(w')
  {
    MintingTaskOk(w, t, c, w');
    hide TaskOk, Increasing, Carries, RecordAll, MintedAfter;
    QuietKeepsInv(w, t, w');
  }

  lemma MintingTaskOk(w: World, t: nat, c: Choice, w': World)
    requires Inv(w) && MintStep(w, t, c, w')
    ensures TaskOk(w', t, w'.tasks[t])
  {
    var task := w.tasks[t];
    assert TaskOk(w, t, task) && StreamOk(w, task.job.id);
    if !c.fails {
      StreamsIncrease(w.log, task.job.id);
      MintedExtends(Contents(w, task.job.id), task.job.raws, task.job.options.metadata, c.mints, w.last);
    }
  }

  lemma LoadStepsKeepInv(w: World, t: nat, w': World)
    requires Inv(w) && (LoadGetStep(w, t, w') || LoadReadStep(w, t, w'))
    ensures Inv(w')
  {
    var task := w.tasks[t];
    assert TaskOk(w, t, task) && StreamOk(w, task.id);
    assert w.log[..|w.log|] == w.log;
    QuietKeepsInv(w, t, w');
  }

  lemma CallKeepsInv(w: World, t: nat, task: Task, w': World)
    requires Inv(w) && CallStep(w, t, task, w')
    ensures Inv(w')
  {
    QuietKeepsInv(w, t, w');
  }

  lemma InsertKeepsInv(w: World, t: nat, c: Choice, w': World)
    requires Inv(w) && InsertStep(w, t, c, w')
    ensures Inv(w')
  {
    if w.tasks[t].job.id in w.streams {
      assert TaskOk(w, t, w.tasks[t]) && StreamOk(w, w.tasks[t].job.id);
      QuietKeepsInv(w, t, w');
    } else {
      FreshInsertKeepsInv(w, t, c, w');
    }
  }

  lemma FreshInsertKeepsInv(w: World, t: nat, c: Choice, w': World)
    requires Inv(w) && InsertStep(w, t, c, w') && w.tasks[t].job.id !in w.streams
    ensures Inv(w')
  {
    FreshStreamIsEmpty(w, t, c, w');
    forall u | u in w'.tasks ensures TaskOk(w', u, w'.tasks[u]) {
      assert TaskOk(w, t, w.tasks[t]);
      if u != t { OthersUnaffectedByInsert(w, t, c, w', u); }
    }
    hide TaskOk, AccountedFor, Valid, Contents;
    forall a, b | a in w'.streams && b in w'.streams && w'.streams[a] == w'.streams[b] ensures a == b {
      assert StreamOk(w, a) && StreamOk(w, b);
    }
  }

  lemma OthersUnaffectedByInsert(w: World, t: nat, c: Choice, w': World, u: nat)
    requires Inv(w) && InsertStep(w, t, c, w') && w.tasks[t].job.id !in w.streams && u in w.tasks && u != t
    ensures TaskOk(w', u, w.tasks[u])
  {
    assert TaskOk(w, u, w.tasks[u]);
    var task := w.tasks[u];
    if Handles(task) {
      assert Contents(w', task.job.id) == Contents(w, task.job.id);
    }
  }

  /** Inserting an empty stream changes nobody's contents, and the inserting task is the one to fill it. */
  lemma FreshStreamIsEmpty(w: World, t: nat, c: Choice, w': World)
    requires Inv(w) && InsertStep(w, t, c, w') && w.tasks[t].job.id !in w.streams
    ensures forall id :: StreamOk(w', id) && AccountedFor(w', id)
  {
    assert TaskOk(w, t, w.tasks[t]);
    forall id ensures StreamOk(w', id) && AccountedFor(w', id) {
      assert StreamOk(w, id) && AccountedFor(w, id);
      if id == w.tasks[t].job.id {
        assert Accounts(w', id, t);
      } else if id in w'.streams && Contents(w', id) == [] {
        var u :| Accounts(w, id, u);
        assert Accounts(w', id, u);
      }
    }
  }

  /** The linearisation point: appending under the write lock is one admissible commit of the abstract log. */
  lemma ExtendIsAppend(w: World, t: nat, w': World)
    requires Inv(w) && ExtendStep(w, t, w')
    ensures Admissible(Replay(w.log), w'.log[|w.log|])
    ensures Inv(w')
  {
    var task := w.tasks[t];
    var id, c := task.job.id, Commit(task.job.id, task.job.options.expected, task.recorded);
    assert TaskOk(w, t, task) && StreamOk(w, id);
    ValidExtend(w.log, c);
    ExtendKeepsStreams(w, t, w');
    forall u | u in w'.tasks ensures TaskOk(w', u, w'.tasks[u]) {
      if u != t {
        OtherTaskUnaffected(w, t, u, w');
      }
    }
    hide TaskOk, StreamOk, AccountedFor, Valid;
  }

  lemma ExtendKeepsStreams(w: World, t: nat, w': World)
    requires Inv(w) && ExtendStep(w, t, w')
    ensures forall id :: StreamOk(w', id) && AccountedFor(w', id)
  {
    var task := w.tasks[t];
    assert TaskOk(w, t, task) && StreamOk(w, task.job.id);
    ReplayExtend(w.log, Commit(task.job.id, task.job.options.expected, task.recorded));
    hide TaskOk;
    forall id ensures StreamOk(w', id) && AccountedFor(w', id) {
      assert StreamOk(w, id) && AccountedFor(w, id);
      if id in w'.streams && Contents(w', id) == [] {
        var u :| Accounts(w, id, u);
        assert Accounts(w', id, u);
      }
    }
  }

  lemma OtherTaskUnaffected(w: World, t: nat, u: nat, w': World)
    requires Inv(w) && ExtendStep(w, t, w') && u in w.tasks && u != t
    ensures TaskOk(w', u, w.tasks[u])
  {
    var task, other := w.tasks[t], w.tasks[u];
    assert TaskOk(w, t, task) && TaskOk(w, u, other);
    if HoldsLock(other) {
      assert other.handle != task.handle;
      assert Contents(w', other.job.id) == Contents(w, other.job.id);
    }
    if other.Loaded? {
      assert w'.log[..other.at] == w.log[..other.at];
    }
  }

  lemma StepKeepsInv(w: World, t: nat, c: Choice, w': World)
    requires Inv(w) && Steps(w, t, c, w')
    ensures Inv(w') && AppendsAtMostOne(w.log, w'.log)
  {
    hide Inv;
    if ResolveStep(w, t, w') { ResolveKeepsInv(w, t, w'); }
    else if InsertStep(w, t, c, w') { InsertKeepsInv(w, t, c, w'); }
    else if LockStep(w, t, w') { LockKeepsInv(w, t, w'); }
    else if CheckStep(w, t, w') { CheckKeepsInv(w, t, w'); }
    else if MintStep(w, t, c, w') { MintKeepsInv(w, t, c, w'); }
    else if ExtendStep(w, t, w') { ExtendIsAppend(w, t, w'); }
    else { LoadStepsKeepInv(w, t, w'); }
  }

  lemma NextKeepsInv(w: World, w': World)
    requires Inv(w) && Next(w, w')
    ensures Inv(w') && AppendsAtMostOne(w.log, w'.log)
  {
    hide Inv, Steps;
    if t, c :| Steps(w, t, c, w') {
      StepKeepsInv(w, t, c, w');
    } else {
      var t, task :| CallStep(w, t, task, w');
      CallKeepsInv(w, t, task, w');
    }
  }

  // ---------------------------------------------------------------- whole runs

  /** Every step of every run is a step of the atomic append log or invisible to it, and in every reachable state the
      store holds exactly the log's streams, each strictly increasing although all tasks share one generator. */
  lemma {:induction false} RunRefinesLog(trace: seq<World>, i: nat)
    requires Run(trace) && i < |trace|
    ensures Inv(trace[i]) && (i > 0 ==> AppendsAtMostOne(trace[i - 1].log, trace[i].log))
    ensures forall id :: Contents(trace[i], id) == Stream(trace[i].log, id) && Increasing(Contents(trace[i], id))
  {
    if i == 0 {
      StartInv(trace[0]);
    } else {
      RunRefinesLog(trace, i - 1);
      NextKeepsInv(trace[i - 1], trace[i]);
    }
    forall id ensures Contents(trace[i], id) == Stream(trace[i].log, id) && Increasing(Contents(trace[i], id)) {
      assert StreamOk(trace[i], id);
      StreamsIncrease(trace[i].log, id);
    }
  }

  lemma {:induction false} LogGrows(trace: seq<World>, i: nat, j: nat)
    requires Run(trace) && i <= j < |trace|
    ensures trace[i].log <= trace[j].log
    decreases j
  {
    hide Inv, Next, Admissible;
    if i < j {
      LogGrows(trace, i, j - 1);
      RunRefinesLog(trace, j);
    }
  }

  /** Every handle in flight is the one stream of the map: tasks for one aggregate share it, tasks for different
      aggregates never do, and of those holding a handle at most one holds its lock. */
  lemma HandlesAliasTheOneStream(trace: seq<World>, i: nat, t: nat, u: nat)
    requires Run(trace) && i < |trace| && t in trace[i].tasks && u in trace[i].tasks
    requires Handles(trace[i].tasks[t]) && Handles(trace[i].tasks[u])
    ensures Alias(trace[i], trace[i].tasks[t].job.id, trace[i].tasks[t].handle)
    ensures trace[i].tasks[t].job.id == trace[i].tasks[u].job.id <==>
            trace[i].tasks[t].handle == trace[i].tasks[u].handle
    ensures HoldsLock(trace[i].tasks[t]) && HoldsLock(trace[i].tasks[u]) && t != u ==>
            trace[i].tasks[t].handle != trace[i].tasks[u].handle
  {
    var w := trace[i];
    RunRefinesLog(trace, i);
    assert TaskOk(w, t, w.tasks[t]) && TaskOk(w, u, w.tasks[u]);
  }

  /** A load returns the aggregate's stream as it was at one moment between the load's call and its return. */
  lemma LoadsAreLinearisable(trace: seq<World>, i: nat, t: nat)
    requires Run(trace) && i < |trace| && t in trace[i].tasks && trace[i].tasks[t].Loaded?
    ensures var load := trace[i].tasks[t];
            load.since <= load.at <= |trace[i].log| &&
            load.aggregate == FromEvents(load.aggregate.id, Stream(trace[i].log[..load.at], load.aggregate.id)) &&
            load.aggregate.events <= Contents(trace[i], load.aggregate.id)
  {
    var w, load := trace[i], trace[i].tasks[t];
    RunRefinesLog(trace, i);
    assert TaskOk(w, t, load);
    StreamsOnlyGrow(w.log[..load.at], w.log, load.aggregate.id);
  }

  /** Loads that do not overlap agree with their order: the later one extends the earlier one. */
  lemma LaterLoadsExtendEarlierOnes(trace: seq<World>, i: nat, t: nat, j: nat, u: nat)
    requires Run(trace) && i <= j < |trace|
    requires t in trace[i].tasks && trace[i].tasks[t].Loaded? && u in trace[j].tasks && trace[j].tasks[u].Loaded?
    requires trace[i].tasks[t].aggregate.id == trace[j].tasks[u].aggregate.id
    requires |trace[i].log| <= trace[j].tasks[u].since
    ensures trace[i].tasks[t].aggregate.events <= trace[j].tasks[u].aggregate.events
  {
    var first, second := trace[i].tasks[t], trace[j].tasks[u];
    LoadsAreLinearisable(trace, i, t);
    LoadsAreLinearisable(trace, j, u);
    LogGrows(trace, i, j);
    assert trace[i].log[..first.at] <= trace[j].log[..second.at];
    StreamsOnlyGrow(trace[i].log[..first.at], trace[j].log[..second.at], first.aggregate.id);
  }

  /** Exactly what `enumerate_aggregates` lists while no publish is in flight: the aggregates that have events, and
      those for which a publish failed to mint. */
  lemma QuiescentEnumeration(trace: seq<World>, i: nat, id: AggregateId)
    requires Run(trace) && i < |trace|
    requires forall t :: t in trace[i].tasks ==> !InFlight(trace[i].tasks[t])
    ensures id in trace[i].streams <==>
            Stream(trace[i].log, id) != [] || exists t :: MintFailedFor(trace[i], id, t)
  {
    var w := trace[i];
    RunRefinesLog(trace, i);
    assert StreamOk(w, id) && AccountedFor(w, id);
    if t :| Accounts(w, id, t) {
      assert TaskOk(w, t, w.tasks[t]);
    }
  }

  /** A publish that returned `Ok` is in the log, with the batch it was given. */
  lemma OkMeansAppended(trace: seq<World>, i: nat, t: nat)
    requires Run(trace) && i < |trace| && t in trace[i].tasks
    requires trace[i].tasks[t].Published? && trace[i].tasks[t].result.Ok?
    ensures var job, batch := trace[i].tasks[t].job, trace[i].tasks[t].result.value.events;
            Commit(job.id, job.options.expected, batch) in trace[i].log &&
            trace[i].tasks[t].result.value == ChangeSet(job.id, LastRevision(batch), batch) &&
            Carries(batch, job.raws, job.options.metadata)
  {
    RunRefinesLog(trace, i);
    assert TaskOk(trace[i], t, trace[i].tasks[t]);
  }

  /** The task has named a revision, and not the one its stream has; its conflict says which one that is. */
  ghost predicate TrueConflict(w: World, t: nat)
    requires t in w.tasks && Conflicted(w.tasks[t])
  {
    var job, actual := w.tasks[t].job, LastRevision(Contents(w, w.tasks[t].job.id));
    job.options.expected.Some? && job.options.expected.value != actual &&
    w.tasks[t].result == Err(RevisionConflict(job.options.expected.value, actual))
  }

  lemma OnlyLooksConflict(w: World, u: nat, c: Choice, w': World, t: nat)
    requires Steps(w, u, c, w') && t in w'.tasks && Conflicted(w'.tasks[t])
    requires t in w.tasks ==> !Conflicted(w.tasks[t])
    ensures ResolveStep(w, t, w') || CheckStep(w, t, w')
  {
    hide Expected, RecordAll, FromEvents, MintedAfter;
  }

  lemma ResolveConflictIsTrue(w: World, t: nat, w': World)
    requires Inv(w) && ResolveStep(w, t, w') && Conflicted(w'.tasks[t])
    ensures TrueConflict(w', t) && w'.log == w.log
  {
  }

  lemma CheckConflictIsTrue(w: World, t: nat, w': World)
    requires Inv(w) && CheckStep(w, t, w')
    ensures var job, actual := w.tasks[t].job, LastRevision(Contents(w, w.tasks[t].job.id));
            Conflicted(w'.tasks[t]) <==> job.options.expected.Some? && job.options.expected.value != actual
    ensures Conflicted(w'.tasks[t]) ==> TrueConflict(w', t) && w'.log == w.log
  {
    assert TaskOk(w, t, w.tasks[t]) && StreamOk(w, w.tasks[t].job.id);
    StreamsIncrease(w.log, w.tasks[t].job.id);
  }

  /** A publish that has just conflicted had named a revision, and not the one its stream has; the conflict says which
      one that is, and nothing was appended. */
  lemma ConflictIsTrue(trace: seq<World>, i: nat, t: nat)
    requires Run(trace) && 0 < i < |trace| && t in trace[i].tasks && Conflicted(trace[i].tasks[t])
    requires t in trace[i - 1].tasks ==> !Conflicted(trace[i - 1].tasks[t])
    ensures TrueConflict(trace[i], t) && trace[i].log == trace[i - 1].log
  {
    hide Inv, Steps, TrueConflict;
    var w, w' := trace[i - 1], trace[i];
    RunRefinesLog(trace, i - 1);
    assert Next(w, w');
    if u, c :| Steps(w, u, c, w') {
      OnlyLooksConflict(w, u, c, w', t);
      if ResolveStep(w, t, w') {
        ResolveConflictIsTrue(w, t, w');
      } else {
        CheckConflictIsTrue(w, t, w');
      }
    }
  }

  predicate Conflicted(task: Task) {
    task.Published? && task.result.Err? && task.result.error.RevisionConflict?
  }

  /** A publish whose expected revision is not its stream's, when it looks, conflicts. */
  lemma StalePublishConflicts(trace: seq<World>, i: nat, t: nat)
    requires Run(trace) && 0 < i < |trace| && CheckStep(trace[i - 1], t, trace[i])
    ensures var job := trace[i - 1].tasks[t].job;
            Conflicted(trace[i].tasks[t]) <==>
            job.options.expected.Some? && job.options.expected.value != LastRevision(Contents(trace[i - 1], job.id))
  {
    hide Inv;
    RunRefinesLog(trace, i - 1);
    CheckConflictIsTrue(trace[i - 1], t, trace[i]);
  }

  /** Over the whole run at most one publish that names a given expected revision of an aggregate appends. */
  lemma ExpectedRevisionCommitsOnce(trace: seq<World>, i: nat, t: nat, j: nat, u: nat)
    requires Run(trace) && 0 < i < |trace| && 0 < j < |trace|
    requires ExtendStep(trace[i - 1], t, trace[i]) && ExtendStep(trace[j - 1], u, trace[j])
    requires trace[i - 1].tasks[t].job.id == trace[j - 1].tasks[u].job.id
    requires trace[i - 1].tasks[t].job.options.expected.Some?
    requires trace[i - 1].tasks[t].job.options.expected == trace[j - 1].tasks[u].job.options.expected
    ensures i == j
  {
    hide Inv, Next, Admissible;
    var final := trace[|trace| - 1].log;
    assert Valid(final) by {
      RunRefinesLog(trace, |trace| - 1);
    }
    AppendIsRecorded(trace, i, t);
    AppendIsRecorded(trace, j, u);
    AtMostOncePerExpectedRevision(final, |trace[i - 1].log|, |trace[j - 1].log|);
    if i < j {
      LogGrows(trace, i, j - 1);
    } else if j < i {
      LogGrows(trace, j, i - 1);
    }
  }

  lemma AppendIsRecorded(trace: seq<World>, i: nat, t: nat)
    requires Run(trace) && 0 < i < |trace| && ExtendStep(trace[i - 1], t, trace[i])
    ensures var n, final, job := |trace[i - 1].log|, trace[|trace| - 1].log, trace[i - 1].tasks[t].job;
            n < |final| && final[n].id == job.id && final[n].expected == job.options.expected
  {
    hide Inv, Next, Admissible;
    LogGrows(trace, i, |trace| - 1);
    var n := |trace[i - 1].log|;
    assert trace[|trace| - 1].log[n] == trace[i].log[n];
  }

  /** When minting fails the stream that was inserted for the publish stays behind, empty and enumerated: a run of
      one blind publish for a new aggregate. */
  lemma MintFailureLeavesPhantom(job: Job) returns (trace: seq<World>)
    requires job.raws != [] && job.options.expected.None?
    ensures Run(trace)
    ensures var end := trace[|trace| - 1];
            end.tasks == map[0 := Published(job, Err(MintFailed))] &&
            job.id in end.streams && Contents(end, job.id) == [] && Stream(end.log, job.id) == []
  {
    var c := Choice(0, [], true, 0);
    var w0 := World(map[], map[], map[], 0, map[0 := Resolving(job)], []);
    var w1 := w0.(tasks := map[0 := Inserting(job)]);
    var w2 := w1.(streams := map[job.id := 0], heap := map[0 := []], tasks := map[0 := HasStream(job, 0)]);
    var w3 := w2.(writer := map[0 := 0], tasks := map[0 := Locked(job, 0)]);
    var w4 := w3.(tasks := map[0 := Checked(job, 0)]);
    var w5 := w4.(writer := map[], tasks := map[0 := Published(job, Err(MintFailed))]);
    assert Steps(w0, 0, c, w1) by { assert ResolveStep(w0, 0, w1); }
    assert Steps(w1, 0, c, w2) by { assert InsertStep(w1, 0, c, w2); }
    assert Steps(w2, 0, c, w3) by { assert LockStep(w2, 0, w3); }
    assert Steps(w3, 0, c, w4) by { assert CheckStep(w3, 0, w4); }
    assert Steps(w4, 0, c, w5) by { assert MintStep(w4, 0, c, w5); }
    hide Steps;
    trace := [w0, w1, w2, w3, w4, w5];
  }
}