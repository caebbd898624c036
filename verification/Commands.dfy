/** Command cycles over the append log: load, render, decide, publish with the loaded revision, reload.

    Any number of cycles interleave step by step.  A publish either appends one admissible commit, which is all that
    SqliteRuns and MemoryRuns let a store do, or fails and changes nothing.  `commands` is auxiliary: the command
    behind each commit. */
module Commands {
  import opened Core
  import opened AppendLog
  import opened Renderer

  /** A service: the renderer, and the handlers as one deterministic decision that may reject. */
  datatype Service<!S, !C> = Service(init: S, rules: seq<Rule<S>>, decide: (Entity<S>, C) -> Option<seq<RawEvent>>)

  /** `read`, `at` and `seen` are log lengths: when the cycle loaded, published and reloaded. */
  datatype Cycle<S, C> =
    | Called(id: AggregateId, command: C)
    | Loaded(id: AggregateId, command: C, read: nat, entity: Entity<S>)
    | Published(id: AggregateId, at: nat, batch: seq<Event>)
    | Finished(id: AggregateId, at: nat, batch: seq<Event>, seen: nat, entity: Entity<S>)
    | Failed

  datatype World<S, C> = World(log: seq<Commit>, commands: seq<C>, cycles: map<nat, Cycle<S, C>>)

  const NO_METADATA: Metadata := Metadata(None, None)

  ghost function View<S, C>(svc: Service<S, C>, log: seq<Commit>, id: AggregateId): Result<Entity<S>, RenderError> {
    Render(svc.rules, svc.init, FromEvents(id, Stream(log, id)))
  }

  ghost predicate Start<S, C>(w: World<S, C>) {
    w.log == [] && w.commands == [] && forall t :: t in w.cycles ==> w.cycles[t].Called?
  }

  ghost predicate LoadStep<S, C>(svc: Service<S, C>, w: World<S, C>, t: nat, w': World<S, C>) {
    t in w.cycles && w.cycles[t].Called? &&
    var cycle := w.cycles[t];
    w' == w.(cycles := w.cycles[t :=
      match View(svc, w.log, cycle.id)
      case Ok(entity) => Loaded(cycle.id, cycle.command, |w.log|, entity)
      case Err(_) => Failed])
  }

  /** The handler publishes once through `Publisher`, which pins the expected revision to the loaded entity.  An
      empty batch succeeds whatever the revision is by now. */
  ghost predicate PublishStep<S, C>(svc: Service<S, C>, w: World<S, C>, t: nat, batch: seq<Event>, w': World<S, C>) {
    t in w.cycles && w.cycles[t].Loaded? &&
    var cycle := w.cycles[t];
    var decision := svc.decide(cycle.entity, cycle.command);
    decision.Some? && Carries(batch, decision.value, NO_METADATA) &&
    w'.cycles == w.cycles[t := Published(cycle.id, |w.log|, batch)] &&
    if batch == [] then w'.log == w.log && w'.commands == w.commands
    else
      var c := Commit(cycle.id, Some(cycle.entity.revision), batch);
      Admissible(Replay(w.log), c) && w'.log == w.log + [c] && w'.commands == w.commands + [cycle.command]
  }

  ghost predicate ReloadStep<S, C>(svc: Service<S, C>, w: World<S, C>, t: nat, w': World<S, C>) {
    t in w.cycles && w.cycles[t].Published? &&
    var cycle := w.cycles[t];
    w' == w.(cycles := w.cycles[t :=
      match View(svc, w.log, cycle.id)
      case Ok(entity) => Finished(cycle.id, cycle.at, cycle.batch, |w.log|, entity)
      case Err(_) => Failed])
  }

  /** Rejections, conflicts and infrastructure errors end a cycle; a new cycle is called at any time. */
  ghost predicate FailOrCallStep<S, C>(w: World<S, C>, t: nat, w': World<S, C>) {
    t in w'.cycles && (w'.cycles[t].Failed? || (t !in w.cycles && w'.cycles[t].Called?)) &&
    w' == w.(cycles := w.cycles[t := w'.cycles[t]])
  }

  ghost predicate Steps<S, C>(svc: Service<S, C>, w: World<S, C>, t: nat, batch: seq<Event>, w': World<S, C>) {
    LoadStep(svc, w, t, w') || PublishStep(svc, w, t, batch, w') || ReloadStep(svc, w, t, w') ||
    FailOrCallStep(w, t, w')
  }

  ghost predicate Next<S, C>(svc: Service<S, C>, w: World<S, C>, w': World<S, C>) {
    exists t, batch :: Steps(svc, w, t, batch, w')
  }

  ghost predicate Run<S, C>(svc: Service<S, C>, trace: seq<World<S, C>>) {
    |trace| > 0 && Start(trace[0]) && forall i :: 0 < i < |trace| ==> Next(svc, trace[i - 1], trace[i])
  }

  /** Commit `k` is what its command decides on the render of exactly the stream it was appended to. */
  ghost predicate DecidedAt<S, C>(svc: Service<S, C>, log: seq<Commit>, command: C, k: nat)
    requires k < |log|
  {
    var view := View(svc, log[..k], log[k].id);
    view.Ok? &&
    var decision := svc.decide(view.value, command);
    decision.Some? && decision.value != [] && Carries(log[k].events, decision.value, NO_METADATA)
  }

  ghost predicate CycleOk<S, C>(svc: Service<S, C>, log: seq<Commit>, cycle: Cycle<S, C>) {
    match cycle
    case Loaded(id, _, read, entity) => read <= |log| && View(svc, log[..read], id) == Ok(entity)
    case Published(id, at, batch) => at <= |log| && (batch != [] ==> Holds(log, at, id, batch))
    case Finished(id, at, batch, seen, entity) =>
      at <= seen <= |log| && View(svc, log[..seen], id) == Ok(entity) &&
      (batch != [] ==> at < seen && Holds(log, at, id, batch))
    case _ => true
  }

  ghost predicate Holds(log: seq<Commit>, at: nat, id: AggregateId, batch: seq<Event>) {
    at < |log| && log[at].id == id && log[at].events == batch
  }

  ghost predicate Inv<S, C>(svc: Service<S, C>, w: World<S, C>) {
    Valid(w.log) && |w.commands| == |w.log| &&
    (forall k :: 0 <= k < |w.log| ==> DecidedAt(svc, w.log, w.commands[k], k)) &&
    (forall t :: t in w.cycles ==> CycleOk(svc, w.log, w.cycles[t]))
  }

  lemma ViewIgnoresLater<S, C>(svc: Service<S, C>, log: seq<Commit>, later: seq<Commit>, n: nat, id: AggregateId)
    requires log <= later && n <= |log|
    ensures View(svc, log[..n], id) == View(svc, later[..n], id)
  {
    assert log[..n] == later[..n];
  }

  /** The optimistic check at work: if the revision has not moved, neither has the stream, so the decision was made
      on exactly what it is appended to. */
  lemma UnmovedRevisionMeansSameView<S, C>(svc: Service<S, C>, log: seq<Commit>, read: nat, id: AggregateId,
                                          entity: Entity<S>)
    requires Valid(log) && read <= |log| && View(svc, log[..read], id) == Ok(entity)
    requires LastRevision(Stream(log, id)) == entity.revision
    ensures View(svc, log, id) == Ok(entity)
  {
    StreamsOnlyGrow(log[..read], log, id);
    StreamsIncrease(log, id);
    SameRevisionSameStream(Stream(log[..read], id), Stream(log, id));
  }

  lemma PublishKeepsInv<S, C>(svc: Service<S, C>, w: World<S, C>, t: nat, batch: seq<Event>, w': World<S, C>)
    requires Inv(svc, w) && PublishStep(svc, w, t, batch, w')
    ensures Inv(svc, w') && w.log <= w'.log
  {
    var cycle := w.cycles[t];
    assert CycleOk(svc, w.log, cycle);
    if batch != [] {
      var c := Commit(cycle.id, Some(cycle.entity.revision), batch);
      ValidExtend(w.log, c);
      UnmovedRevisionMeansSameView(svc, w.log, cycle.read, cycle.id, cycle.entity);
      assert w'.log[..|w.log|] == w.log;
      CyclesSurviveAppend(svc, w, t, w');
      forall k | 0 <= k < |w'.log| ensures DecidedAt(svc, w'.log, w'.commands[k], k) {
        if k < |w.log| {
          assert DecidedAt(svc, w.log, w.commands[k], k);
          ViewIgnoresLater(svc, w.log, w'.log, k, w.log[k].id);
        }
      }
    }
  }

  lemma CyclesSurviveAppend<S, C>(svc: Service<S, C>, w: World<S, C>, t: nat, w': World<S, C>)
    requires Inv(svc, w) && w.log <= w'.log
    requires t in w'.cycles && w'.cycles == w.cycles[t := w'.cycles[t]] && CycleOk(svc, w'.log, w'.cycles[t])
    ensures forall u :: u in w'.cycles ==> CycleOk(svc, w'.log, w'.cycles[u])
  {
    forall u | u in w'.cycles ensures CycleOk(svc, w'.log, w'.cycles[u]) {
      if u != t {
        var cycle := w.cycles[u];
        assert CycleOk(svc, w.log, cycle);
        if cycle.Loaded? {
          ViewIgnoresLater(svc, w.log, w'.log, cycle.read, cycle.id);
        } else if cycle.Finished? {
          ViewIgnoresLater(svc, w.log, w'.log, cycle.seen, cycle.id);
        }
      }
    }
  }

  lemma NextKeepsInv<S, C>(svc: Service<S, C>, w: World<S, C>, w': World<S, C>)
    requires Inv(svc, w) && Next(svc, w, w')
    ensures Inv(svc, w') && w.log <= w'.log
  {
    var t, batch :| Steps(svc, w, t, batch, w');
    if PublishStep(svc, w, t, batch, w') {
      PublishKeepsInv(svc, w, t, batch, w');
    } else {
      assert w.log[..|w.log|] == w.log;
      assert t in w.cycles ==> CycleOk(svc, w.log, w.cycles[t]);
      CyclesSurviveAppend(svc, w, t, w');
    }
  }

  lemma {:induction false} RunKeepsInv<S, C>(svc: Service<S, C>, trace: seq<World<S, C>>, i: nat)
    requires Run(svc, trace) && i < |trace|
    ensures Inv(svc, trace[i])
  {
    if i > 0 {
      RunKeepsInv(svc, trace, i - 1);
      NextKeepsInv(svc, trace[i - 1], trace[i]);
    }
  }

  /** Commands are serialisable: however the cycles interleave, every committed batch is what its command decides on
      the render of exactly the stream it was appended to, as if the commands had run one after the other in commit
      order. */
  lemma Serialisable<S, C>(svc: Service<S, C>, trace: seq<World<S, C>>, i: nat, k: nat)
    requires Run(svc, trace) && i < |trace| && k < |trace[i].log|
    ensures |trace[i].commands| == |trace[i].log| && DecidedAt(svc, trace[i].log, trace[i].commands[k], k)
  {
    RunKeepsInv(svc, trace, i);
  }

  /** A reload after a successful publish renders an extension of the stream that includes the command's own batch. */
  lemma ReloadIncludesOwnBatch<S, C>(svc: Service<S, C>, trace: seq<World<S, C>>, i: nat, t: nat)
    requires Run(svc, trace) && i < |trace| && t in trace[i].cycles && trace[i].cycles[t].Finished?
    ensures var w, cycle := trace[i], trace[i].cycles[t];
            cycle.at <= cycle.seen <= |w.log| && View(svc, w.log[..cycle.seen], cycle.id) == Ok(cycle.entity) &&
            Stream(w.log[..cycle.at], cycle.id) + cycle.batch <= Stream(w.log[..cycle.seen], cycle.id)
  {
    var w, cycle := trace[i], trace[i].cycles[t];
    RunKeepsInv(svc, trace, i);
    assert CycleOk(svc, w.log, cycle);
    var seen := w.log[..cycle.seen];
    assert seen[..cycle.at] == w.log[..cycle.at];
    if cycle.batch != [] {
      OwnBatchStays(seen, cycle.at);
    } else {
      StreamsOnlyGrow(seen[..cycle.at], seen, cycle.id);
      assert Stream(seen[..cycle.at], cycle.id) + [] == Stream(seen[..cycle.at], cycle.id);
    }
  }

  // ---------------------------------------------------------------- domain invariants

  function Unrecorded(raws: seq<RawEvent>): seq<Event> {
    seq(|raws|, i requires 0 <= i < |raws| => Record(raws[i], NO_METADATA, 0, ZERO))
  }

  /** One command at a time, decided and folded, keeps `good`. */
  ghost predicate KeptSequentially<S(!new), C(!new)>(svc: Service<S, C>, good: S -> bool) {
    good(svc.init) &&
    forall entity: Entity<S>, command: C ::
      good(entity.state) && svc.decide(entity, command).Some? ==>
        KeptBy(svc, good, entity, svc.decide(entity, command).value)
  }

  ghost predicate KeptBy<S, C>(svc: Service<S, C>, good: S -> bool, entity: Entity<S>, raws: seq<RawEvent>) {
    var next := Fold(svc.rules, entity.state, Unrecorded(raws));
    next.Ok? && good(next.value)
  }

  lemma {:induction false} GoodAfter<S(!new), C(!new)>(svc: Service<S, C>, good: S -> bool, log: seq<Commit>,
                                                       commands: seq<C>, n: nat, id: AggregateId)
    requires n <= |log| == |commands| && KeptSequentially(svc, good)
    requires forall k :: 0 <= k < |log| ==> DecidedAt(svc, log, commands[k], k)
    ensures View(svc, log[..n], id).Ok? && good(View(svc, log[..n], id).value.state)
    decreases n
  {
    if n > 0 {
      var before, c := log[..n - 1], log[n - 1];
      assert log[..n] == before + [c];
      ReplayExtend(before, c);
      GoodAfter(svc, good, log, commands, n - 1, id);
      if id == c.id {
        assert DecidedAt(svc, log, commands[n - 1], n - 1);
        var view := View(svc, before, id).value;
        var raws := svc.decide(view, commands[n - 1]).value;
        assert KeptBy(svc, good, view, raws);
        FoldOfSameRaws(svc.rules, view.state, Unrecorded(raws), c.events);
        RenderExtends(svc.rules, svc.init, id, Stream(before, id), c.events);
      }
    }
  }

  /** Any domain invariant that sequential decide-and-fold keeps holds of every rendered stream in every reachable
      state of every interleaving; in particular every stream renders. */
  lemma DomainInvariantHolds<S(!new), C(!new)>(svc: Service<S, C>, good: S -> bool, trace: seq<World<S, C>>, i: nat,
                                               id: AggregateId)
    requires KeptSequentially(svc, good) && Run(svc, trace) && i < |trace|
    ensures var view := View(svc, trace[i].log, id);
            view.Ok? && good(view.value.state)
  {
    RunKeepsInv(svc, trace, i);
    assert trace[i].log[..|trace[i].log|] == trace[i].log;
    GoodAfter(svc, good, trace[i].log, trace[i].commands, |trace[i].log|, id);
  }
}
