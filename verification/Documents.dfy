/** Projected documents: a cache of renders, written by concurrent workers and guarded by one revision comparison.

    One collection, one aggregate type, one renderer: documents are keyed by the aggregate key alone. */
module Documents {
  import opened Core
  import opened AppendLog
  import opened Renderer

  /** What a collection projects; `encode` is the serialisation of the rendered state. */
  datatype Projection<!S, !V> = Projection(init: S, rules: seq<Rule<S>>, encode: S -> Option<V>, aggregateType: string)

  datatype Document<V> = Document(revision: Revision, data: V)

  ghost function Project<S, V>(p: Projection<S, V>, id: AggregateId, stream: seq<Event>): Option<Document<V>> {
    match Render(p.rules, p.init, FromEvents(id, stream))
    case Err(_) => None
    case Ok(entity) =>
      match p.encode(entity.state)
      case None => None
      case Some(data) => Some(Document(entity.revision, data))
  }

  /** The document is what rendering the stream and encoding the state gives. */
  ghost predicate Shows<S, V>(p: Projection<S, V>, id: AggregateId, stream: seq<Event>, doc: Document<V>) {
    var entity := Render(p.rules, p.init, FromEvents(id, stream));
    entity.Ok? && p.encode(entity.value.state) == Some(doc.data) &&
    entity.value.revision == doc.revision == LastRevision(stream)
  }

  /** Rendering fails, or encoding what was rendered. */
  ghost predicate CannotShow<S, V>(p: Projection<S, V>, id: AggregateId, stream: seq<Event>) {
    var entity := Render(p.rules, p.init, FromEvents(id, stream));
    entity.Err? || p.encode(entity.value.state).None?
  }

  /** The aggregate could not be shown as of the first `n` commits. */
  ghost predicate CouldNotShow<S, V>(p: Projection<S, V>, log: seq<Commit>, n: nat, key: string) {
    n <= |log| && CannotShow(p, IdOf(p, key), Stream(log[..n], IdOf(p, key)))
  }

  /** What a worker computes: the document that shows the stream, and none exactly if that cannot be shown. */
  lemma ProjectMeans<S, V>(p: Projection<S, V>, id: AggregateId, stream: seq<Event>)
    ensures Project(p, id, stream).None? <==> CannotShow(p, id, stream)
    ensures forall doc :: Shows(p, id, stream, doc) <==> Project(p, id, stream) == Some(doc)
  {
  }

  /** `ON CONFLICT DO UPDATE ... WHERE excluded.revision > documents.revision` */
  function Upsert<V>(docs: map<string, Document<V>>, key: string, doc: Document<V>): map<string, Document<V>> {
    if key in docs && doc.revision <= docs[key].revision then docs else docs[key := doc]
  }

  function IdOf<S, V>(p: Projection<S, V>, key: string): AggregateId {
    AggregateId(p.aggregateType, key)
  }

  /** The document shows some prefix of its aggregate's stream. */
  ghost predicate Agrees<S, V>(p: Projection<S, V>, log: seq<Commit>, key: string, doc: Document<V>) {
    exists stream :: stream <= Stream(log, IdOf(p, key)) && Shows(p, IdOf(p, key), stream, doc)
  }

  lemma AgreesLater<S, V>(p: Projection<S, V>, log: seq<Commit>, later: seq<Commit>, key: string, doc: Document<V>)
    requires log <= later && Agrees(p, log, key, doc)
    ensures Agrees(p, later, key, doc)
  {
    var stream :| stream <= Stream(log, IdOf(p, key)) && Shows(p, IdOf(p, key), stream, doc);
    StreamsOnlyGrow(log, later, IdOf(p, key));
  }

  /** The document's revision says which prefix: the one that ends there. */
  lemma AgreeingDocumentIsItsPrefix<S, V>(p: Projection<S, V>, log: seq<Commit>, key: string, doc: Document<V>,
                                          stream: seq<Event>)
    requires Valid(log) && Agrees(p, log, key, doc)
    requires stream <= Stream(log, IdOf(p, key)) && LastRevision(stream) == doc.revision
    ensures Shows(p, IdOf(p, key), stream, doc)
  {
    var all := Stream(log, IdOf(p, key));
    var rendered :| rendered <= all && Shows(p, IdOf(p, key), rendered, doc);
    StreamsIncrease(log, IdOf(p, key));
    SameRevisionSamePrefix(rendered, stream, all);
  }

  lemma SameRevisionSamePrefix(a: seq<Event>, b: seq<Event>, all: seq<Event>)
    requires a <= all && b <= all && Increasing(all) && LastRevision(a) == LastRevision(b)
    ensures a == b
  {
    PrefixIncreases(a, all);
    PrefixIncreases(b, all);
    if |a| <= |b| {
      SameRevisionSameStream(a, b);
    } else {
      SameRevisionSameStream(b, a);
    }
  }

  lemma PrefixIncreases(a: seq<Event>, all: seq<Event>)
    requires a <= all && Increasing(all)
    ensures Increasing(a)
  {
    assert forall i :: 0 <= i < |a| ==> a[i] == all[i];
  }

  /** A document at least as new as the whole stream is the projection of the whole stream. */
  lemma NewestDocumentIsFullRender<S, V>(p: Projection<S, V>, log: seq<Commit>, key: string, doc: Document<V>)
    requires Valid(log) && Agrees(p, log, key, doc)
    requires LastRevision(Stream(log, IdOf(p, key))) <= doc.revision
    ensures Shows(p, IdOf(p, key), Stream(log, IdOf(p, key)), doc)
  {
    var all := Stream(log, IdOf(p, key));
    var rendered :| rendered <= all && Shows(p, IdOf(p, key), rendered, doc);
    StreamsIncrease(log, IdOf(p, key));
    if rendered != all {
      LongerIsNewer(rendered, all);
    }
  }

  lemma NewestAreFullRenders<S, V>(p: Projection<S, V>, log: seq<Commit>, docs: map<string, Document<V>>)
    requires Valid(log) && forall key :: key in docs ==> Agrees(p, log, key, docs[key])
    requires forall key :: Stream(log, IdOf(p, key)) != [] ==>
               key in docs && LastRevision(Stream(log, IdOf(p, key))) <= docs[key].revision
    ensures forall key :: Stream(log, IdOf(p, key)) != [] ==>
              Shows(p, IdOf(p, key), Stream(log, IdOf(p, key)), docs[key])
  {
    hide Agrees, Project, Shows, Valid, Stream;
    forall key | Stream(log, IdOf(p, key)) != []
      ensures Shows(p, IdOf(p, key), Stream(log, IdOf(p, key)), docs[key]) {
      NewestDocumentIsFullRender(p, log, key, docs[key]);
    }
  }

  // ---------------------------------------------------------------- every interleaving

  /** A worker of `apply_projection` or of one iteration of `rebuild_projection`. */
  datatype Worker<V> = Called(key: string) | Holding(key: string, doc: Document<V>) | Done

  datatype World<V> = World(log: seq<Commit>, docs: map<string, Document<V>>, workers: map<nat, Worker<V>>)

  ghost predicate Start<V>(w: World<V>) {
    w.log == [] && w.docs == map[] && forall t :: t in w.workers ==> w.workers[t].Called?
  }

  ghost predicate PublishStep<V>(w: World<V>, w': World<V>) {
    w' == w.(log := w'.log) && AppendsAtMostOne(w.log, w'.log)
  }

  ghost predicate LoadStep<S, V>(p: Projection<S, V>, w: World<V>, t: nat, w': World<V>) {
    t in w.workers && w.workers[t].Called? &&
    var key := w.workers[t].key;
    w' == w.(workers := w.workers[t :=
      match Project(p, IdOf(p, key), Stream(w.log, IdOf(p, key)))
      case None => Done
      case Some(doc) => Holding(key, doc)])
  }

  ghost predicate UpsertStep<V>(w: World<V>, t: nat, w': World<V>) {
    t in w.workers && w.workers[t].Holding? &&
    var worker := w.workers[t];
    w' == w.(docs := Upsert(w.docs, worker.key, worker.doc), workers := w.workers[t := Done])
  }

  /** A worker gives up, skips, or is called. */
  ghost predicate IdleStep<V>(w: World<V>, t: nat, w': World<V>) {
    t in w'.workers && !w'.workers[t].Holding? && w' == w.(workers := w.workers[t := w'.workers[t]])
  }

  ghost predicate DeleteStep<V>(w: World<V>, key: string, w': World<V>) {
    w' == w.(docs := w.docs - {key})
  }

  ghost predicate Next<S, V>(p: Projection<S, V>, w: World<V>, w': World<V>) {
    PublishStep(w, w') || (exists key :: DeleteStep(w, key, w')) ||
    exists t :: LoadStep(p, w, t, w') || UpsertStep(w, t, w') || IdleStep(w, t, w')
  }

  ghost predicate Run<S, V>(p: Projection<S, V>, trace: seq<World<V>>) {
    |trace| > 0 && Start(trace[0]) && forall i :: 0 < i < |trace| ==> Next(p, trace[i - 1], trace[i])
  }

  ghost predicate Inv<S, V>(p: Projection<S, V>, w: World<V>) {
    Valid(w.log) &&
    (forall key :: key in w.docs ==> Agrees(p, w.log, key, w.docs[key])) &&
    (forall t :: t in w.workers && w.workers[t].Holding? ==> Agrees(p, w.log, w.workers[t].key, w.workers[t].doc))
  }

  lemma NextKeepsInv<S, V>(p: Projection<S, V>, w: World<V>, w': World<V>)
    requires Inv(p, w) && Next(p, w, w')
    ensures Inv(p, w')
  {
    hide Agrees, Project, Shows;
    if PublishStep(w, w') && w'.log != w.log {
      assert w.log + [w'.log[|w.log|]] == w'.log;
      ValidExtend(w.log, w'.log[|w.log|]);
      forall key | key in w'.docs ensures Agrees(p, w'.log, key, w'.docs[key]) {
        AgreesLater(p, w.log, w'.log, key, w.docs[key]);
      }
      forall t | t in w'.workers && w'.workers[t].Holding?
        ensures Agrees(p, w'.log, w'.workers[t].key, w'.workers[t].doc) {
        AgreesLater(p, w.log, w'.log, w.workers[t].key, w.workers[t].doc);
      }
    } else if t :| LoadStep(p, w, t, w') {
      LoadedDocumentAgrees(p, w.log, w.workers[t].key);
    }
  }

  lemma LoadedDocumentAgrees<S, V>(p: Projection<S, V>, log: seq<Commit>, key: string)
    ensures var doc := Project(p, IdOf(p, key), Stream(log, IdOf(p, key)));
            doc.Some? ==> Agrees(p, log, key, doc.value)
  {
    var stream := Stream(log, IdOf(p, key));
    var doc := Project(p, IdOf(p, key), stream);
    if doc.Some? {
      ProjectMeans(p, IdOf(p, key), stream);
      assert stream <= stream && Shows(p, IdOf(p, key), stream, doc.value);
    }
  }

  /** What the two steps of a worker do: loading leaves it with the document that shows the stream, and with none
      exactly if that cannot be shown; storing leaves a document that is at least as new, and no other changed. */
  lemma WorkersDoTheirWork<S, V>(p: Projection<S, V>, w: World<V>, t: nat, w': World<V>)
    ensures LoadStep(p, w, t, w') ==>
              var id := IdOf(p, w.workers[t].key);
              if CannotShow(p, id, Stream(w.log, id)) then w'.workers[t].Done?
              else w'.workers[t].Holding? && w'.workers[t].key == w.workers[t].key &&
                   Shows(p, id, Stream(w.log, id), w'.workers[t].doc)
    ensures UpsertStep(w, t, w') ==>
              var key, doc := w.workers[t].key, w.workers[t].doc;
              key in w'.docs && doc.revision <= w'.docs[key].revision && w'.docs - {key} == w.docs - {key} &&
              (w'.docs[key] == doc || (key in w.docs && w'.docs[key] == w.docs[key]))
  {
  }

  lemma {:induction false} RunKeepsInv<S, V>(p: Projection<S, V>, trace: seq<World<V>>, i: nat)
    requires Run(p, trace) && i < |trace|
    ensures Inv(p, trace[i])
  {
    if i > 0 {
      RunKeepsInv(p, trace, i - 1);
      NextKeepsInv(p, trace[i - 1], trace[i]);
    }
  }

  /** Under any interleaving of publishers, workers and deletes, every stored document is the render of a prefix of its
      aggregate's stream, namely of the one that ends at the document's revision. */
  lemma DocumentsAreRenderedPrefixes<S, V>(p: Projection<S, V>, trace: seq<World<V>>, i: nat, key: string)
    requires Run(p, trace) && i < |trace| && key in trace[i].docs
    ensures var doc, all := trace[i].docs[key], Stream(trace[i].log, IdOf(p, key));
            (exists stream :: stream <= all && LastRevision(stream) == doc.revision) &&
            forall stream :: stream <= all && LastRevision(stream) == doc.revision ==>
              Shows(p, IdOf(p, key), stream, doc)
  {
    var doc, all := trace[i].docs[key], Stream(trace[i].log, IdOf(p, key));
    RunKeepsInv(p, trace, i);
    assert Agrees(p, trace[i].log, key, doc);
    var rendered :| rendered <= all && Shows(p, IdOf(p, key), rendered, doc);
    assert LastRevision(rendered) == doc.revision;
    forall stream | stream <= all && LastRevision(stream) == doc.revision
      ensures Shows(p, IdOf(p, key), stream, doc) {
      AgreeingDocumentIsItsPrefix(p, trace[i].log, key, doc, stream);
    }
  }

  /** Between deletes a document's revision never decreases. */
  lemma {:induction false} RevisionsNeverDecrease<S, V>(p: Projection<S, V>, trace: seq<World<V>>, i: nat, j: nat,
                                                        key: string)
    requires Run(p, trace) && i <= j < |trace|
    requires forall k :: i <= k <= j ==> key in trace[k].docs
    ensures trace[i].docs[key].revision <= trace[j].docs[key].revision
    decreases j
  {
    hide Project, Admissible;
    if i < j {
      RevisionsNeverDecrease(p, trace, i, j - 1, key);
      assert Next(p, trace[j - 1], trace[j]);
    }
  }

  // ---------------------------------------------------------------- the projection functions

  datatype ProjectionError = StoreFailed | RenderFailed

  class Host<S, V> {
    const p: Projection<S, V>
    var log: seq<Commit>
    var docs: map<string, Document<V>>
    /** How often the event store or the document store has failed. */
    ghost var faults: nat

    ghost predicate Valid()
      reads this
    {
      AppendLog.Valid(log) && forall key :: key in docs ==> Agrees(p, log, key, docs[key])
    }

    constructor (p: Projection<S, V>)
      ensures Valid() && this.p == p && log == [] && docs == map[] && faults == 0
    {
      this.p, log, docs, faults := p, [], map[], 0;
    }

    /** Since then: the log has only grown, no document has disappeared or become older. */
    twostate predicate Evolved()
      reads this
    {
      old(log) <= log &&
      forall key :: key in old(docs) ==> key in docs && old(docs)[key].revision <= docs[key].revision
    }

    /** A call of either store that may fail. */
    method CallStore() returns (failure: bool)
      modifies this`faults
      ensures faults == old(faults) + if failure then 1 else 0
    {
      failure := *;
      faults := faults + if failure then 1 else 0;
    }

    /** Other publishers (if `publishing`) and other appliers step any number of times. */
    method Interfere(publishing: bool)
      requires Valid()
      modifies this`log, this`docs
      ensures Valid() && Evolved() && (publishing || log == old(log))
    {
      var steps: int := *;
      while 0 < steps
        invariant Valid() && Evolved() && (publishing || log == old(log))
      {
        var publishes: bool := *;
        if publishes {
          var c: Commit := *;
          if publishing && Admissible(Replay(log), c) {
            Append(c);
          }
        } else {
          // an applier that loaded some time ago
          var key: string, n: int := *, *;
          if 0 <= n <= |log| {
            var doc := LoadAndRender(key, n);
            if doc.Some? {
              Store(key, doc.value);
            }
          }
        }
        steps := steps - 1;
      }
    }

    method Append(c: Commit)
      requires Valid() && Admissible(Replay(log), c)
      modifies this`log
      ensures Valid() && log == old(log) + [c]
    {
      ValidExtend(log, c);
      forall key | key in docs ensures Agrees(p, log + [c], key, docs[key]) {
        AgreesLater(p, log, log + [c], key, docs[key]);
      }
      log := log + [c];
    }

    /** Load the aggregate as of the first `n` commits, render and encode it. */
    method LoadAndRender(key: string, n: nat) returns (doc: Option<Document<V>>)
      requires Valid() && n <= |log|
      ensures doc == Project(p, IdOf(p, key), Stream(log[..n], IdOf(p, key)))
      ensures doc.None? <==> CouldNotShow(p, log, n, key)
      ensures doc.Some? ==>
                Shows(p, IdOf(p, key), Stream(log[..n], IdOf(p, key)), doc.value) &&
                Agrees(p, log[..n], key, doc.value) && Agrees(p, log, key, doc.value) &&
                doc.value.revision == LastRevision(Stream(log[..n], IdOf(p, key)))
    {
      var id := IdOf(p, key);
      var entity, _ := RenderAggregate(p.rules, p.init, FromEvents(id, Stream(log[..n], id)));
      if entity.Err? { return None; }
      var data := p.encode(entity.value.state);
      if data.None? { return None; }
      LoadedDocumentAgrees(p, log[..n], key);
      AgreesLater(p, log[..n], log, key, Document(entity.value.revision, data.value));
      return Some(Document(entity.value.revision, data.value));
    }

    /** `DocumentStore::upsert`. */
    method Store(key: string, doc: Document<V>)
      requires Valid() && Agrees(p, log, key, doc)
      modifies this`docs
      ensures Valid() && docs == Upsert(old(docs), key, doc) && Evolved()
      ensures key in docs && doc.revision <= docs[key].revision
      ensures docs[key] == doc || (key in old(docs) && docs[key] == old(docs)[key])
      ensures docs - {key} == old(docs) - {key}
    {
      hide Agrees, AppendLog.Valid;
      docs := Upsert(docs, key, doc);
    }

    /** `apply_projection`: on success the document is at least as new as the stream was at the call, and shows the
        prefix that ends at its revision.  It fails only if a store does, or if the stream it loaded cannot be shown. */
    method ApplyProjection(key: string, publishing: bool) returns (r: Result<(), ProjectionError>)
      requires Valid()
      modifies this
      ensures Valid() && Evolved() && (publishing || log == old(log))
      ensures r.Ok? ==> key in docs && LastRevision(Stream(old(log), IdOf(p, key))) <= docs[key].revision
      ensures r.Ok? ==> Agrees(p, log, key, docs[key])
      ensures faults == old(faults) + if r == Err(StoreFailed) then 1 else 0
      ensures r == Err(RenderFailed) ==> exists n :: |old(log)| <= n <= |log| && CouldNotShow(p, log, n, key)
    {
      hide Agrees, Project, Shows, AppendLog.Valid;
      Interfere(publishing);
      var failure := CallStore();
      if failure { return Err(StoreFailed); }
      ghost var loaded := log;
      assert log[..|log|] == log;
      var doc := LoadAndRender(key, |log|);
      if doc.None? {
        assert CouldNotShow(p, log, |log|, key);
        return Err(RenderFailed);
      }
      GrownIsNewer(old(log), loaded, IdOf(p, key));
      Interfere(publishing);
      AgreesLater(p, loaded, log, key, doc.value);
      failure := CallStore();
      if failure { return Err(StoreFailed); }
      Store(key, doc.value);
      return Ok(());
    }

    /** What an enumeration promises while others publish: no key that had events at its start is missing.  There may be
        others, of aggregates that got their first events meanwhile, or of ids that a partition lists without looking
        for events. */
    method EnumerateByType(publishing: bool) returns (r: Result<seq<string>, ProjectionError>)
      requires Valid()
      modifies this
      ensures Valid() && Evolved() && (publishing || log == old(log))
      ensures r.Ok? ==> forall key :: Stream(old(log), IdOf(p, key)) != [] ==> key in r.value
      ensures r.Err? ==> r.error == StoreFailed
      ensures faults == old(faults) + if r.Err? then 1 else 0
    {
      hide Agrees, Project, Shows, AppendLog.Valid;
      var start := log;
      var keys: seq<string> := *;  // listed without looking
      var ids := Replay(start).Keys;
      var rest := ids;
      while rest != {}
        invariant rest <= ids
        invariant Valid() && Evolved() && (publishing || log == old(log)) && faults == old(faults)
        invariant forall key :: IdOf(p, key) in ids - rest && Stream(start, IdOf(p, key)) != [] ==> key in keys
      {
        Interfere(publishing);
        var failure := CallStore();
        if failure { return Err(StoreFailed); }
        var id :| id in rest;
        StreamsOnlyGrow(start, log, id);
        if id.aggregateType == p.aggregateType && Stream(log, id) != [] {
          keys := keys + [id.key];
        }
        rest := rest - {id};
      }
      return Ok(keys);
    }

    /** One iteration of the rebuild: load; skip if the stored document carries the loaded revision; otherwise render
        and upsert.  On success the document is at least as new as the stream that was loaded. */
    method RebuildOne(key: string, publishing: bool)
      returns (r: Result<(), ProjectionError>, ghost loadedFrom: seq<Commit>)
      requires Valid()
      modifies this
      ensures Valid() && Evolved() && (publishing || log == old(log))
      ensures r.Ok? ==>
                old(log) <= loadedFrom <= log &&
                key in docs && LastRevision(Stream(loadedFrom, IdOf(p, key))) <= docs[key].revision
      ensures r.Ok? ==> LastRevision(Stream(old(log), IdOf(p, key))) <= docs[key].revision
      ensures r.Ok? ==> Agrees(p, log, key, docs[key])
      ensures faults == old(faults) + if r == Err(StoreFailed) then 1 else 0
      ensures r == Err(RenderFailed) ==>
                old(log) <= loadedFrom <= log && CannotShow(p, IdOf(p, key), Stream(loadedFrom, IdOf(p, key)))
    {
      hide Agrees, Project, Shows, CannotShow, AppendLog.Valid, Stream;
      Interfere(publishing);
      var loaded := log;  // the aggregate, as of now
      loadedFrom := loaded;
      var failure := CallStore();
      if failure { return Err(StoreFailed), loadedFrom; }
      GrownIsNewer(old(log), loaded, IdOf(p, key));
      Interfere(publishing);
      failure := CallStore();
      if failure { return Err(StoreFailed), loadedFrom; }
      if key in docs && docs[key].revision == LastRevision(Stream(loaded, IdOf(p, key))) {
        return Ok(()), loadedFrom;
      }
      assert log[..|loaded|] == loaded;
      var doc := LoadAndRender(key, |loaded|);
      if doc.None? { return Err(RenderFailed), loadedFrom; }
      Interfere(publishing);
      AgreesLater(p, loaded, log, key, doc.value);
      failure := CallStore();
      if failure { return Err(StoreFailed), loadedFrom; }
      Store(key, doc.value);
      return Ok(()), loadedFrom;
    }

    /** `rebuild_projection`: on success every aggregate of the type that existed at the start has a document at least
        as new as its stream then, whatever was published or applied meanwhile, showing the prefix that ends at its
        revision; and if nothing was published, every such document shows the full stream, the skipped ones included.
        It fails only if a store does, or if a stream it loaded cannot be shown. */
    method RebuildProjection(publishing: bool) returns (r: Result<(), ProjectionError>)
      requires Valid()
      modifies this
      ensures Valid() && Evolved() && (publishing || log == old(log))
      ensures r.Ok? ==>
                forall key :: Stream(old(log), IdOf(p, key)) != [] ==>
                  key in docs && LastRevision(Stream(old(log), IdOf(p, key))) <= docs[key].revision &&
                  Agrees(p, log, key, docs[key])
      ensures faults == old(faults) + if r == Err(StoreFailed) then 1 else 0
      ensures r == Err(RenderFailed) ==>
                exists key, n :: |old(log)| <= n <= |log| && CouldNotShow(p, log, n, key)
      ensures r.Ok? && log == old(log) ==>
                forall key :: Stream(log, IdOf(p, key)) != [] ==>
                  key in docs && Shows(p, IdOf(p, key), Stream(log, IdOf(p, key)), docs[key])
    {
      hide Agrees, Project, Shows, AppendLog.Valid, Stream;
      var listed := EnumerateByType(publishing);
      if listed.Err? { return Err(listed.error); }
      var keys := listed.value;
      for i := 0 to |keys|
        invariant Valid() && Evolved() && (publishing || log == old(log)) && faults == old(faults)
        invariant forall j :: 0 <= j < i ==> UpToDate(old(log), keys[j])
      {
        ghost var before := log;
        var one;
        ghost var loadedFrom;
        one, loadedFrom := RebuildOne(keys[i], publishing);
        if one.Err? {
          assert one == Err(RenderFailed) ==>
                   log[..|loadedFrom|] == loadedFrom && CouldNotShow(p, log, |loadedFrom|, keys[i]);
          return one;
        }
        GrownIsNewer(old(log), before, IdOf(p, keys[i]));
      }
      assert forall key :: Stream(old(log), IdOf(p, key)) != [] ==> UpToDate(old(log), key);
      if log == old(log) {
        NewestAreFullRenders(p, log, docs);
      }
      return Ok(());
    }

    ghost predicate UpToDate(asOf: seq<Commit>, key: string)
      reads this
    {
      key in docs && LastRevision(Stream(asOf, IdOf(p, key))) <= docs[key].revision
    }
  }

  lemma GrownIsNewer(log: seq<Commit>, later: seq<Commit>, id: AggregateId)
    requires Valid(later) && log <= later
    ensures LastRevision(Stream(log, id)) <= LastRevision(Stream(later, id))
  {
    StreamsOnlyGrow(log, later, id);
    StreamsIncrease(later, id);
    if Stream(log, id) != Stream(later, id) {
      LongerIsNewer(Stream(log, id), Stream(later, id));
    }
  }
}
