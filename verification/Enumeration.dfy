/** Enumerating the aggregates of a store with local files: list the partitions that exist, read each as its strategy
    plans, sort and drop duplicates, while other store instances go on publishing. */
module Enumeration {
  import opened Binary
  import opened Core
  import opened AggregateIds
  import opened LocalPaths
  import opened Strategies
  import opened SqliteTable

  /** `path_for_partition`: the configured root itself, or a file in it. */
  datatype Path = Root | File(name: string)

  type Files = map<Path, seq<Row>>

  function PathOf(p: Partition): Path {
    match p
    case Whole => Root
    case Named(name, _) => File(FileName(name))
  }

  /** The partition's name is a Rust `String`, as every name is. */
  predicate HasText(s: Strategy, utf8: string -> bool, id: AggregateId)
    requires s.Valid()
  {
    var p := PartitionFor(s, id);
    p.Named? ==> IsBytes(p.name) && utf8(p.name)
  }

  /** Under the aggregate strategy the id also survives its text. */
  predicate Routable(s: Strategy, utf8: string -> bool, id: AggregateId)
    requires s.Valid()
  {
    (s.ByAggregate? ==> RoundTrips(id)) && HasText(s, utf8, id)
  }

  ghost predicate Routed(s: Strategy, utf8: string -> bool, p: Partition, id: AggregateId)
    requires s.Valid()
  {
    Routable(s, utf8, id) && PartitionFor(s, id) == p
  }

  /** Some aggregate is routed to the partition. */
  ghost predicate Belongs(s: Strategy, utf8: string -> bool, p: Partition)
    requires s.Valid()
  {
    exists id :: Routed(s, utf8, p, id)
  }

  lemma FileNamesAreDistinct(a: string, b: string)
    requires IsBytes(a) && IsBytes(b) && FileName(a) == FileName(b)
    ensures a == b
  {
    hide EncodePathComponent;
    FileNameIsDatabase(a);
    FileNameIsDatabase(b);
    DistinctNamesDistinctComponents(a, b);
  }

  lemma OwnNameRestores(s: Strategy, utf8: string -> bool, id: AggregateId)
    requires s.Valid() && Routable(s, utf8, id)
    ensures PartitionFor(s, id).Named? <==> !s.Global?
    ensures !s.Global? ==>
              var p := PartitionFor(s, id);
              IsBytes(p.name) && utf8(p.name) && FromName(s, p.name) == Ok(p)
    ensures s.Global? ==> PartitionFor(s, id) == Whole
  {
    hide IsBytes, RoundTrips;
    if !s.Global? {
      RestoredIff(s, id);
    }
  }

  /** Under restorable names, one file is one partition. */
  lemma PathDeterminesPartition(s: Strategy, utf8: string -> bool, a: AggregateId, b: AggregateId)
    requires s.Valid() && Routable(s, utf8, a) && Routable(s, utf8, b)
    requires PathOf(PartitionFor(s, a)) == PathOf(PartitionFor(s, b))
    ensures PartitionFor(s, a) == PartitionFor(s, b)
  {
    hide PartitionFor, RoundTrips, FileName;
    OwnNameRestores(s, utf8, a);
    OwnNameRestores(s, utf8, b);
    if !s.Global? {
      FileNamesAreDistinct(PartitionFor(s, a).name, PartitionFor(s, b).name);
    }
    NameDeterminesPartition(s, a, b);
  }

  /** Under the aggregate strategy exactly the ids with a colon in their type or key share a file with another id, each
      in a partition of its own. */
  lemma AggregateSharesFileIff(utf8: string -> bool, id: AggregateId)
    requires HasText(ByAggregate, utf8, id)
    ensures (exists other :: other != id && SharesFile(utf8, id, other)) <==> ':' in id.aggregateType || ':' in id.key
    ensures forall other :: other != id ==> PartitionFor(ByAggregate, other) != PartitionFor(ByAggregate, id)
  {
    hide FileName;
    TextIsSharedIff(id);
    if other :| other != id && Print(other) == Print(id) {
      assert SharesFile(utf8, id, other);
    }
    if other :| other != id && SharesFile(utf8, id, other) {
      FileNamesAreDistinct(Print(other), Print(id));
    }
  }

  predicate SharesFile(utf8: string -> bool, a: AggregateId, b: AggregateId) {
    HasText(ByAggregate, utf8, b) && PathOf(PartitionFor(ByAggregate, a)) == PathOf(PartitionFor(ByAggregate, b))
  }

  // ---------------------------------------------------------------- every run of any number of instances

  /** Opening an absent file creates it. */
  function Appended(files: Files, path: Path, rows: seq<Row>): Files {
    files[path := (if path in files then files[path] else []) + rows]
  }

  datatype World = World(files: Files, instances: map<nat, set<Partition>>)

  datatype Step =
    | Create(id: AggregateId)
    | OpenForPublish(instance: nat, id: AggregateId)
    | OpenForLoad(instance: nat, id: AggregateId)
    | OpenDiscovered(instance: nat, name: string)
    | Publish(instance: nat, id: AggregateId, events: seq<Event>)
    | Restart(instance: nat)

  function Connect(w: World, instance: nat, p: Partition): World
    requires instance in w.instances
  {
    w.(instances := w.instances[instance := w.instances[instance] + {p}])
  }

  predicate NamesAggregate(step: Step) {
    step.Create? || step.OpenForPublish? || step.OpenForLoad? || step.Publish?
  }

  /** The step is about an aggregate that survives its text, or about none. */
  predicate RoutableStep(s: Strategy, utf8: string -> bool, step: Step)
    requires s.Valid()
  {
    NamesAggregate(step) ==> Routable(s, utf8, step.id)
  }

  ghost predicate Next(s: Strategy, utf8: string -> bool, w: World, step: Step, w': World)
    requires s.Valid()
  {
    (NamesAggregate(step) ==> HasText(s, utf8, step.id)) &&
    match step
    case Create(id) =>  // opening failed after the file was made
      w' == w.(files := Appended(w.files, PathOf(PartitionFor(s, id)), []))
    case OpenForPublish(i, id) =>
      i in w.instances && var p := PartitionFor(s, id);
      w' == Connect(w, i, p).(files := Appended(w.files, PathOf(p), []))
    case OpenForLoad(i, id) =>
      i in w.instances && var p := PartitionFor(s, id);
      w' == if PathOf(p) in w.files then Connect(w, i, p) else w
    case OpenDiscovered(i, name) =>
      i in w.instances && IsBytes(name) && File(FileName(name)) in w.files && FromName(s, name).Ok? &&
      w' == Connect(w, i, FromName(s, name).value)
    case Publish(i, id, events) =>
      i in w.instances && PartitionFor(s, id) in w.instances[i] &&
      w' == w.(files := Appended(w.files, PathOf(PartitionFor(s, id)), RowsFor(id, events)))
    case Restart(i) =>
      w' == w.(instances := w.instances[i := {}])
  }

  ghost predicate Start(w: World) {
    w.files == map[] && forall i :: i in w.instances ==> w.instances[i] == {}
  }

  ghost predicate Run(s: Strategy, utf8: string -> bool, trace: seq<World>, steps: seq<Step>)
    requires s.Valid()
  {
    |trace| == |steps| + 1 && Start(trace[0]) &&
    forall i :: 0 <= i < |steps| ==> Next(s, utf8, trace[i], steps[i], trace[i + 1])
  }

  /** The file belongs to some partition, and holds only events routed to that partition. */
  ghost predicate FileOk(s: Strategy, utf8: string -> bool, path: Path, rows: seq<Row>)
    requires s.Valid()
  {
    (exists id :: Routable(s, utf8, id) && path == PathOf(PartitionFor(s, id))) &&
    forall i :: 0 <= i < |rows| ==> Routable(s, utf8, rows[i].id) && PathOf(PartitionFor(s, rows[i].id)) == path
  }

  ghost predicate FilesOk(s: Strategy, utf8: string -> bool, files: Files)
    requires s.Valid()
  {
    forall path :: path in files ==> FileOk(s, utf8, path, files[path])
  }

  ghost predicate ConnectionOk(s: Strategy, utf8: string -> bool, files: Files, p: Partition)
    requires s.Valid()
  {
    PathOf(p) in files && Belongs(s, utf8, p)
  }

  ghost predicate ConnectionsOk(s: Strategy, utf8: string -> bool, files: Files, connections: set<Partition>)
    requires s.Valid()
  {
    forall p :: p in connections ==> ConnectionOk(s, utf8, files, p)
  }

  ghost predicate Inv(s: Strategy, utf8: string -> bool, w: World)
    requires s.Valid()
  {
    FilesOk(s, utf8, w.files) && forall i :: i in w.instances ==> ConnectionsOk(s, utf8, w.files, w.instances[i])
  }

  lemma AppendedOk(s: Strategy, utf8: string -> bool, files: Files, id: AggregateId, events: seq<Event>)
    requires s.Valid() && FilesOk(s, utf8, files) && Routable(s, utf8, id)
    ensures FilesOk(s, utf8, Appended(files, PathOf(PartitionFor(s, id)), RowsFor(id, events)))
  {
    hide Routable, PartitionFor, PathOf;
    var path := PathOf(PartitionFor(s, id));
    var after := Appended(files, path, RowsFor(id, events));
    assert path in files ==> FileOk(s, utf8, path, files[path]);
    assert FileOk(s, utf8, path, after[path]);
    forall other | other in after ensures FileOk(s, utf8, other, after[other]) {
      assert other != path ==> FileOk(s, utf8, other, files[other]);
    }
  }

  lemma OpenedOk(s: Strategy, utf8: string -> bool, files: Files, id: AggregateId)
    requires s.Valid() && FilesOk(s, utf8, files) && Routable(s, utf8, id)
    ensures FilesOk(s, utf8, Appended(files, PathOf(PartitionFor(s, id)), []))
  {
    AppendedOk(s, utf8, files, id, []);
    assert RowsFor(id, []) == [];
  }

  /** A file's name, read back, names the partition it belongs to. */
  lemma NamedFileIsItsPartition(s: Strategy, utf8: string -> bool, files: Files, name: string)
    requires s.Valid() && FilesOk(s, utf8, files) && IsBytes(name) && File(FileName(name)) in files
    requires FromName(s, name).Ok?
    ensures ConnectionOk(s, utf8, files, FromName(s, name).value)
  {
    hide Routable, PartitionFor, FromName, EncodePathComponent;
    var path := File(FileName(name));
    assert FileOk(s, utf8, path, files[path]);
    var id :| Routable(s, utf8, id) && path == PathOf(PartitionFor(s, id));
    OwnNameRestores(s, utf8, id);
    FileNamesAreDistinct(PartitionFor(s, id).name, name);
    assert Routed(s, utf8, PartitionFor(s, id), id);
  }

  lemma NextKeepsInv(s: Strategy, utf8: string -> bool, w: World, step: Step, w': World)
    requires s.Valid() && Inv(s, utf8, w) && Next(s, utf8, w, step, w') && RoutableStep(s, utf8, step)
    ensures Inv(s, utf8, w')
  {
    hide HasText, PathOf, PartitionFor, Routable, FilesOk, FromName, FileName;
    match step {
      case Create(id) => OpenedOk(s, utf8, w.files, id);
      case OpenForPublish(i, id) =>
        OpenedOk(s, utf8, w.files, id);
        assert Routed(s, utf8, PartitionFor(s, id), id);
      case OpenForLoad(i, id) =>
        assert Routed(s, utf8, PartitionFor(s, id), id);
      case OpenDiscovered(i, name) => NamedFileIsItsPartition(s, utf8, w.files, name);
      case Publish(i, id, events) => AppendedOk(s, utf8, w.files, id, events);
      case Restart(_) =>
    }
    forall i, p | i in w'.instances && p in w'.instances[i] ensures ConnectionOk(s, utf8, w'.files, p) {
      if i in w.instances && p in w.instances[i] {
        assert ConnectionsOk(s, utf8, w.files, w.instances[i]) && ConnectionOk(s, utf8, w.files, p);
      }
    }
  }

  /** Every row lies in the file of its aggregate's partition. */
  ghost predicate Housed(s: Strategy, files: Files)
    requires s.Valid()
  {
    forall path, i :: path in files && 0 <= i < |files[path]| ==> PathOf(PartitionFor(s, files[path][i].id)) == path
  }

  /** In every run, of whatever aggregates, events lie only in the file of their own partition. */
  lemma {:induction false} RunHousesEvents(s: Strategy, utf8: string -> bool, trace: seq<World>, steps: seq<Step>,
                                           i: nat)
    requires s.Valid() && Run(s, utf8, trace, steps) && i < |trace|
    ensures Housed(s, trace[i].files)
  {
    hide PathOf, PartitionFor, FromName, FileName, HasText;
    if i > 0 {
      RunHousesEvents(s, utf8, trace, steps, i - 1);
      assert Next(s, utf8, trace[i - 1], steps[i - 1], trace[i]);
    }
  }

  /** In every run about routable aggregates each file moreover holds events of one partition only, and every connection
      leads to the file of its partition: what the enumeration below relies on. */
  lemma {:induction false} RunKeepsInv(s: Strategy, utf8: string -> bool, trace: seq<World>, steps: seq<Step>, i: nat)
    requires s.Valid() && Run(s, utf8, trace, steps) && i < |trace|
    requires forall k :: 0 <= k < |steps| ==> RoutableStep(s, utf8, steps[k])
    ensures Inv(s, utf8, trace[i])
    ensures forall path, j, k :: path in trace[i].files && 0 <= j < k < |trace[i].files[path]| ==>
              PartitionFor(s, trace[i].files[path][j].id) == PartitionFor(s, trace[i].files[path][k].id)
  {
    if i > 0 {
      RunKeepsInv(s, utf8, trace, steps, i - 1);
      NextKeepsInv(s, utf8, trace[i - 1], steps[i - 1], trace[i]);
    }
    hide PathOf, PartitionFor, Routable, Next;
    var files: Files := trace[i].files;
    forall path: Path, j: nat, k: nat | path in files && 0 <= j < k < |files[path]|
      ensures PartitionFor(s, files[path][j].id) == PartitionFor(s, files[path][k].id) {
      assert FileOk(s, utf8, path, files[path]);
      PathDeterminesPartition(s, utf8, files[path][j].id, files[path][k].id);
    }
  }

  // ---------------------------------------------------------------- what is listed

  predicate Wanted(of: Option<string>, id: AggregateId) {
    of.Some? ==> id.aggregateType == of.value
  }

  ghost predicate InFile(files: Files, path: Path, id: AggregateId) {
    path in files && exists i :: 0 <= i < |files[path]| && files[path][i].id == id
  }

  ghost predicate Committed(files: Files, id: AggregateId) {
    exists path :: InFile(files, path, id)
  }

  /** What an enumeration of a quiet store lists: the ids with committed events, except that the aggregate strategy
      lists the id of every partition whose file exists, without looking for events. */
  ghost predicate Listed(s: Strategy, utf8: string -> bool, files: Files, of: Option<string>, id: AggregateId)
    requires s.Valid()
  {
    Wanted(of, id) &&
    if s.ByAggregate? then Routable(s, utf8, id) && PathOf(PartitionFor(s, id)) in files else Committed(files, id)
  }

  ghost predicate Answers(files: Files, p: Partition, plan: PartitionRead, id: AggregateId) {
    match plan
    case ScanAll => InFile(files, PathOf(p), id)
    case ScanType(aggregateType) => InFile(files, PathOf(p), id) && id.aggregateType == aggregateType
    case Direct(d) => id == d
    case Skip => false
  }

  /** Committed ids lie in the file of their own partition. */
  lemma CommittedWhere(s: Strategy, utf8: string -> bool, files: Files, path: Path, id: AggregateId)
    requires s.Valid() && FilesOk(s, utf8, files) && InFile(files, path, id)
    ensures Routable(s, utf8, id) && path == PathOf(PartitionFor(s, id))
  {
    assert FileOk(s, utf8, path, files[path]);
  }

  /** Under every strategy a committed id is listed; so is its type, in the by-type form. */
  lemma CommittedIsListed(s: Strategy, utf8: string -> bool, files: Files, of: Option<string>, id: AggregateId)
    requires s.Valid() && FilesOk(s, utf8, files) && Committed(files, id) && Wanted(of, id)
    ensures Listed(s, utf8, files, of, id)
  {
    var path :| InFile(files, path, id);
    CommittedWhere(s, utf8, files, path, id);
  }

  /** The read plans split the listed ids by partition: a partition's answer is exactly its own share. */
  lemma AnswerIsOwnShare(s: Strategy, utf8: string -> bool, files: Files, p: Partition, owner: AggregateId,
                         of: Option<string>, id: AggregateId)
    requires s.Valid() && FilesOk(s, utf8, files) && Routed(s, utf8, p, owner)
    requires s.ByAggregate? ==> PathOf(p) in files
    ensures Answers(files, p, ReadPlan(s, p, of), id) <==> Listed(s, utf8, files, of, id) && PartitionFor(s, id) == p
  {
    if s.ByAggregate? {
      assert p == Named(Print(owner), IdKey(owner));
    } else {
      hide Routable, PathOf, Committed, InFile, FilesOk;
      ScanIsOwnShare(s, utf8, files, p, owner, id);
      assert Listed(s, utf8, files, of, id) <==> Wanted(of, id) && Committed(files, id);
      if s.ByType? {
        assert p.key.aggregateType == owner.aggregateType;
      }
    }
  }

  lemma ScanIsOwnShare(s: Strategy, utf8: string -> bool, files: Files, p: Partition, owner: AggregateId,
                       id: AggregateId)
    requires s.Valid() && FilesOk(s, utf8, files) && Routed(s, utf8, p, owner)
    ensures InFile(files, PathOf(p), id) <==> Committed(files, id) && PartitionFor(s, id) == p
  {
    hide PathOf, Routable, PartitionFor, InFile, FilesOk;
    if InFile(files, PathOf(p), id) {
      CommittedWhere(s, utf8, files, PathOf(p), id);
      PathDeterminesPartition(s, utf8, owner, id);
    }
    if Committed(files, id) {
      var path :| InFile(files, path, id);
      CommittedWhere(s, utf8, files, path, id);
    }
  }

  /** Exactly when the aggregate strategy's listing is right: when no file is empty.  An opened partition whose first
      publish failed leaves an empty file, and its id is listed. */
  lemma AggregateListingIsExactIff(utf8: string -> bool, files: Files)
    requires FilesOk(ByAggregate, utf8, files)
    ensures (forall id :: Listed(ByAggregate, utf8, files, None, id) <==> Committed(files, id)) <==>
            (forall path :: path in files ==> files[path] != [])
  {
    hide Routable, PathOf;
    var s := ByAggregate;
    forall id | Listed(s, utf8, files, None, id) && files[PathOf(PartitionFor(s, id))] != []
      ensures Committed(files, id) {
      var path := PathOf(PartitionFor(s, id));
      assert FileOk(s, utf8, path, files[path]);
      PathDeterminesPartition(s, utf8, id, files[path][0].id);
      assert InFile(files, path, id);
    }
    forall id | Committed(files, id)
      ensures Listed(s, utf8, files, None, id) && files[PathOf(PartitionFor(s, id))] != [] {
      CommittedIsListed(s, utf8, files, None, id);
      var path :| InFile(files, path, id);
      CommittedWhere(s, utf8, files, path, id);
    }
    forall path | path in files
      ensures exists id :: Listed(s, utf8, files, None, id) && path == PathOf(PartitionFor(s, id)) {
      assert FileOk(s, utf8, path, files[path]);
    }
  }

  /** Files are never removed, rows are never changed. */
  ghost predicate Grown(files: Files, later: Files) {
    forall path :: path in files ==> path in later && files[path] <= later[path]
  }

  lemma ListedLater(s: Strategy, utf8: string -> bool, files: Files, later: Files, of: Option<string>, id: AggregateId)
    requires s.Valid() && Grown(files, later) && Listed(s, utf8, files, of, id)
    ensures Listed(s, utf8, later, of, id)
  {
    if !s.ByAggregate? {
      var path :| InFile(files, path, id);
      var i :| 0 <= i < |files[path]| && files[path][i].id == id;
      assert later[path][i].id == id;
      assert InFile(later, path, id);
    }
  }

  /** A listed id's partition exists, so a listing of the partitions has it. */
  lemma ListedPartitionExists(s: Strategy, utf8: string -> bool, files: Files, of: Option<string>, id: AggregateId)
    requires s.Valid() && FilesOk(s, utf8, files) && Listed(s, utf8, files, of, id)
    ensures Routed(s, utf8, PartitionFor(s, id), id) && PathOf(PartitionFor(s, id)) in files
  {
    if !s.ByAggregate? {
      var path :| InFile(files, path, id);
      CommittedWhere(s, utf8, files, path, id);
    }
  }

  /** Nothing listed at the start is missing from the partitions done, and nothing collected is unlisted by now. */
  ghost predicate Collected(s: Strategy, utf8: string -> bool, of: Option<string>, start: Files, files: Files,
                            done: set<Partition>, ids: seq<AggregateId>)
    requires s.Valid()
  {
    Grown(start, files) &&
    (forall id :: Listed(s, utf8, start, of, id) && PartitionFor(s, id) in done ==> id in ids) &&
    forall id :: id in ids ==> Listed(s, utf8, files, of, id)
  }

  lemma OneMoreShare(s: Strategy, utf8: string -> bool, of: Option<string>, start: Files, before: Files, files: Files,
                     done: set<Partition>, ids: seq<AggregateId>, p: Partition, more: seq<AggregateId>)
    requires s.Valid() && FilesOk(s, utf8, files) && Grown(before, files)
    requires Belongs(s, utf8, p) && (s.Global? || PathOf(p) in start)
    requires forall id :: id in more <==> Answers(files, p, ReadPlan(s, p, of), id)
    requires Collected(s, utf8, of, start, before, done, ids)
    ensures Collected(s, utf8, of, start, files, done + {p}, ids + more)
  {
    hide FilesOk, Routable, Routed, PartitionFor, PathOf, Listed, Answers, ReadPlan;
    var owner :| Routed(s, utf8, p, owner);
    assert Grown(start, files);
    forall id | id in ids + more ensures Listed(s, utf8, files, of, id) {
      if id in ids {
        ListedLater(s, utf8, before, files, of, id);
      } else {
        AnswerIsOwnShare(s, utf8, files, p, owner, of, id);
      }
    }
    forall id | Listed(s, utf8, start, of, id) && PartitionFor(s, id) in done + {p} ensures id in ids + more {
      if PartitionFor(s, id) == p {
        ListedLater(s, utf8, start, files, of, id);
        AnswerIsOwnShare(s, utf8, files, p, owner, of, id);
      }
    }
  }

  lemma GrownTrans(files: Files, later: Files, last: Files)
    ensures Grown(files, files)
    ensures Grown(files, later) && Grown(later, last) ==> Grown(files, last)
  {
  }

  lemma NothingYet(s: Strategy, utf8: string -> bool, of: Option<string>, start: Files)
    requires s.Valid()
    ensures Collected(s, utf8, of, start, start, {}, [])
  {
  }

  lemma NothingMissed(s: Strategy, utf8: string -> bool, of: Option<string>, start: Files, files: Files,
                      known: set<Partition>, ids: seq<AggregateId>)
    requires s.Valid() && FilesOk(s, utf8, start) && Collected(s, utf8, of, start, files, known, ids)
    requires forall p :: p in known <==> Belongs(s, utf8, p) && (s.Global? || PathOf(p) in start)
    ensures forall id :: Listed(s, utf8, start, of, id) ==> id in ids
    ensures forall id :: id in ids ==> Listed(s, utf8, files, of, id)
  {
    hide FilesOk, Routable, Routed, PartitionFor, PathOf, Listed;
    forall id | Listed(s, utf8, start, of, id) ensures id in ids {
      ListedPartitionExists(s, utf8, start, of, id);
    }
  }

  // ---------------------------------------------------------------- sorting and dropping duplicates

  predicate Ascending(ids: seq<AggregateId>) {
    forall i, j :: 0 <= i < j < |ids| ==> !IdLess(ids[j], ids[i])
  }

  predicate StrictlySorted(ids: seq<AggregateId>) {
    forall i, j :: 0 <= i < j < |ids| ==> IdLess(ids[i], ids[j])
  }

  function InsertId(id: AggregateId, sorted: seq<AggregateId>): seq<AggregateId> {
    if sorted == [] || !IdLess(id, sorted[|sorted| - 1]) then sorted + [id]
    else InsertId(id, sorted[..|sorted| - 1]) + [sorted[|sorted| - 1]]
  }

  /** The library's stable sort. */
  function SortIds(ids: seq<AggregateId>): seq<AggregateId> {
    if ids == [] then [] else InsertId(ids[|ids| - 1], SortIds(ids[..|ids| - 1]))
  }

  lemma {:induction false} InsertKeepsOrder(id: AggregateId, sorted: seq<AggregateId>)
    requires Ascending(sorted)
    ensures Ascending(InsertId(id, sorted))
    ensures forall x :: x in InsertId(id, sorted) <==> x in sorted || x == id
  {
    if sorted == [] {
    } else {
      var last, front := sorted[|sorted| - 1], sorted[..|sorted| - 1];
      assert sorted == front + [last];
      if IdLess(id, last) {
        InsertKeepsOrder(id, front);
        var inserted := InsertId(id, front);
        forall i | 0 <= i < |inserted| ensures !IdLess(last, inserted[i]) {
          IdLessIsTotal(id, last);
          assert inserted[i] in inserted;
        }
      } else {
        forall i | 0 <= i < |sorted| ensures !IdLess(id, sorted[i]) {
          if IdLess(id, sorted[i]) {
            BelowUpTo(id, sorted[i], last);
          }
        }
      }
    }
  }

  lemma BelowUpTo(a: AggregateId, b: AggregateId, c: AggregateId)
    requires IdLess(a, b) && !IdLess(c, b)
    ensures IdLess(a, c)
  {
    IdLessIsTotal(b, c);
    if b != c {
      IdLessIsTransitive(a, b, c);
    }
  }

  lemma {:induction false} SortSorts(ids: seq<AggregateId>)
    ensures Ascending(SortIds(ids))
    ensures forall x :: x in SortIds(ids) <==> x in ids
  {
    if ids == [] {
    } else {
      SortSorts(ids[..|ids| - 1]);
      InsertKeepsOrder(ids[|ids| - 1], SortIds(ids[..|ids| - 1]));
      assert ids == ids[..|ids| - 1] + [ids[|ids| - 1]];
    }
  }

  /** `sort_by`, then `dedup`, which drops an element equal to the one kept before it. */
  method SortedUniqueIds(ids: seq<AggregateId>) returns (unique: seq<AggregateId>)
    ensures StrictlySorted(unique)
    ensures forall id :: id in unique <==> id in ids
  {
    var sorted := SortIds(ids);
    SortSorts(ids);
    unique := [];
    for i := 0 to |sorted|
      invariant StrictlySorted(unique)
      invariant forall id :: id in unique <==> id in sorted[..i]
      invariant i == 0 ==> unique == []
      invariant i > 0 ==> unique != [] && unique[|unique| - 1] == sorted[i - 1]
    {
      if unique == [] || unique[|unique| - 1] != sorted[i] {
        forall j | 0 <= j < |unique| ensures IdLess(unique[j], sorted[i]) {
          IdLessIsTotal(sorted[i - 1], sorted[i]);
          if j < |unique| - 1 {
            IdLessIsTransitive(unique[j], sorted[i - 1], sorted[i]);
          }
        }
        unique := unique + [sorted[i]];
      }
    }
  }

  /** Strictly sorted lists of the same ids are equal: the result is a function of the set of ids, whatever order the
      partitions answered in. */
  lemma {:induction false} OneOrderPerSet(a: seq<AggregateId>, b: seq<AggregateId>)
    requires StrictlySorted(a) && StrictlySorted(b) && forall id :: id in a <==> id in b
    ensures a == b
  {
    SameEmptiness(a, b);
    if a == [] {
    } else {
      var x, y := a[|a| - 1], b[|b| - 1];
      LastIsGreatest(a, y);
      LastIsGreatest(b, x);
      IdLessIsTotal(x, y);
      WithoutLast(a);
      WithoutLast(b);
      OneOrderPerSet(a[..|a| - 1], b[..|b| - 1]);
    }
  }

  lemma SameEmptiness(a: seq<AggregateId>, b: seq<AggregateId>)
    requires forall id :: id in a <==> id in b
    ensures a == [] <==> b == []
  {
    if a != [] {
      assert a[0] in a;
    }
    if b != [] {
      assert b[0] in b;
    }
  }

  lemma WithoutLast(ids: seq<AggregateId>)
    requires StrictlySorted(ids) && ids != []
    ensures var front, last := ids[..|ids| - 1], ids[|ids| - 1];
            ids == front + [last] && StrictlySorted(front) && forall id :: id in front <==> id in ids && id != last
  {
    var front, last := ids[..|ids| - 1], ids[|ids| - 1];
    IdLessIsTotal(last, last);
    assert ids == front + [last];
  }

  lemma LastIsGreatest(ids: seq<AggregateId>, id: AggregateId)
    requires StrictlySorted(ids) && id in ids
    ensures id == ids[|ids| - 1] || IdLess(id, ids[|ids| - 1])
  {
  }

  // ---------------------------------------------------------------- the enumeration

  datatype EnumerateError = StoreFailed

  /** The type a scan is restricted to. */
  function ScannedType(plan: PartitionRead): Option<string> {
    if plan.ScanType? then Some(plan.aggregateType) else None
  }

  /** A reading of the root directory: every database file, and other files (write-ahead logs, say) that are none. */
  predicate Lists(listing: seq<string>, files: Files) {
    (forall file :: file in listing && DatabaseStem(file).Some? ==> File(file) in files) &&
    forall path :: path in files && path.File? ==> path.name in listing
  }

  lemma OwnFileIsDiscovered(s: Strategy, utf8: string -> bool, fromName: string -> Result<Partition, NameError>,
                            id: AggregateId)
    requires s.Valid() && !s.Global? && Routable(s, utf8, id)
    requires forall name :: fromName(name) == FromName(s, name)
    ensures PathOf(PartitionFor(s, id)).File?
    ensures Discovered(PathOf(PartitionFor(s, id)).name, utf8, fromName) == Ok(Some(PartitionFor(s, id)))
  {
    var name := PartitionFor(s, id).name;
    FileNameIsDatabase(name);
    DecodeEncodedComponent(name, utf8);
    RestoredIff(s, id);
  }

  /** A directory entry is no database, or that of an existing partition. */
  ghost predicate RightlyRead(s: Strategy, utf8: string -> bool, files: Files,
                              entry: Result<Option<Partition>, DiscoveryError<NameError>>)
    requires s.Valid()
  {
    match entry
    case Err(_) => false
    case Ok(None) => true
    case Ok(Some(p)) => Belongs(s, utf8, p) && PathOf(p) in files
  }

  /** What the root's listing yields: no error, and exactly the partitions whose files exist. */
  lemma DiscoveredIsExact(s: Strategy, utf8: string -> bool, files: Files, listing: seq<string>,
                          fromName: string -> Result<Partition, NameError>)
    requires s.Valid() && !s.Global? && FilesOk(s, utf8, files) && Lists(listing, files)
    requires forall name :: fromName(name) == FromName(s, name)
    ensures var r := AllDiscovered(listing, utf8, fromName);
            r.Ok? && forall p :: p in r.value <==> Belongs(s, utf8, p) && PathOf(p) in files
  {
    DiscoveredMembers(listing, utf8, fromName);
    forall i | 0 <= i < |listing| ensures RightlyRead(s, utf8, files, Discovered(listing[i], utf8, fromName)) {
      ListedFileIsDiscovered(s, utf8, files, listing, fromName, i);
    }
    forall p, id | Routed(s, utf8, p, id) && PathOf(p) in files
      ensures exists i :: 0 <= i < |listing| && Discovered(listing[i], utf8, fromName) == Ok(Some(p)) {
      OwnFileIsDiscovered(s, utf8, fromName, id);
      assert PathOf(p).name in listing;
      var i :| 0 <= i < |listing| && listing[i] == PathOf(p).name;
      assert Discovered(listing[i], utf8, fromName) == Ok(Some(p));
    }
  }

  lemma ListedFileIsDiscovered(s: Strategy, utf8: string -> bool, files: Files, listing: seq<string>,
                               fromName: string -> Result<Partition, NameError>, i: nat)
    requires s.Valid() && !s.Global? && FilesOk(s, utf8, files) && Lists(listing, files) && i < |listing|
    requires forall name :: fromName(name) == FromName(s, name)
    ensures RightlyRead(s, utf8, files, Discovered(listing[i], utf8, fromName))
  {
    assert listing[i] in listing;
    if DatabaseStem(listing[i]).Some? {
      var path := File(listing[i]);
      assert FileOk(s, utf8, path, files[path]);
      var id :| Routable(s, utf8, id) && path == PathOf(PartitionFor(s, id));
      OwnFileIsDiscovered(s, utf8, fromName, id);
      assert Routed(s, utf8, PartitionFor(s, id), id);
    }
  }

  lemma WholeBelongs(s: Strategy, utf8: string -> bool, p: Partition)
    requires s.Global?
    ensures Belongs(s, utf8, p) <==> p == Whole
  {
    assert Routed(s, utf8, Whole, AggregateId("", ""));
  }

  class LocalStore {
    const s: Strategy
    const utf8: string -> bool
    /** The directory, shared with every other instance. */
    var files: Files
    var connections: set<Partition>
    /** How often the file system or a database has failed. */
    ghost var faults: nat

    ghost predicate Valid()
      reads this
    {
      s.Valid() && FilesOk(s, utf8, files) && ConnectionsOk(s, utf8, files, connections)
    }

    constructor (s: Strategy, utf8: string -> bool, files: Files)
      requires s.Valid() && FilesOk(s, utf8, files)
      ensures Valid() && this.s == s && this.utf8 == utf8 && this.files == files && connections == {} && faults == 0
    {
      this.s, this.utf8, this.files, connections, faults := s, utf8, files, {}, 0;
    }

    /** A call of the file system or of a database that may fail. */
    method CallLibrary() returns (failure: bool)
      modifies this`faults
      ensures faults == old(faults) + if failure then 1 else 0
    {
      failure := *;
      faults := faults + if failure then 1 else 0;
    }

    /** Other instances open partitions and publish, any number of times. */
    method Interfere()
      requires Valid()
      modifies this`files
      ensures Valid() && Grown(old(files), files)
    {
      hide FilesOk, Routable, PartitionFor, PathOf;
      var steps: int := *;
      while 0 < steps
        invariant Valid() && Grown(old(files), files)
      {
        var id: AggregateId, events: seq<Event> := *, *;
        if Routable(s, utf8, id) {
          AppendedOk(s, utf8, files, id, events);
          forall p | p in connections
            ensures ConnectionOk(s, utf8, Appended(files, PathOf(PartitionFor(s, id)), RowsFor(id, events)), p) {
            assert ConnectionOk(s, utf8, files, p);
          }
          files := Appended(files, PathOf(PartitionFor(s, id)), RowsFor(id, events));
        }
        steps := steps - 1;
      }
    }

    /** The partitions discovered in the root together with those this store has open.  No file in the root is
        rejected. */
    method AllKnownPartitions(listing: seq<string>) returns (r: Result<set<Partition>, EnumerateError>)
      requires Valid() && Lists(listing, files)
      modifies this`faults
      ensures faults == old(faults) + if r.Err? then 1 else 0
      ensures r.Ok? ==>
                forall p :: p in r.value <==>
                  Belongs(s, utf8, p) && (s.Global? || PathOf(p) in files)
    {
      hide Routable, PathOf, PartitionFor, FromName, Discovered;
      var failure := CallLibrary();
      if failure { return Err(StoreFailed); }
      var known: set<Partition> := connections;
      if s.Global? {
        known := known + {Whole};  // the strategy's bootstrap partition
        forall p ensures Belongs(s, utf8, p) <==> p == Whole {
          WholeBelongs(s, utf8, p);
        }
      } else {
        var fromName := name => FromName(s, name);
        DiscoveredIsExact(s, utf8, files, listing, fromName);
        var discovered := DiscoverPartitions(listing, utf8, fromName);
        known := known + set p | p in discovered.value;
      }
      forall p | p in connections ensures ConnectionOk(s, utf8, files, p) {}
      return Ok(known);
    }

    /** `open_partition_if_exists`: `false` if there is no such file. */
    method OpenPartitionIfExists(p: Partition) returns (r: Result<bool, EnumerateError>)
      requires Valid() && Belongs(s, utf8, p)
      modifies this`connections, this`faults
      ensures Valid() && faults == old(faults) + if r.Err? then 1 else 0
      ensures r.Ok? ==> r.value == (PathOf(p) in files)
      ensures connections == if r == Ok(true) then old(connections) + {p} else old(connections)
    {
      if p in connections {
        assert ConnectionOk(s, utf8, files, p);
        return Ok(true);
      }
      var failure := CallLibrary();
      if failure { return Err(StoreFailed); }
      if PathOf(p) !in files { return Ok(false); }
      connections := connections + {p};
      return Ok(true);
    }

    /** `SELECT DISTINCT`, over everything or over one type. */
    method SelectIds(path: Path, of: Option<string>) returns (ids: seq<AggregateId>)
      requires path in files
      ensures forall id :: id in ids <==> InFile(files, path, id) && Wanted(of, id)
      ensures forall i, j :: 0 <= i < j < |ids| ==> ids[i] != ids[j]
    {
      ids := [];
      var rows := files[path];
      for i := 0 to |rows|
        invariant forall id :: id in ids <==> (exists j :: 0 <= j < i && rows[j].id == id) && Wanted(of, id)
        invariant forall j, k :: 0 <= j < k < |ids| ==> ids[j] != ids[k]
      {
        if Wanted(of, rows[i].id) && rows[i].id !in ids {
          ids := ids + [rows[i].id];
        }
      }
    }

    method EnumeratePartition(p: Partition, plan: PartitionRead) returns (r: Result<seq<AggregateId>, EnumerateError>)
      requires Valid() && Belongs(s, utf8, p)
      modifies this`connections, this`faults
      ensures Valid() && faults == old(faults) + if r.Err? then 1 else 0
      ensures r.Ok? ==> forall id :: id in r.value <==> Answers(files, p, plan, id)
    {
      match plan {
        case Direct(id) => return Ok([id]);
        case Skip => return Ok([]);
        case _ =>
          var open := OpenPartitionIfExists(p);
          if open.Err? { return Err(open.error); }
          if !open.value { return Ok([]); }
          var failure := CallLibrary();
          if failure { return Err(StoreFailed); }
          var ids := SelectIds(PathOf(p), ScannedType(plan));
          return Ok(ids);
      }
    }

    /** `enumerate_aggregates` (no type given) and `enumerate_aggregates_by_type`.  Sorted without duplicates; nothing
        listed at the start is missed, nothing is invented, and if nobody publishes meanwhile the two bounds meet.  It
        fails only if a library does. */
    method EnumerateAggregates(listing: seq<string>, of: Option<string>)
      returns (r: Result<seq<AggregateId>, EnumerateError>)
      requires Valid() && Lists(listing, files)
      modifies this
      ensures Valid() && Grown(old(files), files) && faults == old(faults) + if r.Err? then 1 else 0
      ensures r.Ok? ==> StrictlySorted(r.value)
      ensures r.Ok? ==> forall id :: Listed(s, utf8, old(files), of, id) ==> id in r.value
      ensures r.Ok? ==> forall id :: id in r.value ==> Listed(s, utf8, files, of, id)
    {
      hide FilesOk, ConnectionsOk, Routable, PartitionFor, PathOf, Answers, ReadPlan, Routed, Collected, Grown, Listed,
           StrictlySorted, Lists;
      var known := AllKnownPartitions(listing);
      GrownTrans(files, files, files);
      if known.Err? { return Err(known.error); }
      ghost var start := files;
      NothingYet(s, utf8, of, start);
      var ids: seq<AggregateId>, rest := [], known.value;
      assert known.value - rest == {};
      while rest != {}
        invariant rest <= known.value && Valid() && Grown(start, files) && faults == old(faults)
        invariant Collected(s, utf8, of, start, files, known.value - rest, ids)
      {
        var p :| p in rest;
        ghost var before := files;
        Interfere();
        GrownTrans(start, before, files);
        var more := EnumeratePartition(p, ReadPlan(s, p, of));
        if more.Err? { return Err(more.error); }
        OneMoreShare(s, utf8, of, start, before, files, known.value - rest, ids, p, more.value);
        assert known.value - (rest - {p}) == known.value - rest + {p};
        ids, rest := ids + more.value, rest - {p};
      }
      assert known.value - rest == known.value;
      NothingMissed(s, utf8, of, start, files, known.value, ids);
      var unique := SortedUniqueIds(ids);
      return Ok(unique);
    }
  }
}
