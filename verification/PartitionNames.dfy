/** The first-writer-wins guard that ties a database to one logical partition name.

    A provisioner maps partition names to databases.  Nothing is assumed of it: it may alias names, and it may answer
    differently every time. */
module PartitionNames {
  import opened Core

  datatype Database = Database(recorded: Option<string>, events: seq<string>)

  /** A connection in somebody's hands: opened for a partition, to a database. */
  datatype Handle = Handle(name: string, database: nat)

  /** `events` holds, for every row, the name of the partition the publisher routed it to; `instances` is each store
      instance's cache of connections, by partition name.  `handles` are all connections ever made: a publisher keeps
      its own clone while other tasks drop the partition from the cache and open it again, perhaps elsewhere. */
  datatype World = World(databases: map<nat, Database>, instances: map<nat, map<string, nat>>, handles: set<Handle>)

  ghost predicate Start(w: World) {
    (forall d :: d in w.databases ==> w.databases[d] == Database(None, [])) &&
    (forall i :: i in w.instances ==> w.instances[i] == map[]) && w.handles == {}
  }

  /** `INSERT OR IGNORE`: what is on record after a claim. */
  function Claimed(recorded: Option<string>, name: string): Option<string> {
    if recorded.Some? then recorded else Some(name)
  }

  datatype Step =
    | Claim(database: nat, name: string)
    | Connect(instance: nat, handle: Handle)
    | Insert(handle: Handle, rows: nat)
    | Disconnect(instance: nat, name: string)
    | Restart(instance: nat)
    | Provision(database: nat)

  /** Opening a partition is two steps, with anything in between: claim the database under the name, then read the
      recorded name back and keep the connection only if it is the same.  A mismatch or an error changes nothing.
      Rows go in through any connection that was ever handed out, in the cache or not. */
  ghost predicate Next(w: World, step: Step, w': World) {
    match step
    case Claim(d, name) =>
      d in w.databases &&
      w' == w.(databases := w.databases[d := w.databases[d].(recorded := Claimed(w.databases[d].recorded, name))])
    case Connect(i, h) =>
      i in w.instances && h.name !in w.instances[i] &&
      h.database in w.databases && w.databases[h.database].recorded == Some(h.name) &&
      var connections: map<string, nat> := w.instances[i][h.name := h.database];
      w' == w.(instances := w.instances[i := connections], handles := w.handles + {h})
    case Insert(h, n) =>
      h in w.handles && h.database in w.databases &&
      var db := w.databases[h.database];
      w' == w.(databases := w.databases[h.database := db.(events := db.events + seq(n, _ => h.name))])
    case Disconnect(i, name) =>
      i in w.instances && w' == w.(instances := w.instances[i := w.instances[i] - {name}])
    case Restart(i) =>
      w' == w.(instances := w.instances[i := map[]])
    case Provision(d) =>
      d !in w.databases && w' == w.(databases := w.databases[d := Database(None, [])])
  }

  ghost predicate Run(trace: seq<World>, steps: seq<Step>) {
    |trace| == |steps| + 1 && Start(trace[0]) &&
    forall i :: 0 <= i < |steps| ==> Next(trace[i], steps[i], trace[i + 1])
  }

  predicate HoldsOnlyItsOwn(db: Database) {
    forall i :: 0 <= i < |db.events| ==> db.recorded == Some(db.events[i])
  }

  /** The connection leads to a database that is on record under the connection's name. */
  predicate Matches(databases: map<nat, Database>, h: Handle) {
    h.database in databases && databases[h.database].recorded == Some(h.name)
  }

  /** Cached connections are among those handed out. */
  predicate HandedOut(handles: set<Handle>, connections: map<string, nat>) {
    forall name :: name in connections ==> Handle(name, connections[name]) in handles
  }

  ghost predicate Inv(w: World) {
    (forall d :: d in w.databases ==> HoldsOnlyItsOwn(w.databases[d])) &&
    (forall h :: h in w.handles ==> Matches(w.databases, h)) &&
    (forall i :: i in w.instances ==> HandedOut(w.handles, w.instances[i]))
  }

  lemma NextKeepsInv(w: World, step: Step, w': World)
    requires Inv(w) && Next(w, step, w')
    ensures Inv(w')
    ensures forall d :: d in w.databases && w.databases[d].recorded.Some? ==>
              d in w'.databases && w'.databases[d].recorded == w.databases[d].recorded
  {
    forall h | h in w'.handles ensures Matches(w'.databases, h) {
      assert h in w.handles ==> Matches(w.databases, h);
    }
    forall i | i in w'.instances ensures HandedOut(w'.handles, w'.instances[i]) {
      assert i in w.instances ==> HandedOut(w.handles, w.instances[i]);
    }
    if step.Insert? {
      var d := step.handle.database;
      assert Matches(w.databases, step.handle) && HoldsOnlyItsOwn(w.databases[d]);
      assert HoldsOnlyItsOwn(w'.databases[d]);
    }
  }

  lemma {:induction false} RunKeepsInv(trace: seq<World>, steps: seq<Step>, i: nat)
    requires Run(trace, steps) && i < |trace|
    ensures Inv(trace[i])
  {
    if i > 0 {
      RunKeepsInv(trace, steps, i - 1);
      NextKeepsInv(trace[i - 1], steps[i - 1], trace[i]);
    }
  }

  /** A database's recorded name never changes once it is set, whatever instances open, restart or are given. */
  lemma {:induction false} RecordedNameNeverChanges(trace: seq<World>, steps: seq<Step>, i: nat, j: nat, d: nat)
    requires Run(trace, steps) && i <= j < |trace|
    requires d in trace[i].databases && trace[i].databases[d].recorded.Some?
    ensures d in trace[j].databases && trace[j].databases[d].recorded == trace[i].databases[d].recorded
    decreases j
  {
    if i < j {
      RecordedNameNeverChanges(trace, steps, i, j - 1, d);
      RunKeepsInv(trace, steps, j - 1);
      NextKeepsInv(trace[j - 1], steps[j - 1], trace[j]);
    }
  }

  /** No database ever holds events routed under two partition names, whichever connection they came through. */
  lemma OneNamePerDatabase(trace: seq<World>, steps: seq<Step>, i: nat, d: nat, a: nat, b: nat)
    requires Run(trace, steps) && i < |trace| && d in trace[i].databases
    requires a < |trace[i].databases[d].events| && b < |trace[i].databases[d].events|
    ensures trace[i].databases[d].events[a] == trace[i].databases[d].events[b]
  {
    RunKeepsInv(trace, steps, i);
    assert HoldsOnlyItsOwn(trace[i].databases[d]);
  }

  /** All connections to one database, cached or still held by publishers in flight, of whichever instances, were made
      under one name, however they were provisioned. */
  lemma SharedDatabaseMeansSameName(trace: seq<World>, steps: seq<Step>, n: nat, g: Handle, h: Handle)
    requires Run(trace, steps) && n < |trace| && g in trace[n].handles && h in trace[n].handles
    requires g.database == h.database
    ensures g.name == h.name
    ensures forall i, name :: i in trace[n].instances && name in trace[n].instances[i] ==>
              Handle(name, trace[n].instances[i][name]) in trace[n].handles
  {
    RunKeepsInv(trace, steps, n);
    assert Matches(trace[n].databases, g) && Matches(trace[n].databases, h);
    forall i, name | i in trace[n].instances && name in trace[n].instances[i]
      ensures Handle(name, trace[n].instances[i][name]) in trace[n].handles {
      assert HandedOut(trace[n].handles, trace[n].instances[i]);
    }
  }

  // ---------------------------------------------------------------- the guard itself

  datatype GuardError = DatabaseFailed | NotRecorded | Mismatch(recorded: string, wanted: string)

  /** The metadata table of one database; other processes write to it as well. */
  class MetadataTable {
    var rows: map<string, string>
    /** How often the database has failed. */
    ghost var faults: nat

    constructor ()
      ensures rows == map[] && faults == 0
    {
      rows, faults := map[], 0;
    }

    method CallDatabase() returns (failure: bool)
      modifies this`faults
      ensures faults == old(faults) + if failure then 1 else 0
    {
      failure := *;
      faults := faults + if failure then 1 else 0;
    }

    function LogicalName(): Option<string>
      reads this
    {
      if LOGICAL_NAME in rows then Some(rows[LOGICAL_NAME]) else None
    }

    method InsertOrIgnore(key: string, value: string)
      modifies this`rows
      ensures rows == if key in old(rows) then old(rows) else old(rows)[key := value]
      ensures LogicalName() == if key == LOGICAL_NAME then Claimed(old(LogicalName()), value) else old(LogicalName())
    {
      if key !in rows {
        rows := rows[key := value];
      }
    }

    /** Any number of other openers, under any names. */
    method Interfere()
      modifies this`rows
      ensures old(LogicalName()).Some? ==> LogicalName() == old(LogicalName())
    {
      var others: int := *;
      while 0 < others
        invariant old(LogicalName()).Some? ==> LogicalName() == old(LogicalName())
      {
        var name: string := *;
        InsertOrIgnore(LOGICAL_NAME, name);
        others := others - 1;
      }
    }

    method LoadPartitionName() returns (r: Option<string>)
      ensures r == LogicalName()
    {
      if LOGICAL_NAME !in rows { return None; }
      return Some(rows[LOGICAL_NAME]);
    }

    /** The first writer wins: unless the database fails, success is exactly for the name that is on record afterwards,
        and a mismatch names the two parties.  A name once on record stays.  The missing-row error cannot occur. */
    method EnsurePartitionName(name: string) returns (r: Result<(), GuardError>)
      modifies this
      ensures old(LogicalName()).Some? ==> LogicalName() == old(LogicalName())
      ensures faults == old(faults) + if r == Err(DatabaseFailed) then 1 else 0
      ensures faults == old(faults) ==> (r.Ok? <==> LogicalName() == Some(name)) && LogicalName().Some?
      ensures r.Err? ==>
                r.error.DatabaseFailed? ||
                (r.error.Mismatch? && r.error.wanted == name != r.error.recorded &&
                 LogicalName() == Some(r.error.recorded))
    {
      Interfere();
      var failure := CallDatabase();
      if failure { return Err(DatabaseFailed); }
      InsertOrIgnore(LOGICAL_NAME, name);
      Interfere();
      failure := CallDatabase();
      if failure { return Err(DatabaseFailed); }
      var recorded := LoadPartitionName();
      if recorded.None? { return Err(NotRecorded); }
      if recorded.value != name { return Err(Mismatch(recorded.value, name)); }
      return Ok(());
    }
  }

  const LOGICAL_NAME: string := "logical_name"
}
