/** The abstract append log that both stores refine, and the whole-run facts that follow from it. */
module AppendLog {
  import opened Core

  type Log = map<AggregateId, seq<Event>>

  /** One successful non-empty publish. */
  datatype Commit = Commit(id: AggregateId, expected: Option<Revision>, events: seq<Event>)

  function StreamOf(log: Log, id: AggregateId): seq<Event> {
    if id in log then log[id] else []
  }

  /** Revisions strictly increase, starting above the zero revision. */
  predicate Increasing(stream: seq<Event>) {
    (forall i :: 0 <= i < |stream| ==> ZERO < stream[i].revision) &&
    (forall i, j :: 0 <= i < j < |stream| ==> stream[i].revision < stream[j].revision)
  }

  /** What a commit may do: extend its stream monotonically, from exactly the expected revision if one is named. */
  predicate Admissible(log: Log, c: Commit) {
    c.events != [] &&
    Increasing(StreamOf(log, c.id) + c.events) &&
    (c.expected.Some? ==> LastRevision(StreamOf(log, c.id)) == c.expected.value)
  }

  function Apply(log: Log, c: Commit): Log {
    log[c.id := StreamOf(log, c.id) + c.events]
  }

  function Replay(history: seq<Commit>): Log {
    if history == [] then map[] else Apply(Replay(history[..|history| - 1]), history[|history| - 1])
  }

  ghost predicate AdmissibleAt(history: seq<Commit>, i: nat)
    requires i < |history|
  {
    Admissible(Replay(history[..i]), history[i])
  }

  /** Every commit was admissible when it was made. */
  ghost predicate Valid(history: seq<Commit>) {
    forall i :: 0 <= i < |history| ==> AdmissibleAt(history, i)
  }

  /** All a step of a store may do to the log: append one admissible commit, or nothing. */
  ghost predicate AppendsAtMostOne(log: seq<Commit>, log': seq<Commit>) {
    log' == log || (|log'| == |log| + 1 && log <= log' && Admissible(Replay(log), log'[|log|]))
  }

  /** The stream of `id` after a history. */
  function Stream(history: seq<Commit>, id: AggregateId): seq<Event> {
    StreamOf(Replay(history), id)
  }

  lemma ReplayExtend(history: seq<Commit>, c: Commit)
    ensures Replay(history + [c]) == Apply(Replay(history), c)
    ensures Stream(history + [c], c.id) == Stream(history, c.id) + c.events
    ensures forall id :: id != c.id ==> Stream(history + [c], id) == Stream(history, id)
  {
    assert (history + [c])[..|history|] == history;
  }

  lemma ValidExtend(history: seq<Commit>, c: Commit)
    requires Valid(history) && Admissible(Replay(history), c)
    ensures Valid(history + [c])
  {
    var h := history + [c];
    forall i | 0 <= i < |h| ensures AdmissibleAt(h, i) {
      assert i < |history| ==> AdmissibleAt(history, i);
      assert h[..i] == history[..i];
      assert history[..|history|] == history;
    }
  }

  lemma ValidPrefix(history: seq<Commit>, n: nat)
    requires Valid(history) && n <= |history|
    ensures Valid(history[..n])
    ensures n < |history| ==> Admissible(Replay(history[..n]), history[n])
  {
    forall i | 0 <= i < n ensures AdmissibleAt(history[..n], i) {
      assert AdmissibleAt(history, i);
      assert history[..n][..i] == history[..i];
    }
    assert n < |history| ==> AdmissibleAt(history, n);
  }

  /** In every valid history every stream is strictly increasing. */
  lemma {:induction false} StreamsIncrease(history: seq<Commit>, id: AggregateId)
    requires Valid(history)
    ensures Increasing(Stream(history, id))
  {
    if history != [] {
      var n := |history| - 1;
      ValidPrefix(history, n);
      StreamsIncrease(history[..n], id);
    }
  }

  /** An earlier stream is a prefix of every later one: nothing is ever rewritten, reordered or removed. */
  lemma {:induction false} StreamsOnlyGrow(earlier: seq<Commit>, later: seq<Commit>, id: AggregateId)
    requires earlier <= later
    ensures Stream(earlier, id) <= Stream(later, id)
    decreases |later|
  {
    if |earlier| == |later| {
      assert earlier == later;
    } else {
      var n := |later| - 1;
      assert earlier <= later[..n];
      StreamsOnlyGrow(earlier, later[..n], id);
      assert later[..n] + [later[n]] == later;
      ReplayExtend(later[..n], later[n]);
    }
  }

  /** A longer stream has a strictly greater revision. */
  lemma LongerIsNewer(read: seq<Event>, current: seq<Event>)
    requires read <= current && Increasing(current) && read != current
    ensures LastRevision(read) < LastRevision(current)
  {
    if read != [] {
      assert current[|read| - 1].revision < current[|current| - 1].revision;
    }
  }

  /** A stream's last revision identifies how far it has been read: the reason one compared revision is enough. */
  lemma SameRevisionSameStream(read: seq<Event>, current: seq<Event>)
    requires read <= current && Increasing(current)
    requires LastRevision(read) == LastRevision(current)
    ensures read == current
  {
    if read != current {
      LongerIsNewer(read, current);
    }
  }

  /** A commit's own events are in every later stream of its aggregate, right behind what it was appended to. */
  lemma OwnBatchStays(history: seq<Commit>, n: nat)
    requires n < |history|
    ensures Stream(history[..n], history[n].id) + history[n].events <= Stream(history, history[n].id)
  {
    assert history[..n] + [history[n]] == history[..n + 1];
    ReplayExtend(history[..n], history[n]);
    StreamsOnlyGrow(history[..n + 1], history, history[n].id);
  }

  /** Optimistic concurrency over a whole run: of all the publishes that name one expected revision of one
      aggregate, at most one succeeds. */
  lemma AtMostOncePerExpectedRevision(history: seq<Commit>, i: nat, j: nat)
    requires Valid(history) && i < |history| && j < |history|
    requires history[i].id == history[j].id
    requires history[i].expected.Some? && history[i].expected == history[j].expected
    ensures i == j
  {
    if i < j {
      ExpectedRevisionIsConsumed(history, i, j);
    } else if j < i {
      ExpectedRevisionIsConsumed(history, j, i);
    }
  }

  lemma ExpectedRevisionIsConsumed(history: seq<Commit>, i: nat, j: nat)
    requires Valid(history) && i < j < |history|
    requires history[i].id == history[j].id && history[i].expected.Some?
    ensures history[j].expected != history[i].expected
  {
    var id := history[i].id;
    var before, now := Stream(history[..i], id), Stream(history[..j], id);
    assert history[..j][..i] == history[..i];
    OwnBatchStays(history[..j], i);
    assert before + history[i].events <= now;
    ValidPrefix(history, i);
    ValidPrefix(history, j);
    StreamsIncrease(history[..j], id);
    LongerIsNewer(before, now);
  }
}
