/** Folding an aggregate's events through an ordered list of rules. */
module Renderer {
  import opened Core
  import opened Glob

  datatype EventPattern = ExactType(eventType: string) | GlobType(pattern: string)

  ghost predicate PatternMatches(pattern: EventPattern, eventType: string) {
    match pattern
    case ExactType(t) => t == eventType
    case GlobType(g) => LiteralFirst(g, eventType)
  }

  /** An exact pattern stands for one event type.  A glob accepts nothing that does not match it, and everything that
      does unless the event type has a `*` with something behind it. */
  lemma PatternMeans(pattern: string, eventType: string)
    ensures PatternMatches(ExactType(pattern), eventType) <==> pattern == eventType
    ensures PatternMatches(GlobType(pattern), eventType) ==> Matches(pattern, eventType)
    ensures Matches(pattern, eventType) && !InnerStar(eventType) ==> PatternMatches(GlobType(pattern), eventType)
  {
    if LiteralFirst(pattern, eventType) {
      Sound(pattern, eventType);
    }
    if Matches(pattern, eventType) && !InnerStar(eventType) {
      CompleteWithoutInnerStar(pattern, eventType);
    }
  }

  method DecidePattern(pattern: EventPattern, eventType: string) returns (r: bool)
    ensures r <==> PatternMatches(pattern, eventType)
  {
    match pattern
    case ExactType(t) => r := t == eventType;
    case GlobType(g) => r := GlobMatches(g, eventType);
  }

  /** A reducer is any deterministic partial function of the state, the event type and the payload. */
  type Reducer<!S> = (S, string, EventData) -> Option<S>

  datatype Action<!S> = Reduce(reducer: Reducer<S>) | Ignore

  datatype Rule<!S> = Rule(pattern: EventPattern, action: Action<S>)

  datatype RenderError = UnhandledEventType(event: Event) | ApplyFailed(event: Event)

  datatype Entity<S> = Entity(id: AggregateId, revision: Revision, state: S)

  /** The action of the first rule whose pattern matches. */
  ghost function Find<S>(rules: seq<Rule<S>>, eventType: string): Option<Action<S>> {
    if rules == [] then None
    else if PatternMatches(rules[0].pattern, eventType) then Some(rules[0].action)
    else Find(rules[1..], eventType)
  }

  ghost function Act<S>(action: Option<Action<S>>, state: S, e: Event): Result<S, RenderError> {
    match action
    case None => Err(UnhandledEventType(e))
    case Some(Ignore) => Ok(state)
    case Some(Reduce(reducer)) =>
      match reducer(state, e.eventType, e.data)
      case None => Err(ApplyFailed(e))
      case Some(next) => Ok(next)
  }

  ghost function Fold<S>(rules: seq<Rule<S>>, state: S, events: seq<Event>): Result<S, RenderError> {
    if events == [] then Ok(state)
    else
      match Fold(rules, state, events[..|events| - 1])
      case Err(error) => Err(error)
      case Ok(s) => Act(Find(rules, events[|events| - 1].eventType), s, events[|events| - 1])
  }

  ghost function Render<S>(rules: seq<Rule<S>>, init: S, aggregate: Aggregate): Result<Entity<S>, RenderError> {
    match Fold(rules, init, aggregate.events)
    case Err(error) => Err(error)
    case Ok(state) => Ok(Entity(aggregate.id, aggregate.revision, state))
  }

  // ---------------------------------------------------------------- what a render is

  /** The rule that handles the event type: the first one, in registration order, that matches. */
  ghost predicate FirstRule<S>(rules: seq<Rule<S>>, eventType: string, k: nat) {
    k < |rules| && PatternMatches(rules[k].pattern, eventType) &&
    forall j :: 0 <= j < k ==> !PatternMatches(rules[j].pattern, eventType)
  }

  ghost predicate NoRule<S>(rules: seq<Rule<S>>, eventType: string) {
    forall j :: 0 <= j < |rules| ==> !PatternMatches(rules[j].pattern, eventType)
  }

  /** The event takes the state to the next one: through the reducer of its rule, or not at all if the rule ignores
      it. */
  ghost predicate Advances<S>(rules: seq<Rule<S>>, e: Event, state: S, next: S) {
    exists k: nat :: FirstRule(rules, e.eventType, k) &&
      match rules[k].action
      case Reduce(reducer) => reducer(state, e.eventType, e.data) == Some(next)
      case Ignore => next == state
  }

  /** The event stops the render: no rule handles it, or the reducer of its rule fails. */
  ghost predicate Stops<S>(rules: seq<Rule<S>>, e: Event, state: S, error: RenderError) {
    (NoRule(rules, e.eventType) && error == UnhandledEventType(e)) ||
    (error == ApplyFailed(e) &&
     exists k: nat :: FirstRule(rules, e.eventType, k) && rules[k].action.Reduce? &&
       rules[k].action.reducer(state, e.eventType, e.data) == None)
  }

  /** The states before, between and behind the events. */
  ghost predicate Path<S>(rules: seq<Rule<S>>, init: S, events: seq<Event>, states: seq<S>) {
    |states| == |events| + 1 && states[0] == init &&
    forall i :: 0 <= i < |events| ==> Advances(rules, events[i], states[i], states[i + 1])
  }

  /** Folded: the states lead through all events to the result's, or up to the first event that stops. */
  ghost predicate Folded<S>(rules: seq<Rule<S>>, init: S, events: seq<Event>, result: Result<S, RenderError>,
                            states: seq<S>) {
    match result
    case Ok(state) => Path(rules, init, events, states) && states[|events|] == state
    case Err(error) =>
      0 < |states| <= |events| && Path(rules, init, events[..|states| - 1], states) &&
      Stops(rules, events[|states| - 1], states[|states| - 1], error)
  }

  ghost predicate Rendered<S>(rules: seq<Rule<S>>, init: S, aggregate: Aggregate, r: Result<Entity<S>, RenderError>,
                              states: seq<S>) {
    match r
    case Ok(entity) =>
      entity.id == aggregate.id && entity.revision == aggregate.revision &&
      Folded(rules, init, aggregate.events, Ok(entity.state), states)
    case Err(error) => Folded(rules, init, aggregate.events, Err(error), states)
  }

  lemma {:induction false} FindIsFirst<S>(rules: seq<Rule<S>>, eventType: string)
    ensures Find(rules, eventType).None? <==> NoRule(rules, eventType)
    ensures forall k: nat :: FirstRule(rules, eventType, k) ==> Find(rules, eventType) == Some(rules[k].action)
    ensures Find(rules, eventType).Some? ==> exists k: nat :: FirstRule(rules, eventType, k)
  {
    forall k: nat | FirstRule(rules, eventType, k) ensures Find(rules, eventType) == Some(rules[k].action) {
      FirstMatchWins(rules, eventType, k);
    }
    if rules != [] {
      var rest := rules[1..];
      FindIsFirst(rest, eventType);
      if PatternMatches(rules[0].pattern, eventType) {
        assert FirstRule(rules, eventType, 0);
      } else if k: nat :| FirstRule(rest, eventType, k) {
        assert FirstRule(rules, eventType, k + 1);
      } else {
        assert forall j :: 1 <= j < |rules| ==> rules[j] == rest[j - 1];
      }
    }
  }

  lemma ActMeans<S>(rules: seq<Rule<S>>, e: Event, state: S)
    ensures var step := Act(Find(rules, e.eventType), state, e);
            if step.Ok? then Advances(rules, e, state, step.value) else Stops(rules, e, state, step.error)
  {
    FindIsFirst(rules, e.eventType);
  }

  /** From one state an event leads to one next state, or to one error. */
  lemma ActIsDetermined<S>(rules: seq<Rule<S>>, e: Event, state: S, next: S, error: RenderError)
    ensures Advances(rules, e, state, next) ==> Act(Find(rules, e.eventType), state, e) == Ok(next)
    ensures Stops(rules, e, state, error) ==> Act(Find(rules, e.eventType), state, e) == Err(error)
  {
    FindIsFirst(rules, e.eventType);
  }

  lemma {:induction false} FoldMeans<S>(rules: seq<Rule<S>>, init: S, events: seq<Event>) returns (states: seq<S>)
    ensures Folded(rules, init, events, Fold(rules, init, events), states)
  {
    hide Find, Act, Advances, Stops;
    if events == [] {
      states := [init];
    } else {
      var front, last := events[..|events| - 1], events[|events| - 1];
      states := FoldMeans(rules, init, front);
      if Fold(rules, init, front).Ok? {
        ActMeans(rules, last, states[|front|]);
        var step := Act(Find(rules, last.eventType), states[|front|], last);
        if step.Ok? {
          states := states + [step.value];
        }
      } else {
        assert front[..|states| - 1] == events[..|states| - 1];
      }
    }
  }

  /** Whatever is folded, the fold computes. */
  lemma {:induction false} FoldIsDetermined<S>(rules: seq<Rule<S>>, init: S, events: seq<Event>,
                                               result: Result<S, RenderError>, states: seq<S>)
    requires Folded(rules, init, events, result, states)
    ensures Fold(rules, init, events) == result
    decreases |events|
  {
    hide Find, Act, Advances, Stops;
    if result.Ok? {
      if events != [] {
        var front, last := events[..|events| - 1], events[|events| - 1];
        FoldIsDetermined(rules, init, front, Ok(states[|front|]), states[..|front| + 1]);
        ActIsDetermined(rules, last, states[|front|], result.value, UnhandledEventType(last));
      }
    } else {
      var n := |states| - 1;
      var front, last := events[..n], events[n];
      FoldIsDetermined(rules, init, front, Ok(states[n]), states);
      ActIsDetermined(rules, last, states[n], states[n], result.error);
      assert events[..n + 1][..n] == front;
      FoldStopsAtFirstError(rules, init, events, n + 1);
    }
  }

  /** A render is exactly: Ok behind a path of states through all events, each taken by the reducer of the first rule
      that matches or left alone if that rule ignores; or the error of the first event that has no rule or whose
      reducer fails. */
  lemma RenderMeans<S>(rules: seq<Rule<S>>, init: S, aggregate: Aggregate) returns (states: seq<S>)
    ensures Rendered(rules, init, aggregate, Render(rules, init, aggregate), states)
  {
    hide Folded, Fold;
    states := FoldMeans(rules, init, aggregate.events);
  }

  lemma RenderIsDetermined<S>(rules: seq<Rule<S>>, init: S, aggregate: Aggregate, r: Result<Entity<S>, RenderError>,
                              states: seq<S>)
    requires Rendered(rules, init, aggregate, r, states)
    ensures Render(rules, init, aggregate) == r
  {
    hide Folded, Fold;
    FoldIsDetermined(rules, init, aggregate.events, if r.Ok? then Ok(r.value.state) else Err(r.error), states);
  }

  // ---------------------------------------------------------------- the code

  method FindAction<S>(rules: seq<Rule<S>>, eventType: string) returns (r: Option<Action<S>>)
    ensures r == Find(rules, eventType)
    ensures if r.None? then NoRule(rules, eventType)
            else exists k: nat :: FirstRule(rules, eventType, k) && rules[k].action == r.value
  {
    FindIsFirst(rules, eventType);
    for i := 0 to |rules|
      invariant Find(rules, eventType) == Find(rules[i..], eventType)
    {
      var matches := DecidePattern(rules[i].pattern, eventType);
      if matches {
        return Some(rules[i].action);
      }
      assert rules[i..][1..] == rules[i + 1..];
    }
    return None;
  }

  /** `Renderer::render`: stops at the first event that no rule handles or whose reducer fails. */
  method RenderAggregate<S>(rules: seq<Rule<S>>, init: S, aggregate: Aggregate)
    returns (r: Result<Entity<S>, RenderError>, ghost states: seq<S>)
    ensures r == Render(rules, init, aggregate)
    ensures Rendered(rules, init, aggregate, r, states)
  {
    hide Rendered, PatternMatches;
    states := RenderMeans(rules, init, aggregate);
    var state := init;
    var events := aggregate.events;
    for i := 0 to |events|
      invariant Fold(rules, init, events[..i]) == Ok(state)
    {
      assert events[..i + 1][..i] == events[..i];
      var action := FindAction(rules, events[i].eventType);
      match action {
        case Some(Reduce(reducer)) =>
          match reducer(state, events[i].eventType, events[i].data) {
            case Some(next) => state := next;
            case None =>
              FoldStopsAtFirstError(rules, init, events, i + 1);
              return Err(ApplyFailed(events[i])), states;
          }
        case Some(Ignore) =>
        case None =>
          FoldStopsAtFirstError(rules, init, events, i + 1);
          return Err(UnhandledEventType(events[i])), states;
      }
    }
    assert events[..|events|] == events;
    return Ok(Entity(aggregate.id, aggregate.revision, state)), states;
  }

  lemma {:induction false} FoldStopsAtFirstError<S>(rules: seq<Rule<S>>, init: S, events: seq<Event>, n: nat)
    requires n <= |events| && Fold(rules, init, events[..n]).Err?
    ensures Fold(rules, init, events) == Fold(rules, init, events[..n])
    decreases |events|
  {
    if n < |events| {
      assert events[..|events| - 1][..n] == events[..n];
      FoldStopsAtFirstError(rules, init, events[..|events| - 1], n);
    } else {
      assert events[..n] == events;
    }
  }

  /** Rules take precedence in registration order. */
  lemma {:induction false} FirstMatchWins<S>(rules: seq<Rule<S>>, eventType: string, i: nat)
    requires i < |rules| && PatternMatches(rules[i].pattern, eventType)
    requires forall j :: 0 <= j < i ==> !PatternMatches(rules[j].pattern, eventType)
    ensures Find(rules, eventType) == Some(rules[i].action)
  {
    if i > 0 {
      assert forall j :: 0 <= j < i - 1 ==> rules[1..][j] == rules[j + 1];
      FirstMatchWins(rules[1..], eventType, i - 1);
    }
  }

  lemma {:induction false} FoldAppend<S>(rules: seq<Rule<S>>, state: S, a: seq<Event>, b: seq<Event>)
    requires Fold(rules, state, a).Ok?
    ensures Fold(rules, state, a + b) == Fold(rules, Fold(rules, state, a).value, b)
    decreases |b|
  {
    if b == [] {
      assert a + b == a;
    } else {
      FoldAppend(rules, state, a, b[..|b| - 1]);
      assert (a + b)[..|a + b| - 1] == a + b[..|b| - 1];
    }
  }

  /** Rendering an extended stream is rendering the prefix and carrying on from its state. */
  lemma RenderExtends<S>(rules: seq<Rule<S>>, init: S, id: AggregateId, a: seq<Event>, b: seq<Event>)
    requires Render(rules, init, FromEvents(id, a)).Ok?
    ensures var state := Render(rules, init, FromEvents(id, a)).value.state;
            Render(rules, init, FromEvents(id, a + b)) ==
            match Fold(rules, state, b) {
              case Err(error) => Err(error)
              case Ok(next) => Ok(Entity(id, LastRevision(a + b), next))
            }
  {
    FoldAppend(rules, init, a, b);
  }

  /** The state depends only on what the raw events carry: types and payloads, not ids, revisions or metadata. */
  lemma {:induction false} FoldOfSameRaws<S>(rules: seq<Rule<S>>, state: S, a: seq<Event>, b: seq<Event>)
    requires |a| == |b|
    requires forall i :: 0 <= i < |a| ==> a[i].eventType == b[i].eventType && a[i].data == b[i].data
    ensures Fold(rules, state, a).Ok? <==> Fold(rules, state, b).Ok?
    ensures Fold(rules, state, a).Ok? ==> Fold(rules, state, a) == Fold(rules, state, b)
  {
    if a != [] {
      FoldOfSameRaws(rules, state, a[..|a| - 1], b[..|b| - 1]);
    }
  }
}
