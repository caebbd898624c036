/** The effect type-state generator of `service!`: subsets of the declared effects as bit masks, each subset as a
    nested type of effects still to be registered, and one `WithEffect` impl for every subset and member. */
module Effects {
  import opened Binary
  import opened Core

  /** `usize` has this many bits; `1 << n` and the mask of all effects need n below it. */
  const WORD_BITS: nat := 64

  /** `Ready`, or `Needs<Marker, Tail>`. */
  datatype Remaining<M> = Ready | Needs(marker: M, tail: Remaining<M>)

  datatype Impl<M> = Impl(input: Remaining<M>, marker: M, output: Remaining<M>)

  function Shift(n: nat): (r: nat)
    ensures r > 0
  {
    if n == 0 then 1 else 2 * Shift(n - 1)
  }

  /** `mask & !(1 << i)` */
  function Clear(mask: nat, i: nat): nat {
    if i == 0 then mask / 2 * 2 else Clear(mask / 2, i - 1) * 2 + mask % 2
  }

  function RemainingFrom<M>(markers: seq<M>, subset: nat, i: nat): Remaining<M>
    requires i <= |markers|
    decreases |markers| - i
  {
    if i == |markers| then Ready
    else if Bit(subset, i) then Needs(markers[i], RemainingFrom(markers, subset, i + 1))
    else RemainingFrom(markers, subset, i + 1)
  }

  /** `remaining_type_for_subset`: a fold over the effects in reverse, so the type lists them in order. */
  function RemainingType<M>(markers: seq<M>, subset: nat): Remaining<M> {
    RemainingFrom(markers, subset, 0)
  }

  predicate Distinct<M(==)>(s: seq<M>) {
    forall i, j :: 0 <= i < j < |s| ==> s[i] != s[j]
  }

  function Members<M>(r: Remaining<M>): multiset<M> {
    match r case Ready => multiset{} case Needs(m, tail) => multiset{m} + Members(tail)
  }

  /** Deletes one effect from a type, in place. */
  function Remove<M(==)>(r: Remaining<M>, m: M): Option<Remaining<M>> {
    match r
    case Ready => None
    case Needs(first, tail) =>
      if first == m then Some(tail)
      else
        match Remove(tail, m)
        case None => None
        case Some(rest) => Some(Needs(first, rest))
  }

  // ---------------------------------------------------------------- masks

  lemma {:induction false} BitOfClear(mask: nat, i: nat, j: nat)
    ensures Bit(Clear(mask, i), j) <==> Bit(mask, j) && j != i
  {
    if i > 0 && j > 0 {
      BitOfClear(mask / 2, i - 1, j - 1);
    }
  }

  lemma {:induction false} ClearedFits(mask: nat, i: nat, n: nat)
    requires mask < Shift(n)
    ensures Clear(mask, i) < Shift(n)
  {
    if i > 0 && n > 0 {
      ClearedFits(mask / 2, i - 1, n - 1);
    } else if i > 0 {
      assert mask == 0;
      ClearOfZero(i);
    }
  }

  lemma {:induction false} ClearOfZero(i: nat)
    ensures Clear(0, i) == 0
  {
    if i > 0 {
      ClearOfZero(i - 1);
    }
  }

  lemma {:induction false} BitsDetermineMask(a: nat, b: nat, n: nat)
    requires a < Shift(n) && b < Shift(n) && forall i :: 0 <= i < n ==> (Bit(a, i) <==> Bit(b, i))
    ensures a == b
  {
    if n > 0 {
      forall i | 0 <= i < n - 1 ensures Bit(a / 2, i) <==> Bit(b / 2, i) {
        assert Bit(a, i + 1) <==> Bit(b, i + 1);
      }
      BitsDetermineMask(a / 2, b / 2, n - 1);
      assert Bit(a, 0) <==> Bit(b, 0);
    }
  }

  lemma {:induction false} AllBitsSet(n: nat, i: nat)
    requires i < n
    ensures Bit(Shift(n) - 1, i)
  {
    assert (Shift(n) - 1) / 2 == Shift(n - 1) - 1;
    if i > 0 {
      AllBitsSet(n - 1, i - 1);
    }
  }

  // ---------------------------------------------------------------- subsets as types

  lemma {:induction false} MembersOfType<M>(markers: seq<M>, subset: nat, from: nat, i: nat)
    requires Distinct(markers) && from <= |markers| && i < |markers|
    ensures markers[i] in Members(RemainingFrom(markers, subset, from)) <==> from <= i && Bit(subset, i)
    decreases |markers| - from
  {
    if from < |markers| {
      MembersOfType(markers, subset, from + 1, i);
    }
  }

  function Listed<M>(r: Remaining<M>): seq<M> {
    match r case Ready => [] case Needs(m, tail) => [m] + Listed(tail)
  }

  /** The type of all effects lists them in the order of their declaration. */
  lemma {:induction false} FullTypeIsInOrder<M>(markers: seq<M>, from: nat)
    requires from <= |markers|
    ensures Listed(RemainingFrom(markers, Shift(|markers|) - 1, from)) == markers[from..]
    decreases |markers| - from
  {
    if from < |markers| {
      AllBitsSet(|markers|, from);
      FullTypeIsInOrder(markers, from + 1);
    }
  }

  /** Different subsets are different types, so no two generated impls overlap. */
  lemma SubsetTypeIsInjective<M>(markers: seq<M>, a: nat, b: nat)
    requires Distinct(markers) && a < Shift(|markers|) && b < Shift(|markers|)
    requires RemainingType(markers, a) == RemainingType(markers, b)
    ensures a == b
  {
    forall i | 0 <= i < |markers| ensures Bit(a, i) <==> Bit(b, i) {
      MembersOfType(markers, a, 0, i);
      MembersOfType(markers, b, 0, i);
    }
    BitsDetermineMask(a, b, |markers|);
  }

  lemma {:induction false} ClearedBehind<M>(markers: seq<M>, subset: nat, i: nat, from: nat)
    requires i < from <= |markers|
    ensures RemainingFrom(markers, Clear(subset, i), from) == RemainingFrom(markers, subset, from)
    decreases |markers| - from
  {
    if from < |markers| {
      ClearedBehind(markers, subset, i, from + 1);
      BitOfClear(subset, i, from);
    }
  }

  lemma {:induction false} ClearIsRemove<M>(markers: seq<M>, subset: nat, i: nat, from: nat)
    requires Distinct(markers) && from <= i < |markers| && Bit(subset, i)
    ensures Remove(RemainingFrom(markers, subset, from), markers[i])
            == Some(RemainingFrom(markers, Clear(subset, i), from))
    decreases i - from
  {
    BitOfClear(subset, i, from);
    if from == i {
      ClearedBehind(markers, subset, i, i + 1);
    } else {
      ClearIsRemove(markers, subset, i, from + 1);
    }
  }

  // ---------------------------------------------------------------- the generated impls

  ghost predicate Generated<M>(markers: seq<M>, subset: nat, i: nat, impl: Impl<M>) {
    i < |markers| && subset < Shift(|markers|) && Bit(subset, i) &&
    impl == Impl(RemainingType(markers, subset), markers[i], RemainingType(markers, Clear(subset, i)))
  }

  /** `keys` gives the subset and index behind each impl: each is as generated, and no pair occurs twice. */
  ghost predicate GeneratedFrom<M>(markers: seq<M>, impls: seq<Impl<M>>, keys: seq<(nat, nat)>) {
    |keys| == |impls| && Distinct(keys) &&
    forall n :: 0 <= n < |impls| ==> Generated(markers, keys[n].0, keys[n].1, impls[n])
  }

  /** Every subset below `end` has a key for each of its members. */
  ghost predicate Covers(keys: seq<(nat, nat)>, count: nat, end: nat) {
    forall s, i :: 0 <= i < count && 0 < s < end && Bit(s, i) ==> (s, i) in keys
  }

  ghost predicate IsGenerated<M>(markers: seq<M>, impl: Impl<M>) {
    exists subset: nat, i: nat :: Generated(markers, subset, i, impl)
  }

  lemma GeneratedExactly<M>(markers: seq<M>, impls: seq<Impl<M>>, keys: seq<(nat, nat)>)
    requires GeneratedFrom(markers, impls, keys) && Covers(keys, |markers|, Shift(|markers|))
    ensures forall impl :: impl in impls <==> IsGenerated(markers, impl)
  {
    forall impl ensures impl in impls <==> IsGenerated(markers, impl) {
      if impl in impls {
        var n :| 0 <= n < |impls| && impls[n] == impl;
        assert Generated(markers, keys[n].0, keys[n].1, impl);
      }
      if subset: nat, i: nat :| Generated(markers, subset, i, impl) {
        NonemptyMask(subset, i);
        var n :| 0 <= n < |keys| && keys[n] == (subset, i);
        assert Generated(markers, subset, i, impls[n]);
      }
    }
  }

  lemma {:induction false} NonemptyMask(mask: nat, i: nat)
    requires Bit(mask, i)
    ensures mask > 0
  {
    if i > 0 {
      NonemptyMask(mask / 2, i - 1);
    }
  }

  /** The nested loops over subsets and effects: an impl for every subset and member, and no other. */
  method GenerateImpls<M>(markers: seq<M>) returns (impls: seq<Impl<M>>, ghost keys: seq<(nat, nat)>)
    requires |markers| < WORD_BITS
    ensures forall impl :: impl in impls <==> IsGenerated(markers, impl)
    ensures GeneratedFrom(markers, impls, keys) && Covers(keys, |markers|, Shift(|markers|))
  {
    impls, keys := [], [];
    var all := Shift(|markers|) - 1;
    for subset := 1 to all + 1
      invariant GeneratedFrom(markers, impls, keys) && Covers(keys, |markers|, subset)
      invariant forall k :: 0 <= k < |keys| ==> keys[k].0 < subset
    {
      var input := RemainingType(markers, subset);
      for index := 0 to |markers|
        invariant GeneratedFrom(markers, impls, keys) && Covers(keys, |markers|, subset)
        invariant forall k :: 0 <= k < |keys| ==> keys[k].0 < subset || (keys[k].0 == subset && keys[k].1 < index)
        invariant forall i :: 0 <= i < index && Bit(subset, i) ==> (subset, i) in keys
      {
        if !Bit(subset, index) {
          continue;
        }
        var output := RemainingType(markers, Clear(subset, index));
        impls := impls + [Impl(input, markers[index], output)];
        keys := keys + [(subset, index)];
      }
    }
    GeneratedExactly(markers, impls, keys);
  }

  /** No two generated impls are for the same type and effect. */
  lemma ImplsNeverOverlap<M>(markers: seq<M>, impls: seq<Impl<M>>, keys: seq<(nat, nat)>, j: nat, k: nat)
    requires Distinct(markers) && GeneratedFrom(markers, impls, keys) && j < k < |impls|
    ensures impls[j].input != impls[k].input || impls[j].marker != impls[k].marker
  {
    assert Generated(markers, keys[j].0, keys[j].1, impls[j]) && Generated(markers, keys[k].0, keys[k].1, impls[k]);
    assert keys[j] != keys[k];
    if impls[j].input == impls[k].input {
      SubsetTypeIsInjective(markers, keys[j].0, keys[k].0);
    }
  }

  /** The generated transitions are exactly deletion of one element: from any subset's type an effect leads where
      deleting it leads, and an effect that is not in the subset leads nowhere. */
  lemma TransitionsAreDeletions<M>(markers: seq<M>, impls: seq<Impl<M>>, keys: seq<(nat, nat)>, subset: nat,
                                   impl: Impl<M>)
    requires Distinct(markers) && subset < Shift(|markers|)
    requires GeneratedFrom(markers, impls, keys) && Covers(keys, |markers|, Shift(|markers|))
    requires impl.input == RemainingType(markers, subset)
    ensures impl in impls <==> Remove(impl.input, impl.marker) == Some(impl.output)
  {
    hide Remove, Bit, Clear, Covers, GeneratedFrom;
    if impl in impls {
      ImplDeletes(markers, impls, keys, impl);
    }
    if Remove(impl.input, impl.marker) == Some(impl.output) {
      DeletionIsGenerated(markers, impls, keys, subset, impl);
    }
  }

  lemma ImplDeletes<M>(markers: seq<M>, impls: seq<Impl<M>>, keys: seq<(nat, nat)>, impl: Impl<M>)
    requires Distinct(markers) && GeneratedFrom(markers, impls, keys) && impl in impls
    ensures Remove(impl.input, impl.marker) == Some(impl.output)
  {
    hide Remove, Bit, Clear;
    var n :| 0 <= n < |impls| && impls[n] == impl;
    assert Generated(markers, keys[n].0, keys[n].1, impl);
    ClearIsRemove(markers, keys[n].0, keys[n].1, 0);
  }

  lemma DeletionIsGenerated<M>(markers: seq<M>, impls: seq<Impl<M>>, keys: seq<(nat, nat)>, subset: nat,
                               impl: Impl<M>)
    requires Distinct(markers) && subset < Shift(|markers|)
    requires GeneratedFrom(markers, impls, keys) && Covers(keys, |markers|, Shift(|markers|))
    requires impl.input == RemainingType(markers, subset)
    requires Remove(impl.input, impl.marker) == Some(impl.output)
    ensures impl in impls
  {
    hide Remove, Bit, Clear;
    var i := DeletionClears(markers, subset, impl.marker);
    NonemptyMask(subset, i);
    var n :| 0 <= n < |keys| && keys[n] == (subset, i);
    assert Generated(markers, subset, i, impls[n]);
  }

  /** Deleting an effect from a subset's type gives the type of the subset without it. */
  lemma DeletionClears<M>(markers: seq<M>, subset: nat, m: M) returns (i: nat)
    requires Distinct(markers) && subset < Shift(|markers|) && Remove(RemainingType(markers, subset), m).Some?
    ensures i < |markers| && markers[i] == m && Bit(subset, i) && Clear(subset, i) < Shift(|markers|)
    ensures Remove(RemainingType(markers, subset), m) == Some(RemainingType(markers, Clear(subset, i)))
  {
    hide Remove, Bit, Clear;
    RemoveNeedsMember(RemainingType(markers, subset), m);
    MembersAreMarkers(markers, subset, 0, m);
    i :| 0 <= i < |markers| && markers[i] == m;
    MembersOfType(markers, subset, 0, i);
    ClearIsRemove(markers, subset, i, 0);
    ClearedFits(subset, i, |markers|);
  }

  lemma {:induction false} MembersAreMarkers<M>(markers: seq<M>, subset: nat, from: nat, m: M)
    requires from <= |markers| && m in Members(RemainingFrom(markers, subset, from))
    ensures m in markers
    decreases |markers| - from
  {
    if from < |markers| && m != markers[from] {
      MembersAreMarkers(markers, subset, from + 1, m);
    }
  }

  lemma {:induction false} RemoveNeedsMember<M>(r: Remaining<M>, m: M)
    ensures Remove(r, m).Some? <==> m in Members(r)
    ensures Remove(r, m).Some? ==> Members(Remove(r, m).value) == Members(r) - multiset{m}
  {
    match r
    case Ready =>
    case Needs(first, tail) =>
      RemoveNeedsMember(tail, m);
  }

  // ---------------------------------------------------------------- registering

  /** `with_effect` called for each effect in turn compiles, with the given type in the end: there is a generated impl
      for every call. */
  ghost predicate Registers<M(!new)>(impls: seq<Impl<M>>, from: Remaining<M>, order: seq<M>, last: Remaining<M>)
    decreases |order|
  {
    if order == [] then last == from
    else exists next :: Impl(from, order[0], next) in impls && Registers(impls, next, order[1..], last)
  }

  /** Deleting the effects one after the other; `None` if one of them is not there. */
  function Register<M(==)>(r: Remaining<M>, order: seq<M>): Option<Remaining<M>>
    decreases |order|
  {
    if order == [] then Some(r)
    else
      match Remove(r, order[0])
      case None => None
      case Some(next) => Register(next, order[1..])
  }

  /** From any subset's type, calling through the generated impls is deleting in turn. */
  lemma {:induction false} RegistersByDeleting<M(!new)>(markers: seq<M>, impls: seq<Impl<M>>, keys: seq<(nat, nat)>,
                                                        subset: nat, order: seq<M>, last: Remaining<M>)
    requires Distinct(markers) && subset < Shift(|markers|)
    requires GeneratedFrom(markers, impls, keys) && Covers(keys, |markers|, Shift(|markers|))
    ensures Registers(impls, RemainingType(markers, subset), order, last) <==>
            Register(RemainingType(markers, subset), order) == Some(last)
    decreases |order|
  {
    hide RemainingType, Remove, Bit, Clear, GeneratedFrom, Covers;
    if order != [] {
      var input := RemainingType(markers, subset);
      forall next ensures Impl(input, order[0], next) in impls <==> Remove(input, order[0]) == Some(next) {
        TransitionsAreDeletions(markers, impls, keys, subset, Impl(input, order[0], next));
      }
      if Remove(input, order[0]).Some? {
        var i := DeletionClears(markers, subset, order[0]);
        RegistersByDeleting(markers, impls, keys, Clear(subset, i), order[1..], last);
      }
    }
  }

  lemma {:induction false} RegisterConsumes<M>(r: Remaining<M>, order: seq<M>)
    ensures Register(r, order).Some? <==> multiset(order) <= Members(r)
    ensures Register(r, order).Some? ==> Members(Register(r, order).value) == Members(r) - multiset(order)
    decreases |order|
  {
    if order != [] {
      assert order == [order[0]] + order[1..];
      assert multiset(order) == multiset{order[0]} + multiset(order[1..]);
      RemoveNeedsMember(r, order[0]);
      if Remove(r, order[0]).Some? {
        RegisterConsumes(Remove(r, order[0]).value, order[1..]);
      }
    }
  }

  lemma {:induction false} MembersOfAll<M>(markers: seq<M>, from: nat)
    requires from <= |markers|
    ensures Members(RemainingFrom(markers, Shift(|markers|) - 1, from)) == multiset(markers[from..])
    decreases |markers| - from
  {
    if from < |markers| {
      AllBitsSet(|markers|, from);
      MembersOfAll(markers, from + 1);
      assert markers[from..] == [markers[from]] + markers[from + 1..];
    }
  }

  lemma OnlyReadyIsEmpty<M>(r: Remaining<M>)
    ensures r.Ready? <==> Members(r) == multiset{}
  {
  }

  /** Through the generated impls, a service can be attached after registering `order` exactly if `order` is a
      permutation of its effects: every order reaches `Ready`, in exactly as many steps as there are effects, none is
      accepted twice, and nothing earlier can be attached. */
  lemma AttachableIff<M(!new)>(markers: seq<M>, impls: seq<Impl<M>>, keys: seq<(nat, nat)>, order: seq<M>)
    requires Distinct(markers)
    requires GeneratedFrom(markers, impls, keys) && Covers(keys, |markers|, Shift(|markers|))
    ensures Registers(impls, RemainingType(markers, Shift(|markers|) - 1), order, Ready) <==>
            multiset(order) == multiset(markers)
    ensures multiset(order) == multiset(markers) ==> |order| == |markers| && Distinct(order)
  {
    hide GeneratedFrom, Covers, Registers;
    var initial := RemainingType(markers, Shift(|markers|) - 1);
    RegistersByDeleting(markers, impls, keys, Shift(|markers|) - 1, order, Ready);
    MembersOfAll(markers, 0);
    assert markers[0..] == markers;
    RegisterConsumes(initial, order);
    if Register(initial, order).Some? {
      OnlyReadyIsEmpty(Register(initial, order).value);
    }
    if multiset(order) == multiset(markers) {
      assert |multiset(order)| == |order| && |multiset(markers)| == |markers|;
      PermutationStaysDistinct(markers, order);
    }
  }

  /** Through the generated impls, a list of effects is accepted exactly if all of them are still to be registered, and
      leaves exactly the others. */
  lemma AcceptedIff<M(!new)>(markers: seq<M>, impls: seq<Impl<M>>, keys: seq<(nat, nat)>, subset: nat, order: seq<M>)
    requires Distinct(markers) && subset < Shift(|markers|)
    requires GeneratedFrom(markers, impls, keys) && Covers(keys, |markers|, Shift(|markers|))
    ensures var input := RemainingType(markers, subset);
            ((exists last :: Registers(impls, input, order, last)) <==> multiset(order) <= Members(input)) &&
            forall last :: Registers(impls, input, order, last) ==> Members(last) == Members(input) - multiset(order)
  {
    hide GeneratedFrom, Covers, Registers;
    var input := RemainingType(markers, subset);
    RegisterConsumes(input, order);
    forall last ensures Registers(impls, input, order, last) <==> Register(input, order) == Some(last) {
      RegistersByDeleting(markers, impls, keys, subset, order, last);
    }
    if Register(input, order).Some? {
      assert Registers(impls, input, order, Register(input, order).value);
    }
  }

  lemma PermutationStaysDistinct<M>(markers: seq<M>, order: seq<M>)
    requires Distinct(markers) && multiset(order) == multiset(markers)
    ensures Distinct(order)
  {
    forall i, j | 0 <= i < j < |order| ensures order[i] != order[j] {
      if order[i] == order[j] {
        OccursTwice(order, i, j);
        OccursOnce(markers, order[i]);
      }
    }
  }

  lemma OccursTwice<M>(s: seq<M>, i: nat, j: nat)
    requires i < j < |s| && s[i] == s[j]
    ensures multiset(s)[s[i]] >= 2
  {
    assert s == s[..j] + [s[j]] + s[j + 1..];
    assert s[i] in s[..j];
  }

  lemma {:induction false} OccursOnce<M>(s: seq<M>, m: M)
    requires Distinct(s)
    ensures multiset(s)[m] <= 1
  {
    if s != [] {
      var front := s[..|s| - 1];
      assert s == front + [s[|s| - 1]];
      OccursOnce(front, m);
      if m == s[|s| - 1] {
        assert m !in front;
      }
    }
  }
}
