/** The backtracking glob matcher, against a declarative match. */
module Glob {
  import opened Core

  /** What a glob means: `*` stands for any run of bytes, everything else for itself. */
  ghost predicate Matches(pattern: string, text: string) {
    if pattern == "" then text == ""
    else if pattern[0] == '*' then exists k :: 0 <= k <= |text| && Matches(pattern[1..], text[k..])
    else text != "" && pattern[0] == text[0] && Matches(pattern[1..], text[1..])
  }

  predicate AllStars(pattern: string) {
    forall i :: 0 <= i < |pattern| ==> pattern[i] == '*'
  }

  /** What the code accepts: a pattern byte equal to the text's is consumed before it is looked at as a star. */
  ghost predicate LiteralFirst(pattern: string, text: string) {
    if text == "" then AllStars(pattern)
    else if pattern == "" then false
    else if pattern[0] == text[0] then LiteralFirst(pattern[1..], text[1..])
    else pattern[0] == '*' && exists k :: 0 <= k <= |text| && LiteralFirst(pattern[1..], text[k..])
  }

  /** The pattern from `p` on matches some suffix of the text from `t` on. */
  ghost predicate From(pattern: string, p: nat, text: string, t: nat)
    requires p <= |pattern|
  {
    exists k :: t <= k <= |text| && LiteralFirst(pattern[p..], text[k..])
  }

  lemma FromOr(pattern: string, p: nat, text: string, t: nat)
    requires p <= |pattern| && t <= |text|
    ensures From(pattern, p, text, t) <==> LiteralFirst(pattern[p..], text[t..]) || From(pattern, p, text, t + 1)
  {
  }

  lemma ConsumeLiteral(pattern: string, p: nat, text: string, t: nat)
    requires p < |pattern| && t < |text| && pattern[p] == text[t]
    ensures LiteralFirst(pattern[p..], text[t..]) <==> LiteralFirst(pattern[p + 1..], text[t + 1..])
  {
    assert pattern[p..][1..] == pattern[p + 1..] && text[t..][1..] == text[t + 1..];
  }

  lemma MeetStar(pattern: string, p: nat, text: string, t: nat)
    requires p < |pattern| && t < |text| && pattern[p] == '*' != text[t]
    ensures LiteralFirst(pattern[p..], text[t..]) <==> From(pattern, p + 1, text, t)
  {
    var rest, tail := pattern[p + 1..], text[t..];
    assert pattern[p..][1..] == rest;
    if k :| 0 <= k <= |tail| && LiteralFirst(rest, tail[k..]) {
      assert tail[k..] == text[t + k..];
    }
    if k :| t <= k <= |text| && LiteralFirst(rest, text[k..]) {
      assert tail[k - t..] == text[k..];
    }
  }

  /** Whoever matches from `p` on behind `t` also matches from `p + 1` on behind `t`, and strictly behind it unless
      it did so at `t` itself by a star: the last star may be the only one to backtrack to. */
  lemma SkipOne(pattern: string, p: nat, text: string, t: nat)
    requires p < |pattern| && t < |text|
    requires pattern[p] == text[t] || pattern[p] == '*'
    requires From(pattern, p, text, t)
    ensures From(pattern, p + 1, text, if pattern[p] == text[t] then t + 1 else t)
  {
    var m :| t <= m <= |text| && LiteralFirst(pattern[p..], text[m..]);
    if m == |text| {
      assert LiteralFirst(pattern[p + 1..], text[m..]);
    } else if pattern[p] == text[m] {
      ConsumeLiteral(pattern, p, text, m);
      assert LiteralFirst(pattern[p + 1..], text[m + 1..]);
    } else {
      MeetStar(pattern, p, text, m);
    }
  }

  /** The last star seen can take more than it has taken so far. */
  ghost predicate StarCanTakeMore(pattern: string, text: string, star: Option<nat>, starText: nat) {
    star.Some? && star.value < |pattern| && From(pattern, star.value + 1, text, starText + 1)
  }

  /** Where the loop stands.  Nothing is lost: the whole matches iff the rest does or the last star can take more.
      And if the last star takes more, the rest still matches further on, so no earlier star is needed. */
  ghost predicate Standing(pattern: string, text: string, p: nat, t: nat, star: Option<nat>, starText: nat) {
    p <= |pattern| && starText <= t <= |text| && (star.Some? ==> star.value < p) &&
    (LiteralFirst(pattern, text) <==>
      LiteralFirst(pattern[p..], text[t..]) || StarCanTakeMore(pattern, text, star, starText)) &&
    (StarCanTakeMore(pattern, text, star, starText) ==> From(pattern, p, text, t))
  }

  lemma LiteralStep(pattern: string, text: string, p: nat, t: nat, star: Option<nat>, starText: nat)
    requires Standing(pattern, text, p, t, star, starText)
    requires p < |pattern| && t < |text| && pattern[p] == text[t]
    ensures Standing(pattern, text, p + 1, t + 1, star, starText)
  {
    ConsumeLiteral(pattern, p, text, t);
    if From(pattern, p, text, t) { SkipOne(pattern, p, text, t); }
  }

  lemma StarStep(pattern: string, text: string, p: nat, t: nat, star: Option<nat>, starText: nat)
    requires Standing(pattern, text, p, t, star, starText)
    requires p < |pattern| && t < |text| && pattern[p] == '*' != text[t]
    ensures Standing(pattern, text, p + 1, t, Some(p), t)
  {
    MeetStar(pattern, p, text, t);
    if From(pattern, p, text, t) { SkipOne(pattern, p, text, t); }
    FromOr(pattern, p + 1, text, t);
  }

  lemma BacktrackStep(pattern: string, text: string, p: nat, t: nat, star: nat, starText: nat)
    requires Standing(pattern, text, p, t, Some(star), starText) && t < |text|
    requires p == |pattern| || (pattern[p] != text[t] && pattern[p] != '*')
    ensures Standing(pattern, text, star + 1, starText + 1, Some(star), starText + 1)
  {
    FromOr(pattern, star + 1, text, starText + 1);
  }

  /** `glob_matches`: one pass with backtracking to the last star only. */
  method GlobMatches(pattern: string, text: string) returns (r: bool)
    ensures r <==> LiteralFirst(pattern, text)
  {
    hide From;
    var p: nat, t: nat, starText: nat := 0, 0, 0;
    var star: Option<nat> := None;
    assert pattern[p..] == pattern && text[t..] == text;
    while t < |text|
      invariant Standing(pattern, text, p, t, star, starText)
      decreases if star.Some? then |pattern| - star.value else |pattern| + 1, |text| - starText, |text| - t
    {
      if p < |pattern| && pattern[p] == text[t] {
        LiteralStep(pattern, text, p, t, star, starText);
        p, t := p + 1, t + 1;
      } else if p < |pattern| && pattern[p] == '*' {
        StarStep(pattern, text, p, t, star, starText);
        star := Some(p);
        p := p + 1;
        starText := t;
      } else if star.Some? {
        BacktrackStep(pattern, text, p, t, star.value, starText);
        p := star.value + 1;
        starText := starText + 1;
        t := starText;
      } else {
        return false;
      }
    }
    AtTheEnd(pattern, text, p, star, starText);
    ghost var rest := pattern[p..];
    while p < |pattern| && pattern[p] == '*'
      invariant p <= |pattern| && (AllStars(rest) <==> AllStars(pattern[p..]))
    {
      assert pattern[p..] == ['*'] + pattern[p + 1..];
      p := p + 1;
    }
    assert p < |pattern| ==> pattern[p..][0] != '*';
    return p == |pattern|;
  }

  lemma AtTheEnd(pattern: string, text: string, p: nat, star: Option<nat>, starText: nat)
    requires Standing(pattern, text, p, |text|, star, starText)
    ensures LiteralFirst(pattern, text) <==> AllStars(pattern[p..])
  {
  }

  // ---------------------------------------------------------------- what is accepted, and what is meant

  lemma {:induction false} StarsMatchNothing(pattern: string)
    ensures Matches(pattern, "") <==> AllStars(pattern)
  {
    if pattern != "" {
      StarsMatchNothing(pattern[1..]);
      assert pattern == [pattern[0]] + pattern[1..];
      assert ""[0..] == "";
    }
  }

  /** Whatever the code accepts does match. */
  lemma {:induction false} Sound(pattern: string, text: string)
    requires LiteralFirst(pattern, text)
    ensures Matches(pattern, text)
    decreases |pattern|
  {
    if text == "" {
      StarsMatchNothing(pattern);
    } else if pattern[0] == text[0] {
      Sound(pattern[1..], text[1..]);
    } else {
      var k :| 0 <= k <= |text| && LiteralFirst(pattern[1..], text[k..]);
      Sound(pattern[1..], text[k..]);
    }
  }

  /** A `*` in the text with something behind it. */
  predicate InnerStar(text: string) {
    exists i :: 0 <= i < |text| - 1 && text[i] == '*'
  }

  lemma {:induction false} StarsMatchOneStar(pattern: string)
    requires Matches(pattern, "*")
    ensures AllStars(pattern)
  {
    var rest := pattern[1..];
    var k :| 0 <= k <= 1 && Matches(rest, "*"[k..]);
    assert "*"[0..] == "*" && "*"[1..] == "";
    if k == 0 {
      StarsMatchOneStar(rest);
    } else {
      StarsMatchNothing(rest);
    }
    assert pattern == ['*'] + rest;
  }

  lemma {:induction false} CompleteWithoutInnerStar(pattern: string, text: string)
    requires Matches(pattern, text) && !InnerStar(text)
    ensures LiteralFirst(pattern, text)
    decreases |pattern|
  {
    if text == "" {
      StarsMatchNothing(pattern);
    } else if pattern[0] == '*' {
      if text[0] == '*' {
        assert text == "*";
        StarsMatchOneStar(pattern);
      } else {
        var k :| 0 <= k <= |text| && Matches(pattern[1..], text[k..]);
        SuffixHasNoInnerStar(text, k);
        CompleteWithoutInnerStar(pattern[1..], text[k..]);
      }
    } else {
      SuffixHasNoInnerStar(text, 1);
      CompleteWithoutInnerStar(pattern[1..], text[1..]);
    }
  }

  lemma SuffixHasNoInnerStar(text: string, k: nat)
    requires !InnerStar(text) && k <= |text|
    ensures !InnerStar(text[k..])
  {
    forall i | 0 <= i < |text[k..]| - 1 ensures text[k..][i] != '*' {
      assert text[k..][i] == text[k + i];
    }
  }

  /** The first star of a text, taken as a pattern behind what precedes it, matches the text; the code consumes it
      as a literal and then has no star to backtrack to. */
  lemma {:induction false} InnerStarIsRejected(text: string, i: nat)
    requires i < |text| - 1 && text[i] == '*' && forall j :: 0 <= j < i ==> text[j] != '*'
    ensures Matches(text[..i] + "*", text) && !LiteralFirst(text[..i] + "*", text)
    decreases i
  {
    var pattern := text[..i] + "*";
    if i == 0 {
      assert pattern == "*" && pattern[1..] == "";
      assert Matches("", text[|text|..]);
    } else {
      InnerStarIsRejected(text[1..], i - 1);
      assert pattern[1..] == text[1..][..i - 1] + "*";
    }
  }

  /** Exactly which texts the matcher decides correctly, whatever the pattern: those without a `*` that is followed
      by anything. */
  lemma CorrectForTextIff(text: string)
    ensures (forall pattern :: LiteralFirst(pattern, text) <==> Matches(pattern, text)) <==> !InnerStar(text)
  {
    if InnerStar(text) {
      var i :| 0 <= i < |text| - 1 && text[i] == '*';
      var first := FirstStar(text, i);
      InnerStarIsRejected(text, first);
    } else {
      forall pattern ensures LiteralFirst(pattern, text) <==> Matches(pattern, text) {
        if LiteralFirst(pattern, text) { Sound(pattern, text); }
        if Matches(pattern, text) { CompleteWithoutInnerStar(pattern, text); }
      }
    }
  }

  function FirstStar(text: string, i: nat): (first: nat)
    requires i < |text| && text[i] == '*'
    ensures first <= i && text[first] == '*' && forall j :: 0 <= j < first ==> text[j] != '*'
    decreases |text|
  {
    if text[0] == '*' then 0 else 1 + FirstStar(text[1..], i - 1)
  }
}
