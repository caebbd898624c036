/** The `type:key` text of an aggregate id, and the order of ids. */
module AggregateIds {
  import opened Core
  import opened ByteOrder

  datatype ParseError = MissingColon | EmptyType | EmptyKey

  function Print(id: AggregateId): string {
    id.aggregateType + ":" + id.key
  }

  /** `split_once(':')`: the position of the first colon. */
  function FirstColon(text: string): (r: Option<nat>)
    ensures r.None? ==> ':' !in text
    ensures r.Some? ==> r.value < |text| && text[r.value] == ':' && forall j :: 0 <= j < r.value ==> text[j] != ':'
  {
    if text == "" then None
    else if text[0] == ':' then Some(0)
    else match FirstColon(text[1..]) case None => None case Some(i) => Some(i + 1)
  }

  function Parse(text: string): Result<AggregateId, ParseError> {
    match FirstColon(text)
    case None => Err(MissingColon)
    case Some(i) =>
      if i == 0 then Err(EmptyType)
      else if i + 1 == |text| then Err(EmptyKey)
      else Ok(AggregateId(text[..i], text[i + 1..]))
  }

  predicate RoundTrips(id: AggregateId) {
    id.aggregateType != "" && ':' !in id.aggregateType && id.key != ""
  }

  /** Exactly which ids survive printing and parsing. */
  lemma ParsePrintedIff(id: AggregateId)
    ensures Parse(Print(id)) == Ok(id) <==> RoundTrips(id)
  {
    var text, n := Print(id), |id.aggregateType|;
    assert text[n] == ':' && text[..n] == id.aggregateType && text[n + 1..] == id.key;
    assert forall j :: 0 <= j < n ==> text[j] == id.aggregateType[j];
  }

  /** Whatever parses prints back as the same text, and round-trips. */
  lemma PrintParsed(text: string)
    requires Parse(text).Ok?
    ensures Print(Parse(text).value) == text && RoundTrips(Parse(text).value)
  {
    var i := FirstColon(text).value;
    assert text == text[..i] + [text[i]] + text[i + 1..];
  }

  /** Exactly which ids share their text with another id: those with a colon on either side. */
  lemma TextIsSharedIff(id: AggregateId)
    ensures (exists other :: other != id && Print(other) == Print(id)) <==>
            ':' in id.aggregateType || ':' in id.key
  {
    var text, n := Print(id), |id.aggregateType|;
    if i :| 0 <= i < n && id.aggregateType[i] == ':' {
      var other := AggregateId(id.aggregateType[..i], id.aggregateType[i + 1..] + ":" + id.key);
      assert id.aggregateType == id.aggregateType[..i] + ":" + id.aggregateType[i + 1..];
      assert Print(other) == text && |other.aggregateType| != n;
    } else if i :| 0 <= i < |id.key| && id.key[i] == ':' {
      var other := AggregateId(id.aggregateType + ":" + id.key[..i], id.key[i + 1..]);
      assert id.key == id.key[..i] + ":" + id.key[i + 1..];
      assert Print(other) == text && |other.aggregateType| != n;
    } else {
      forall other | Print(other) == text ensures other == id {
        OnlyColonSplits(id, other);
      }
    }
  }

  lemma OnlyColonSplits(id: AggregateId, other: AggregateId)
    requires ':' !in id.aggregateType && ':' !in id.key && Print(other) == Print(id)
    ensures other == id
  {
    var text, n, m := Print(id), |id.aggregateType|, |other.aggregateType|;
    assert text[m] == ':';
    assert forall j :: 0 <= j < |text| && j != n ==> text[j] in id.aggregateType || text[j] in id.key;
    assert text[..n] == id.aggregateType && text[n + 1..] == id.key;
    assert text[..m] == other.aggregateType && text[m + 1..] == other.key;
  }

  /** By type, then by key. */
  predicate IdLess(a: AggregateId, b: AggregateId) {
    Less(a.aggregateType, b.aggregateType) || (a.aggregateType == b.aggregateType && Less(a.key, b.key))
  }

  /** The types decide; only between equal types do the keys. */
  lemma TypeDecidesBeforeKey(a: AggregateId, b: AggregateId)
    ensures Less(a.aggregateType, b.aggregateType) ==> IdLess(a, b) && !IdLess(b, a)
    ensures a.aggregateType == b.aggregateType ==> (IdLess(a, b) <==> Less(a.key, b.key))
  {
    LessIsTotal(a.aggregateType, b.aggregateType);
  }

  lemma IdLessIsTotal(a: AggregateId, b: AggregateId)
    ensures a != b ==> IdLess(a, b) || IdLess(b, a)
    ensures !(IdLess(a, b) && IdLess(b, a)) && !IdLess(a, a)
  {
    LessIsTotal(a.aggregateType, b.aggregateType);
    LessIsTotal(a.key, b.key);
    LessIsTotal(a.key, a.key);
    LessIsTotal(a.aggregateType, a.aggregateType);
  }

  lemma IdLessIsTransitive(a: AggregateId, b: AggregateId, c: AggregateId)
    requires IdLess(a, b) && IdLess(b, c)
    ensures IdLess(a, c)
  {
    if Less(a.aggregateType, b.aggregateType) && Less(b.aggregateType, c.aggregateType) {
      LessIsTransitive(a.aggregateType, b.aggregateType, c.aggregateType);
    }
    if Less(a.key, b.key) && Less(b.key, c.key) {
      LessIsTransitive(a.key, b.key, c.key);
    }
  }
}
