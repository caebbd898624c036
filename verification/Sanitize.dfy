/** Turning partition names into database names: lower-case letters, digits and single dashes, bounded to 51. */
module Sanitize {
  import opened Binary
  import opened Fnv

  const NAME_LIMIT: nat := 51
  const PREFIX_FRAGMENT_LIMIT: nat := 12
  const PREFIX_HASH_LENGTH: nat := 8
  const HASH_LENGTH: nat := 16

  predicate IsAlphanumeric(c: char) {
    'a' <= c <= 'z' || '0' <= c <= '9' || 'A' <= c <= 'Z'
  }

  function ToLower(c: char): char {
    if 'A' <= c <= 'Z' then (c as int - 'A' as int + 'a' as int) as char else c
  }

  predicate EndsWithDash(s: string) {
    s != "" && s[|s| - 1] == '-'
  }

  /** The whole text in lower case, every run of other characters collapsed to one dash, none in front. */
  function Collapsed(raw: string): string {
    if raw == "" then ""
    else
      var front, c := Collapsed(raw[..|raw| - 1]), raw[|raw| - 1];
      if IsAlphanumeric(c) then front + [ToLower(c)]
      else if front == "" || EndsWithDash(front) then front
      else front + "-"
  }

  function Take(s: string, limit: nat): string {
    if |s| <= limit then s else s[..limit]
  }

  function StripDashes(s: string): string {
    if EndsWithDash(s) then StripDashes(s[..|s| - 1]) else s
  }

  function Fragment(raw: string, limit: nat): string {
    StripDashes(Take(Collapsed(raw), limit))
  }

  method SanitizeFragment(raw: string, limit: nat) returns (result: string)
    ensures result == Fragment(raw, limit)
  {
    result := "";
    var prevDash := false;
    for i := 0 to |raw|
      invariant result == Collapsed(raw[..i]) && |result| <= limit && prevDash == EndsWithDash(result)
    {
      assert raw[..i + 1][..i] == raw[..i];
      var c := raw[i];
      var out: char;
      if IsAlphanumeric(c) {
        prevDash := false;
        out := ToLower(c);
      } else {
        if prevDash || result == "" {
          continue;
        }
        prevDash := true;
        out := '-';
      }
      if |result| >= limit {
        CollapsedGrows(raw, i + 1);
        assert Take(Collapsed(raw), limit) == result;
        result := PopDashes(result);
        return;
      }
      result := result + [out];
    }
    assert raw[..|raw|] == raw;
    result := PopDashes(result);
  }

  method PopDashes(s: string) returns (r: string)
    ensures r == StripDashes(s)
  {
    r := s;
    while EndsWithDash(r)
      invariant StripDashes(r) == StripDashes(s)
      decreases |r|
    {
      r := r[..|r| - 1];
    }
  }

  lemma {:induction false} CollapsedGrows(raw: string, n: nat)
    requires n <= |raw|
    ensures Collapsed(raw[..n]) <= Collapsed(raw)
    decreases |raw|
  {
    if n < |raw| {
      CollapsedGrows(raw[..|raw| - 1], n);
      assert raw[..|raw| - 1][..n] == raw[..n];
    } else {
      assert raw[..n] == raw;
    }
  }

  // ---------------------------------------------------------------- what a database name may look like

  predicate IsNameChar(c: char) {
    'a' <= c <= 'z' || '0' <= c <= '9' || c == '-'
  }

  /** Only `a-z`, `0-9` and `-`, no dash in front, no two dashes in a row. */
  predicate Dashed(s: string) {
    (forall i :: 0 <= i < |s| ==> IsNameChar(s[i])) &&
    (s != "" ==> s[0] != '-') &&
    (forall i :: 0 < i < |s| ==> s[i - 1] != '-' || s[i] != '-')
  }

  predicate Clean(s: string) {
    Dashed(s) && !EndsWithDash(s)
  }

  lemma {:induction false} CollapsedIsDashed(raw: string)
    ensures Dashed(Collapsed(raw))
  {
    if raw != "" {
      CollapsedIsDashed(raw[..|raw| - 1]);
    }
  }

  lemma {:induction false} StrippedIsClean(s: string)
    requires Dashed(s)
    ensures Clean(StripDashes(s)) && StripDashes(s) <= s
  {
    if EndsWithDash(s) {
      StrippedIsClean(s[..|s| - 1]);
    }
  }

  lemma {:induction false} CleanCollapsesToItself(s: string)
    requires Dashed(s)
    ensures Collapsed(s) == s
  {
    if s != "" {
      CleanCollapsesToItself(s[..|s| - 1]);
      assert s == s[..|s| - 1] + [s[|s| - 1]];
    }
  }

  // ---------------------------------------------------------------- what is kept

  const LOWER_CASE: string := "abcdefghijklmnopqrstuvwxyz"

  /** A letter in lower case, a digit, or nothing. */
  function Kept(c: char): string {
    if 'A' <= c <= 'Z' then [LOWER_CASE[c as int - 'A' as int]]
    else if 'a' <= c <= 'z' || '0' <= c <= '9' then [c]
    else ""
  }

  /** The letters and digits of the text, in order, the letters in lower case. */
  function Lowered(raw: string): string {
    if raw == "" then "" else Lowered(raw[..|raw| - 1]) + Kept(raw[|raw| - 1])
  }

  function WithoutDashes(s: string): string {
    if s == "" then ""
    else WithoutDashes(s[..|s| - 1]) + if s[|s| - 1] == '-' then "" else [s[|s| - 1]]
  }

  lemma KeptIs(c: char)
    ensures Kept(c) == if IsAlphanumeric(c) then [ToLower(c)] else ""
    ensures IsAlphanumeric(c) ==> ToLower(c) != '-'
  {
  }

  lemma WithoutDashesSnoc(s: string, c: char)
    ensures WithoutDashes(s + [c]) == WithoutDashes(s) + if c == '-' then "" else [c]
  {
    assert (s + [c])[..|s|] == s;
  }

  lemma {:induction false} CollapsedKeeps(raw: string)
    ensures WithoutDashes(Collapsed(raw)) == Lowered(raw)
  {
    hide Kept, ToLower, IsAlphanumeric;
    if raw != "" {
      var c := raw[|raw| - 1];
      CollapsedKeeps(raw[..|raw| - 1]);
      KeptIs(c);
      WithoutDashesSnoc(Collapsed(raw[..|raw| - 1]), if IsAlphanumeric(c) then ToLower(c) else '-');
      hide WithoutDashes;
    }
  }

  lemma {:induction false} StrippingKeeps(s: string)
    ensures WithoutDashes(StripDashes(s)) == WithoutDashes(s)
  {
    if EndsWithDash(s) {
      StrippingKeeps(s[..|s| - 1]);
    }
  }

  lemma {:induction false} PrefixKeepsPrefix(s: string, n: nat)
    requires n <= |s|
    ensures WithoutDashes(s[..n]) <= WithoutDashes(s)
    decreases |s|
  {
    if n < |s| {
      assert s[..|s| - 1][..n] == s[..n];
      PrefixKeepsPrefix(s[..|s| - 1], n);
    } else {
      assert s[..n] == s;
    }
  }

  /** Apart from dashes a fragment is the text's letters and digits, lowered, in order, none left out: all of them if
      they fit with their dashes, otherwise a prefix. */
  lemma FragmentKeeps(raw: string, limit: nat)
    ensures WithoutDashes(Fragment(raw, limit)) <= Lowered(raw)
    ensures |Collapsed(raw)| <= limit ==> WithoutDashes(Fragment(raw, limit)) == Lowered(raw)
  {
    CollapsedKeeps(raw);
    StrippingKeeps(Take(Collapsed(raw), limit));
    PrefixKeepsPrefix(Collapsed(raw), |Take(Collapsed(raw), limit)|);
  }

  lemma FragmentIsClean(raw: string, limit: nat)
    ensures Clean(Fragment(raw, limit)) && |Fragment(raw, limit)| <= limit
  {
    CollapsedIsDashed(raw);
    assert Dashed(Take(Collapsed(raw), limit));
    StrippedIsClean(Take(Collapsed(raw), limit));
  }

  /** Sanitising a sanitised fragment changes nothing. */
  lemma FragmentIsIdempotent(raw: string, limit: nat)
    ensures Fragment(Fragment(raw, limit), limit) == Fragment(raw, limit)
  {
    FragmentIsClean(raw, limit);
    CleanCollapsesToItself(Fragment(raw, limit));
  }

  /** A fragment is empty exactly if there is nothing to keep or no room for it. */
  lemma {:induction false} FragmentIsEmptyIff(raw: string, limit: nat)
    ensures Fragment(raw, limit) == "" <==> limit == 0 || forall i :: 0 <= i < |raw| ==> !IsAlphanumeric(raw[i])
  {
    CollapsedIsEmptyIff(raw);
    CollapsedIsDashed(raw);
    var taken := Take(Collapsed(raw), limit);
    if taken != "" {
      StripKeepsFirst(taken);
    }
  }

  lemma {:induction false} CollapsedIsEmptyIff(raw: string)
    ensures Collapsed(raw) == "" <==> forall i :: 0 <= i < |raw| ==> !IsAlphanumeric(raw[i])
  {
    if raw != "" {
      var front := raw[..|raw| - 1];
      CollapsedIsEmptyIff(front);
      assert forall i :: 0 <= i < |front| ==> raw[i] == front[i];
    }
  }

  lemma {:induction false} StripKeepsFirst(s: string)
    requires s != "" && s[0] != '-'
    ensures StripDashes(s) != ""
  {
    if EndsWithDash(s) {
      StripKeepsFirst(s[..|s| - 1]);
    }
  }

  // ---------------------------------------------------------------- hashes as text

  function HexDigit(d: nat): char
    requires d < 16
  {
    if d < 10 then ('0' as int + d) as char else ('a' as int + d - 10) as char
  }

  lemma HexDigitIs(d: nat)
    requires d < 16
    ensures HexDigit(d) == "0123456789abcdef"[d]
  {
  }

  function Hex(n: nat, width: nat): (s: string)
    ensures |s| == width
  {
    if width == 0 then "" else Hex(n / 16, width - 1) + [HexDigit(n % 16)]
  }

  function Power16(width: nat): nat {
    if width == 0 then 1 else 16 * Power16(width - 1)
  }

  lemma {:induction false} HexIsInjective(a: nat, b: nat, width: nat)
    requires a < Power16(width) && b < Power16(width) && Hex(a, width) == Hex(b, width)
    ensures a == b
  {
    if width > 0 {
      var s, t := Hex(a, width), Hex(b, width);
      assert s[..width - 1] == Hex(a / 16, width - 1) && t[..width - 1] == Hex(b / 16, width - 1);
      assert s[width - 1] == HexDigit(a % 16) && t[width - 1] == HexDigit(b % 16);
      HexIsInjective(a / 16, b / 16, width - 1);
    }
  }

  lemma {:induction false} HexIsClean(n: nat, width: nat)
    ensures Clean(Hex(n, width)) && '-' !in Hex(n, width)
  {
    if width > 0 {
      HexIsClean(n / 16, width - 1);
    }
  }

  function StableHash(raw: string): nat {
    Fnv1a(Fnv64, raw)
  }

  function StableHashHex(raw: string): (hex: string)
    ensures |hex| == HASH_LENGTH
  {
    Hex(StableHash(raw), HASH_LENGTH)
  }

  method ComputeStableHashHex(raw: string) returns (hex: string)
    ensures hex == StableHashHex(raw)
  {
    hide Step, Hex;
    var hash := Fnv64.Offset();
    for i := 0 to |raw|
      invariant Fnv1a(Fnv64, raw) == Hash(Fnv64, hash, raw[i..])
    {
      assert raw[i..][0] == raw[i] && raw[i..][1..] == raw[i + 1..];
      hash := Step(Fnv64, hash, Code(raw[i]));
    }
    return Hex(hash, HASH_LENGTH);
  }

  // ---------------------------------------------------------------- database names

  function NamedDatabasePrefix(prefix: string): string {
    var fragment := Fragment(prefix, PREFIX_FRAGMENT_LIMIT);
    (if fragment == "" then "db" else fragment) + "-" + StableHashHex(prefix)[..PREFIX_HASH_LENGTH]
  }

  lemma PrefixIsShortAndClean(prefix: string)
    ensures 0 < |NamedDatabasePrefix(prefix)| <= 21
    ensures Clean(NamedDatabasePrefix(prefix))
  {
    hide Fragment, StableHashHex;
    var fragment := Fragment(prefix, PREFIX_FRAGMENT_LIMIT);
    FragmentIsClean(prefix, PREFIX_FRAGMENT_LIMIT);
    HexPrefixIsClean(prefix);
    JoinIsClean(if fragment == "" then "db" else fragment, StableHashHex(prefix)[..PREFIX_HASH_LENGTH]);
  }

  lemma HexPrefixIsClean(raw: string)
    ensures Clean(StableHashHex(raw)) && Clean(StableHashHex(raw)[..PREFIX_HASH_LENGTH])
  {
    HexIsClean(StableHash(raw), HASH_LENGTH);
  }

  lemma JoinIsClean(a: string, b: string)
    requires a != "" && b != "" && Clean(a) && Clean(b)
    ensures Clean(a + "-" + b)
  {
    var s := a + "-" + b;
    assert s[|s| - 1] == b[|b| - 1] && s[0] == a[0];
    forall i | 0 <= i < |s| ensures IsNameChar(s[i]) {
      assert i > |a| ==> s[i] == b[i - |a| - 1];
    }
    forall i | 0 < i < |s| ensures s[i - 1] != '-' || s[i] != '-' {
      assert i > |a| ==> s[i] == b[i - |a| - 1];
      assert i > |a| + 1 ==> s[i - 1] == b[i - |a| - 2];
    }
  }

  /** What is left for the partition; the subtraction never underflows, since the prefix is short. */
  function Remaining(prefix: string): (budget: nat)
    ensures |NamedDatabasePrefix(prefix)| + 1 + budget + 1 + HASH_LENGTH == NAME_LIMIT
  {
    PrefixIsShortAndClean(prefix);
    NAME_LIMIT - |NamedDatabasePrefix(prefix)| - HASH_LENGTH - 2
  }

  function DatabaseName(partition: string, prefix: string): string {
    if partition == "" then Fragment(prefix, NAME_LIMIT)
    else
      var fragment := Fragment(partition, Remaining(prefix));
      if fragment == "" then NamedDatabasePrefix(prefix) + "-" + StableHashHex(partition)
      else NamedDatabasePrefix(prefix) + "-" + fragment + "-" + StableHashHex(partition)
  }

  /** Every database name fits the limit, uses only the permitted characters, and has no edge or doubled dash. */
  lemma DatabaseNameIsValid(partition: string, prefix: string)
    ensures |DatabaseName(partition, prefix)| <= 51 && Clean(DatabaseName(partition, prefix))
  {
    hide Fragment, StableHashHex, NamedDatabasePrefix, Clean;
    FragmentIsClean(prefix, NAME_LIMIT);
    var fragment, head, tail := Fragment(partition, Remaining(prefix)), NamedDatabasePrefix(prefix),
                                StableHashHex(partition);
    FragmentIsClean(partition, Remaining(prefix));
    PrefixIsShortAndClean(prefix);
    HexPrefixIsClean(partition);
    JoinIsClean(head, tail);
    if fragment != "" {
      JoinIsClean(head, fragment);
      JoinIsClean(head + "-" + fragment, tail);
    }
  }

  /** The prefix of the databases shows what it was made from, before a dash and eight digits of its hash. */
  lemma PrefixTellsItsOrigin(prefix: string)
    ensures var name := NamedDatabasePrefix(prefix);
            |name| > 9 && name[|name| - 9] == '-' && name[|name| - 8..] == StableHashHex(prefix)[..8] &&
            var head := name[..|name| - 9];
            if Lowered(prefix) == "" then head == "db"
            else WithoutDashes(head) <= Lowered(prefix) &&
                 (|Collapsed(prefix)| <= 12 ==> WithoutDashes(head) == Lowered(prefix))
  {
    hide StableHashHex, Fragment, Lowered, Collapsed, WithoutDashes, IsAlphanumeric;
    var fragment := Fragment(prefix, 12);
    FragmentKeeps(prefix, 12);
    FragmentIsEmptyIff(prefix, 12);
    LoweredIsEmptyIff(prefix);
    NothingIsEmpty();
    var head := if fragment == "" then "db" else fragment;
    assert NamedDatabasePrefix(prefix) == head + "-" + StableHashHex(prefix)[..8];
    hide NamedDatabasePrefix;
    SplitAtDash(head, StableHashHex(prefix)[..8]);
  }

  lemma SplitAtDash(head: string, tail: string)
    ensures var name := head + "-" + tail;
            name[..|head|] == head && name[|head|] == '-' && name[|head| + 1..] == tail
  {
  }

  lemma NothingIsEmpty()
    ensures WithoutDashes("") == ""
  {
  }

  lemma {:induction false} LoweredIsEmptyIff(raw: string)
    ensures Lowered(raw) == "" <==> forall i :: 0 <= i < |raw| ==> !IsAlphanumeric(raw[i])
  {
    if raw != "" {
      var front := raw[..|raw| - 1];
      LoweredIsEmptyIff(front);
      KeptIs(raw[|raw| - 1]);
      assert forall i :: 0 <= i < |front| ==> raw[i] == front[i];
    }
  }

  /** A database name shows the prefix, what of the partition's name fits, and all sixteen digits of its hash. */
  lemma NameTellsItsOrigin(partition: string, prefix: string)
    requires partition != ""
    ensures var name, head := DatabaseName(partition, prefix), NamedDatabasePrefix(prefix) + "-";
            |head| + 16 <= |name| && head <= name && name[|name| - 16..] == StableHashHex(partition) &&
            var middle := WithoutDashes(name[|head|..|name| - 16]);
            middle <= Lowered(partition) &&
            (|Collapsed(partition)| + |head| + 17 <= 51 ==> middle == Lowered(partition))
  {
    hide NamedDatabasePrefix, StableHashHex, Fragment, Lowered, Collapsed, WithoutDashes;
    NothingIsEmpty();
    var fragment := Fragment(partition, Remaining(prefix));
    FragmentKeeps(partition, Remaining(prefix));
    var name, head := DatabaseName(partition, prefix), NamedDatabasePrefix(prefix) + "-";
    var middle := if fragment == "" then "" else fragment + "-";
    assert name == head + middle + StableHashHex(partition);
    hide DatabaseName;
    assert name[|head|..|name| - 16] == middle;
    if fragment != "" {
      WithoutDashesSnoc(fragment, '-');
    }
  }

  /** Two names share a database under one prefix only if their 64-bit hashes are equal: the hash is never cut. */
  lemma SharedDatabaseMeansEqualHash(a: string, b: string, prefix: string)
    requires a != "" && b != "" && DatabaseName(a, prefix) == DatabaseName(b, prefix)
    ensures StableHash(a) == StableHash(b)
  {
    var x, y := DatabaseName(a, prefix), DatabaseName(b, prefix);
    assert x[|x| - HASH_LENGTH..] == StableHashHex(a) && y[|y| - HASH_LENGTH..] == StableHashHex(b);
    assert Power16(8) == 0x1_0000_0000;
    assert Power16(16) == Fnv64.Word();
    HashIsAWord(Fnv64, Fnv64.Offset(), a);
    HashIsAWord(Fnv64, Fnv64.Offset(), b);
    HexIsInjective(StableHash(a), StableHash(b), HASH_LENGTH);
  }

  /** Two names that differ in exactly one byte never share a database, under whatever prefix. */
  lemma OneByteSeparatesDatabases(a: string, b: string, i: nat, prefix: string)
    requires IsBytes(a) && IsBytes(b) && i < |a| == |b| && a[i] != b[i]
    requires a[..i] == b[..i] && a[i + 1..] == b[i + 1..]
    ensures DatabaseName(a, prefix) != DatabaseName(b, prefix)
  {
    hide DatabaseName;
    OneByteNeverCollides(Fnv64, Fnv64.Offset(), a, b, i);
    if DatabaseName(a, prefix) == DatabaseName(b, prefix) {
      SharedDatabaseMeansEqualHash(a, b, prefix);
    }
  }

  /** The one way to an empty database name: the default partition under a prefix without letters or digits. */
  lemma EmptyDatabaseNameIff(partition: string, prefix: string)
    ensures DatabaseName(partition, prefix) == "" <==>
            partition == "" && forall i :: 0 <= i < |prefix| ==> !IsAlphanumeric(prefix[i])
  {
    FragmentIsEmptyIff(prefix, NAME_LIMIT);
  }
}
