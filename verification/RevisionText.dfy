/** The text of a revision: the 26 Crockford base-32 digits of its ULID (ULID specification, sections "Encoding" and
    "Sorting").  The database only ever sees this text; here its byte order is shown to be the order of the 128-bit
    values, so that the SQL guards over text mean what SqliteTable states over numbers. */
module RevisionText {
  import Binary
  import opened Core
  import opened SqliteTable
  import opened ByteOrder

  const TEXT_LENGTH: nat := 26

  const ZERO_REVISION: string := "00000000000000000000000000"

  /** Crockford's alphabet: the digits, then the capital letters without I, L, O and U. */
  function Digit(d: nat): char
    requires d < 32
  {
    if d < 10 then ('0' as int + d) as char
    else if d < 18 then ('A' as int + d - 10) as char
    else if d < 20 then ('J' as int + d - 18) as char
    else if d < 22 then ('M' as int + d - 20) as char
    else if d < 27 then ('P' as int + d - 22) as char
    else ('V' as int + d - 27) as char
  }

  const CROCKFORD_ALPHABET: string := "0123456789ABCDEFGHJKMNPQRSTVWXYZ"

  lemma DigitIs(d: nat)
    requires d < 32
    ensures Digit(d) == CROCKFORD_ALPHABET[d]
  {
  }

  function DigitValue(c: char): Option<nat> {
    if '0' <= c <= '9' then Some(c as int - '0' as int)
    else if 'A' <= c <= 'H' then Some(c as int - 'A' as int + 10)
    else if 'J' <= c <= 'K' then Some(c as int - 'J' as int + 18)
    else if 'M' <= c <= 'N' then Some(c as int - 'M' as int + 20)
    else if 'P' <= c <= 'T' then Some(c as int - 'P' as int + 22)
    else if 'V' <= c <= 'Z' then Some(c as int - 'V' as int + 27)
    else None
  }

  /** The `width` low base-32 digits of `n`, most significant first. */
  function Digits(n: nat, width: nat): string {
    if width == 0 then "" else Digits(n / 32, width - 1) + [Digit(n % 32)]
  }

  function Print(u: Ulid): string {
    Digits(u, TEXT_LENGTH)
  }

  /** Shifting into 128 bits: `value = (value << 5) | digit`. */
  function Decode(text: string): Option<Ulid> {
    if text == "" then Some(0)
    else
      var high, low := Decode(text[..|text| - 1]), DigitValue(text[|text| - 1]);
      if high.None? || low.None? then None else Some((high.value * 32 + low.value) % ULID_LIMIT)
  }

  datatype RevisionParseError = WrongLength(length: nat) | InvalidUlid

  function Parse(text: string): (r: Result<Ulid, RevisionParseError>) {
    if text == ZERO_REVISION then Ok(ZERO)
    else if |text| != TEXT_LENGTH then Err(WrongLength(|text|))
    else
      match Decode(text)
      case None => Err(InvalidUlid)
      case Some(value) => Ok(value)
  }

  function Power32(width: nat): (r: nat)
    ensures r > 0
  {
    if width == 0 then 1 else 32 * Power32(width - 1)
  }

  // ---------------------------------------------------------------- order

  lemma {:induction false} DigitsKeepOrder(a: nat, b: nat, width: nat)
    requires a < Power32(width) && b < Power32(width)
    ensures |Digits(a, width)| == |Digits(b, width)| == width
    ensures Less(Digits(a, width), Digits(b, width)) <==> a < b
    ensures Digits(a, width) == Digits(b, width) <==> a == b
  {
    if width > 0 {
      DigitsKeepOrder(a / 32, b / 32, width - 1);
      var high, high' := Digits(a / 32, width - 1), Digits(b / 32, width - 1);
      LessSnoc(high, high', Digit(a % 32), Digit(b % 32));
      assert (high + [Digit(a % 32)])[..width - 1] == high && (high' + [Digit(b % 32)])[..width - 1] == high';
      assert (high + [Digit(a % 32)])[width - 1] == Digit(a % 32);
      assert (high' + [Digit(b % 32)])[width - 1] == Digit(b % 32);
    }
  }

  lemma UlidFitsText()
    ensures Power32(TEXT_LENGTH) == 4 * ULID_LIMIT
  {
    assert Power32(8) == 0x100_0000_0000;
    assert Power32(16) == 0x1_0000_0000_0000_0000_0000;
    assert Power32(24) == 0x100_0000_0000_0000_0000_0000_0000_0000;
  }

  /** Byte order of the texts is numeric order of the revisions, and equal texts are equal revisions. */
  lemma TextOrderIsNumericOrder(a: Ulid, b: Ulid)
    ensures |Print(a)| == TEXT_LENGTH
    ensures Less(Print(a), Print(b)) <==> a < b
    ensures Print(a) == Print(b) <==> a == b
  {
    UlidFitsText();
    DigitsKeepOrder(a, b, TEXT_LENGTH);
  }

  // ---------------------------------------------------------------- round trip

  lemma DigitReadsBack(d: nat)
    requires d < 32
    ensures DigitValue(Digit(d)) == Some(d)
  {
  }

  lemma ShiftedIn(n: nat, limit: nat)
    requires n < limit
    ensures (n / 32 * 32 + n % 32) % limit == n
  {
    assert n / 32 * 32 + n % 32 == n;
  }

  lemma {:induction false} DecodeDigits(n: nat, width: nat)
    requires n < Power32(width) && n < ULID_LIMIT
    ensures Decode(Digits(n, width)) == Some(n)
  {
    hide Digit, DigitValue;
    if width > 0 {
      DecodeDigits(n / 32, width - 1);
      DigitReadsBack(n % 32);
      ShiftedIn(n, ULID_LIMIT);
      var high := Digits(n / 32, width - 1);
      assert (high + [Digit(n % 32)])[..|high|] == high;
    }
  }

  lemma {:induction false} ZeroDigits(width: nat)
    ensures Digits(0, width) == seq(width, _ => '0')
  {
    if width > 0 {
      ZeroDigits(width - 1);
    }
  }

  /** Zero prints as the zero revision, and nothing else does: `is_zero` is a test for the nil ULID. */
  lemma OnlyZeroPrintsAsZero(u: Ulid)
    ensures Print(u) == ZERO_REVISION <==> u == ZERO
  {
    ZeroDigits(TEXT_LENGTH);
    assert Print(ZERO) == ZERO_REVISION;
    TextOrderIsNumericOrder(u, ZERO);
  }

  /** Parsing any printed revision gives it back. */
  lemma ParsePrinted(u: Ulid)
    ensures Parse(Print(u)) == Ok(u)
  {
    UlidFitsText();
    OnlyZeroPrintsAsZero(u);
    TextOrderIsNumericOrder(u, ZERO);
    DecodeDigits(u, TEXT_LENGTH);
  }

  // ---------------------------------------------------------------- other texts

  predicate IsDigit(c: char) {
    DigitValue(c).Some?
  }

  predicate AllDigits(text: string) {
    forall i :: 0 <= i < |text| ==> IsDigit(text[i])
  }

  /** The digits are those of the alphabet. */
  lemma IsDigitIff(c: char)
    ensures IsDigit(c) <==> c in CROCKFORD_ALPHABET
    ensures IsDigit(c) ==> DigitValue(c).value < 32 && Digit(DigitValue(c).value) == c
  {
    if IsDigit(c) {
      DigitIs(DigitValue(c).value);
    }
    if i: nat :| i < 32 && CROCKFORD_ALPHABET[i] == c {
      DigitIs(i);
      DigitReadsBack(i);
    }
  }

  /** The number that a text of digits stands for, without a limit. */
  function Number(text: string): nat
    requires AllDigits(text)
  {
    if text == "" then 0 else 32 * Number(text[..|text| - 1]) + DigitValue(text[|text| - 1]).value
  }

  lemma NumberSnoc(text: string)
    requires AllDigits(text) && text != ""
    ensures Number(text) == 32 * Number(text[..|text| - 1]) + DigitValue(text[|text| - 1]).value
  {
  }

  lemma {:induction false} DigitsOfNumber(text: string)
    requires AllDigits(text)
    ensures Number(text) < Power32(|text|) && Digits(Number(text), |text|) == text
  {
    hide Digit, DigitValue;
    if text != "" {
      var front, c := text[..|text| - 1], text[|text| - 1];
      IsDigitIff(c);
      DigitsOfNumber(front);
      NumberSnoc(text);
      assert Number(text) / 32 == Number(front) && Number(text) % 32 == DigitValue(c).value;
      assert text == front + [c];
      hide Number;
    }
  }

  /** Decoding keeps the lower 128 bits. */
  lemma {:induction false} DecodeIsRemainder(text: string)
    requires AllDigits(text)
    ensures Decode(text) == Some(Number(text) % ULID_LIMIT)
  {
    if text != "" {
      DecodeIsRemainder(text[..|text| - 1]);
      RemainderShifts(Number(text[..|text| - 1]), DigitValue(text[|text| - 1]).value, ULID_LIMIT);
    }
  }

  lemma Regroup(q: nat, k: nat, limit: nat)
    ensures (q * 32 + k) * limit == 32 * (q * limit) + k * limit
  {
  }

  lemma RemainderShifts(m: nat, d: nat, limit: nat)
    requires limit > 0
    ensures (m % limit * 32 + d) % limit == (m * 32 + d) % limit
  {
    var q, low := m / limit, m % limit * 32 + d;
    var k, rest := low / limit, low % limit;
    assert m == q * limit + m % limit && low == k * limit + rest;
    Regroup(q, k, limit);
    Binary.RemainderIs(m * 32 + d, q * 32 + k, rest, limit);
  }

  lemma BoundsGrow(d: nat, p: nat, m: nat, last: nat)
    requires d * p <= m < (d + 1) * p && last < 32
    ensures d * (32 * p) <= 32 * m + last < (d + 1) * (32 * p)
  {
    assert d * (32 * p) == 32 * (d * p) && (d + 1) * (32 * p) == 32 * ((d + 1) * p);
  }

  lemma {:induction false} FirstDigitBounds(text: string)
    requires AllDigits(text) && text != ""
    ensures var d := DigitValue(text[0]).value;
            d * Power32(|text| - 1) <= Number(text) < (d + 1) * Power32(|text| - 1)
  {
    hide Digit, DigitValue;
    IsDigitIff(text[|text| - 1]);
    NumberSnoc(text);
    var d, last := DigitValue(text[0]).value, DigitValue(text[|text| - 1]).value;
    if |text| > 1 {
      FirstDigitBounds(text[..|text| - 1]);
      BoundsGrow(d, Power32(|text| - 2), Number(text[..|text| - 1]), last);
    } else {
      assert text[..0] == "";
    }
  }

  /** What parsing makes of a text that nobody printed: another length is an error that says so; a text with a character
      that is neither a letter nor a decimal digit is invalid; 26 digits are a revision, namely the one printed that way
      exactly if the first digit is at most 7, since more does not fit in 128 bits. */
  lemma ParseOtherText(text: string)
    ensures Parse(text) == Err(WrongLength(|text|)) <==> |text| != 26
    ensures |text| == 26 && !AllDigits(text) ==> Parse(text) == Err(InvalidUlid)
    ensures |text| == 26 && AllDigits(text) ==>
              Parse(text).Ok? && (Print(Parse(text).value) == text <==> text[0] <= '7')
  {
    ZeroIsDigits();
    if |text| == 26 {
      if AllDigits(text) {
        DecodeIsRemainder(text);
        FirstDigitDecides(text);
        OnlyZeroPrintsAsZero(ZERO);
      } else {
        BadDigitIsFatal(text);
      }
    }
  }

  lemma ZeroIsDigits()
    ensures |ZERO_REVISION| == 26 && AllDigits(ZERO_REVISION) && ZERO_REVISION[0] == '0'
  {
  }

  lemma {:induction false} BadDigitIsFatal(text: string)
    requires !AllDigits(text)
    ensures Decode(text).None?
  {
    if AllDigits(text[..|text| - 1]) {
      assert text == text[..|text| - 1] + [text[|text| - 1]];
    } else {
      BadDigitIsFatal(text[..|text| - 1]);
    }
  }

  lemma EightFills()
    ensures 8 * Power32(25) == ULID_LIMIT
  {
    UlidFitsText();
    assert Power32(26) == 32 * Power32(25);
  }

  lemma FirstDigitDecides(text: string)
    requires |text| == 26 && AllDigits(text)
    ensures Print(Number(text) % ULID_LIMIT) == text <==> text[0] <= '7'
  {
    hide Digits, Decode, Digit, Number, Power32;
    var n := Number(text);
    UlidFitsText();
    DigitsOfNumber(text);
    FirstDigitBounds(text);
    EightFills();
    DigitsKeepOrder(n % ULID_LIMIT, n, 26);
    assert text[0] <= '7' <==> DigitValue(text[0]).value < 8;
    hide DigitValue;
    var d, p := DigitValue(text[0]).value, Power32(25);
    if d < 8 {
      Binary.ProductGrows(d + 1, 8, p);
    } else {
      Binary.ProductGrows(8, d, p);
    }
    assert n < ULID_LIMIT <==> d < 8;
  }

  // ---------------------------------------------------------------- the timestamp

  lemma {:induction false} LeadingDigits(n: nat, width: nat, k: nat)
    ensures |Digits(n, width + k)| == width + k && Digits(n, width + k)[..width] == Digits(n / Power32(k), width)
    decreases k
  {
    DigitsLength(n, width + k);
    if k == 0 {
      assert Digits(n, width)[..width] == Digits(n, width);
    } else {
      LeadingDigits(n / 32, width, k - 1);
      DivideTwice(n, 32, Power32(k - 1));
      assert Digits(n, width + k)[..width] == Digits(n / 32, width + k - 1)[..width];
    }
  }

  lemma {:induction false} DigitsLength(n: nat, width: nat)
    ensures |Digits(n, width)| == width
  {
    if width > 0 {
      DigitsLength(n / 32, width - 1);
    }
  }

  lemma DivideTwice(n: nat, a: nat, b: nat)
    requires a > 0 && b > 0
    ensures n / a / b == n / (a * b)
  {
    var q, r := n / a / b, n / a % b * a + n % a;
    assert n == n / a * a + n % a && n / a == q * b + n / a % b;
    assert n == q * (a * b) + r;
    Binary.ProductGrows(n / a % b + 1, b, a);
    assert r < a * b;
    Binary.QuotientIs(n, q, r, a * b);
  }

  /** The first ten characters of a revision are its timestamp (ULID specification, section "Encoding"). */
  lemma TextStartsWithTimestamp(u: Ulid)
    ensures |Print(u)| == 26 && Print(u)[..10] == Digits(TimestampMs(u), 10)
  {
    hide Digits;
    LeadingDigits(u, 10, 16);
    assert Power32(8) == 0x100_0000_0000;
    assert Power32(16) == 0x1_0000_0000_0000_0000_0000;
  }

  // ---------------------------------------------------------------- the SQL guards, over text

  /** `SELECT MAX(revision)` over the text column. */
  function MaxText(rows: seq<Row>, id: AggregateId): Option<string> {
    if rows == [] then None
    else
      var rest := MaxText(rows[..|rows| - 1], id);
      var row := rows[|rows| - 1];
      var text := Print(row.event.revision);
      if row.id == id && (rest.None? || Less(rest.value, text)) then Some(text) else rest
  }

  /** The WHERE clause over the text column: `?5 > COALESCE(MAX, '000...')` and `MAX = ?10`. */
  function WhereText(rows: seq<Row>, id: AggregateId, mode: Mode, revision: string): Truth {
    var max := MaxText(rows, id);
    var advances := if Less(if max.Some? then max.value else ZERO_REVISION, revision) then True else False;
    match mode
    case Initial => if Select(rows, id) == [] then True else False
    case Exact(expected) =>
      SqlAnd(advances, if max.None? then Unknown else if max.value == Print(expected) then True else False)
    case Advance => advances
  }

  lemma {:induction false} MaxTextIsMaxRevision(rows: seq<Row>, id: AggregateId)
    ensures MaxText(rows, id) == match MaxRevision(rows, id) case None => None case Some(max) => Some(Print(max))
  {
    if rows != [] {
      MaxTextIsMaxRevision(rows[..|rows| - 1], id);
      var rest := MaxRevision(rows[..|rows| - 1], id);
      if rest.Some? {
        TextOrderIsNumericOrder(rest.value, rows[|rows| - 1].event.revision);
      }
    }
  }

  /** The guards the database evaluates over text are the numeric guards of the model. */
  lemma TextGuardsAreNumeric(rows: seq<Row>, id: AggregateId, mode: Mode, revision: Revision)
    ensures WhereText(rows, id, mode, Print(revision)) == Where(rows, id, mode, revision)
  {
    MaxTextIsMaxRevision(rows, id);
    OnlyZeroPrintsAsZero(ZERO);
    var max := MaxRevision(rows, id);
    TextOrderIsNumericOrder(Coalesce(max, ZERO).value, revision);
    if mode.Exact? && max.Some? {
      TextOrderIsNumericOrder(max.value, mode.expected);
    }
  }
}
