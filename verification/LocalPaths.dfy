/** Partition names as file names: unpadded base 32 (RFC 4648, sections 6 and 3.2) behind a fixed prefix. */
module LocalPaths {
  import opened Binary
  import opened Core

  const ENCODED_PATH_PREFIX: string := "b32-"

  const EXTENSION: string := "db"

  /** The alphabet of RFC 4648, section 6: A-Z, 2-7. */
  function Symbol(d: nat): char
    requires d < 32
  {
    if d < 26 then ('A' as int + d) as char else ('2' as int + d - 26) as char
  }

  const RFC4648_ALPHABET: string := "ABCDEFGHIJKLMNOPQRSTUVWXYZ234567"

  lemma SymbolIs(d: nat)
    requires d < 32
    ensures Symbol(d) == RFC4648_ALPHABET[d]
  {
  }

  function SymbolValue(c: char): Option<nat> {
    if 'A' <= c <= 'Z' then Some(c as int - 'A' as int)
    else if '2' <= c <= '7' then Some(c as int - '2' as int + 26)
    else None
  }

  function ByteBits(s: string): seq<bool> {
    if s == "" then [] else Bits(s[0] as int, 8) + ByteBits(s[1..])
  }

  function Zeros(n: nat): seq<bool> {
    seq(n, _ => false)
  }

  /** Groups of five bits, the last one padded with zero bits. */
  function Symbols(bits: seq<bool>): string {
    if bits == [] then ""
    else if |bits| < 5 then [Symbol(Number5(bits + Zeros(5 - |bits|)))]
    else [Symbol(Number5(bits[..5]))] + Symbols(bits[5..])
  }

  function Number5(bits: seq<bool>): (n: nat)
    requires |bits| == 5
    ensures n < 32
  {
    NumberFits(bits);
    Number(bits)
  }

  function SymbolBits(text: string): Option<seq<bool>> {
    if text == "" then Some([])
    else
      var value, rest := SymbolValue(text[0]), SymbolBits(text[1..]);
      if value.None? || rest.None? then None else Some(Bits(value.value, 5) + rest.value)
  }

  function Bytes(bits: seq<bool>): string
    requires |bits| % 8 == 0
  {
    if bits == [] then "" else [ByteOf(bits[..8])] + Bytes(bits[8..])
  }

  function ByteOf(bits: seq<bool>): char
    requires |bits| == 8
  {
    NumberFits(bits);
    Number(bits) as char
  }

  function Encode(bytes: string): string {
    Symbols(ByteBits(bytes))
  }

  /** Rejects symbols outside the alphabet, lengths that no byte string has, and padding bits that are not zero. */
  function Decode(text: string): Option<string> {
    match SymbolBits(text)
    case None => None
    case Some(bits) =>
      var extra := |bits| % 8;
      if extra >= 5 || true in bits[|bits| - extra..] then None
      else Some(Bytes(bits[..|bits| - extra]))
  }

  datatype PathError = MissingPrefix | InvalidBase32 | InvalidUtf8

  function EncodePathComponent(name: string): string {
    ENCODED_PATH_PREFIX + Encode(name)
  }

  /** `utf8` decides whether a byte string is valid UTF-8. */
  function DecodePathComponent(component: string, utf8: string -> bool): Result<string, PathError> {
    if !(ENCODED_PATH_PREFIX <= component) then Err(MissingPrefix)
    else
      match Decode(component[|ENCODED_PATH_PREFIX|..])
      case None => Err(InvalidBase32)
      case Some(bytes) => if utf8(bytes) then Ok(bytes) else Err(InvalidUtf8)
  }

  // ---------------------------------------------------------------- round trip

  lemma FirstSymbolReadsBack(five: seq<bool>, rest: string)
    requires |five| == 5 && SymbolBits(rest).Some?
    ensures SymbolBits([Symbol(Number5(five))] + rest) == Some(five + SymbolBits(rest).value)
  {
    BitsOfNumber(five);
    assert ([Symbol(Number5(five))] + rest)[1..] == rest;
  }

  function PadLength(n: nat): nat {
    if n % 5 == 0 then 0 else 5 - n % 5
  }

  /** Reading the symbols back gives the bits, with fewer than five zero bits behind them. */
  lemma {:induction false} SymbolsReadBack(bits: seq<bool>)
    ensures SymbolBits(Symbols(bits)) == Some(bits + Zeros(PadLength(|bits|)))
  {
    hide Number5, Symbol, SymbolValue;
    if bits == [] {
      assert bits + Zeros(0) == [];
    } else if |bits| < 5 {
      var five := bits + Zeros(5 - |bits|);
      FirstSymbolReadsBack(five, "");
      assert [Symbol(Number5(five))] + "" == Symbols(bits);
      assert five + [] == five;
    } else {
      SymbolsReadBack(bits[5..]);
      FirstSymbolReadsBack(bits[..5], Symbols(bits[5..]));
      assert bits[..5] + (bits[5..] + Zeros(PadLength(|bits|))) == bits + Zeros(PadLength(|bits|));
    }
  }

  lemma {:induction false} BytesReadBack(s: string)
    requires IsBytes(s)
    ensures |ByteBits(s)| == 8 * |s| && Bytes(ByteBits(s)) == s
  {
    if s != "" {
      BytesReadBack(s[1..]);
      assert Power2(8) == 256;
      NumberOfBits(s[0] as int, 8);
      var head := Bits(s[0] as int, 8);
      assert ByteBits(s)[..8] == head && ByteBits(s)[8..] == ByteBits(s[1..]);
    }
  }

  lemma PaddingDropped(bits: seq<bool>, pad: nat)
    requires |bits| % 8 == 0 && pad < 5
    ensures var all := bits + Zeros(pad);
            |all| % 8 == pad && all[..|all| - pad] == bits && true !in all[|all| - pad..]
  {
    var all := bits + Zeros(pad);
    assert all[|bits|..] == Zeros(pad) && all[..|bits|] == bits;
  }

  lemma DecodeEncoded(s: string)
    requires IsBytes(s)
    ensures Decode(Encode(s)) == Some(s)
  {
    hide Bytes, ByteBits, Symbols, SymbolBits, Zeros, IsBytes;
    var bits := ByteBits(s);
    BytesReadBack(s);
    SymbolsReadBack(bits);
    PaddingDropped(bits, PadLength(|bits|));
  }

  /** What the components look like, the length of the code, and its first published value that is not empty (RFC 4648,
      section 10). */
  lemma KnownComponents(name: string)
    ensures EncodePathComponent(name) == "b32-" + Encode(name)
    ensures |Encode(name)| == (8 * |name| + 4) / 5
    ensures EncodePathComponent("f") == "b32-MY"
  {
    ByteBitsLength(name);
    SymbolsLength(ByteBits(name));
    KnownEncoding();
  }

  lemma KnownEncoding()
    ensures Encode("f") == "MY"
  {
    var bits := [false, true, true, false, false, true, true, false];
    assert Bits(0x66, 8) == bits;
    hide Bits;
    assert "f"[1..] == "" && ByteBits("") == [];
    assert ByteBits("f") == Bits(0x66, 8) + ByteBits("") == bits;
    hide ByteBits;
    assert bits[..5] == [false, true, true, false, false] && bits[5..] == [true, true, false];
    assert bits[5..] + Zeros(2) == [true, true, false, false, false];
    FiveBits(bits[..5]);
    FiveBits(bits[5..] + Zeros(2));
    hide Number5;
    assert Symbols([]) == "";
    assert Symbols(bits[5..]) == [Symbol(24)] == "Y";
    assert Symbols(bits) == [Symbol(12)] + Symbols(bits[5..]);
  }

  lemma FiveBits(b: seq<bool>)
    requires |b| == 5
    ensures Number5(b) == (if b[0] then 16 else 0) + (if b[1] then 8 else 0) + (if b[2] then 4 else 0) +
                          (if b[3] then 2 else 0) + (if b[4] then 1 else 0)
  {
    assert b[..4][..3] == b[..3] && b[..3][..2] == b[..2] && b[..2][..1] == b[..1] && b[..1][..0] == [];
    assert Number(b[..1]) == if b[0] then 1 else 0;
    assert Number(b[..2]) == 2 * Number(b[..1]) + if b[1] then 1 else 0;
    assert Number(b[..3]) == 2 * Number(b[..2]) + if b[2] then 1 else 0;
    assert Number(b[..4]) == 2 * Number(b[..3]) + if b[3] then 1 else 0;
  }

  lemma {:induction false} ByteBitsLength(s: string)
    ensures |ByteBits(s)| == 8 * |s|
  {
    if s != "" {
      ByteBitsLength(s[1..]);
      BitsLength(s[0] as int, 8);
    }
  }

  lemma {:induction false} SymbolsLength(bits: seq<bool>)
    ensures |Symbols(bits)| == (|bits| + 4) / 5
  {
    if |bits| >= 5 {
      SymbolsLength(bits[5..]);
    }
  }

  /** Every partition name survives the path, so distinct names get distinct components. */
  lemma DecodeEncodedComponent(name: string, utf8: string -> bool)
    requires IsBytes(name) && utf8(name)
    ensures DecodePathComponent(EncodePathComponent(name), utf8) == Ok(name)
  {
    assert EncodePathComponent(name)[|ENCODED_PATH_PREFIX|..] == Encode(name);
    DecodeEncoded(name);
  }

  lemma DistinctNamesDistinctComponents(a: string, b: string)
    requires IsBytes(a) && IsBytes(b) && EncodePathComponent(a) == EncodePathComponent(b)
    ensures a == b
  {
    DecodeEncodedComponent(a, _ => true);
    DecodeEncodedComponent(b, _ => true);
  }

  // ---------------------------------------------------------------- files in the root directory

  function FileName(name: string): string {
    EncodePathComponent(name) + "." + EXTENSION
  }

  /** The position of the last dot. */
  function LastDot(file: string): (r: Option<nat>)
    ensures r.Some? ==> r.value < |file| && file[r.value] == '.' && '.' !in file[r.value + 1..]
    ensures r.None? ==> '.' !in file
  {
    if file == "" then None
    else if file[|file| - 1] == '.' then Some(|file| - 1)
    else
      var r := LastDot(file[..|file| - 1]);
      assert r.Some? ==> file[r.value + 1..] == file[..|file| - 1][r.value + 1..] + [file[|file| - 1]];
      r
  }

  /** The stem of a file whose extension is `db`, as `Path::extension` and `Path::file_stem` split it: at the last
      dot, and not at all if that dot is the first character. */
  function DatabaseStem(file: string): Option<string> {
    match LastDot(file)
    case None => None
    case Some(dot) => if dot > 0 && file[dot + 1..] == EXTENSION then Some(file[..dot]) else None
  }

  datatype DiscoveryError<E> = BadPath(path: PathError) | BadName(error: E)

  /** What one directory entry contributes: nothing, a partition, or an error. */
  function Discovered<P, E>(file: string, utf8: string -> bool, fromName: string -> Result<P, E>)
    : Result<Option<P>, DiscoveryError<E>>
  {
    match DatabaseStem(file)
    case None => Ok(None)
    case Some(stem) =>
      match DecodePathComponent(stem, utf8)
      case Err(error) => Err(BadPath(error))
      case Ok(name) =>
        match fromName(name)
        case Err(error) => Err(BadName(error))
        case Ok(partition) => Ok(Some(partition))
  }

  /** What the entries yield together: their partitions in directory order, or the first error. */
  function AllDiscovered<P, E>(files: seq<string>, utf8: string -> bool, fromName: string -> Result<P, E>)
    : Result<seq<P>, DiscoveryError<E>>
  {
    if files == [] then Ok([])
    else
      match AllDiscovered(files[..|files| - 1], utf8, fromName)
      case Err(error) => Err(error)
      case Ok(partitions) =>
        match Discovered(files[|files| - 1], utf8, fromName)
        case Err(error) => Err(error)
        case Ok(None) => Ok(partitions)
        case Ok(Some(partition)) => Ok(partitions + [partition])
  }

  /** `discover_partitions` */
  method DiscoverPartitions<P, E>(files: seq<string>, utf8: string -> bool, fromName: string -> Result<P, E>)
    returns (r: Result<seq<P>, DiscoveryError<E>>)
    ensures r == AllDiscovered(files, utf8, fromName)
  {
    var partitions := [];
    for n := 0 to |files|
      invariant AllDiscovered(files[..n], utf8, fromName) == Ok(partitions)
    {
      assert files[..n + 1][..n] == files[..n];
      match Discovered(files[n], utf8, fromName) {
        case Err(error) =>
          FirstErrorStays(files, utf8, fromName, n + 1);
          return Err(error);
        case Ok(None) =>
        case Ok(Some(partition)) => partitions := partitions + [partition];
      }
    }
    assert files[..|files|] == files;
    return Ok(partitions);
  }

  lemma {:induction false} FirstErrorStays<P, E>(files: seq<string>, utf8: string -> bool,
                                                 fromName: string -> Result<P, E>, n: nat)
    requires n <= |files| && AllDiscovered(files[..n], utf8, fromName).Err?
    ensures AllDiscovered(files, utf8, fromName) == AllDiscovered(files[..n], utf8, fromName)
    decreases |files|
  {
    if n < |files| {
      assert files[..|files| - 1][..n] == files[..n];
      FirstErrorStays(files[..|files| - 1], utf8, fromName, n);
    } else {
      assert files[..n] == files;
    }
  }

  /** Discovery succeeds exactly if every database file decodes to a name of the strategy, and then finds exactly
      those partitions. */
  lemma {:induction false} DiscoveredMembers<P, E>(files: seq<string>, utf8: string -> bool,
                                                   fromName: string -> Result<P, E>)
    ensures var r := AllDiscovered(files, utf8, fromName);
            (r.Ok? <==> forall i :: 0 <= i < |files| ==> Discovered(files[i], utf8, fromName).Ok?) &&
            (r.Ok? ==>
              forall p :: p in r.value <==>
                exists i :: 0 <= i < |files| && Discovered(files[i], utf8, fromName) == Ok(Some(p)))
    decreases |files|
  {
    hide Discovered;
    if files != [] {
      var front := files[..|files| - 1];
      assert files == front + [files[|files| - 1]];
      DiscoveredMembers(front, utf8, fromName);
    }
  }

  lemma {:induction false} LastDotIs(file: string, i: nat)
    requires i < |file| && file[i] == '.' && forall j :: i < j < |file| ==> file[j] != '.'
    ensures LastDot(file) == Some(i)
  {
    if i < |file| - 1 {
      LastDotIs(file[..|file| - 1], i);
    }
  }

  /** Which files are taken for databases: those that end in `.db`, with something before it. */
  lemma DatabaseStemIff(file: string)
    ensures DatabaseStem(file).Some? <==> |file| > 3 && file[|file| - 3..] == ".db"
    ensures DatabaseStem(file).Some? ==> DatabaseStem(file).value == file[..|file| - 3]
  {
    var dot := LastDot(file);
    if |file| > 3 && file[|file| - 3..] == ".db" {
      var end := file[|file| - 3..];
      assert file[|file| - 3] == end[0] && file[|file| - 2] == end[1] && file[|file| - 1] == end[2];
      LastDotIs(file, |file| - 3);
      assert file[|file| - 2..] == end[1..];
    }
    if DatabaseStem(file).Some? {
      assert |file| == dot.value + 3;
      assert file[|file| - 3..] == [file[dot.value]] + file[dot.value + 1..];
    }
  }

  lemma FileNameIsDatabase(name: string)
    ensures DatabaseStem(FileName(name)) == Some(EncodePathComponent(name))
  {
    var file, stem := FileName(name), EncodePathComponent(name);
    assert file[..|file| - 1] == stem + ".d" && (stem + ".d")[..|stem| + 1] == stem + ".";
    assert LastDot(file).value == LastDot(stem + ".").value == |stem|;
    assert file[|stem| + 1..] == EXTENSION && file[..|stem|] == stem;
  }

  /** The partitions discovered in the root are exactly those whose files were created, whatever else lies there that
      is not a `.db` file (write-ahead logs, say), given that the strategy restores each partition from its name. */
  lemma DiscoveryIsExact<P, E>(created: set<string>, files: seq<string>, utf8: string -> bool,
                               fromName: string -> Result<P, E>, partitionOf: string -> P)
    requires forall name :: name in created ==> IsBytes(name) && utf8(name) && fromName(name) == Ok(partitionOf(name))
    requires forall file :: file in files && DatabaseStem(file).Some? ==>
               exists name :: name in created && file == FileName(name)
    requires forall name :: name in created ==> FileName(name) in files
    ensures var r := AllDiscovered(files, utf8, fromName);
            r.Ok? && forall p :: p in r.value <==> exists name :: name in created && p == partitionOf(name)
  {
    DiscoveredMembers(files, utf8, fromName);
    forall name | name in created
      ensures Discovered(FileName(name), utf8, fromName) == Ok(Some(partitionOf(name))) {
      FileNameIsDatabase(name);
      DecodeEncodedComponent(name, utf8);
    }
    forall i | 0 <= i < |files| ensures Discovered(files[i], utf8, fromName).Ok? {
      if DatabaseStem(files[i]).Some? {
        assert files[i] in files;
      }
    }
    forall p | exists name :: name in created && p == partitionOf(name)
      ensures exists i :: 0 <= i < |files| && Discovered(files[i], utf8, fromName) == Ok(Some(p)) {
      var name :| name in created && p == partitionOf(name);
      var i :| 0 <= i < |files| && files[i] == FileName(name);
    }
    forall p | exists i :: 0 <= i < |files| && Discovered(files[i], utf8, fromName) == Ok(Some(p))
      ensures exists name :: name in created && p == partitionOf(name) {
      var i :| 0 <= i < |files| && Discovered(files[i], utf8, fromName) == Ok(Some(p));
      assert files[i] in files;
    }
  }
}
