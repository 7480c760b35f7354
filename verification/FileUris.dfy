/**
 `text/uri-list` entries: percent-encoding a local path and turning an entry back into a path. Strings are
 their UTF-8 bytes, so that the lossy conversion at the end of decoding is the identity on text that was
 valid before (a path decodes to itself).
 */
module FileUris {
  import opened Options

  type Byte = n: nat | n < 256
  type Bytes = seq<Byte>

  const PERCENT: Byte := 0x25
  const SLASH: Byte := 0x2F
  const FILE_SCHEME: Bytes := [0x66, 0x69, 0x6C, 0x65, 0x3A, 0x2F, 0x2F] // file://
  const LOCALHOST: Bytes := [0x6C, 0x6F, 0x63, 0x61, 0x6C, 0x68, 0x6F, 0x73, 0x74]

  predicate IsAlphanumeric(b: Byte) {
    0x30 <= b <= 0x39 || 0x41 <= b <= 0x5A || 0x61 <= b <= 0x7A
  }

  /** Bytes a path keeps as they are: letters, digits and `/-._~`. */
  predicate IsUnreserved(b: Byte) {
    IsAlphanumeric(b) || b == SLASH || b == 0x2D || b == 0x2E || b == 0x5F || b == 0x7E
  }

  function UpperHex(digit: nat): Byte
    requires digit < 16
  {
    if digit < 10 then 0x30 + digit else 0x41 + digit - 10
  }

  function HexValue(b: Byte): Option<nat> {
    if 0x30 <= b <= 0x39 then Some(b - 0x30)
    else if 0x41 <= b <= 0x46 then Some(b - 0x41 + 10)
    else if 0x61 <= b <= 0x66 then Some(b - 0x61 + 10)
    else None
  }

  function EncodeByte(b: Byte): Bytes {
    if IsUnreserved(b) then [b] else [PERCENT, UpperHex(b / 16), UpperHex(b % 16)]
  }

  function Encode(path: Bytes): Bytes {
    if path == [] then [] else Encode(path[..|path| - 1]) + EncodeByte(path[|path| - 1])
  }

  /** The byte an escape at `i` stands for; a NUL cannot be part of a path. */
  function EscapeAt(text: Bytes, i: nat): (escaped: Option<Byte>)
    requires i < |text|
    ensures escaped.Some? ==> i + 3 <= |text|
  {
    if text[i] != PERCENT || i + 3 > |text| || HexValue(text[i + 1]).None? || HexValue(text[i + 2]).None? then
      None
    else
      var byte := 16 * HexValue(text[i + 1]).value + HexValue(text[i + 2]).value;
      if byte != 0 then Some(byte) else None
  }

  function DecodeFrom(text: Bytes, i: nat): Bytes
    requires i <= |text|
    decreases |text| - i
  {
    if i == |text| then []
    else match EscapeAt(text, i)
         case Some(byte) => [byte] + DecodeFrom(text, i + 3)
         case None => [text[i]] + DecodeFrom(text, i + 1)
  }

  method PercentDecode(text: Bytes) returns (decoded: Bytes)
    ensures decoded == DecodeFrom(text, 0)
  {
    decoded := [];
    var index := 0;
    while index < |text|
      invariant index <= |text|
      invariant decoded + DecodeFrom(text, index) == DecodeFrom(text, 0)
    {
      var escaped := EscapeAt(text, index);
      match escaped {
        case Some(byte) =>
          decoded := decoded + [byte];
          index := index + 3;
        case None =>
          decoded := decoded + [text[index]];
          index := index + 1;
      }
    }
  }

  method PercentEncodePath(path: Bytes) returns (encoded: Bytes)
    ensures encoded == Encode(path)
  {
    encoded := [];
    for i := 0 to |path|
      invariant encoded == Encode(path[..i])
    {
      assert path[..i + 1][..i] == path[..i];
      if IsUnreserved(path[i]) {
        encoded := encoded + [path[i]];
      } else {
        encoded := encoded + [PERCENT, UpperHex(path[i] / 16), UpperHex(path[i] % 16)];
      }
    }
    assert path[..|path|] == path;
  }

  /** Entries that are no `file` URI, or name another host, are returned as they are. */
  function ClipboardFilePath(entry: Bytes): Bytes {
    if FILE_SCHEME <= entry then LocalPath(entry[|FILE_SCHEME|..]).GetOr(entry) else entry
  }

  predicate IsAbsolute(path: Bytes) {
    path != [] && path[0] == SLASH
  }

  /** The path of this host behind `file://`, with or without `localhost`. */
  function LocalPath(rest: Bytes): Option<Bytes> {
    var path := if LOCALHOST <= rest && IsAbsolute(rest[|LOCALHOST|..]) then rest[|LOCALHOST|..] else rest;
    if IsAbsolute(path) then Some(DecodeFrom(path, 0)) else None
  }

  /** Text without an escape, such as `100%` or `%zz`, is left as it is. */
  lemma {:induction false} TextWithoutEscapesIsKept(text: Bytes, i: nat)
    requires i <= |text| && forall k | i <= k < |text| :: EscapeAt(text, k).None?
    ensures DecodeFrom(text, i) == text[i..]
    decreases |text| - i
  {
    if i < |text| {
      TextWithoutEscapesIsKept(text, i + 1);
    }
  }

  // ----- the round trip -------------------------------------------------------------------------------

  /** What decoding leaves of an encoded path: a NUL stays escaped, as it is written. */
  function WithNulsEscaped(path: Bytes): Bytes {
    if path == [] then []
    else (if path[0] == 0 then [PERCENT, 0x30, 0x30] else [path[0]]) + WithNulsEscaped(path[1..])
  }

  lemma {:induction false} EncodeFromTheFront(path: Bytes)
    requires path != []
    ensures Encode(path) == EncodeByte(path[0]) + Encode(path[1..])
  {
    if |path| > 1 {
      var init := path[..|path| - 1];
      EncodeFromTheFront(init);
      assert init[1..] == path[1..][..|path[1..]| - 1];
    } else {
      assert path[..0] == [] && path[1..] == [];
    }
  }

  predicate EndsWith(text: Bytes, i: nat, suffix: Bytes) {
    |text| == i + |suffix| && forall k | 0 <= k < |suffix| :: text[i + k] == suffix[k]
  }

  lemma AppendedEnds(text: Bytes, suffix: Bytes)
    ensures EndsWith(text + suffix, |text|, suffix)
  {
  }

  lemma SameEscape(text: Bytes, i: nat, suffix: Bytes, j: nat)
    requires EndsWith(text, i, suffix) && j < |suffix|
    ensures text[i + j] == suffix[j] && EscapeAt(text, i + j) == EscapeAt(suffix, j)
  {
    if j + 3 <= |suffix| {
      assert text[i + (j + 1)] == suffix[j + 1] && text[i + (j + 2)] == suffix[j + 2];
    }
  }

  /** Decoding depends only on what follows. */
  lemma {:induction false} DecodeShifted(text: Bytes, i: nat, suffix: Bytes, j: nat)
    requires EndsWith(text, i, suffix) && j <= |suffix|
    ensures DecodeFrom(text, i + j) == DecodeFrom(suffix, j)
    decreases |suffix| - j
  {
    if j < |suffix| {
      SameEscape(text, i, suffix, j);
      DecodeShifted(text, i, suffix, if EscapeAt(suffix, j).Some? then j + 3 else j + 1);
    }
  }

  lemma HexDigitReads(digit: nat)
    requires digit < 16
    ensures HexValue(UpperHex(digit)) == Some(digit)
  {
  }

  lemma EscapeReads(b: Byte, rest: Bytes)
    requires !IsUnreserved(b) && b != 0
    ensures DecodeFrom(EncodeByte(b) + rest, 0) == [b] + DecodeFrom(rest, 0)
  {
    var text := EncodeByte(b) + rest;
    HexDigitReads(b / 16);
    HexDigitReads(b % 16);
    assert EscapeAt(text, 0) == Some(b);
    DecodeShifted(text, 3, rest, 0);
  }

  lemma KeptByteStep(text: Bytes, i: nat)
    requires i < |text| && EscapeAt(text, i) == None
    ensures DecodeFrom(text, i) == [text[i]] + DecodeFrom(text, i + 1)
  {
  }

  lemma NoEscapeInNul(rest: Bytes)
    ensures var text := [PERCENT, 0x30, 0x30] + rest;
            EscapeAt(text, 0) == None && EscapeAt(text, 1) == None && EscapeAt(text, 2) == None
  {
  }

  lemma NulIsKept(rest: Bytes)
    ensures DecodeFrom(EncodeByte(0) + rest, 0) == [PERCENT, 0x30, 0x30] + DecodeFrom(rest, 0)
  {
    hide EscapeAt, DecodeFrom;
    var text := [PERCENT, 0x30, 0x30] + rest;
    assert EncodeByte(0) + rest == text;
    NoEscapeInNul(rest);
    KeptByteStep(text, 0);
    KeptByteStep(text, 1);
    KeptByteStep(text, 2);
    DecodeShifted(text, 3, rest, 0);
  }

  lemma PlainByteReads(b: Byte, rest: Bytes)
    requires IsUnreserved(b)
    ensures DecodeFrom(EncodeByte(b) + rest, 0) == [b] + DecodeFrom(rest, 0)
  {
    var text := EncodeByte(b) + rest;
    assert EscapeAt(text, 0) == None;
    DecodeShifted(text, 1, rest, 0);
  }

  lemma {:induction false} DecodeAfterEncode(path: Bytes)
    ensures DecodeFrom(Encode(path), 0) == WithNulsEscaped(path)
  {
    if path != [] {
      EncodeFromTheFront(path);
      DecodeAfterEncode(path[1..]);
      var rest := Encode(path[1..]);
      if IsUnreserved(path[0]) {
        PlainByteReads(path[0], rest);
      } else if path[0] == 0 {
        NulIsKept(rest);
      } else {
        EscapeReads(path[0], rest);
      }
    }
  }

  lemma {:induction false} OnlyNulsGrow(path: Bytes)
    ensures |WithNulsEscaped(path)| >= |path|
    ensures WithNulsEscaped(path) == path <==> 0 !in path
    ensures 0 in path ==> |WithNulsEscaped(path)| > |path|
  {
    if path != [] {
      OnlyNulsGrow(path[1..]);
      assert path == [path[0]] + path[1..];
    }
  }

  lemma {:induction false} EncodeGrows(path: Bytes)
    ensures |Encode(path)| >= |path|
  {
    if path != [] {
      EncodeGrows(path[..|path| - 1]);
    }
  }

  lemma FirstByteShows(path: Bytes)
    requires path != []
    ensures Encode(path) != []
    ensures Encode(path)[0] == SLASH <==> path[0] == SLASH
    ensures Encode(path)[0] == LOCALHOST[0] <==> path[0] == LOCALHOST[0]
  {
    EncodeFromTheFront(path);
  }

  lemma AbsolutePathIsLocal(path: Bytes)
    requires IsAbsolute(path)
    ensures LocalPath(Encode(path)) == Some(WithNulsEscaped(path))
  {
    FirstByteShows(path);
    DecodeAfterEncode(path);
  }

  lemma RelativePathIsNot(path: Bytes)
    requires !IsAbsolute(path)
    ensures LocalPath(Encode(path)) != Some(path)
  {
    var rest := Encode(path);
    if path != [] {
      FirstByteShows(path);
    }
    if LOCALHOST <= rest && IsAbsolute(rest[|LOCALHOST|..]) {
      DecodedStaysAbsolute(rest[|LOCALHOST|..]);
    }
  }

  lemma DecodedStaysAbsolute(path: Bytes)
    requires IsAbsolute(path)
    ensures IsAbsolute(DecodeFrom(path, 0))
  {
    assert EscapeAt(path, 0) == None;
  }

  /** The entry for a path gives the path back exactly when the path is absolute and holds no NUL. */
  lemma PathSurvivesExactly(path: Bytes)
    ensures ClipboardFilePath(FILE_SCHEME + Encode(path)) == path <==> IsAbsolute(path) && 0 !in path
  {
    var entry := FILE_SCHEME + Encode(path);
    assert entry[|FILE_SCHEME|..] == Encode(path);
    EncodeGrows(path);
    OnlyNulsGrow(path);
    if IsAbsolute(path) {
      AbsolutePathIsLocal(path);
    } else {
      RelativePathIsNot(path);
    }
  }

  // ----- every text, by its parts ---------------------------------------------------------------------

  /** A byte that stands for itself, or an escape with each digit in either case. */
  datatype Part = Raw(b: Byte) | Escape(byte: Byte, upper: bool, lastUpper: bool)

  function HexText(digit: nat, upper: bool): Byte
    requires digit < 16
  {
    if digit < 10 then 0x30 + digit else (if upper then 0x41 else 0x61) + (digit - 10)
  }

  predicate IsHexDigit(b: Byte) {
    0x30 <= b <= 0x39 || 0x41 <= b <= 0x46 || 0x61 <= b <= 0x66
  }

  function PartText(part: Part): Bytes {
    match part
    case Raw(b) => [b]
    case Escape(byte, upper, lastUpper) => [0x25, HexText(byte / 16, upper), HexText(byte % 16, lastUpper)]
  }

  function PartsText(parts: seq<Part>): Bytes {
    if parts == [] then [] else PartText(parts[0]) + PartsText(parts[1..])
  }

  /** A percent sign that two hex digits follow is an escape. */
  predicate AreParts(parts: seq<Part>) {
    parts != [] ==>
      && AreParts(parts[1..])
      && (parts[0] == Raw(0x25) ==>
            var rest := PartsText(parts[1..]);
            |rest| < 2 || !IsHexDigit(rest[0]) || !IsHexDigit(rest[1]))
  }

  /** An escape stands for its byte, except that an escaped NUL stays as it is. */
  function PartMeaning(part: Part): Bytes {
    if part.Escape? && part.byte != 0 then [part.byte] else PartText(part)
  }

  function PartsMeaning(parts: seq<Part>): Bytes {
    if parts == [] then [] else PartMeaning(parts[0]) + PartsMeaning(parts[1..])
  }

  lemma EitherCaseReads(digit: nat, upper: bool)
    requires digit < 16
    ensures HexValue(HexText(digit, upper)) == Some(digit)
  {
  }

  lemma HexDigitsAreRead(b: Byte)
    ensures HexValue(b).Some? <==> IsHexDigit(b)
  {
  }

  lemma EscapePartReads(part: Part, rest: Bytes)
    requires part.Escape? && part.byte != 0
    ensures DecodeFrom(PartText(part) + rest, 0) == [part.byte] + DecodeFrom(rest, 0)
  {
    var text := PartText(part) + rest;
    EitherCaseReads(part.byte / 16, part.upper);
    EitherCaseReads(part.byte % 16, part.lastUpper);
    assert EscapeAt(text, 0) == Some(part.byte);
    DecodeShifted(text, 3, rest, 0);
  }

  lemma NulPartIsKept(part: Part, rest: Bytes)
    requires part.Escape? && part.byte == 0
    ensures DecodeFrom(PartText(part) + rest, 0) == PartText(part) + DecodeFrom(rest, 0)
  {
    assert PartText(part) == EncodeByte(0) == [0x25, 0x30, 0x30];
    NulIsKept(rest);
  }

  lemma RawPartIsNoEscape(b: Byte, rest: Bytes)
    requires b == 0x25 ==> |rest| < 2 || !IsHexDigit(rest[0]) || !IsHexDigit(rest[1])
    ensures EscapeAt([b] + rest, 0) == None
  {
    var text := [b] + rest;
    if |rest| >= 2 {
      HexDigitsAreRead(rest[0]);
      HexDigitsAreRead(rest[1]);
      assert text[1] == rest[0] && text[2] == rest[1];
    }
  }

  lemma RawPartReads(b: Byte, rest: Bytes)
    requires b == 0x25 ==> |rest| < 2 || !IsHexDigit(rest[0]) || !IsHexDigit(rest[1])
    ensures DecodeFrom([b] + rest, 0) == [b] + DecodeFrom(rest, 0)
  {
    hide EscapeAt, IsHexDigit, DecodeFrom, EndsWith;
    var text := [b] + rest;
    assert text[0] == b;
    RawPartIsNoEscape(b, rest);
    KeptByteStep(text, 0);
    AppendedEnds([b], rest);
    DecodeShifted(text, 1, rest, 0);
  }

  /** Decoding replaces exactly the escapes, with their digits in either case, and only NULs stay escaped. */
  lemma {:induction false} PartsAreDecoded(parts: seq<Part>)
    requires AreParts(parts)
    ensures DecodeFrom(PartsText(parts), 0) == PartsMeaning(parts)
  {
    if parts != [] {
      var rest := PartsText(parts[1..]);
      PartsAreDecoded(parts[1..]);
      match parts[0] {
        case Raw(b) => RawPartReads(b, rest);
        case Escape(byte, _, _) =>
          if byte == 0 {
            NulPartIsKept(parts[0], rest);
          } else {
            EscapePartReads(parts[0], rest);
          }
      }
    }
  }

  /** Every text has such parts. */
  lemma {:induction false} TextHasParts(text: Bytes) returns (parts: seq<Part>)
    ensures AreParts(parts) && PartsText(parts) == text
    decreases |text|
  {
    if text == [] {
      parts := [];
    } else if text[0] == 0x25 && |text| >= 3 && IsHexDigit(text[1]) && IsHexDigit(text[2]) {
      var rest := TextHasParts(text[3..]);
      var first := HexPart(text[1], text[2]);
      parts := [first] + rest;
      assert text == [text[0], text[1], text[2]] + text[3..];
    } else {
      var rest := TextHasParts(text[1..]);
      parts := [Raw(text[0])] + rest;
      assert text == [text[0]] + text[1..];
    }
  }

  lemma HexPart(first: Byte, second: Byte) returns (part: Part)
    requires IsHexDigit(first) && IsHexDigit(second)
    ensures part.Escape? && PartText(part) == [0x25, first, second]
  {
    var a := if first < 0x40 then first - 0x30 else if first < 0x60 then first - 0x37 else first - 0x57;
    var b := if second < 0x40 then second - 0x30 else if second < 0x60 then second - 0x37 else second - 0x57;
    part := Escape(16 * a + b, first < 0x60, second < 0x60);
    assert (16 * a + b) / 16 == a && (16 * a + b) % 16 == b;
  }

  /** `file://` and `file://localhost`, which a path of this host may follow */
  function Prefixed(path: Bytes, named: bool): Bytes {
    [0x66, 0x69, 0x6C, 0x65, 0x3A, 0x2F, 0x2F]
    + ((if named then [0x6C, 0x6F, 0x63, 0x61, 0x6C, 0x68, 0x6F, 0x73, 0x74] else []) + path)
  }

  lemma PrefixIsStripped(prefix: Bytes, rest: Bytes)
    ensures prefix <= prefix + rest && (prefix + rest)[|prefix|..] == rest
  {
  }

  lemma LocalPathIsFound(path: Bytes, named: bool)
    requires path != [] && path[0] == 0x2F
    ensures ClipboardFilePath(Prefixed(path, named)) == DecodeFrom(path, 0)
  {
    hide DecodeFrom;
    if named {
      assert Prefixed(path, named) == FILE_SCHEME + (LOCALHOST + path);
      PrefixIsStripped(FILE_SCHEME, LOCALHOST + path);
      PrefixIsStripped(LOCALHOST, path);
    } else {
      assert Prefixed(path, named) == FILE_SCHEME + path;
      PrefixIsStripped(FILE_SCHEME, path);
    }
  }

  /** A URI of this host is decoded, with either spelling of the host. */
  lemma OwnUrisAreDecoded(parts: seq<Part>, named: bool)
    requires AreParts(parts) && PartsText(parts) != [] && PartsText(parts)[0] == 0x2F
    ensures ClipboardFilePath(Prefixed(PartsText(parts), named)) == PartsMeaning(parts)
  {
    hide DecodeFrom, ClipboardFilePath, Prefixed;
    PartsAreDecoded(parts);
    LocalPathIsFound(PartsText(parts), named);
  }

  /** Every entry that is changed is such a URI; plain paths and other hosts are kept as they are. */
  lemma OnlyOwnUrisAreDecoded(entry: Bytes) returns (path: Bytes, named: bool)
    requires ClipboardFilePath(entry) != entry
    ensures path != [] && path[0] == 0x2F && entry == Prefixed(path, named)
  {
    hide DecodeFrom;
    var rest := entry[|FILE_SCHEME|..];
    assert entry == FILE_SCHEME + rest;
    if LOCALHOST <= rest && IsAbsolute(rest[|LOCALHOST|..]) {
      named := true;
      path := rest[|LOCALHOST|..];
      assert rest == LOCALHOST + path;
    } else {
      named := false;
      path := rest;
      assert [] + path == path;
    }
  }

  // ----- what an encoded path is made of --------------------------------------------------------------

  /** The unreserved characters of RFC 3986, section 2.3, and the slash between segments. */
  predicate IsPathByte(b: Byte) {
    || 0x61 <= b <= 0x7A || 0x41 <= b <= 0x5A || 0x30 <= b <= 0x39
    || b == 0x2D || b == 0x2E || b == 0x5F || b == 0x7E || b == 0x2F
  }

  predicate IsUpperHexDigit(b: Byte) {
    0x30 <= b <= 0x39 || 0x41 <= b <= 0x46
  }

  /** An encoded path holds path bytes and escapes with capital digits, nothing else. */
  lemma {:induction false} EncodedIsUriText(path: Bytes, k: nat)
    requires k < |Encode(path)|
    ensures var text := Encode(path);
            || IsPathByte(text[k])
            || (text[k] == 0x25 && k + 2 < |text| && IsUpperHexDigit(text[k + 1]) && IsUpperHexDigit(text[k + 2]))
  {
    var init := path[..|path| - 1];
    if k < |Encode(init)| {
      EncodedIsUriText(init, k);
    }
  }

  /** And path bytes are kept as they are. */
  lemma {:induction false} PathBytesAreKept(path: Bytes)
    requires forall k | 0 <= k < |path| :: IsPathByte(path[k])
    ensures Encode(path) == path
  {
    if path != [] {
      PathBytesAreKept(path[..|path| - 1]);
    }
  }
}
