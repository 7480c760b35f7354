/**
 The quoting helpers around `gsettings` and the desktop's shell: GVariant string literals, string arrays, and
 a word for a POSIX shell.
 */
module Quoting {
  import opened Options
  import opened Text

  /** `str::replace`: every occurrence from left to right, without looking at what was inserted. */
  function Replace(s: string, pattern: string, with: string): string
    requires pattern != ""
  {
    if s == "" then ""
    else if pattern <= s then with + Replace(s[|pattern|..], pattern, with)
    else [s[0]] + Replace(s[1..], pattern, with)
  }

  function StripPrefix(s: string, prefix: string): Option<string> {
    if prefix <= s then Some(s[|prefix|..]) else None
  }

  function StripSuffix(s: string, suffix: char): Option<string> {
    if s != "" && s[|s| - 1] == suffix then Some(s[..|s| - 1]) else None
  }

  function Between(s: string, quote: char): Option<string> {
    match StripPrefix(s, [quote])
    case Some(rest) => StripSuffix(rest, quote)
    case None => None
  }

  // ----- GVariant strings -----------------------------------------------------------------------------

  function GvariantString(value: string): string {
    "'" + Replace(Replace(value, "\\", "\\\\"), "'", "\\'") + "'"
  }

  function Unescape(s: string): string {
    Replace(Replace(s, "\\'", "'"), "\\\\", "\\")
  }

  function Unquote(value: string): string {
    var trimmed := Trim(value);
    var single := Between(trimmed, '\'');
    var double := Between(trimmed, '"');
    Unescape(if single.Some? then single.value else double.GetOr(trimmed))
  }

  /** Both replacements at once, character by character. */
  function Escaped(value: string): string {
    if value == "" then ""
    else (if value[0] == '\\' then "\\\\" else if value[0] == '\'' then "\\'" else [value[0]]) + Escaped(value[1..])
  }

  /** The quotes unescaped, the backslashes still doubled. */
  function Doubled(value: string): string {
    if value == "" then "" else (if value[0] == '\\' then "\\\\" else [value[0]]) + Doubled(value[1..])
  }

  lemma ReplaceHit(tail: string, pattern: string, with: string)
    requires pattern != ""
    ensures Replace(pattern + tail, pattern, with) == with + Replace(tail, pattern, with)
  {
    assert (pattern + tail)[|pattern|..] == tail;
  }

  lemma ReplaceMiss(c: char, tail: string, pattern: string, with: string)
    requires pattern != "" && (pattern[0] != c || (|pattern| > 1 && (tail == "" || tail[0] != pattern[1])))
    ensures Replace([c] + tail, pattern, with) == [c] + Replace(tail, pattern, with)
  {
    assert ([c] + tail)[1..] == tail;
  }

  /** One character of a text escaped once or twice, before whatever follows. */
  lemma DoublingStep(c: char, tail: string)
    ensures Doubled([c] + tail) == (if c == '\\' then "\\\\" else [c]) + Doubled(tail)
    ensures Escaped([c] + tail) == (if c == '\\' then "\\\\" else if c == '\'' then "\\'" else [c]) + Escaped(tail)
  {
    assert ([c] + tail)[1..] == tail;
  }

  lemma {:induction false} FirstReplacementDoubles(value: string)
    ensures Replace(value, "\\", "\\\\") == Doubled(value)
  {
    if value != "" {
      var c, tail := value[0], value[1..];
      FirstReplacementDoubles(tail);
      assert value == [c] + tail;
      DoublingStep(c, tail);
      if c == '\\' {
        ReplaceHit(tail, "\\", "\\\\");
      } else {
        ReplaceMiss(c, tail, "\\", "\\\\");
      }
    }
  }

  lemma EscapeBackslashes(tail: string)
    ensures Replace("\\\\" + tail, "'", "\\'") == "\\\\" + Replace(tail, "'", "\\'")
  {
    assert "\\\\" + tail == "\\" + ("\\" + tail);
    ReplaceMiss('\\', "\\" + tail, "'", "\\'");
    ReplaceMiss('\\', tail, "'", "\\'");
  }

  lemma {:induction false} SecondReplacementEscapes(value: string)
    ensures Replace(Doubled(value), "'", "\\'") == Escaped(value)
  {
    if value != "" {
      var c, tail := value[0], value[1..];
      SecondReplacementEscapes(tail);
      assert value == [c] + tail;
      DoublingStep(c, tail);
      if c == '\\' {
        EscapeBackslashes(Doubled(tail));
      } else if c == '\'' {
        ReplaceHit(Doubled(tail), "'", "\\'");
      } else {
        ReplaceMiss(c, Doubled(tail), "'", "\\'");
      }
    }
  }

  lemma TwoMisses(c: char, tail: string, pattern: string, with: string)
    requires |pattern| > 1 && pattern[1] != c && (tail != "" ==> tail[0] != pattern[1])
    ensures Replace([c, c] + tail, pattern, with) == [c, c] + Replace(tail, pattern, with)
  {
    var second := [c] + tail;
    ReplaceMiss(c, tail, pattern, with);
    ReplaceMiss(c, second, pattern, with);
    assert [c, c] + tail == [c] + second;
    assert [c, c] + Replace(tail, pattern, with) == [c] + Replace(second, pattern, with);
  }

  lemma UnescapeBackslashes(tail: string)
    requires tail != "" ==> tail[0] != '\''
    ensures Replace("\\\\" + tail, "\\'", "'") == "\\\\" + Replace(tail, "\\'", "'")
  {
    TwoMisses('\\', tail, "\\'", "'");
  }

  /** An escaped quote is always the quote's own escape: backslashes before it come in pairs. */
  lemma {:induction false} QuotesAreUnescaped(value: string)
    ensures Replace(Escaped(value), "\\'", "'") == Doubled(value)
  {
    if value != "" {
      var c, tail := value[0], value[1..];
      QuotesAreUnescaped(tail);
      EscapedNeverStartsWithQuote(tail);
      assert value == [c] + tail;
      DoublingStep(c, tail);
      if c == '\\' {
        UnescapeBackslashes(Escaped(tail));
      } else if c == '\'' {
        ReplaceHit(Escaped(tail), "\\'", "'");
      } else {
        ReplaceMiss(c, Escaped(tail), "\\'", "'");
      }
    }
  }

  lemma EscapedNeverStartsWithQuote(value: string)
    ensures Escaped(value) != "" ==> Escaped(value)[0] != '\''
  {
  }

  lemma {:induction false} BackslashesAreUndoubled(value: string)
    ensures Replace(Doubled(value), "\\\\", "\\") == value
  {
    if value != "" {
      var c, tail := value[0], value[1..];
      BackslashesAreUndoubled(tail);
      assert value == [c] + tail;
      DoublingStep(c, tail);
      if c == '\\' {
        ReplaceHit(Doubled(tail), "\\\\", "\\");
      } else {
        ReplaceMiss(c, Doubled(tail), "\\\\", "\\");
      }
    }
  }

  lemma GvariantIsEscaped(value: string)
    ensures GvariantString(value) == "'" + Escaped(value) + "'"
  {
    FirstReplacementDoubles(value);
    SecondReplacementEscapes(value);
  }

  lemma EscapedUnescapes(value: string)
    ensures Unescape(Escaped(value)) == value
  {
    QuotesAreUnescaped(value);
    BackslashesAreUndoubled(value);
  }

  /** `unquote` inverts `gvariant_string` on every string, wherever its quotes and backslashes stand. */
  lemma UnquoteInvertsGvariant(value: string)
    ensures Unquote(GvariantString(value)) == value
  {
    GvariantIsEscaped(value);
    EscapedUnescapes(value);
    var quoted := "'" + Escaped(value) + "'";
    QuotedIsRead(quoted, Escaped(value), quoted);
  }

  /** A quoted literal with white space around it reads as what stands between the quotes. */
  lemma QuotedIsRead(padded: string, inside: string, quoted: string)
    requires quoted == "'" + inside + "'" && Trim(padded) == Trim(quoted)
    ensures Unquote(padded) == Unescape(inside)
  {
    assert Trim(quoted) == quoted;
    assert quoted[1..] == inside + "'";
    assert (inside + "'")[..|inside|] == inside;
  }

  // ----- string arrays --------------------------------------------------------------------------------

  predicate CommaFree(s: string) {
    ',' !in s
  }

  /** `split(',')` */
  function Split(s: string): (pieces: seq<string>)
    ensures pieces != []
  {
    if s == "" then
      [""]
    else
      var rest := Split(s[1..]);
      if s[0] == ',' then [""] + rest else [[s[0]] + rest[0]] + rest[1..]
  }

  function Filter<T>(items: seq<T>, keep: T -> bool): seq<T> {
    if items == [] then [] else (if keep(items[0]) then [items[0]] else []) + Filter(items[1..], keep)
  }

  predicate IsNonEmpty(text: string) {
    text != ""
  }

  function Unquoted(pieces: seq<string>): seq<string> {
    seq(|pieces|, i requires 0 <= i < |pieces| => Unquote(pieces[i]))
  }

  /** The pieces unquoted, without the empty ones. */
  function Kept(pieces: seq<string>): seq<string> {
    Filter(Unquoted(pieces), IsNonEmpty)
  }

  function ParseStringArray(text: string): seq<string> {
    var raw := Trim(text);
    var untyped := match StripPrefix(raw, "@as") case Some(rest) => Trim(rest) case None => raw;
    var inner := match StripPrefix(untyped, "[") case Some(rest) => StripSuffix(rest, ']') case None => None;
    Kept(Split(inner.GetOr(untyped)))
  }

  function Joined(items: seq<string>): string {
    if items == [] then ""
    else if |items| == 1 then GvariantString(items[0])
    else GvariantString(items[0]) + ", " + Joined(items[1..])
  }

  function FormatStringArray(items: seq<string>): string {
    "[" + Joined(items) + "]"
  }

  lemma {:induction false} OnePiece(s: string)
    requires CommaFree(s)
    ensures Split(s) == [s]
  {
    if s != "" {
      OnePiece(s[1..]);
      assert [s[0]] + s[1..] == s;
    }
  }

  lemma {:induction false} EscapedCommas(value: string)
    ensures CommaFree(Escaped(value)) <==> CommaFree(value)
  {
    if value != "" {
      EscapedCommas(value[1..]);
      assert value == [value[0]] + value[1..];
    }
  }

  /** What is read from one item, alone or after the separator's space. */
  function ItemPieces(space: string, item: string): seq<string> {
    Kept(Split(space + GvariantString(item)))
  }

  lemma FilterHead<T>(item: T, rest: seq<T>, keep: T -> bool)
    ensures Filter([item] + rest, keep) == (if keep(item) then [item] else []) + Filter(rest, keep)
  {
    assert ([item] + rest)[1..] == rest;
  }

  lemma {:induction false} FilterAppend<T>(a: seq<T>, b: seq<T>, keep: T -> bool)
    ensures Filter(a + b, keep) == Filter(a, keep) + Filter(b, keep)
  {
    if a == [] {
      assert a + b == b;
    } else {
      var first, rest := a[0], a[1..];
      FilterAppend(rest, b, keep);
      assert a == [first] + rest && a + b == [first] + (rest + b);
      FilterHead(first, rest, keep);
      FilterHead(first, rest + b, keep);
    }
  }

  lemma UnquotedAppend(a: seq<string>, b: seq<string>)
    ensures Unquoted(a + b) == Unquoted(a) + Unquoted(b)
  {
  }

  lemma KeptAppend(a: seq<string>, b: seq<string>)
    ensures Kept(a + b) == Kept(a) + Kept(b)
  {
    UnquotedAppend(a, b);
    FilterAppend(Unquoted(a), Unquoted(b), IsNonEmpty);
  }

  lemma FilterOne<T>(item: T, keep: T -> bool)
    ensures Filter([item], keep) == if keep(item) then [item] else []
  {
    assert [item][1..] == [];
  }

  lemma KeptOne(piece: string)
    ensures Kept([piece]) == if Unquote(piece) == "" then [] else [Unquote(piece)]
  {
    assert Unquoted([piece]) == [Unquote(piece)];
    FilterOne(Unquote(piece), IsNonEmpty);
  }

  lemma SplitHead(c: char, rest: string)
    ensures Split([c] + rest) == if c == ',' then [""] + Split(rest) else [[c] + Split(rest)[0]] + Split(rest)[1..]
  {
    assert ([c] + rest)[1..] == rest;
  }

  lemma Associates<T>(a: seq<T>, b: seq<T>, c: seq<T>)
    ensures a + (b + c) == a + b + c
  {
  }

  lemma PrependToFirst(first: seq<string>, second: seq<string>, c: char)
    requires first != []
    ensures [[c] + (first + second)[0]] + (first + second)[1..] == ([[c] + first[0]] + first[1..]) + second
  {
  }

  lemma SplitStep(c: char, rest: string, right: string)
    requires Split(rest + "," + right) == Split(rest) + Split(right)
    ensures Split([c] + (rest + "," + right)) == Split([c] + rest) + Split(right)
  {
    SplitHead(c, rest + "," + right);
    SplitHead(c, rest);
    if c == ',' {
      Associates([""], Split(rest), Split(right));
    } else {
      PrependToFirst(Split(rest), Split(right), c);
    }
  }

  lemma {:induction false} SplitAppend(left: string, right: string)
    ensures Split(left + "," + right) == Split(left) + Split(right)
  {
    if left == "" {
      SplitHead(',', right);
    } else {
      var c, rest := left[0], left[1..];
      SplitAppend(rest, right);
      SplitStep(c, rest, right);
      assert left + "," + right == [c] + (rest + "," + right);
      assert left == [c] + rest;
    }
  }

  /** Reading around a comma. */
  lemma KeptAroundComma(left: string, right: string)
    ensures Kept(Split(left + "," + right)) == Kept(Split(left)) + Kept(Split(right))
  {
    SplitAppend(left, right);
    KeptAppend(Split(left), Split(right));
  }

  /** Each item is read by itself. */
  lemma JoinedPieces(space: string, items: seq<string>)
    requires |items| >= 2
    ensures Kept(Split(space + Joined(items))) == ItemPieces(space, items[0]) + Kept(Split(" " + Joined(items[1..])))
  {
    var left, right := space + GvariantString(items[0]), " " + Joined(items[1..]);
    assert space + Joined(items) == left + "," + right;
    KeptAroundComma(left, right);
  }

  predicate IsSeparatorSpace(space: string) {
    space == "" || space == " "
  }

  lemma CommaFreeItem(space: string, item: string)
    requires CommaFree(item) && IsSeparatorSpace(space)
    ensures ItemPieces(space, item) == if item == "" then [] else [item]
  {
    GvariantIsEscaped(item);
    EscapedCommas(item);
    EscapedUnescapes(item);
    OnePiece(space + GvariantString(item));
    SpaceIsTrimmed(space, GvariantString(item));
    QuotedIsRead(space + GvariantString(item), Escaped(item), GvariantString(item));
    KeptOne(space + GvariantString(item));
  }

  lemma SpaceIsTrimmed(space: string, s: string)
    requires IsSeparatorSpace(space)
    ensures Trim(space + s) == Trim(s)
  {
    if space == "" {
      assert space + s == s;
    } else {
      assert (space + s)[1..] == s;
    }
  }

  // ----- items with a comma ---------------------------------------------------------------------------

  lemma {:induction false} ReplaceKeepsSome(s: string, pattern: string, with: string)
    requires pattern != "" && with != "" && s != ""
    ensures Replace(s, pattern, with) != ""
  {
  }

  lemma TwoQuotes(s: string, quote: char)
    requires Between(s, quote) == Some("")
    ensures s == [quote, quote]
  {
    assert s[1..] == [quote];
    assert s == [s[0]] + s[1..];
  }

  lemma UnquotedIsEmpty(value: string)
    ensures Unquote(value) == "" ==> Trim(value) in ["", "''", "\"\""]
  {
    var trimmed := Trim(value);
    if trimmed !in ["", "''", "\"\""] {
      var single := Between(trimmed, '\'');
      var double := Between(trimmed, '"');
      var inside := if single.Some? then single.value else double.GetOr(trimmed);
      if single == Some("") {
        TwoQuotes(trimmed, '\'');
      } else if double == Some("") {
        TwoQuotes(trimmed, '"');
      }
      ReplaceKeepsSome(inside, "\\'", "'");
      ReplaceKeepsSome(Replace(inside, "\\'", "'"), "\\\\", "\\");
    }
  }

  /** In an escaped text a backslash comes before every quote. */
  lemma {:induction false} QuoteFollowsBackslash(value: string, j: nat)
    requires j < |Escaped(value)| && Escaped(value)[j] == '\''
    ensures j > 0 && Escaped(value)[j - 1] == '\\'
  {
    var head := if value[0] == '\\' then "\\\\" else if value[0] == '\'' then "\\'" else [value[0]];
    assert Escaped(value) == head + Escaped(value[1..]);
    if j >= |head| {
      QuoteFollowsBackslash(value[1..], j - |head|);
    }
  }

  /** A text that ends with a quote, but not with an empty literal. */
  predicate EndsInLiteral(s: string) {
    && s != "" && s[|s| - 1] == '\''
    && (|s| >= 2 && s[|s| - 2] == '\'' ==> |s| >= 3 && s[|s| - 3] == '\\')
  }

  lemma {:induction false} TrimStartDropsSpace(s: string) returns (k: nat)
    ensures k <= |s| && TrimStart(s) == s[k..] && forall i | 0 <= i < k :: IsWhitespace(s[i])
  {
    if s != "" && IsWhitespace(s[0]) {
      var k' := TrimStartDropsSpace(s[1..]);
      k := k' + 1;
      assert s[1..][k'..] == s[k..];
      forall i | 0 <= i < k
        ensures IsWhitespace(s[i])
      {
        assert i > 0 ==> s[1..][i - 1] == s[i];
      }
    } else {
      k := 0;
    }
  }

  lemma LiteralEndIsKept(s: string)
    requires EndsInLiteral(s)
    ensures Unquote(s) != ""
  {
    var k := TrimStartDropsSpace(s);
    var start := TrimStart(s);
    assert k < |s|;
    assert start[|start| - 1] == s[|s| - 1] == '\'';
    assert Trim(s) == start;
    assert start != "''" by {
      assert |start| == 2 ==> k == |s| - 2 && s[|s| - 2] == start[0];
    }
    UnquotedIsEmpty(s);
    assert "\"\""[1] == '"';
  }

  lemma {:induction false} FirstComma(s: string) returns (i: nat)
    requires !CommaFree(s)
    ensures i < |s| && s[i] == ',' && CommaFree(s[..i])
  {
    if s[0] == ',' {
      i := 0;
    } else {
      assert s == [s[0]] + s[1..];
      var later := FirstComma(s[1..]);
      i := later + 1;
      assert s[..i] == [s[0]] + s[1..][..later];
    }
  }

  lemma LiteralEndsAfterComma(s: string, i: nat)
    requires EndsInLiteral(s) && i < |s| && s[i] == ','
    ensures EndsInLiteral(s[i + 1..])
  {
  }

  lemma SplitsAt(s: string, i: nat)
    requires i < |s| && s[i] == ','
    ensures s == s[..i] + "," + s[i + 1..]
  {
  }

  lemma {:induction false} LastPieceIsKept(s: string)
    requires EndsInLiteral(s)
    ensures |Kept(Split(s))| >= 1
  {
    if CommaFree(s) {
      OnePiece(s);
      LiteralEndIsKept(s);
      KeptOne(s);
    } else {
      var i := FirstComma(s);
      var left, right := s[..i], s[i + 1..];
      LiteralEndsAfterComma(s, i);
      LastPieceIsKept(right);
      KeptAroundComma(left, right);
      SplitsAt(s, i);
    }
  }

  lemma {:induction false} TrimEndKeepsFirst(s: string)
    requires s != "" && !IsWhitespace(s[0])
    ensures TrimEnd(s) != "" && TrimEnd(s)[0] == s[0] && TrimEnd(s) <= s
  {
    if |s| > 1 {
      TrimEndKeepsFirst(s[..|s| - 1]);
    }
  }

  /** A literal that is cut off before its end is read as some text. */
  lemma LiteralStartIsKept(space: string, start: string)
    requires IsSeparatorSpace(space) && (start != "" ==> start[0] != '\'')
    ensures Unquote(space + "'" + start) != ""
  {
    var piece := space + "'" + start;
    var quoted := "'" + start;
    assert space == " " ==> piece[1..] == quoted;
    assert TrimStart(piece) == quoted;
    TrimEndKeepsFirst(quoted);
    assert Trim(piece) <= quoted && Trim(piece)[0] == '\'';
    UnquotedIsEmpty(piece);
    assert "\"\""[0] == '"';
  }

  lemma TailEndsInLiteral(value: string, i: nat)
    requires i < |Escaped(value)| && Escaped(value)[i] == ','
    ensures EndsInLiteral(Escaped(value)[i + 1..] + "'")
  {
    var e := Escaped(value);
    if i + 1 < |e| && e[|e| - 1] == '\'' {
      QuoteFollowsBackslash(value, |e| - 1);
    }
  }

  lemma CutAtComma(space: string, e: string, i: nat)
    requires i < |e| && e[i] == ','
    ensures space + ("'" + e + "'") == (space + "'" + e[..i]) + "," + (e[i + 1..] + "'")
  {
    assert e == e[..i] + "," + e[i + 1..];
  }

  /** An item with a comma is read as two items or more. */
  lemma CommaItem(space: string, item: string)
    requires !CommaFree(item) && IsSeparatorSpace(space)
    ensures |ItemPieces(space, item)| >= 2
  {
    var e := Escaped(item);
    GvariantIsEscaped(item);
    EscapedCommas(item);
    var i := FirstComma(e);
    var left, right := space + "'" + e[..i], e[i + 1..] + "'";
    CutAtComma(space, e, i);
    KeptAroundComma(left, right);
    OnePiece(left);
    EscapedNeverStartsWithQuote(item);
    LiteralStartIsKept(space, e[..i]);
    KeptOne(left);
    TailEndsInLiteral(item, i);
    LastPieceIsKept(right);
  }

  // ----- the round trip -------------------------------------------------------------------------------

  /** Items that survive: not empty, without a comma. */
  predicate Plain(items: seq<string>) {
    forall i | 0 <= i < |items| :: items[i] != "" && CommaFree(items[i])
  }

  lemma ItemRead(space: string, item: string)
    requires IsSeparatorSpace(space) && item != ""
    ensures |ItemPieces(space, item)| >= 1
    ensures CommaFree(item) ==> ItemPieces(space, item) == [item]
    ensures !CommaFree(item) ==> |ItemPieces(space, item)| >= 2
  {
    if CommaFree(item) {
      CommaFreeItem(space, item);
    } else {
      CommaItem(space, item);
    }
  }

  predicate AllNonEmpty(items: seq<string>) {
    forall i | 0 <= i < |items| :: items[i] != ""
  }

  lemma HeadAndTail<T>(items: seq<T>)
    requires items != []
    ensures [items[0]] + items[1..] == items
  {
  }

  lemma OneItem<T>(items: seq<T>)
    requires |items| == 1
    ensures [items[0]] == items
  {
  }

  lemma {:induction false} PlainItemsRead(space: string, items: seq<string>)
    requires IsSeparatorSpace(space) && items != [] && Plain(items)
    ensures Kept(Split(space + Joined(items))) == items
    decreases items
  {
    ItemRead(space, items[0]);
    if |items| == 1 {
      OneItem(items);
    } else {
      HeadAndTail(items);
      JoinedPieces(space, items);
      PlainItemsRead(" ", items[1..]);
    }
  }

  lemma {:induction false} NonEmptyItemsCount(space: string, items: seq<string>)
    requires IsSeparatorSpace(space) && items != [] && AllNonEmpty(items)
    ensures |Kept(Split(space + Joined(items)))| >= |items|
    ensures (exists i :: 0 <= i < |items| && !CommaFree(items[i])) ==> |Kept(Split(space + Joined(items)))| > |items|
    decreases items
  {
    ItemRead(space, items[0]);
    if |items| == 1 {
    } else {
      JoinedPieces(space, items);
      NonEmptyItemsCount(" ", items[1..]);
      assert forall i | 1 <= i < |items| :: items[i] == items[1..][i - 1];
    }
  }

  lemma {:induction false} FilteredAreKept<T>(items: seq<T>, keep: T -> bool)
    ensures forall i | 0 <= i < |Filter(items, keep)| :: keep(Filter(items, keep)[i])
  {
    if items != [] {
      FilteredAreKept(items[1..], keep);
    }
  }

  lemma BracketsAreRead(inside: string)
    ensures ParseStringArray("[" + inside + "]") == Kept(Split(inside))
  {
    var text := "[" + inside + "]";
    assert Trim(text) == text;
    assert text[0] == '[' && "@as"[0] == '@';
    assert StripPrefix(text, "@as") == None;
    assert text[1..] == inside + "]";
    assert (inside + "]")[..|inside|] == inside;
  }

  /** `parse_string_array` inverts `format_string_array` exactly on lists of non-empty items without commas. */
  lemma StringArraySurvivesExactly(items: seq<string>)
    ensures ParseStringArray(FormatStringArray(items)) == items <==> Plain(items)
  {
    BracketsAreRead(Joined(items));
    FilteredAreKept(Unquoted(Split(Joined(items))), IsNonEmpty);
    if items == [] {
      assert Split("") == [""];
      assert Trim("") == "" && Unquote("") == "";
      KeptOne("");
    } else if AllNonEmpty(items) {
      assert "" + Joined(items) == Joined(items);
      NonEmptyItemsCount("", items);
      if Plain(items) {
        PlainItemsRead("", items);
      }
    } else {
      var i :| 0 <= i < |items| && items[i] == "";
      assert !IsNonEmpty(items[i]);
    }
  }
}
