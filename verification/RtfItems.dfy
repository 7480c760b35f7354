/**
 Documents written from a list of items, each with a meaning of its own: plain characters, escaped braces and
 backslashes, bytes of the Windows code page 1252, named characters, formatting words, Unicode escapes and groups.
 Stripping such a document gives the meanings in their order.
 */
module RtfItems {
  import opened Options
  import opened RtfDecoder
  import opened Sequences
  import opened Text
  import W = RtfRoundTrip

  /** Control words that stand for a character. */
  const NAMED: seq<(string, string)> := [
    ("par", "\n"), ("line", "\n"), ("tab", "\t"), ("emdash", "\U{2014}"), ("endash", "\U{2013}"),
    ("lquote", "\U{2018}"), ("rquote", "\U{2019}"), ("ldblquote", "\U{201C}"), ("rdblquote", "\U{201D}"),
    ("bullet", "\U{2022}")]

  /**
   `Symbol` is a non-breaking space or hyphen; `Word` counts in `NAMED`; `Other` is a formatting word with its
   parameter; `Replaced` asks for `count` fallback characters and writes as many as a reader skips, at most eight;
   `Continuation` is a backslash before the end of a line; `Table` is one of the groups both readers skip.
   */
  datatype Item =
    | Plain(c: char)
    | Escaped(c: char)
    | Symbol(c: char)
    | Hex(byte: nat, upper: bool)
    | Word(k: nat)
    | Other(word: string, param: string)
    | Unicode(c: char)
    | Replaced(c: char, count: nat, stand: seq<Item>)
    | Continuation(crlf: bool)
    | Table(k: nat, body: string)
    | Group(items: seq<Item>)

  predicate IsItem(item: Item)
    decreases item, 0
  {
    match item
    case Plain(c) => c != '\\' && c != '{' && c != '}'
    case Escaped(c) => c == '\\' || c == '{' || c == '}'
    case Symbol(c) => c == '~' || c == '_'
    case Hex(byte, _) => byte < 256
    case Word(k) => k < |NAMED|
    case Other(word, param) => IsFormatting(word) && forall i | 0 <= i < |param| :: IsParamChar(param[i])
    case Unicode(_) => true
    case Replaced(c, count, stand) =>
      && c as int < 0x1_0000 && count < 0x1_0000_0000_0000_0000
      && |stand| == (if count <= 8 then count else 8)
      && forall i | 0 <= i < |stand| :: IsStandIn(stand[i]) && IsItem(stand[i])
    case Continuation(_) => true
    case Table(k, body) => k < 6 && '{' !in body && '}' !in body
    case Group(items) => AreItems(items) && !MayBeSkipped(ItemsText(items))
  }

  /** One fallback character for either reader, so not one that takes two UTF-16 units. */
  predicate IsStandIn(item: Item) {
    item.Hex? || (item.Plain? && item.c as int < 0x1_0000)
  }

  predicate AreItems(items: seq<Item>)
    decreases items, 0
  {
    forall i | 0 <= i < |items| :: IsItem(items[i])
  }

  predicate IsFormatting(word: string) {
    && IsWord(word)
    && word != "u" && word != "uc" && forall k | 0 <= k < |NAMED| :: NAMED[k].0 != word
  }

  /** What opens a group that a reader may skip. */
  const TABLES := [
    "\\fonttbl", "\\colortbl", "\\stylesheet", "\\info", "\\*\\", "\\expandedcolortbl", "\\pict"]

  predicate MayBeSkipped(text: string) {
    exists k | 0 <= k < |TABLES| :: StartsWith(text, TABLES[k])
  }

  function HexText(byte: nat, upper: bool): string
    requires byte < 256
  {
    var digits := if upper then "0123456789ABCDEF" else "0123456789abcdef";
    [digits[byte / 16], digits[byte % 16]]
  }

  function CountText(count: nat): string {
    "\\uc" + Decimal(count) + " "
  }

  function UnitText(unit: Unit): string {
    "\\u" + SignedDecimal(W.Signed(unit)) + " "
  }

  function ReplacedText(c: char, count: nat, stand: string, back: nat): string
    requires c as int < 0x1_0000
  {
    CountText(count) + (UnitText(c as int) + (stand + CountText(back)))
  }

  function ItemText(item: Item): string
    requires IsItem(item)
    decreases item, 1
  {
    match item
    case Plain(c) => [c]
    case Escaped(c) => ['\\', c]
    case Symbol(c) => ['\\', c]
    case Hex(byte, upper) => "\\'" + HexText(byte, upper)
    case Word(k) => "\\" + NAMED[k].0 + " "
    case Other(word, param) => "\\" + word + param + " "
    case Unicode(c) => W.EscapeUnits(W.UnitsOf(c))
    case Replaced(c, count, stand) => ReplacedText(c, count, ItemsText(stand), 1)
    case Continuation(crlf) => if crlf then "\\\r\n" else "\\\n"
    case Table(k, body) => "{" + (TABLES[k] + body) + "}"
    case Group(items) => "{" + ItemsText(items) + "}"
  }

  function ItemsText(items: seq<Item>): string
    requires AreItems(items)
    decreases items, 1
  {
    if items == [] then "" else ItemText(items[0]) + ItemsText(items[1..])
  }

  /** Windows code page 1252; five of its bytes are not assigned. */
  function CodePage1252(byte: nat): nat
    requires byte < 256
  {
    match byte
    case 0x80 => 0x20AC case 0x82 => 0x201A case 0x83 => 0x0192 case 0x84 => 0x201E
    case 0x85 => 0x2026 case 0x86 => 0x2020 case 0x87 => 0x2021 case 0x88 => 0x02C6
    case 0x89 => 0x2030 case 0x8A => 0x0160 case 0x8B => 0x2039 case 0x8C => 0x0152
    case 0x8E => 0x017D case 0x91 => 0x2018 case 0x92 => 0x2019 case 0x93 => 0x201C
    case 0x94 => 0x201D case 0x95 => 0x2022 case 0x96 => 0x2013 case 0x97 => 0x2014
    case 0x98 => 0x02DC case 0x99 => 0x2122 case 0x9A => 0x0161 case 0x9B => 0x203A
    case 0x9C => 0x0153 case 0x9E => 0x017E case 0x9F => 0x0178
    case 0x81 => 0xFFFD case 0x8D => 0xFFFD case 0x8F => 0xFFFD case 0x90 => 0xFFFD case 0x9D => 0xFFFD
    case _ => byte
  }

  function Meaning(item: Item): string
    requires IsItem(item)
  {
    match item
    case Plain(c) => [c]
    case Escaped(c) => [c]
    case Symbol(c) => [c]
    case Hex(byte, _) => [CodePage1252(byte) as char]
    case Word(k) => NAMED[k].1
    case Other(_, _) => ""
    case Unicode(c) => [c]
    case Replaced(c, _, _) => [c]
    case Continuation(crlf) => if crlf then "\n" else ""
    case Table(_, _) => ""
    case Group(items) => Meanings(items)
  }

  function Meanings(items: seq<Item>): string
    requires AreItems(items)
  {
    if items == [] then "" else Meaning(items[0]) + Meanings(items[1..])
  }

  function WriteItems(items: seq<Item>): string
    requires AreItems(items)
  {
    W.HEADER + ItemsText(items) + "}"
  }

  // ----- the tables ---------------------------------------------------------------------------------

  lemma SameCodePage(byte: nat)
    requires byte < 256
    ensures Cp1252Char(byte) as int == CodePage1252(byte)
  {
  }

  lemma SameWords()
    ensures PLAIN_WORDS == NAMED
  {
  }

  // ----- one item -----------------------------------------------------------------------------------

  /** A function of the loop's state that no round changes, such as where the loop will end. */
  ghost predicate NoRoundChanges(chars: string, f: State -> State) {
    forall s: State {:trigger Step(chars, s)} | s.i < |chars| :: f(s) == f(Step(chars, s))
  }

  /** Inside the document: in a group, nothing skipped, one fallback character, no half pair. */
  predicate InText(s: State) {
    s.depth > 0 && s.skipDepth.None? && s.ucSkip == 1 && s.out.pendingHigh.None?
  }

  /** The loop's state after a text of the given length that means `text`. */
  function After(s: State, length: nat, text: string): State {
    s.(i := s.i + length, out := s.out.Add(text))
  }

  lemma AtIndex(chars: string, i: nat, part: string, k: nat)
    requires At(chars, i, part) && k < |part|
    ensures i + k < |chars| && chars[i + k] == part[k]
  {
    assert chars[i..i + |part|][k] == part[k];
  }

  lemma AtSlice(chars: string, i: nat, part: string)
    requires At(chars, i, part)
    ensures i + |part| <= |chars| && chars[i..i + |part|] == part
  {
  }

  lemma PlainIsRead(chars: string, f: State -> State, s: State, c: char)
    requires NoRoundChanges(chars, f) && IsItem(Plain(c)) && At(chars, s.i, [c]) && InText(s)
    ensures f(s) == f(After(s, 1, [c]))
  {
    AtIndex(chars, s.i, [c], 0);
    assert Step(chars, s) == After(s, 1, [c]);
  }

  /** A backslash outside skipped groups. */
  lemma EscapeIsRead(chars: string, f: State -> State, s: State, next: State)
    requires NoRoundChanges(chars, f) && s.i < |chars| && chars[s.i] == '\\' && s.skipDepth.None?
    requires Escape(chars, s.(i := s.i + 1)) == next
    ensures f(s) == f(next)
  {
    assert Step(chars, s) == Escape(chars, s.(i := s.i + 1));
  }

  lemma EscapedIsRead(chars: string, f: State -> State, s: State, c: char)
    requires NoRoundChanges(chars, f) && IsItem(Escaped(c)) && At(chars, s.i, ['\\', c]) && InText(s)
    ensures f(s) == f(After(s, 2, [c]))
  {
    AtIndex(chars, s.i, ['\\', c], 0);
    AtIndex(chars, s.i, ['\\', c], 1);
    EscapeIsRead(chars, f, s, After(s, 2, [c]));
  }

  lemma ContinuationIsRead(chars: string, f: State -> State, s: State)
    requires NoRoundChanges(chars, f) && At(chars, s.i, "\\\n") && InText(s)
    ensures f(s) == f(After(s, 2, ""))
  {
    AtIndex(chars, s.i, "\\\n", 0);
    AtIndex(chars, s.i, "\\\n", 1);
    assert s.out.text + "" == s.out.text;
    EscapeIsRead(chars, f, s, After(s, 2, ""));
  }

  lemma HexTextIsRead(byte: nat, upper: bool)
    requires byte < 256
    ensures HexByte(HexText(byte, upper)[0], HexText(byte, upper)[1]) == Some(byte)
  {
    DigitIsRead(byte / 16, upper);
    DigitIsRead(byte % 16, upper);
  }

  lemma DigitIsRead(d: nat, upper: bool)
    requires d < 16
    ensures var c := (if upper then "0123456789ABCDEF" else "0123456789abcdef")[d]; HexDigit(c) == Some(d) && c != '+'
  {
  }

  lemma HexIsRead(chars: string, f: State -> State, s: State, byte: nat, upper: bool)
    requires NoRoundChanges(chars, f) && byte < 256 && At(chars, s.i, "\\'" + HexText(byte, upper)) && InText(s)
    ensures f(s) == f(After(s, 4, [CodePage1252(byte) as char]))
  {
    var text := "\\'" + HexText(byte, upper);
    AtIndex(chars, s.i, text, 0);
    AtIndex(chars, s.i, text, 1);
    AtIndex(chars, s.i, text, 2);
    AtIndex(chars, s.i, text, 3);
    HexTextIsRead(byte, upper);
    SameCodePage(byte);
    EscapeIsRead(chars, f, s, After(s, 4, [CodePage1252(byte) as char]));
  }

  // ----- control words ------------------------------------------------------------------------------

  lemma {:induction false} NamedWordMeans(k: nat, from: nat)
    requires from <= k < |NAMED| && forall j | from <= j < k :: NAMED[j].0 != NAMED[k].0
    ensures PlainWord(NAMED[k].0, from) == NAMED[k].1
    decreases k - from
  {
    SameWords();
    if from < k {
      NamedWordMeans(k, from + 1);
    }
  }

  lemma NamesDiffer(j: nat, k: nat)
    requires j < k < |NAMED|
    ensures NAMED[j].0 != NAMED[k].0
  {
    assert |NAMED[0].0| == |NAMED[2].0| == 3 && |NAMED[1].0| == 4 && |NAMED[3].0| == |NAMED[4].0| == 6;
    assert |NAMED[5].0| == |NAMED[6].0| == 6 && |NAMED[7].0| == |NAMED[8].0| == 9 && |NAMED[9].0| == 6;
    assert NAMED[0].0[0] == 'p' && NAMED[2].0[0] == 't';
    assert NAMED[3].0[0] == NAMED[4].0[0] == 'e' && NAMED[3].0[1] == 'm' && NAMED[4].0[1] == 'n';
    assert NAMED[5].0[0] == 'l' && NAMED[6].0[0] == 'r' && NAMED[9].0[0] == 'b';
    assert NAMED[7].0[0] == 'l' && NAMED[8].0[0] == 'r';
  }

  lemma {:induction false} FormattingMeansNothing(word: string, from: nat)
    requires IsFormatting(word) && from <= |NAMED|
    ensures PlainWord(word, from) == ""
    decreases |NAMED| - from
  {
    SameWords();
    if from < |NAMED| {
      FormattingMeansNothing(word, from + 1);
    }
  }

  /**
   A control word with its parameter and a space after it, when it is neither `u` nor `uc`; `from` is the first row of
   the table.
   */
  lemma WordIsRead(chars: string, f: State -> State, s: State, word: string, param: string, from: nat)
    requires from == 0 && NoRoundChanges(chars, f) && InText(s) && IsWord(word) && word != "u" && word != "uc"
    requires forall i | 0 <= i < |param| :: IsParamChar(param[i])
    requires At(chars, s.i, "\\" + word + param + " ")
    ensures f(s) == f(After(s, |word| + |param| + 2, PlainWord(word, from)))
  {
    hide At, WordEnd, ParamEnd;
    var wordEnd, paramEnd := WordLayout(chars, s.i, word, param);
    WordEscape(chars, f, s, word, wordEnd, paramEnd, |word| + |param| + 2);
  }

  lemma WordEscape(
      chars: string, f: State -> State, s: State, word: string, wordEnd: nat, paramEnd: nat, length: nat)
    requires NoRoundChanges(chars, f) && s.i < |chars| && chars[s.i] == '\\' && s.skipDepth.None?
    requires s.i + 1 <= wordEnd <= paramEnd < |chars| && IsAlpha(chars[s.i + 1]) && chars[paramEnd] == ' '
    requires WordEnd(chars, s.i + 1) == wordEnd && ParamEnd(chars, wordEnd) == paramEnd
    requires chars[s.i + 1..wordEnd] == word && word != "u" && word != "uc" && s.i + length == paramEnd + 1
    ensures f(s) == f(After(s, length, PlainWord(word)))
  {
    LetterIsControlWord(chars, s.(i := s.i + 1));
    PlainControlWord(chars, s.(i := s.i + 1), wordEnd, paramEnd);
    EscapeIsRead(chars, f, s, After(s, length, PlainWord(word)));
  }

  lemma OtherIsRead(chars: string, f: State -> State, s: State, word: string, param: string)
    requires NoRoundChanges(chars, f) && InText(s) && IsItem(Other(word, param))
    requires At(chars, s.i, "\\" + word + param + " ")
    ensures f(s) == f(After(s, |word| + |param| + 2, ""))
  {
    WordIsRead(chars, f, s, word, param, 0);
    FormattingMeansNothing(word, 0);
  }

  predicate IsWord(word: string) {
    word != "" && forall i | 0 <= i < |word| :: IsAlpha(word[i])
  }

  lemma LetterIsControlWord(chars: string, s: State)
    requires s.i < |chars| && IsAlpha(chars[s.i])
    ensures Escape(chars, s) == ControlWord(chars, s)
  {
  }

  lemma PlainControlWord(chars: string, s: State, wordEnd: nat, paramEnd: nat)
    requires s.i <= wordEnd <= paramEnd < |chars| && chars[paramEnd] == ' '
    requires WordEnd(chars, s.i) == wordEnd && ParamEnd(chars, wordEnd) == paramEnd
    requires chars[s.i..wordEnd] != "u" && chars[s.i..wordEnd] != "uc"
    ensures ControlWord(chars, s) == s.(i := paramEnd + 1, out := s.out.Add(PlainWord(chars[s.i..wordEnd])))
  {
  }

  lemma WordLayout(chars: string, i: nat, word: string, param: string) returns (wordEnd: nat, paramEnd: nat)
    requires IsWord(word) && forall k | 0 <= k < |param| :: IsParamChar(param[k])
    requires At(chars, i, "\\" + word + param + " ")
    ensures wordEnd == i + 1 + |word| && paramEnd == wordEnd + |param| < |chars|
    ensures chars[i] == '\\' && IsAlpha(chars[i + 1]) && chars[paramEnd] == ' '
    ensures WordEnd(chars, i + 1) == wordEnd && ParamEnd(chars, wordEnd) == paramEnd
    ensures chars[i + 1..wordEnd] == word && chars[wordEnd..paramEnd] == param
  {
    hide At, WordEnd, ParamEnd;
    wordEnd := i + 1 + |word|;
    paramEnd := wordEnd + |param|;
    AtSplits(chars, i, "\\" + word + param, " ");
    AtSplits(chars, i, "\\" + word, param);
    AtSplits(chars, i, "\\", word);
    forall k | i + 1 <= k < wordEnd
      ensures IsAlpha(chars[k])
    {
      AtIndex(chars, i + 1, word, k - i - 1);
    }
    forall k | wordEnd <= k < paramEnd
      ensures IsParamChar(chars[k])
    {
      AtIndex(chars, wordEnd, param, k - wordEnd);
    }
    AtIndex(chars, paramEnd, " ", 0);
    AtIndex(chars, i, "\\", 0);
    W.WordEndAt(chars, i + 1, wordEnd);
    W.ParamEndAt(chars, wordEnd, paramEnd);
    AtSlice(chars, i + 1, word);
    AtSlice(chars, wordEnd, param);
  }

  lemma NamedWordIsRead(chars: string, f: State -> State, s: State, k: nat)
    requires NoRoundChanges(chars, f) && k < |NAMED| && At(chars, s.i, "\\" + NAMED[k].0 + " ") && InText(s)
    ensures f(s) == f(After(s, |NAMED[k].0| + 2, NAMED[k].1))
  {
    hide At, PlainWord, NoRoundChanges;
    NameIsAWord(k);
    assert "\\" + NAMED[k].0 + "" + " " == "\\" + NAMED[k].0 + " ";
    WordIsRead(chars, f, s, NAMED[k].0, "", 0);
    forall j | 0 <= j < k
      ensures NAMED[j].0 != NAMED[k].0
    {
      NamesDiffer(j, k);
    }
    NamedWordMeans(k, 0);
  }

  lemma NameIsAWord(k: nat)
    requires k < |NAMED|
    ensures IsWord(NAMED[k].0) && NAMED[k].0 != "u" && NAMED[k].0 != "uc"
  {
  }

  lemma UnicodeIsRead(chars: string, f: State -> State, s: State, c: char)
    requires NoRoundChanges(chars, f) && At(chars, s.i, W.EscapeUnits(W.UnitsOf(c))) && InText(s)
    ensures f(s) == f(After(s, |W.EscapeUnits(W.UnitsOf(c))|, [c]))
  {
    var units := W.UnitsOf(c);
    W.CharIsPushed(s.out, c);
    UnitsAreRead(chars, f, s, units);
  }

  lemma {:induction false} UnitsAreRead(chars: string, f: State -> State, s: State, units: seq<Unit>)
    requires NoRoundChanges(chars, f) && At(chars, s.i, W.EscapeUnits(units)) && s.skipDepth.None? && s.ucSkip == 1
    ensures f(s) == f(W.Past(s, |W.EscapeUnits(units)|, units))
    decreases |units|
  {
    if units == [] {
      assert W.Past(s, |W.EscapeUnits(units)|, units) == s;
    } else {
      var next := s.(i := s.i + |W.EscapeUnit(units[0])|, out := PushUnit(s.out, units[0]));
      UnitIsRead(chars, f, s, units);
      assert |W.EscapeUnits(units)| == |W.EscapeUnit(units[0])| + |W.EscapeUnits(units[1..])|;
      UnitsAreRead(chars, f, next, units[1..]);
    }
  }

  lemma UnitIsRead(chars: string, f: State -> State, s: State, units: seq<Unit>)
    requires NoRoundChanges(chars, f) && units != [] && At(chars, s.i, W.EscapeUnits(units))
    requires s.skipDepth.None? && s.ucSkip == 1
    ensures var next := s.(i := s.i + |W.EscapeUnit(units[0])|, out := PushUnit(s.out, units[0]));
            f(s) == f(next) && At(chars, next.i, W.EscapeUnits(units[1..]))
  {
    W.FirstEscapeIsRead(chars, units, s);
  }

  // ----- symbols and line ends --------------------------------------------------------------------------

  lemma {:induction false} NoLettersMeanNothing(from: nat)
    requires from <= |PLAIN_WORDS|
    ensures PlainWord("", from) == ""
    decreases |PLAIN_WORDS| - from
  {
    if from < |PLAIN_WORDS| {
      NoLettersMeanNothing(from + 1);
    }
  }

  /** The backslash alone is a control word without letters, and the symbol is plain text after it. */
  lemma SymbolIsRead(chars: string, f: State -> State, s: State, c: char)
    requires NoRoundChanges(chars, f) && IsItem(Symbol(c)) && At(chars, s.i, ['\\', c]) && InText(s)
    ensures f(s) == f(After(s, 2, [c]))
  {
    AtIndex(chars, s.i, ['\\', c], 0);
    AtIndex(chars, s.i, ['\\', c], 1);
    var next := s.(i := s.i + 1);
    assert chars[next.i..next.i] == "" && WordEnd(chars, next.i) == next.i == ParamEnd(chars, next.i);
    NoLettersMeanNothing(0);
    assert s.out.text + "" == s.out.text;
    assert Escape(chars, next) == ControlWord(chars, next) == next;
    EscapeIsRead(chars, f, s, next);
    assert At(chars, next.i, [c]);
    PlainIsRead(chars, f, next, c);
  }

  /** The backslash takes the carriage return with it, and the line feed is plain text. */
  lemma CrlfIsRead(chars: string, f: State -> State, s: State)
    requires NoRoundChanges(chars, f) && At(chars, s.i, "\\\r\n") && InText(s)
    ensures f(s) == f(After(s, 3, "\n"))
  {
    var next := s.(i := s.i + 2);
    AtIndex(chars, s.i, "\\\r\n", 0);
    AtIndex(chars, s.i, "\\\r\n", 1);
    AtIndex(chars, s.i, "\\\r\n", 2);
    EscapeIsRead(chars, f, s, next);
    assert At(chars, next.i, ['\n']);
    PlainIsRead(chars, f, next, '\n');
  }

  lemma LineEndIsRead(chars: string, f: State -> State, s: State, crlf: bool)
    requires NoRoundChanges(chars, f) && At(chars, s.i, ItemText(Continuation(crlf))) && InText(s)
    ensures f(s) == f(After(s, |ItemText(Continuation(crlf))|, Meaning(Continuation(crlf))))
  {
    hide At, NoRoundChanges;
    if crlf {
      CrlfIsRead(chars, f, s);
    } else {
      ContinuationIsRead(chars, f, s);
    }
  }

  // ----- fallback characters ------------------------------------------------------------------------

  /** A run of stand-in characters, each skipped as one. */
  lemma {:induction false} StandInsAreSkipped(chars: string, i: nat, stand: seq<Item>)
    requires AreItems(stand) && forall k | 0 <= k < |stand| :: IsStandIn(stand[k])
    requires At(chars, i, ItemsText(stand))
    ensures AfterFallback(chars, i, |stand|) == i + |ItemsText(stand)|
    decreases |stand|
  {
    if stand != [] {
      var first, rest := ItemText(stand[0]), ItemsText(stand[1..]);
      AtSplits(chars, i, first, rest);
      StandInsAreSkipped(chars, i + |first|, stand[1..]);
      StandInIsSkipped(chars, i, stand[0], |stand|);
    }
  }

  lemma StandInIsSkipped(chars: string, i: nat, item: Item, count: nat)
    requires IsStandIn(item) && IsItem(item) && At(chars, i, ItemText(item)) && count > 0
    ensures AfterFallback(chars, i, count) == AfterFallback(chars, i + |ItemText(item)|, count - 1)
  {
    AtIndex(chars, i, ItemText(item), 0);
    if item.Hex? {
      AtIndex(chars, i, ItemText(item), 1);
      AtIndex(chars, i, ItemText(item), 3);
    }
  }

  lemma DecimalParses(n: nat)
    requires n < 0x1_0000_0000_0000_0000
    ensures ParseUsize(Decimal(n)) == Some(n) && forall k | 0 <= k < |Decimal(n)| :: IsParamChar(Decimal(n)[k])
  {
    DecimalValue(n);
  }

  /** `\ucN` */
  lemma CountIsRead(chars: string, f: State -> State, s: State, count: nat)
    requires NoRoundChanges(chars, f) && s.skipDepth.None? && count < 0x1_0000_0000_0000_0000
    requires At(chars, s.i, CountText(count))
    ensures f(s) == f(s.(i := s.i + |CountText(count)|, ucSkip := if count <= 8 then count else 8))
  {
    DecimalParses(count);
    assert "\\" + "uc" == "\\uc";
    var wordEnd, paramEnd := WordLayout(chars, s.i, "uc", Decimal(count));
    LetterIsControlWord(chars, s.(i := s.i + 1));
    CountControlWord(chars, s.(i := s.i + 1), wordEnd, paramEnd, count);
    EscapeIsRead(chars, f, s, s.(i := paramEnd + 1, ucSkip := if count <= 8 then count else 8));
  }

  lemma CountControlWord(chars: string, s: State, wordEnd: nat, paramEnd: nat, count: nat)
    requires s.i <= wordEnd <= paramEnd < |chars| && chars[paramEnd] == ' '
    requires WordEnd(chars, s.i) == wordEnd && ParamEnd(chars, wordEnd) == paramEnd
    requires chars[s.i..wordEnd] == "uc" && ParseUsize(chars[wordEnd..paramEnd]) == Some(count)
    ensures ControlWord(chars, s) == s.(i := paramEnd + 1, ucSkip := if count <= 8 then count else 8)
  {
  }

  /** `\uN` with a space after it and as many fallback characters as the count asks for. */
  lemma UnitIsReadPastFallback(chars: string, f: State -> State, s: State, unit: Unit, next: nat, end: nat)
    requires NoRoundChanges(chars, f) && s.skipDepth.None? && At(chars, s.i, UnitText(unit))
    requires next == s.i + |UnitText(unit)| && next <= |chars| && AfterFallback(chars, next, s.ucSkip) == end
    ensures f(s) == f(s.(i := end, out := PushUnit(s.out, unit)))
  {
    var number := SignedDecimal(W.Signed(unit));
    hide AfterFallback, SignedDecimal;
    W.SignedDecimalIsParam(W.Signed(unit));
    SignedDecimalParses(W.Signed(unit));
    assert "\\" + "u" == "\\u";
    var wordEnd, paramEnd := WordLayout(chars, s.i, "u", number);
    LetterIsControlWord(chars, s.(i := s.i + 1));
    UnitControlWord(chars, s.(i := s.i + 1), wordEnd, paramEnd, unit, next, end);
    EscapeIsRead(chars, f, s, s.(i := end, out := PushUnit(s.out, unit)));
  }

  lemma UnitControlWord(chars: string, s: State, wordEnd: nat, paramEnd: nat, unit: Unit, next: nat, end: nat)
    requires s.i <= wordEnd <= paramEnd < |chars| && chars[paramEnd] == ' '
    requires WordEnd(chars, s.i) == wordEnd && ParamEnd(chars, wordEnd) == paramEnd
    requires chars[s.i..wordEnd] == "u" && ParseI32(chars[wordEnd..paramEnd]) == Some(W.Signed(unit))
    requires next == paramEnd + 1 && AfterFallback(chars, next, s.ucSkip) == end
    ensures ControlWord(chars, s) == s.(i := end, out := PushUnit(s.out, unit))
  {
    hide AfterFallback, WordEnd, ParamEnd, ParseI32;
    assert UnitOf(W.Signed(unit)) == unit;
    assert |"uc"| == 2 && |"u"| == 1;
  }

  lemma ReplacedIsRead(chars: string, f: State -> State, s: State, c: char, count: nat, stand: seq<Item>)
    requires NoRoundChanges(chars, f) && IsItem(Replaced(c, count, stand)) && AreItems(stand) && InText(s)
    requires At(chars, s.i, ReplacedText(c, count, ItemsText(stand), s.ucSkip))
    ensures f(s) == f(After(s, |ReplacedText(c, count, ItemsText(stand), s.ucSkip)|, [c]))
  {
    hide At, AfterFallback, ReplacedText;
    var unitAt, standAt, lastAt, end := ReplacedLayout(chars, s.i, c, count, ItemsText(stand), s.ucSkip);
    StandInsAreSkipped(chars, standAt, stand);
    ReplacedPartsAreRead(chars, f, s, c, count, |stand|, unitAt, standAt, lastAt, end);
  }

  lemma ReplacedPartsAreRead(
      chars: string, f: State -> State, s: State, c: char, count: nat, skip: nat, unitAt: nat, standAt: nat,
      lastAt: nat, end: nat)
    requires NoRoundChanges(chars, f) && InText(s) && c as int < 0x1_0000 && count < 0x1_0000_0000_0000_0000
    requires skip == (if count <= 8 then count else 8)
    requires unitAt == s.i + |CountText(count)| && At(chars, s.i, CountText(count))
    requires standAt == unitAt + |UnitText(c as int)| && At(chars, unitAt, UnitText(c as int))
    requires standAt <= |chars| && AfterFallback(chars, standAt, skip) == lastAt
    requires end == lastAt + |CountText(s.ucSkip)| && At(chars, lastAt, CountText(s.ucSkip))
    ensures f(s) == f(s.(i := end, out := s.out.Add([c])))
  {
    hide At, CountText, UnitText, AfterFallback;
    CountIsRead(chars, f, s, count);
    UnitIsReadPastFallback(chars, f, s.(i := unitAt, ucSkip := skip), c as int, standAt, lastAt);
    CharUnitIsPushed(s.out, c);
    CountIsRead(chars, f, s.(i := lastAt, ucSkip := skip, out := s.out.Add([c])), s.ucSkip);
  }

  lemma CharUnitIsPushed(out: Output, c: char)
    requires c as int < 0x1_0000 && out.pendingHigh.None?
    ensures PushUnit(out, c as int) == out.Add([c])
  {
  }

  lemma ReplacedLayout(chars: string, i: nat, c: char, count: nat, stand: string, back: nat)
    returns (unitAt: nat, standAt: nat, lastAt: nat, end: nat)
    requires c as int < 0x1_0000 && At(chars, i, ReplacedText(c, count, stand, back))
    ensures unitAt == i + |CountText(count)| && At(chars, i, CountText(count))
    ensures standAt == unitAt + |UnitText(c as int)| && At(chars, unitAt, UnitText(c as int))
    ensures lastAt == standAt + |stand| && At(chars, standAt, stand)
    ensures end == lastAt + |CountText(back)| && At(chars, lastAt, CountText(back))
    ensures end == i + |ReplacedText(c, count, stand, back)|
  {
    unitAt := i + |CountText(count)|;
    standAt := unitAt + |UnitText(c as int)|;
    lastAt := standAt + |stand|;
    end := lastAt + |CountText(back)|;
    SplitsInFour(chars, i, CountText(count), UnitText(c as int), stand, CountText(back));
  }

  lemma SplitsInFour(chars: string, i: nat, a: string, b: string, c: string, d: string)
    requires At(chars, i, a + (b + (c + d)))
    ensures At(chars, i, a) && At(chars, i + |a|, b) && At(chars, i + |a| + |b|, c)
    ensures At(chars, i + |a| + |b| + |c|, d)
  {
    AtSplits(chars, i, a, b + (c + d));
    AtSplits(chars, i + |a|, b, c + d);
    AtSplits(chars, i + |a| + |b|, c, d);
  }

  // ----- groups and lists ---------------------------------------------------------------------------

  lemma NoBraceInTables(k: nat)
    requires k < |TABLES|
    ensures '{' !in TABLES[k] && '}' !in TABLES[k]
  {
  }

  /** No name of a table reaches over the end of a group. */
  lemma TableIsInGroup(text: string, after: string, name: string)
    requires '}' !in name
    ensures name <= text + "}" + after ==> name <= text
  {
    var whole := text + "}" + after;
    assert whole[|text|] == '}' && forall j | 0 <= j < |text| :: whole[j] == text[j];
    assert name <= whole ==> forall j | 0 <= j < |name| :: whole[j] == name[j] && whole[j] != '}';
  }

  lemma OpensNoTable(chars: string, i: nat, text: string)
    requires At(chars, i, "{" + text + "}") && !MayBeSkipped(text)
    ensures i < |chars| && chars[i] == '{' && !OpensSkippedGroup(chars, i)
  {
    AtIndex(chars, i, "{" + text + "}", 0);
    AtSplits(chars, i, "{" + text, "}");
    AtSplits(chars, i, "{", text);
    var after := chars[i + 1 + |text| + 1..];
    assert chars[i + 1..] == text + "}" + after;
    forall k | 0 <= k < |SKIPPED_GROUPS|
      ensures !StartsWith(chars[i + 1..], SKIPPED_GROUPS[k])
    {
      assert SKIPPED_GROUPS[k] == TABLES[k];
      NoBraceInTables(k);
      assert !StartsWith(text, TABLES[k]);
      TableIsInGroup(text, after, TABLES[k]);
    }
  }

  lemma {:induction false} TextIsSkipped(chars: string, f: State -> State, s: State, end: nat)
    requires NoRoundChanges(chars, f) && s.skipDepth.Some? && s.i <= end <= |chars|
    requires forall j | s.i <= j < end :: chars[j] != '{' && chars[j] != '}'
    ensures f(s) == f(s.(i := end))
    decreases end - s.i
  {
    if s.i < end {
      assert Step(chars, s) == s.(i := s.i + 1);
      TextIsSkipped(chars, f, s.(i := s.i + 1), end);
    }
  }

  lemma OpensTable(chars: string, i: nat, k: nat, body: string)
    requires k < 6 && At(chars, i, "{" + (TABLES[k] + body) + "}")
    ensures i < |chars| && OpensSkippedGroup(chars, i)
  {
    AtIndex(chars, i, "{" + (TABLES[k] + body) + "}", 0);
    AtSplits(chars, i, "{" + (TABLES[k] + body), "}");
    AtSplits(chars, i, "{", TABLES[k] + body);
    AtSplits(chars, i + 1, TABLES[k], body);
    assert chars[i + 1..][..|TABLES[k]|] == TABLES[k];
    assert SKIPPED_GROUPS[k] == TABLES[k] && StartsWith(chars[i + 1..], SKIPPED_GROUPS[k]);
  }

  lemma TableIsRead(chars: string, f: State -> State, s: State, k: nat, body: string)
    requires NoRoundChanges(chars, f) && IsItem(Table(k, body)) && InText(s)
    requires At(chars, s.i, "{" + (TABLES[k] + body) + "}")
    ensures f(s) == f(After(s, |TABLES[k] + body| + 2, ""))
  {
    var text := TABLES[k] + body;
    NoBraceInTables(k);
    OpensTable(chars, s.i, k, body);
    AtIndex(chars, s.i, "{" + text + "}", 0);
    AtIndex(chars, s.i, "{" + text + "}", |text| + 1);
    AtSplits(chars, s.i, "{" + text, "}");
    AtSplits(chars, s.i, "{", text);
    TableTextIsRead(chars, f, s, text);
  }

  lemma TableTextIsRead(chars: string, f: State -> State, s: State, text: string)
    requires NoRoundChanges(chars, f) && InText(s) && '{' !in text && '}' !in text
    requires s.i + |text| + 1 < |chars| && OpensSkippedGroup(chars, s.i) && At(chars, s.i + 1, text)
    requires chars[s.i + |text| + 1] == '}'
    ensures f(s) == f(After(s, |text| + 2, ""))
  {
    var inside := s.(i := s.i + 1, depth := s.depth + 1, skipDepth := Some(s.depth + 1));
    assert Step(chars, s) == inside;
    forall j | inside.i <= j < inside.i + |text|
      ensures chars[j] != '{' && chars[j] != '}'
    {
      AtIndex(chars, s.i + 1, text, j - inside.i);
    }
    TextIsSkipped(chars, f, inside, inside.i + |text|);
    assert s.out.text + "" == s.out.text;
    assert Step(chars, inside.(i := inside.i + |text|)) == After(s, |text| + 2, "");
  }

  lemma GroupOpens(chars: string, f: State -> State, s: State, text: string)
    requires NoRoundChanges(chars, f) && At(chars, s.i, "{" + text + "}") && !MayBeSkipped(text) && InText(s)
    ensures f(s) == f(s.(i := s.i + 1, depth := s.depth + 1))
    ensures At(chars, s.i + 1, text) && At(chars, s.i + 1 + |text|, "}")
  {
    OpensNoTable(chars, s.i, text);
    assert Step(chars, s) == s.(i := s.i + 1, depth := s.depth + 1);
    AtSplits(chars, s.i, "{" + text, "}");
    AtSplits(chars, s.i, "{", text);
  }

  lemma GroupCloses(chars: string, f: State -> State, s: State)
    requires NoRoundChanges(chars, f) && At(chars, s.i, "}") && s.skipDepth.None? && s.depth > 0
    ensures f(s) == f(s.(i := s.i + 1, depth := s.depth - 1))
  {
    AtIndex(chars, s.i, "}", 0);
    assert Step(chars, s) == s.(i := s.i + 1, depth := s.depth - 1);
  }

  lemma CharacterIsRead(chars: string, f: State -> State, s: State, item: Item)
    requires NoRoundChanges(chars, f) && IsItem(item) && At(chars, s.i, ItemText(item)) && InText(s)
    requires item.Plain? || item.Escaped? || item.Symbol? || item.Hex?
    ensures f(s) == f(After(s, |ItemText(item)|, Meaning(item)))
  {
    hide At, NoRoundChanges, PlainWord, ItemsText, CodePage1252;
    match item {
      case Plain(c) => PlainIsRead(chars, f, s, c);
      case Escaped(c) => EscapedIsRead(chars, f, s, c);
      case Symbol(c) => SymbolIsRead(chars, f, s, c);
      case Hex(byte, upper) => HexIsRead(chars, f, s, byte, upper);
    }
  }

  lemma WordItemIsRead(chars: string, f: State -> State, s: State, item: Item)
    requires NoRoundChanges(chars, f) && IsItem(item) && At(chars, s.i, ItemText(item)) && InText(s)
    requires item.Word? || item.Other?
    ensures f(s) == f(After(s, |ItemText(item)|, Meaning(item)))
  {
    hide At, NoRoundChanges, PlainWord, ItemsText, CodePage1252;
    match item {
      case Word(k) => NamedWordIsRead(chars, f, s, k);
      case Other(word, param) => OtherIsRead(chars, f, s, word, param);
    }
  }

  lemma UnicodeItemIsRead(chars: string, f: State -> State, s: State, item: Item)
    requires NoRoundChanges(chars, f) && IsItem(item) && At(chars, s.i, ItemText(item)) && InText(s)
    requires item.Unicode? || item.Replaced?
    ensures f(s) == f(After(s, |ItemText(item)|, Meaning(item)))
  {
    hide At, NoRoundChanges, PlainWord, ItemsText, CodePage1252, ReplacedText, W.EscapeUnits;
    match item {
      case Unicode(c) => UnicodeIsRead(chars, f, s, c);
      case Replaced(c, count, stand) => ReplacedIsRead(chars, f, s, c, count, stand);
    }
  }

  lemma {:induction false} ItemIsRead(chars: string, f: State -> State, s: State, item: Item)
    requires NoRoundChanges(chars, f) && IsItem(item) && At(chars, s.i, ItemText(item)) && InText(s)
    ensures f(s) == f(After(s, |ItemText(item)|, Meaning(item)))
    decreases item
  {
    hide At, NoRoundChanges;
    match item {
      case Plain(_) => CharacterIsRead(chars, f, s, item);
      case Escaped(_) => CharacterIsRead(chars, f, s, item);
      case Symbol(_) => CharacterIsRead(chars, f, s, item);
      case Hex(_, _) => CharacterIsRead(chars, f, s, item);
      case Word(_) => WordItemIsRead(chars, f, s, item);
      case Other(_, _) => WordItemIsRead(chars, f, s, item);
      case Unicode(_) => UnicodeItemIsRead(chars, f, s, item);
      case Replaced(_, _, _) => UnicodeItemIsRead(chars, f, s, item);
      case Continuation(crlf) => LineEndIsRead(chars, f, s, crlf);
      case Table(k, body) => TableIsRead(chars, f, s, k, body);
      case Group(items) => GroupIsRead(chars, f, s, items);
    }
  }

  lemma {:induction false} GroupIsRead(chars: string, f: State -> State, s: State, items: seq<Item>)
    requires NoRoundChanges(chars, f) && AreItems(items) && !MayBeSkipped(ItemsText(items)) && InText(s)
    requires At(chars, s.i, "{" + ItemsText(items) + "}")
    ensures f(s) == f(After(s, |ItemsText(items)| + 2, Meanings(items)))
    decreases items, 1
  {
    hide At, NoRoundChanges, ItemsText, MayBeSkipped;
    var text := ItemsText(items);
    var inside := s.(i := s.i + 1, depth := s.depth + 1);
    GroupOpens(chars, f, s, text);
    ItemsAreRead(chars, f, inside, items);
    GroupCloses(chars, f, After(inside, |text|, Meanings(items)));
  }

  lemma {:induction false} ItemsAreRead(chars: string, f: State -> State, s: State, items: seq<Item>)
    requires NoRoundChanges(chars, f) && AreItems(items) && At(chars, s.i, ItemsText(items)) && InText(s)
    ensures f(s) == f(After(s, |ItemsText(items)|, Meanings(items)))
    decreases items, 0
  {
    hide At, ItemText, Meaning, NoRoundChanges, IsItem;
    if items == [] {
      assert s.out.text + "" == s.out.text;
    } else {
      var first, rest := ItemText(items[0]), ItemsText(items[1..]);
      AtSplits(chars, s.i, first, rest);
      ItemIsRead(chars, f, s, items[0]);
      ItemsAreRead(chars, f, After(s, |first|, Meaning(items[0])), items[1..]);
      AfterInTwo(s, |first|, Meaning(items[0]), |rest|, Meanings(items[1..]));
    }
  }

  lemma AfterInTwo(s: State, first: nat, meant: string, rest: nat, more: string)
    ensures After(After(s, first, meant), rest, more) == After(s, first + rest, meant + more)
  {
    assert s.out.text + meant + more == s.out.text + (meant + more);
  }

  // ----- the document -------------------------------------------------------------------------------

  /** Where the loop ends, from states inside the text. */
  ghost function End(chars: string): State -> State {
    (s: State) => if s.i <= |chars| then Loop(chars, s) else s
  }

  lemma NoRoundChangesTheEnd(chars: string)
    ensures NoRoundChanges(chars, End(chars))
  {
    forall s: State | s.i < |chars|
      ensures End(chars)(s) == End(chars)(Step(chars, s))
    {
      LoopStep(chars, s, Step(chars, s));
    }
  }

  lemma ItemsLayout(items: seq<Item>)
    requires AreItems(items)
    ensures var chars, end := WriteItems(items), |W.HEADER| + |ItemsText(items)|;
            && |chars| == end + 1 && At(chars, 0, W.HEADER) && At(chars, |W.HEADER|, ItemsText(items))
            && At(chars, end, "}")
  {
    var text, chars := ItemsText(items), WriteItems(items);
    assert chars == W.HEADER + (text + "}");
    assert chars[0..|chars|] == chars;
    AtSplits(chars, 0, W.HEADER, text + "}");
    AtSplits(chars, |W.HEADER|, text, "}");
  }

  lemma ItemsDocumentIsRead(items: seq<Item>)
    requires AreItems(items)
    ensures Loop(WriteItems(items), INITIAL).out.text == Meanings(items)
  {
    var chars, f := WriteItems(items), End(WriteItems(items));
    var s := INITIAL.(i := |W.HEADER|, depth := 1);
    var end := After(s, |ItemsText(items)|, Meanings(items));
    ItemsLayout(items);
    W.HeaderIsRead(chars);
    NoRoundChangesTheEnd(chars);
    ItemsAreRead(chars, f, s, items);
    GroupCloses(chars, f, end);
    assert "" + Meanings(items) == Meanings(items);
    assert f(INITIAL) == f(end.(i := end.i + 1, depth := 0));
  }

  /**
   Stripping a written document gives the meanings of its items in their order, trimmed. When nothing is left, the
   document itself is given instead.
   */
  lemma ItemsAreStripped(items: seq<Item>)
    requires AreItems(items)
    ensures Strip(WriteItems(items)) == if Trim(Meanings(items)) == "" then WriteItems(items) else Trim(Meanings(items))
  {
    ItemsDocumentIsRead(items);
    assert WriteItems(items)[..5] == "{\\rtf";
    assert TrimStart(WriteItems(items)) == WriteItems(items);
  }
}
