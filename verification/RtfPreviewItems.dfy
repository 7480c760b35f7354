/**
 The web page's decoder on the documents of `RtfItems`: the preview is the meanings in their order, flattened. It knows
 fewer words than the desktop's decoder, and the two mean the same exactly when none of the others occurs.
 */
module RtfPreviewItems {
  import opened Options
  import opened RtfPreview
  import B = RtfPreviewRoundTrip
  import I = RtfItems
  import Q = Sequences
  import R = RtfDecoder
  import T = Text
  import W = RtfRoundTrip

  function Meaning(item: I.Item): Units
    requires I.IsItem(item)
  {
    match item
    case Plain(c) => W.UnitsOf(c)
    case Escaped(c) => [c as int]
    case Symbol(c) => if c == '~' then [' ' as int] else []
    case Hex(byte, _) => [I.CodePage1252(byte)]
    case Word(k) => if k <= 1 then ['\n' as int] else if k == 2 then ['\t' as int] else []
    case Other(_, _) => []
    case Unicode(c) => W.UnitsOf(c)
    case Replaced(c, _, _) => [c as int]
    case Continuation(_) => []
    case Table(_, _) => []
    case Group(items) => Meanings(items)
  }

  function Meanings(items: seq<I.Item>): Units
    requires I.AreItems(items)
  {
    if items == [] then [] else Meaning(items[0]) + Meanings(items[1..])
  }

  // ----- units of a text ----------------------------------------------------------------------------

  lemma {:induction false} Utf16Append(a: string, b: string)
    ensures W.Utf16(a + b) == W.Utf16(a) + W.Utf16(b)
    decreases |a|
  {
    if a == "" {
      assert a + b == b;
    } else {
      assert (a + b)[1..] == a[1..] + b;
      Utf16Append(a[1..], b);
    }
  }

  lemma {:induction false} Utf16OfAscii(s: string)
    requires B.IsAscii(s)
    ensures W.Utf16(s) == Ascii(s)
    decreases |s|
  {
    if s != "" {
      Utf16OfAscii(s[1..]);
      assert Ascii(s) == [U(s[0])] + Ascii(s[1..]);
    }
  }

  /** The units of the text stand at position `i`. */
  predicate Stands(doc: Units, i: nat, text: string) {
    Q.At(doc, i, W.Utf16(text))
  }

  lemma StandsSplits(doc: Units, i: nat, a: string, b: string)
    requires Stands(doc, i, a + b)
    ensures Stands(doc, i, a) && Stands(doc, i + |W.Utf16(a)|, b)
    ensures |W.Utf16(a + b)| == |W.Utf16(a)| + |W.Utf16(b)|
  {
    Utf16Append(a, b);
    Q.AtSplits(doc, i, W.Utf16(a), W.Utf16(b));
  }

  lemma AtUnit(doc: Units, i: nat, part: Units, k: nat)
    requires Q.At(doc, i, part) && k < |part|
    ensures i + k < |doc| && doc[i + k] == part[k]
  {
    assert doc[i..i + |part|][k] == part[k];
  }

  lemma AsciiStands(doc: Units, i: nat, text: string)
    requires Stands(doc, i, text) && B.IsAscii(text)
    ensures |W.Utf16(text)| == |text| && i + |text| <= |doc|
    ensures forall k | 0 <= k < |text| :: doc[i + k] == U(text[k])
  {
    Utf16OfAscii(text);
    forall k | 0 <= k < |text|
      ensures doc[i + k] == U(text[k])
    {
      AtUnit(doc, i, Ascii(text), k);
    }
  }

  lemma UnitStands(doc: Units, i: nat, text: string, k: nat)
    requires Stands(doc, i, text) && B.IsAscii(text) && k < |text|
    ensures i + k < |doc| && doc[i + k] == U(text[k])
  {
    Utf16OfAscii(text);
    AtUnit(doc, i, Ascii(text), k);
  }

  lemma WholeStands(text: string)
    ensures Stands(W.Utf16(text), 0, text)
  {
    assert W.Utf16(text)[0..|W.Utf16(text)|] == W.Utf16(text);
  }

  // ----- one item -----------------------------------------------------------------------------------

  /** A function of the loop's state that no round changes, such as where the loop will end. */
  ghost predicate NoRoundChanges(doc: Units, f: State -> State) {
    forall s: State {:trigger Step(doc, s)} | s.i < |doc| :: f(s) == f(Step(doc, s))
  }

  /** Inside the document: in a group, nothing skipped, one fallback unit. */
  predicate InText(s: State) {
    s.depth > 0 && s.skipDepth.None? && s.ucSkip == 1
  }

  function After(s: State, length: nat, units: Units): State {
    s.(i := s.i + length, out := s.out + units)
  }

  lemma UnitIsKept(doc: Units, f: State -> State, s: State, unit: Unit)
    requires NoRoundChanges(doc, f) && s.i < |doc| && doc[s.i] == unit && s.skipDepth.None?
    requires unit != U('\\') && unit != U('{') && unit != U('}')
    ensures f(s) == f(After(s, 1, [unit]))
  {
    assert Step(doc, s) == After(s, 1, [unit]);
  }

  lemma PlainIsRead(doc: Units, f: State -> State, s: State, c: char)
    requires NoRoundChanges(doc, f) && I.IsItem(I.Plain(c)) && Q.At(doc, s.i, W.UnitsOf(c)) && InText(s)
    ensures f(s) == f(After(s, |W.UnitsOf(c)|, W.UnitsOf(c)))
  {
    var units := W.UnitsOf(c);
    AtUnit(doc, s.i, units, 0);
    UnitIsKept(doc, f, s, units[0]);
    if |units| == 2 {
      AtUnit(doc, s.i, units, 1);
      UnitIsKept(doc, f, After(s, 1, [units[0]]), units[1]);
      assert s.out + [units[0]] + [units[1]] == s.out + units;
    } else {
      assert units == [units[0]];
    }
  }

  lemma EscapeIsRead(doc: Units, f: State -> State, s: State, next: State)
    requires NoRoundChanges(doc, f) && At(doc, s.i, '\\') && s.skipDepth.None?
    requires Escape(doc, s.(i := s.i + 1)) == next
    ensures f(s) == f(next)
  {
    B.BackslashMeansEscape(doc, s);
  }

  lemma EscapedIsRead(doc: Units, f: State -> State, s: State, c: char)
    requires NoRoundChanges(doc, f) && I.IsItem(I.Escaped(c)) && Stands(doc, s.i, ['\\', c]) && InText(s)
    ensures f(s) == f(After(s, |W.Utf16(['\\', c])|, [c as int]))
  {
    AsciiStands(doc, s.i, ['\\', c]);
    assert doc[s.i + 0] == U('\\') && doc[s.i + 1] == U(c);
    EscapeIsRead(doc, f, s, After(s, 2, [c as int]));
  }

  lemma SymbolIsRead(doc: Units, f: State -> State, s: State, c: char)
    requires NoRoundChanges(doc, f) && I.IsItem(I.Symbol(c)) && Stands(doc, s.i, ['\\', c]) && InText(s)
    ensures f(s) == f(After(s, |W.Utf16(['\\', c])|, Meaning(I.Symbol(c))))
  {
    AsciiStands(doc, s.i, ['\\', c]);
    assert doc[s.i + 0] == U('\\') && doc[s.i + 1] == U(c);
    assert s.out + [] == s.out;
    EscapeIsRead(doc, f, s, After(s, 2, Meaning(I.Symbol(c))));
  }

  lemma ContinuationIsRead(doc: Units, f: State -> State, s: State, crlf: bool)
    requires NoRoundChanges(doc, f) && Stands(doc, s.i, I.ItemText(I.Continuation(crlf))) && InText(s)
    ensures f(s) == f(After(s, |W.Utf16(I.ItemText(I.Continuation(crlf)))|, []))
  {
    var text := if crlf then "\\\r\n" else "\\\n";
    AsciiStands(doc, s.i, text);
    UnitStands(doc, s.i, text, 0);
    UnitStands(doc, s.i, text, 1);
    if crlf {
      UnitStands(doc, s.i, text, 2);
    }
    assert s.out + [] == s.out;
    EscapeIsRead(doc, f, s, After(s, |text|, []));
  }

  lemma SameCodePage(byte: nat)
    requires byte < 256
    ensures Cp1252(byte) == I.CodePage1252(byte)
  {
  }

  lemma DigitIsRead(d: nat, upper: bool)
    requires d < 16
    ensures var c := (if upper then "0123456789ABCDEF" else "0123456789abcdef")[d];
            HexDigit(U(c)) == Some(d) && c as int < 128
  {
  }

  lemma HexIsRead(doc: Units, f: State -> State, s: State, byte: nat, upper: bool)
    requires NoRoundChanges(doc, f) && byte < 256 && Stands(doc, s.i, "\\'" + I.HexText(byte, upper)) && InText(s)
    ensures f(s) == f(After(s, |W.Utf16("\\'" + I.HexText(byte, upper))|, [I.CodePage1252(byte)]))
  {
    hide Stands, W.Utf16, HexDigit, I.HexText;
    var text := "\\'" + I.HexText(byte, upper);
    HexTextIsAscii(byte, upper);
    Utf16OfAscii(text);
    UnitStands(doc, s.i, text, 0);
    UnitStands(doc, s.i, text, 1);
    UnitStands(doc, s.i, text, 2);
    UnitStands(doc, s.i, text, 3);
    HexEscape(doc, s.(i := s.i + 1), byte);
    EscapeIsRead(doc, f, s, After(s, 4, [I.CodePage1252(byte)]));
  }

  lemma HexTextIsAscii(byte: nat, upper: bool)
    requires byte < 256
    ensures var text := "\\'" + I.HexText(byte, upper);
            && |text| == 4 && B.IsAscii(text) && text[0] == '\\' && text[1] == '\''
            && HexDigit(U(text[2])) == Some(byte / 16) && HexDigit(U(text[3])) == Some(byte % 16)
  {
    DigitIsRead(byte / 16, upper);
    DigitIsRead(byte % 16, upper);
  }

  lemma HexEscape(doc: Units, s: State, byte: nat)
    requires byte < 256 && s.i + 2 < |doc| && At(doc, s.i, '\'')
    requires HexDigit(doc[s.i + 1]) == Some(byte / 16) && HexDigit(doc[s.i + 2]) == Some(byte % 16)
    ensures Escape(doc, s) == s.(i := s.i + 3, out := s.out + [I.CodePage1252(byte)])
  {
    hide HexDigit, Cp1252;
    assert Slice(doc, s.i + 1, s.i + 3) == [doc[s.i + 1], doc[s.i + 2]];
    SameCodePage(byte);
  }

  // ----- control words ------------------------------------------------------------------------------

  lemma {:induction false} LettersEndAt(doc: Units, i: nat, end: nat)
    requires i <= end < |doc| && !IsLetter(doc[end]) && forall k | i <= k < end :: IsLetter(doc[k])
    ensures LettersEnd(doc, i) == end
    decreases end - i
  {
    if i < end {
      LettersEndAt(doc, i + 1, end);
    }
  }

  predicate IsNumberUnit(u: Unit) {
    u == U('-') || IsDigit(u)
  }

  lemma {:induction false} NumberEndAt(doc: Units, i: nat, end: nat)
    requires i <= end < |doc| && !IsNumberUnit(doc[end]) && forall k | i <= k < end :: IsNumberUnit(doc[k])
    ensures NumberEnd(doc, i) == end
    decreases end - i
  {
    if i < end {
      NumberEndAt(doc, i + 1, end);
    }
  }

  /** A control word is a word, a parameter that may be empty, and a character after them. */
  predicate IsControl(word: string, param: string, after: char) {
    && I.IsWord(word) && (forall k | 0 <= k < |param| :: R.IsParamChar(param[k]))
    && after as int < 128 && !T.IsAlpha(after) && !R.IsParamChar(after)
  }

  function ControlText(word: string, param: string, after: char): string {
    "\\" + word + param + [after]
  }

  lemma WordLayout(doc: Units, i: nat, word: string, param: string, after: char)
    returns (wordEnd: nat, paramEnd: nat)
    requires IsControl(word, param, after) && Stands(doc, i, ControlText(word, param, after))
    ensures wordEnd == i + 1 + |word| && paramEnd == wordEnd + |param| < |doc|
    ensures At(doc, i, '\\') && IsLetter(doc[i + 1]) && doc[paramEnd] == U(after)
    ensures LettersEnd(doc, i + 1) == wordEnd && NumberEnd(doc, wordEnd) == paramEnd
    ensures Slice(doc, i + 1, wordEnd) == Ascii(word) && Slice(doc, wordEnd, paramEnd) == Ascii(param)
    ensures |W.Utf16(ControlText(word, param, after))| == |word| + |param| + 2
  {
    hide Stands, LettersEnd, NumberEnd, W.Utf16;
    var text := ControlText(word, param, after);
    wordEnd := i + 1 + |word|;
    paramEnd := wordEnd + |param|;
    AsciiStands(doc, i, text);
    forall k | i + 1 <= k < wordEnd
      ensures doc[k] == U(word[k - i - 1])
    {
      assert doc[i + (k - i)] == U(text[k - i]);
    }
    forall k | wordEnd <= k < paramEnd
      ensures doc[k] == U(param[k - wordEnd])
    {
      assert doc[i + (k - i)] == U(text[k - i]);
    }
    assert doc[i + 0] == U(text[0]) && doc[i + 1] == U(word[0]);
    assert doc[i + (|text| - 1)] == U(text[|text| - 1]);
    NotALetter(doc, wordEnd, paramEnd, param, after);
    LettersEndAt(doc, i + 1, wordEnd);
    NumberEndAt(doc, wordEnd, paramEnd);
  }

  lemma NotALetter(doc: Units, wordEnd: nat, paramEnd: nat, param: string, after: char)
    requires paramEnd == wordEnd + |param| < |doc| && doc[paramEnd] == U(after)
    requires forall k | wordEnd <= k < paramEnd :: doc[k] == U(param[k - wordEnd])
    requires IsControl("a", param, after)
    ensures !IsLetter(doc[wordEnd])
  {
  }

  /** The words this decoder has a meaning for, besides `u` and `uc`. */
  function WordUnits(word: string): Units {
    if word == "par" || word == "line" then ['\n' as int] else if word == "tab" then ['\t' as int] else []
  }

  lemma AsciiIsInjective(a: string, b: string)
    requires B.IsAscii(a) && B.IsAscii(b)
    ensures Ascii(a) == Ascii(b) <==> a == b
  {
    if Ascii(a) == Ascii(b) {
      assert |a| == |Ascii(a)| == |b|;
      assert forall k | 0 <= k < |a| :: a[k] as int == Ascii(a)[k] == Ascii(b)[k] == b[k] as int;
    }
  }

  lemma PlainControlWord(doc: Units, s: State, word: string, wordEnd: nat, paramEnd: nat, next: nat)
    requires I.IsWord(word) && word != "u" && word != "uc"
    requires LettersEnd(doc, s.i) == wordEnd && NumberEnd(doc, wordEnd) == paramEnd
    requires Slice(doc, s.i, wordEnd) == Ascii(word)
    requires next == if At(doc, paramEnd, ' ') then paramEnd + 1 else paramEnd
    ensures ControlWord(doc, s) == s.(i := next, out := s.out + WordUnits(word))
  {
    hide LettersEnd, NumberEnd, ParseInt, AfterFallback;
    AsciiIsInjective(word, "par");
    AsciiIsInjective(word, "line");
    AsciiIsInjective(word, "tab");
    AsciiIsInjective(word, "uc");
    AsciiIsInjective(word, "u");
    assert s.out + [] == s.out;
  }

  lemma CountControlWord(doc: Units, s: State, wordEnd: nat, paramEnd: nat, count: nat)
    requires LettersEnd(doc, s.i) == wordEnd < NumberEnd(doc, wordEnd) == paramEnd && At(doc, paramEnd, ' ')
    requires Slice(doc, s.i, wordEnd) == Ascii("uc") && ParseInt(Slice(doc, wordEnd, paramEnd)) == Some(count)
    ensures ControlWord(doc, s) == s.(i := paramEnd + 1, ucSkip := if count <= 8 then count else 8)
  {
    hide LettersEnd, NumberEnd, ParseInt, AfterFallback;
    assert |Ascii("par")| == |Ascii("tab")| == 3 && |Ascii("line")| == 4 && |Ascii("uc")| == 2;
  }

  lemma UnitControlWord(doc: Units, s: State, wordEnd: nat, paramEnd: nat, unit: Unit, next: nat, end: nat)
    requires LettersEnd(doc, s.i) == wordEnd < NumberEnd(doc, wordEnd) == paramEnd
    requires Slice(doc, s.i, wordEnd) == Ascii("u") && ParseInt(Slice(doc, wordEnd, paramEnd)) == Some(W.Signed(unit))
    requires next == if At(doc, paramEnd, ' ') then paramEnd + 1 else paramEnd
    requires AfterFallback(doc, next, s.ucSkip) == end
    ensures ControlWord(doc, s) == s.(i := end, out := s.out + [unit])
  {
    hide LettersEnd, NumberEnd, ParseInt, AfterFallback;
    assert |Ascii("par")| == |Ascii("tab")| == 3 && |Ascii("line")| == 4 && |Ascii("uc")| == 2 && |Ascii("u")| == 1;
  }

  lemma WordIsRead(doc: Units, f: State -> State, s: State, word: string, param: string)
    requires NoRoundChanges(doc, f) && InText(s) && IsControl(word, param, ' ') && word != "u" && word != "uc"
    requires Stands(doc, s.i, ControlText(word, param, ' '))
    ensures f(s) == f(After(s, |W.Utf16(ControlText(word, param, ' '))|, WordUnits(word)))
  {
    hide Stands, LettersEnd, NumberEnd, WordUnits, ControlText;
    var wordEnd, paramEnd := WordLayout(doc, s.i, word, param, ' ');
    B.LetterMeansControlWord(doc, s.(i := s.i + 1));
    PlainControlWord(doc, s.(i := s.i + 1), word, wordEnd, paramEnd, paramEnd + 1);
    EscapeIsRead(doc, f, s, s.(i := paramEnd + 1, out := s.out + WordUnits(word)));
  }

  lemma NamedWordIsRead(doc: Units, f: State -> State, s: State, k: nat)
    requires NoRoundChanges(doc, f) && InText(s) && k < |I.NAMED| && Stands(doc, s.i, "\\" + I.NAMED[k].0 + " ")
    ensures f(s) == f(After(s, |W.Utf16("\\" + I.NAMED[k].0 + " ")|, Meaning(I.Word(k))))
  {
    hide Stands, NoRoundChanges;
    I.NameIsAWord(k);
    assert ControlText(I.NAMED[k].0, "", ' ') == "\\" + I.NAMED[k].0 + " ";
    WordIsRead(doc, f, s, I.NAMED[k].0, "");
    NamedWordMeans(k);
  }

  lemma NamedWordMeans(k: nat)
    requires k < |I.NAMED|
    ensures WordUnits(I.NAMED[k].0) == Meaning(I.Word(k))
  {
    assert |I.NAMED[3].0| == |I.NAMED[4].0| == |I.NAMED[5].0| == |I.NAMED[6].0| == |I.NAMED[9].0| == 6;
    assert |I.NAMED[7].0| == |I.NAMED[8].0| == 9;
    assert I.NAMED[2].0[0] == 't';
  }

  lemma OtherIsRead(doc: Units, f: State -> State, s: State, word: string, param: string)
    requires NoRoundChanges(doc, f) && InText(s) && I.IsItem(I.Other(word, param))
    requires Stands(doc, s.i, "\\" + word + param + " ")
    ensures f(s) == f(After(s, |W.Utf16("\\" + word + param + " ")|, []))
  {
    hide Stands, NoRoundChanges;
    FormattingMeansNothing(word);
    assert ControlText(word, param, ' ') == "\\" + word + param + " ";
    WordIsRead(doc, f, s, word, param);
  }

  lemma FormattingMeansNothing(word: string)
    requires I.IsFormatting(word)
    ensures WordUnits(word) == []
  {
    assert I.NAMED[0].0 == "par" && I.NAMED[1].0 == "line" && I.NAMED[2].0 == "tab";
  }

  // ----- numbered words -----------------------------------------------------------------------------

  lemma DecimalIsParam(n: nat)
    ensures ParseInt(Ascii(T.Decimal(n))) == Some(n)
    ensures T.Decimal(n) != "" && forall k | 0 <= k < |T.Decimal(n)| :: R.IsParamChar(T.Decimal(n)[k])
  {
    B.SignedDecimalIsRead(n);
  }

  lemma CountTextIsControl(count: nat)
    ensures I.CountText(count) == ControlText("uc", T.Decimal(count), ' ')
  {
  }

  /** `\ucN` */
  lemma CountIsRead(doc: Units, f: State -> State, s: State, count: nat)
    requires NoRoundChanges(doc, f) && s.skipDepth.None? && Stands(doc, s.i, I.CountText(count))
    ensures f(s) == f(s.(i := s.i + |W.Utf16(I.CountText(count))|, ucSkip := if count <= 8 then count else 8))
  {
    hide Stands, LettersEnd, NumberEnd, NoRoundChanges, W.Utf16, ParseInt, ControlText, I.CountText;
    var param := T.Decimal(count);
    DecimalIsParam(count);
    CountTextIsControl(count);
    var wordEnd, paramEnd := WordLayout(doc, s.i, "uc", param, ' ');
    B.LetterMeansControlWord(doc, s.(i := s.i + 1));
    CountControlWord(doc, s.(i := s.i + 1), wordEnd, paramEnd, count);
    EscapeIsRead(doc, f, s, s.(i := paramEnd + 1, ucSkip := if count <= 8 then count else 8));
  }

  /** `\uN` with the fallback after it. */
  lemma UnitIsRead(doc: Units, f: State -> State, s: State, unit: Unit, after: char, next: nat, end: nat)
    requires NoRoundChanges(doc, f) && s.skipDepth.None? && after in "? "
    requires Stands(doc, s.i, ControlText("u", T.SignedDecimal(W.Signed(unit)), after))
    requires next == s.i + |T.SignedDecimal(W.Signed(unit))| + if after == ' ' then 3 else 2
    requires AfterFallback(doc, next, s.ucSkip) == end
    ensures f(s) == f(s.(i := end, out := s.out + [unit]))
  {
    hide Stands, LettersEnd, NumberEnd, NoRoundChanges, ControlText, AfterFallback;
    var param := T.SignedDecimal(W.Signed(unit));
    B.SignedDecimalIsRead(W.Signed(unit));
    W.SignedDecimalIsParam(W.Signed(unit));
    var wordEnd, paramEnd := WordLayout(doc, s.i, "u", param, after);
    B.LetterMeansControlWord(doc, s.(i := s.i + 1));
    UnitControlWord(doc, s.(i := s.i + 1), wordEnd, paramEnd, unit, next, end);
    EscapeIsRead(doc, f, s, s.(i := end, out := s.out + [unit]));
  }

  lemma EscapedUnitIsRead(doc: Units, f: State -> State, s: State, unit: Unit)
    requires NoRoundChanges(doc, f) && InText(s) && Stands(doc, s.i, W.EscapeUnit(unit))
    ensures f(s) == f(After(s, |W.Utf16(W.EscapeUnit(unit))|, [unit]))
  {
    hide NoRoundChanges, LettersEnd, NumberEnd;
    var param := T.SignedDecimal(W.Signed(unit));
    W.SignedDecimalIsParam(W.Signed(unit));
    assert ControlText("u", param, '?') == W.EscapeUnit(unit);
    var wordEnd, paramEnd := WordLayout(doc, s.i, "u", param, '?');
    assert AfterFallback(doc, paramEnd, 1) == AfterFallback(doc, paramEnd + 1, 0) == paramEnd + 1;
    UnitIsRead(doc, f, s, unit, '?', paramEnd, paramEnd + 1);
  }

  lemma UnicodeIsRead(doc: Units, f: State -> State, s: State, c: char)
    requires NoRoundChanges(doc, f) && InText(s) && Stands(doc, s.i, W.EscapeUnits(W.UnitsOf(c)))
    ensures f(s) == f(After(s, |W.Utf16(W.EscapeUnits(W.UnitsOf(c)))|, W.UnitsOf(c)))
  {
    hide Stands, NoRoundChanges;
    UnitsAreRead(doc, f, s, W.UnitsOf(c));
  }

  lemma {:induction false} UnitsAreRead(doc: Units, f: State -> State, s: State, units: Units)
    requires NoRoundChanges(doc, f) && InText(s) && Stands(doc, s.i, W.EscapeUnits(units))
    ensures f(s) == f(After(s, |W.Utf16(W.EscapeUnits(units))|, units))
    decreases |units|
  {
    hide Stands, NoRoundChanges;
    if units == [] {
      assert s.out + [] == s.out;
    } else {
      var first, rest := W.EscapeUnit(units[0]), W.EscapeUnits(units[1..]);
      StandsSplits(doc, s.i, first, rest);
      EscapedUnitIsRead(doc, f, s, units[0]);
      UnitsAreRead(doc, f, After(s, |W.Utf16(first)|, [units[0]]), units[1..]);
      AfterInTwo(s, |W.Utf16(first)|, [units[0]], |W.Utf16(rest)|, units[1..]);
      assert [units[0]] + units[1..] == units;
    }
  }

  lemma AfterInTwo(s: State, first: nat, meant: Units, rest: nat, more: Units)
    ensures After(After(s, first, meant), rest, more) == After(s, first + rest, meant + more)
  {
    assert s.out + meant + more == s.out + (meant + more);
  }

  // ----- fallback characters ------------------------------------------------------------------------

  lemma {:induction false} StandInsAreSkipped(doc: Units, i: nat, stand: seq<I.Item>)
    requires I.AreItems(stand) && forall k | 0 <= k < |stand| :: I.IsStandIn(stand[k])
    requires Stands(doc, i, I.ItemsText(stand))
    ensures AfterFallback(doc, i, |stand|) == i + |W.Utf16(I.ItemsText(stand))|
    decreases |stand|
  {
    hide Stands, I.ItemText;
    if stand != [] {
      var first, rest := I.ItemText(stand[0]), I.ItemsText(stand[1..]);
      StandsSplits(doc, i, first, rest);
      StandInsAreSkipped(doc, i + |W.Utf16(first)|, stand[1..]);
      StandInIsSkipped(doc, i, stand[0], |stand|);
    }
  }

  lemma StandInIsSkipped(doc: Units, i: nat, item: I.Item, count: nat)
    requires I.IsStandIn(item) && I.IsItem(item) && Stands(doc, i, I.ItemText(item)) && count > 0
    ensures AfterFallback(doc, i, count) == AfterFallback(doc, i + |W.Utf16(I.ItemText(item))|, count - 1)
  {
    if item.Hex? {
      var text := "\\'" + I.HexText(item.byte, item.upper);
      DigitIsRead(item.byte / 16, item.upper);
      DigitIsRead(item.byte % 16, item.upper);
      AsciiStands(doc, i, text);
      assert doc[i + 0] == U('\\') && doc[i + 1] == U('\'') && |text| == 4;
    } else {
      assert W.Utf16([item.c]) == W.UnitsOf(item.c) == [item.c as int];
      AtUnit(doc, i, [item.c as int], 0);
    }
  }

  lemma ReplacedIsRead(doc: Units, f: State -> State, s: State, c: char, count: nat, stand: seq<I.Item>)
    requires NoRoundChanges(doc, f) && I.IsItem(I.Replaced(c, count, stand)) && I.AreItems(stand) && InText(s)
    requires Stands(doc, s.i, I.ReplacedText(c, count, I.ItemsText(stand), s.ucSkip))
    ensures f(s) == f(After(s, |W.Utf16(I.ReplacedText(c, count, I.ItemsText(stand), s.ucSkip))|, [c as int]))
  {
    hide Stands, NoRoundChanges, AfterFallback, W.Utf16;
    var text, last := I.ItemsText(stand), I.CountText(s.ucSkip);
    var unitAt := s.i + |W.Utf16(I.CountText(count))|;
    var standAt := unitAt + |W.Utf16(I.UnitText(c as int))|;
    var lastAt := standAt + |W.Utf16(text)|;
    StandsSplits(doc, s.i, I.CountText(count), I.UnitText(c as int) + (text + last));
    StandsSplits(doc, unitAt, I.UnitText(c as int), text + last);
    StandsSplits(doc, standAt, text, last);
    StandInsAreSkipped(doc, standAt, stand);
    ReplacedPartsAreRead(doc, f, s, c, count, |stand|, unitAt, standAt, lastAt);
  }

  lemma ReplacedPartsAreRead(
      doc: Units, f: State -> State, s: State, c: char, count: nat, skip: nat, unitAt: nat, standAt: nat, lastAt: nat)
    requires NoRoundChanges(doc, f) && InText(s) && c as int < 0x1_0000 && skip == if count <= 8 then count else 8
    requires unitAt == s.i + |W.Utf16(I.CountText(count))| && Stands(doc, s.i, I.CountText(count))
    requires standAt == unitAt + |W.Utf16(I.UnitText(c as int))| && Stands(doc, unitAt, I.UnitText(c as int))
    requires AfterFallback(doc, standAt, skip) == lastAt && Stands(doc, lastAt, I.CountText(s.ucSkip))
    ensures f(s) == f(s.(i := lastAt + |W.Utf16(I.CountText(s.ucSkip))|, out := s.out + [c as int]))
  {
    hide Stands, NoRoundChanges, AfterFallback;
    CountIsRead(doc, f, s, count);
    UnitTextLength(c as int);
    UnitIsRead(doc, f, s.(i := unitAt, ucSkip := skip), c as int, ' ', standAt, lastAt);
    CountIsRead(doc, f, s.(i := lastAt, ucSkip := skip, out := s.out + [c as int]), s.ucSkip);
  }

  lemma UnitTextLength(unit: Unit)
    ensures I.UnitText(unit) == ControlText("u", T.SignedDecimal(W.Signed(unit)), ' ')
    ensures |W.Utf16(I.UnitText(unit))| == |T.SignedDecimal(W.Signed(unit))| + 3
  {
    W.SignedDecimalIsParam(W.Signed(unit));
    Utf16OfAscii(I.UnitText(unit));
  }

  // ----- groups -------------------------------------------------------------------------------------

  lemma GroupLayout(doc: Units, i: nat, text: string)
    requires Stands(doc, i, "{" + text + "}")
    ensures At(doc, i, '{') && Stands(doc, i + 1, text) && At(doc, i + 1 + |W.Utf16(text)|, '}')
    ensures |W.Utf16("{" + text + "}")| == |W.Utf16(text)| + 2
  {
    StandsSplits(doc, i, "{" + text, "}");
    StandsSplits(doc, i, "{", text);
    AsciiStands(doc, i, "{");
    AsciiStands(doc, i + 1 + |W.Utf16(text)|, "}");
    assert doc[i + 0] == U('{') && doc[i + 1 + |W.Utf16(text)| + 0] == U('}');
  }

  lemma GroupCloses(doc: Units, f: State -> State, s: State, saved: nat, stack: seq<nat>)
    requires NoRoundChanges(doc, f) && At(doc, s.i, '}') && s.skipDepth.None? && s.depth > 0
    requires s.ucStack == stack + [saved]
    ensures f(s) == f(s.(i := s.i + 1, depth := s.depth - 1, ucSkip := saved, ucStack := stack))
  {
    assert s.ucStack[..|s.ucStack| - 1] == stack;
    assert Step(doc, s) == s.(i := s.i + 1, depth := s.depth - 1, ucSkip := saved, ucStack := stack);
  }

  // ----- tables -------------------------------------------------------------------------------------

  lemma NameGoesOn(doc: Units, i: nat, name: string)
    requires i < |doc| && name != ""
    ensures Ascii(name) <= doc[i..] <==> doc[i] == U(name[0]) && Ascii(name[1..]) <= doc[i + 1..]
  {
    assert Ascii(name) == [U(name[0])] + Ascii(name[1..]);
    FirstAndRest(doc[i..], U(name[0]), Ascii(name[1..]));
    assert doc[i..][1..] == doc[i + 1..];
  }

  lemma NoUnits()
    ensures W.Utf16("") == []
  {
  }

  lemma FirstUnitStands(doc: Units, i: nat, text: string)
    requires text != "" && Stands(doc, i, text)
    ensures i < |doc| && doc[i] == W.UnitsOf(text[0])[0]
  {
    AtUnit(doc, i, W.Utf16(text), 0);
  }

  lemma RestStands(doc: Units, i: nat, text: string)
    requires text != "" && text[0] as int < 0x1_0000 && Stands(doc, i, text)
    ensures Stands(doc, i + 1, text[1..]) && |W.Utf16(text)| == 1 + |W.Utf16(text[1..])|
  {
    assert [text[0]] + text[1..] == text && W.Utf16([text[0]]) == [text[0] as int];
    StandsSplits(doc, i, [text[0]], text[1..]);
  }

  /** A name's units stand before the end of a group only if the group's text starts with the name. */
  lemma {:induction false} NameStandsInText(doc: Units, i: nat, text: string, name: string)
    requires B.IsAscii(name) && '}' !in name && Stands(doc, i, text) && At(doc, i + |W.Utf16(text)|, '}')
    ensures i <= |doc| && (Ascii(name) <= doc[i..] ==> name <= text)
    decreases |name|
  {
    hide Stands, Ascii, W.Utf16;
    if name == "" {
      assert name <= text;
    } else if text == "" {
      NoUnits();
      NameGoesOn(doc, i, name);
    } else {
      FirstUnitStands(doc, i, text);
      NameGoesOn(doc, i, name);
      if text[0] == name[0] {
        RestStands(doc, i, text);
        NameStandsInText(doc, i + 1, text[1..], name[1..]);
        assert name == [name[0]] + name[1..] && text == [text[0]] + text[1..];
      }
    }
  }

  lemma TableNames()
    ensures I.TABLES[0] == "\\" + SKIPPED_GROUPS[0] && I.TABLES[1] == "\\" + SKIPPED_GROUPS[1]
    ensures I.TABLES[5] == "\\" + SKIPPED_GROUPS[2] && I.TABLES[2] == "\\" + SKIPPED_GROUPS[3]
    ensures I.TABLES[3] == "\\" + SKIPPED_GROUPS[4] && I.TABLES[6] == "\\" + SKIPPED_GROUPS[5]
    ensures I.TABLES[4] == "\\" + "*\\"
  {
  }

  lemma NameAfterBackslash(doc: Units, i: nat, name: string)
    requires i + 1 <= |doc| && |name| <= 20
    ensures At(doc, i + 1, '\\') && Ascii(name) <= Slice(doc, i + 2, i + 22) <==> Ascii("\\" + name) <= doc[i + 1..]
  {
    assert Ascii("\\" + name) == [U('\\')] + Ascii(name);
    FirstAndRest(doc[i + 1..], U('\\'), Ascii(name));
    if i + 1 < |doc| {
      assert doc[i + 1..][1..] == doc[i + 2..];
      InTheFirst(doc, i + 2, i + 22, Ascii(name));
    }
  }

  lemma FirstAndRest(units: Units, first: Unit, rest: Units)
    ensures [first] + rest <= units <==> units != [] && units[0] == first && rest <= units[1..]
  {
    if [first] + rest <= units {
      assert ([first] + rest)[0] == first && ([first] + rest)[1..] == rest;
    }
    if units != [] && units[0] == first && rest <= units[1..] {
      assert units == [units[0]] + units[1..];
    }
  }

  lemma InTheFirst(units: Units, from: nat, to: nat, name: Units)
    requires from <= |units| && from + |name| <= to
    ensures name <= Slice(units, from, to) <==> name <= units[from..]
  {
    var head := Slice(units, from, to);
    assert head <= units[from..];
  }

  /** The group opened at `i` is skipped exactly when a table's name follows its brace. */
  lemma OpensSkippedGroupExactly(doc: Units, i: nat)
    requires At(doc, i, '{')
    ensures OpensSkippedGroup(doc, i) <==> exists k | 0 <= k < 7 :: Ascii(I.TABLES[k]) <= doc[i + 1..]
  {
    hide Slice, Ascii;
    TableNames();
    NameAfterBackslash(doc, i, "*\\");
    forall k | 0 <= k < |SKIPPED_GROUPS|
      ensures At(doc, i + 1, '\\') && Ascii(SKIPPED_GROUPS[k]) <= Slice(doc, i + 2, i + 22)
         <==> Ascii("\\" + SKIPPED_GROUPS[k]) <= doc[i + 1..]
    {
      NameAfterBackslash(doc, i, SKIPPED_GROUPS[k]);
    }
  }

  lemma OpensNoTable(doc: Units, i: nat, text: string)
    requires At(doc, i, '{') && Stands(doc, i + 1, text) && At(doc, i + 1 + |W.Utf16(text)|, '}')
    requires !I.MayBeSkipped(text)
    ensures !OpensSkippedGroup(doc, i)
  {
    hide Stands, OpensSkippedGroup, Ascii, W.Utf16;
    OpensSkippedGroupExactly(doc, i);
    forall k | 0 <= k < 7
      ensures !(Ascii(I.TABLES[k]) <= doc[i + 1..])
    {
      assert !T.StartsWith(text, I.TABLES[k]);
      I.NoBraceInTables(k);
      NameStandsInText(doc, i + 1, text, I.TABLES[k]);
    }
  }

  lemma OpensTable(doc: Units, i: nat, k: nat, body: string)
    requires k < 7 && At(doc, i, '{') && Stands(doc, i + 1, I.TABLES[k] + body)
    ensures OpensSkippedGroup(doc, i)
  {
    hide OpensSkippedGroup, Stands, Ascii, At;
    var name := I.TABLES[k];
    StandsSplits(doc, i + 1, name, body);
    TableIsAscii(k);
    NameIsPrefix(doc, i + 1, name);
    OpensSkippedGroupExactly(doc, i);
    assert Ascii(I.TABLES[k]) <= doc[i + 1..];
  }

  lemma TableIsAscii(k: nat)
    requires k < |I.TABLES|
    ensures B.IsAscii(I.TABLES[k])
  {
  }

  lemma NameIsPrefix(doc: Units, i: nat, name: string)
    requires Stands(doc, i, name) && B.IsAscii(name)
    ensures i <= |doc| && Ascii(name) <= doc[i..]
  {
    Utf16OfAscii(name);
    assert doc[i..][..|Ascii(name)|] == Ascii(name);
  }

  lemma {:induction false} UnitsAreNoBraces(text: string)
    requires '{' !in text && '}' !in text
    ensures forall k | 0 <= k < |W.Utf16(text)| :: W.Utf16(text)[k] != U('{') && W.Utf16(text)[k] != U('}')
    decreases |text|
  {
    if text != "" {
      UnitsAreNoBraces(text[1..]);
    }
  }

  lemma {:induction false} TextIsSkipped(doc: Units, f: State -> State, s: State, end: nat)
    requires NoRoundChanges(doc, f) && s.skipDepth.Some? && s.i <= end <= |doc|
    requires forall j | s.i <= j < end :: doc[j] != U('{') && doc[j] != U('}')
    ensures f(s) == f(s.(i := end))
    decreases end - s.i
  {
    if s.i < end {
      assert Step(doc, s) == s.(i := s.i + 1);
      TextIsSkipped(doc, f, s.(i := s.i + 1), end);
    }
  }

  lemma TableIsRead(doc: Units, f: State -> State, s: State, k: nat, body: string)
    requires NoRoundChanges(doc, f) && I.IsItem(I.Table(k, body)) && InText(s)
    requires Stands(doc, s.i, "{" + (I.TABLES[k] + body) + "}")
    ensures f(s) == f(After(s, |W.Utf16("{" + (I.TABLES[k] + body) + "}")|, []))
  {
    hide Stands, NoRoundChanges, OpensSkippedGroup;
    var text := I.TABLES[k] + body;
    I.NoBraceInTables(k);
    GroupLayout(doc, s.i, text);
    OpensTable(doc, s.i, k, body);
    TableTextIsRead(doc, f, s, text);
  }

  lemma TableTextIsRead(doc: Units, f: State -> State, s: State, text: string)
    requires NoRoundChanges(doc, f) && InText(s) && '{' !in text && '}' !in text
    requires At(doc, s.i, '{') && OpensSkippedGroup(doc, s.i) && Stands(doc, s.i + 1, text)
    requires At(doc, s.i + 1 + |W.Utf16(text)|, '}')
    ensures f(s) == f(After(s, |W.Utf16(text)| + 2, []))
  {
    hide OpensSkippedGroup;
    var inside := s.(i := s.i + 1, depth := s.depth + 1, skipDepth := Some(s.depth + 1),
                     ucStack := s.ucStack + [s.ucSkip]);
    var end := s.i + 1 + |W.Utf16(text)|;
    assert Step(doc, s) == inside;
    UnitsAreNoBraces(text);
    forall j | inside.i <= j < end
      ensures doc[j] != U('{') && doc[j] != U('}')
    {
      AtUnit(doc, s.i + 1, W.Utf16(text), j - inside.i);
    }
    TextIsSkipped(doc, f, inside, end);
    TableCloses(doc, f, s, end);
  }

  lemma TableCloses(doc: Units, f: State -> State, s: State, end: nat)
    requires NoRoundChanges(doc, f) && s.skipDepth.None? && At(doc, end, '}')
    ensures f(s.(i := end, depth := s.depth + 1, skipDepth := Some(s.depth + 1), ucStack := s.ucStack + [s.ucSkip]))
         == f(s.(i := end + 1, out := s.out + []))
  {
    var inside := s.(i := end, depth := s.depth + 1, skipDepth := Some(s.depth + 1),
                     ucStack := s.ucStack + [s.ucSkip]);
    assert inside.ucStack[..|inside.ucStack| - 1] == s.ucStack && s.out + [] == s.out;
    assert Step(doc, inside) == s.(i := end + 1);
  }

  // ----- items and lists ----------------------------------------------------------------------------

  lemma {:induction false} ItemIsRead(doc: Units, f: State -> State, s: State, item: I.Item)
    requires NoRoundChanges(doc, f) && I.IsItem(item) && InText(s) && Stands(doc, s.i, I.ItemText(item))
    ensures f(s) == f(After(s, |W.Utf16(I.ItemText(item))|, Meaning(item)))
    decreases item
  {
    hide Stands, NoRoundChanges, W.Utf16, WordUnits;
    match item {
      case Plain(c) => PlainCharIsRead(doc, f, s, c);
      case Escaped(c) => EscapedIsRead(doc, f, s, c);
      case Symbol(c) => SymbolIsRead(doc, f, s, c);
      case Hex(byte, upper) => HexIsRead(doc, f, s, byte, upper);
      case Word(k) => NamedWordIsRead(doc, f, s, k);
      case Other(word, param) => OtherIsRead(doc, f, s, word, param);
      case Unicode(c) => UnicodeIsRead(doc, f, s, c);
      case Replaced(c, count, stand) => ReplacedIsRead(doc, f, s, c, count, stand);
      case Continuation(crlf) => ContinuationIsRead(doc, f, s, crlf);
      case Table(k, body) => TableIsRead(doc, f, s, k, body);
      case Group(items) => GroupIsRead(doc, f, s, items);
    }
  }

  lemma PlainCharIsRead(doc: Units, f: State -> State, s: State, c: char)
    requires NoRoundChanges(doc, f) && I.IsItem(I.Plain(c)) && Stands(doc, s.i, [c]) && InText(s)
    ensures f(s) == f(After(s, |W.Utf16([c])|, W.UnitsOf(c)))
  {
    assert W.Utf16([c]) == W.UnitsOf(c) + W.Utf16([]) == W.UnitsOf(c);
    PlainIsRead(doc, f, s, c);
  }

  lemma {:induction false} GroupIsRead(doc: Units, f: State -> State, s: State, items: seq<I.Item>)
    requires NoRoundChanges(doc, f) && I.AreItems(items) && !I.MayBeSkipped(I.ItemsText(items)) && InText(s)
    requires Stands(doc, s.i, "{" + I.ItemsText(items) + "}")
    ensures f(s) == f(After(s, |W.Utf16("{" + I.ItemsText(items) + "}")|, Meanings(items)))
    decreases items, 1
  {
    hide Stands, OpensSkippedGroup, I.MayBeSkipped, I.ItemsText;
    var text := I.ItemsText(items);
    var inside := s.(i := s.i + 1, depth := s.depth + 1, ucStack := s.ucStack + [s.ucSkip]);
    GroupLayout(doc, s.i, text);
    OpensNoTable(doc, s.i, text);
    assert Step(doc, s) == inside;
    ItemsAreRead(doc, f, inside, items);
    GroupCloses(doc, f, After(inside, |W.Utf16(text)|, Meanings(items)), s.ucSkip, s.ucStack);
  }

  lemma {:induction false} ItemsAreRead(doc: Units, f: State -> State, s: State, items: seq<I.Item>)
    requires NoRoundChanges(doc, f) && I.AreItems(items) && Stands(doc, s.i, I.ItemsText(items)) && InText(s)
    ensures f(s) == f(After(s, |W.Utf16(I.ItemsText(items))|, Meanings(items)))
    decreases items, 0
  {
    hide Stands, I.ItemText, Meaning, NoRoundChanges, I.IsItem;
    if items == [] {
      assert s.out + [] == s.out;
    } else {
      var first, rest := I.ItemText(items[0]), I.ItemsText(items[1..]);
      StandsSplits(doc, s.i, first, rest);
      ItemIsRead(doc, f, s, items[0]);
      ItemsAreRead(doc, f, After(s, |W.Utf16(first)|, Meaning(items[0])), items[1..]);
      AfterInTwo(s, |W.Utf16(first)|, Meaning(items[0]), |W.Utf16(rest)|, Meanings(items[1..]));
    }
  }

  // ----- the document -------------------------------------------------------------------------------

  /** Where the loop ends. */
  ghost function End(doc: Units): State -> State {
    (s: State) => Loop(doc, s)
  }

  lemma NoRoundChangesTheEnd(doc: Units)
    ensures NoRoundChanges(doc, End(doc))
  {
    forall s: State | s.i < |doc|
      ensures End(doc)(s) == End(doc)(Step(doc, s))
    {
      LoopStep(doc, s, Step(doc, s));
    }
  }

  lemma HeaderIsRead(doc: Units, f: State -> State)
    requires NoRoundChanges(doc, f) && Stands(doc, 0, W.HEADER)
    ensures f(INITIAL) == f(INITIAL.(i := |W.HEADER|, depth := 1, ucStack := [1]))
    ensures |W.Utf16(W.HEADER)| == |W.HEADER|
  {
    hide Stands, NoRoundChanges, W.Utf16;
    var inside := INITIAL.(i := 1, depth := 1, ucStack := [1]);
    HeaderSplits(doc);
    DocumentOpens(doc, f);
    RtfWordIsRead(doc, f, inside);
    CountIsRead(doc, f, inside.(i := 6), 1);
    HeaderInTwo();
    Utf16OfAscii(I.CountText(1));
    Utf16OfAscii(W.HEADER);
  }

  lemma HeaderSplits(doc: Units)
    requires Stands(doc, 0, W.HEADER)
    ensures At(doc, 0, '{') && doc[2] == U('r') && At(doc, 6, '\\')
    ensures Stands(doc, 1, ControlText("rtf", "1", '\\')) && Stands(doc, 6, I.CountText(1))
  {
    hide Stands, W.Utf16;
    UnitStands(doc, 0, W.HEADER, 0);
    UnitStands(doc, 0, W.HEADER, 2);
    UnitStands(doc, 0, W.HEADER, 6);
    Utf16OfAscii("{");
    Utf16OfAscii("{\\rtf1");
    assert W.HEADER == "{" + (ControlText("rtf", "1", '\\') + "uc1 ");
    StandsSplits(doc, 0, "{", ControlText("rtf", "1", '\\') + "uc1 ");
    StandsSplits(doc, 1, ControlText("rtf", "1", '\\'), "uc1 ");
    HeaderInTwo();
    StandsSplits(doc, 0, "{\\rtf1", I.CountText(1));
  }

  lemma HeaderInTwo()
    ensures W.HEADER == "{\\rtf1" + I.CountText(1) && |I.CountText(1)| == 5 && B.IsAscii(I.CountText(1))
  {
  }

  lemma DocumentOpens(doc: Units, f: State -> State)
    requires NoRoundChanges(doc, f) && At(doc, 0, '{') && |doc| > 2 && doc[2] == U('r')
    ensures f(INITIAL) == f(INITIAL.(i := 1, depth := 1, ucStack := [1]))
  {
    forall k | 0 <= k < 7
      ensures !(Ascii(I.TABLES[k]) <= doc[1..])
    {
      assert doc[1..][1] == U('r') && Ascii(I.TABLES[k])[1] != U('r');
    }
    OpensSkippedGroupExactly(doc, 0);
    assert [] + [1] == [1];
    assert Step(doc, INITIAL) == INITIAL.(i := 1, depth := 1, ucStack := [1]);
  }

  lemma RtfWordIsRead(doc: Units, f: State -> State, s: State)
    requires NoRoundChanges(doc, f) && s.skipDepth.None? && Stands(doc, s.i, ControlText("rtf", "1", '\\'))
    ensures f(s) == f(s.(i := s.i + 5))
  {
    hide Stands, LettersEnd, NumberEnd, NoRoundChanges, W.Utf16;
    var wordEnd, paramEnd := WordLayout(doc, s.i, "rtf", "1", '\\');
    B.LetterMeansControlWord(doc, s.(i := s.i + 1));
    PlainControlWord(doc, s.(i := s.i + 1), "rtf", wordEnd, paramEnd, paramEnd);
    assert s.out + [] == s.out;
    EscapeIsRead(doc, f, s, s.(i := s.i + 5));
  }

  lemma ItemsDocumentIsRead(items: seq<I.Item>)
    requires I.AreItems(items)
    ensures Loop(W.Utf16(I.WriteItems(items)), INITIAL).out == Meanings(items)
  {
    hide Stands, NoRoundChanges, I.ItemsText;
    var doc, text := W.Utf16(I.WriteItems(items)), I.ItemsText(items);
    var s := INITIAL.(i := |W.HEADER|, depth := 1, ucStack := [1]);
    DocumentLayout(items);
    NoRoundChangesTheEnd(doc);
    HeaderIsRead(doc, End(doc));
    ItemsAreRead(doc, End(doc), s, items);
    assert [] + Meanings(items) == Meanings(items);
    LastBraceIsRead(doc, After(s, |W.Utf16(text)|, Meanings(items)));
  }

  lemma DocumentLayout(items: seq<I.Item>)
    requires I.AreItems(items)
    ensures var doc, end := W.Utf16(I.WriteItems(items)), |W.HEADER| + |W.Utf16(I.ItemsText(items))|;
            && |doc| == end + 1 && Stands(doc, 0, W.HEADER) && Stands(doc, |W.HEADER|, I.ItemsText(items))
            && At(doc, end, '}')
  {
    hide Stands, W.Utf16;
    var text := I.ItemsText(items);
    var doc := W.Utf16(I.WriteItems(items));
    WholeStands(I.WriteItems(items));
    StandsSplits(doc, 0, W.HEADER + text, "}");
    StandsSplits(doc, 0, W.HEADER, text);
    Utf16OfAscii(W.HEADER);
    Utf16OfAscii("}");
    UnitStands(doc, |W.HEADER| + |W.Utf16(text)|, "}", 0);
  }

  lemma LastBraceIsRead(doc: Units, s: State)
    requires At(doc, s.i, '}') && |doc| == s.i + 1
    ensures Loop(doc, s).out == s.out
  {
    LoopStep(doc, s, Step(doc, s));
  }

  /** The preview of the written document is the meanings in their order, with their white space flattened. */
  lemma ItemsArePreviewed(items: seq<I.Item>)
    requires I.AreItems(items)
    ensures PlainText(W.Utf16(I.WriteItems(items))) == B.Flattened(Meanings(items))
  {
    ItemsDocumentIsRead(items);
    DocumentIsRtf(items);
  }

  lemma DocumentIsRtf(items: seq<I.Item>)
    requires I.AreItems(items)
    ensures var doc := W.Utf16(I.WriteItems(items)); TrimUnitsStart(doc) == doc && Ascii("{\\rtf") <= doc
  {
    hide Stands, W.Utf16;
    var doc := W.Utf16(I.WriteItems(items));
    DocumentLayout(items);
    assert W.HEADER == "{\\rtf" + "1\\uc1 ";
    StandsSplits(doc, 0, "{\\rtf", "1\\uc1 ");
    NameIsPrefix(doc, 0, "{\\rtf");
    UnitStands(doc, 0, "{\\rtf", 0);
    assert doc[0..] == doc;
  }

  // ----- both decoders ------------------------------------------------------------------------------

  /**
   The desktop's decoder reads a dash, a quote or a bullet where this one reads nothing, and the symbol's own character
   where this one reads a space or nothing; and it keeps the line feed of a continued line that ends in two characters.
   */
  predicate ReadsDifferently(item: I.Item)
    decreases item, 0
  {
    || (item.Word? && item.k > 2) || item.Symbol? || (item.Continuation? && item.crlf)
    || (item.Group? && ReadDifferently(item.items))
  }

  predicate ReadDifferently(items: seq<I.Item>)
    decreases items, 0
  {
    exists i | 0 <= i < |items| :: ReadsDifferently(items[i])
  }

  lemma {:induction false} ItemMeansTheSameExactly(item: I.Item)
    requires I.IsItem(item)
    ensures |Meaning(item)| <= |W.Utf16(I.Meaning(item))|
    ensures Meaning(item) == W.Utf16(I.Meaning(item)) <==> !ReadsDifferently(item)
    decreases item, 0
  {
    if item.Group? {
      MeanTheSameExactly(item.items);
    } else if item.Continuation? {
      assert W.Utf16("\n") == ['\n' as int] && W.Utf16("") == [];
    } else if item.Symbol? {
      assert W.Utf16([item.c]) == [item.c as int];
    }
  }

  lemma {:induction false} MeanTheSameExactly(items: seq<I.Item>)
    requires I.AreItems(items)
    ensures |Meanings(items)| <= |W.Utf16(I.Meanings(items))|
    ensures Meanings(items) == W.Utf16(I.Meanings(items)) <==> !ReadDifferently(items)
    decreases items, 0
  {
    hide Meaning, I.Meaning, W.Utf16, I.IsItem, ReadsDifferently;
    if items == [] {
      NoUnits();
    } else {
      ItemMeansTheSameExactly(items[0]);
      MeanTheSameExactly(items[1..]);
      Utf16Append(I.Meaning(items[0]), I.Meanings(items[1..]));
      JoinedAreEqualExactly(Meaning(items[0]), Meanings(items[1..]),
                            W.Utf16(I.Meaning(items[0])), W.Utf16(I.Meanings(items[1..])));
      assert ReadDifferently(items) <==> ReadsDifferently(items[0]) || ReadDifferently(items[1..]);
    }
  }

  lemma JoinedAreEqualExactly(a: Units, b: Units, c: Units, d: Units)
    requires |a| <= |c| && |b| <= |d|
    ensures a + b == c + d <==> a == c && b == d
  {
    if a + b == c + d {
      assert |a| + |b| == |a + b| == |c| + |d|;
      assert a == (a + b)[..|a|] == c && b == (a + b)[|a|..] == d;
    }
  }

  /** The two decoders read the same text from a document exactly when no word or symbol in it means two things. */
  lemma DecodersAgreeExactly(items: seq<I.Item>)
    requires I.AreItems(items)
    ensures Loop(W.Utf16(I.WriteItems(items)), INITIAL).out
         == W.Utf16(R.Loop(I.WriteItems(items), R.INITIAL).out.text)
       <==> !ReadDifferently(items)
  {
    hide W.Utf16, Loop, R.Loop;
    ItemsDocumentIsRead(items);
    I.ItemsDocumentIsRead(items);
    MeanTheSameExactly(items);
  }
}
