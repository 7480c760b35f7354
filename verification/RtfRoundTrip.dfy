/** Writing a text with `\uN?` escapes and stripping the document returns the text. */
module RtfRoundTrip {
  import opened Options
  import opened RtfDecoder
  import opened Sequences
  import opened Text

  // ----- the writer -----------------------------------------------------------------------------

  /** The UTF-16 code units of a character: itself, or a surrogate pair. */
  function UnitsOf(c: char): seq<Unit> {
    var n := c as int;
    if n < 0x1_0000 then [n] else [0xD800 + (n - 0x1_0000) / 1024, 0xDC00 + (n - 0x1_0000) % 1024]
  }

  function Utf16(text: string): seq<Unit> {
    if text == "" then [] else UnitsOf(text[0]) + Utf16(text[1..])
  }

  /** A code unit as RTF writes it: a signed 16-bit number. */
  function Signed(unit: Unit): int {
    if unit < 0x8000 then unit else unit - 0x1_0000
  }

  function EscapeUnit(unit: Unit): string {
    "\\u" + SignedDecimal(Signed(unit)) + "?"
  }

  function EscapeUnits(units: seq<Unit>): string {
    if units == [] then "" else EscapeUnit(units[0]) + EscapeUnits(units[1..])
  }

  const HEADER := "{\\rtf1\\uc1 "

  function WriteUnits(units: seq<Unit>): string {
    HEADER + EscapeUnits(units) + "}"
  }

  function Write(text: string): string {
    WriteUnits(Utf16(text))
  }

  // ----- one escape -----------------------------------------------------------------------------

  lemma {:induction false} ParamEndAt(chars: string, i: nat, end: nat)
    requires i <= end < |chars|
    requires forall k | i <= k < end :: IsParamChar(chars[k])
    requires !IsParamChar(chars[end])
    ensures ParamEnd(chars, i) == end
    decreases end - i
  {
    if i < end {
      ParamEndAt(chars, i + 1, end);
    }
  }

  lemma {:induction false} WordEndAt(chars: string, i: nat, end: nat)
    requires i <= end < |chars|
    requires forall k | i <= k < end :: IsAlpha(chars[k])
    requires !IsAlpha(chars[end])
    ensures WordEnd(chars, i) == end
    decreases end - i
  {
    if i < end {
      WordEndAt(chars, i + 1, end);
    }
  }

  lemma SignedDecimalIsParam(n: int)
    ensures SignedDecimal(n) != "" && forall k | 0 <= k < |SignedDecimal(n)| :: IsParamChar(SignedDecimal(n)[k])
  {
    var digits := if n < 0 then Decimal(-n) else Decimal(n);
    forall k | 0 <= k < |SignedDecimal(n)|
      ensures IsParamChar(SignedDecimal(n)[k])
    {
      assert n < 0 && k > 0 ==> SignedDecimal(n)[k] == digits[k - 1];
    }
  }

  /** Where the parts of an escape lie. */
  lemma EscapeLayout(chars: string, i: nat, unit: Unit)
    requires At(chars, i, EscapeUnit(unit))
    ensures chars[i] == '\\' && WordEnd(chars, i + 1) == i + 2 && chars[i + 1..i + 2] == "u"
    ensures var end := i + 2 + |SignedDecimal(Signed(unit))|;
            ParamEnd(chars, i + 2) == end && chars[i + 2..end] == SignedDecimal(Signed(unit)) && chars[end] == '?'
  {
    var number := SignedDecimal(Signed(unit));
    SignedDecimalIsParam(Signed(unit));
    AtSplits(chars, i, "\\u" + number, "?");
    AtSplits(chars, i, "\\u", number);
    assert chars[i..i + 2][0] == '\\' && chars[i..i + 2][1] == 'u';
    forall k | 0 <= k < |number|
      ensures chars[i + 2 + k] == number[k]
    {
      assert chars[i + 2..i + 2 + |number|][k] == number[k];
    }
    assert chars[i + 2 + |number|..i + 2 + |number| + 1] == "?";
    assert chars[i + 2 + |number|..i + 2 + |number| + 1][0] == '?';
    assert IsParamChar(chars[i + 2]) by {
      assert chars[i + 2 + 0] == number[0];
    }
    ParamEndAt(chars, i + 2, i + 2 + |number|);
    WordEndAt(chars, i + 1, i + 2);
  }

  /** `\uN` followed by one plain fallback character. */
  lemma UnicodeEscapeIsRead(chars: string, s: State, number: string, unit: Unit, end: nat)
    requires ParseI32(number) == Some(Signed(unit))
    requires end < |chars| && chars[end] == '?' && s.ucSkip == 1
    ensures UnicodeEscape(chars, s, number, end) == s.(i := end + 1, out := PushUnit(s.out, unit))
  {
    assert UnitOf(Signed(unit)) == unit;
    assert AfterFallback(chars, end, 1) == AfterFallback(chars, end + 1, 0);
  }

  lemma LettersMeanControlWord(chars: string, s: State)
    requires s.i + 1 < |chars| && chars[s.i] == '\\' && IsAlpha(chars[s.i + 1]) && s.skipDepth.None?
    ensures Step(chars, s) == ControlWord(chars, s.(i := s.i + 1))
  {
    var after := s.(i := s.i + 1);
    assert Step(chars, s) == Escape(chars, after);
    assert Escape(chars, after) == ControlWord(chars, after);
  }

  lemma LetterUMeansUnicodeEscape(chars: string, s: State, end: nat)
    requires s.i + 1 <= end < |chars| && chars[end] != ' '
    requires WordEnd(chars, s.i) == s.i + 1 && ParamEnd(chars, s.i + 1) == end && chars[s.i..s.i + 1] == "u"
    ensures ControlWord(chars, s) == UnicodeEscape(chars, s, chars[s.i + 1..end], end)
  {
    assert |"uc"| == 2 && |chars[s.i..s.i + 1]| == 1;
  }

  /** One `\uN?` moves past itself and pushes its unit. */
  lemma EscapeIsRead(chars: string, unit: Unit, s: State)
    requires At(chars, s.i, EscapeUnit(unit)) && s.skipDepth.None? && s.ucSkip == 1
    ensures Step(chars, s) == s.(i := s.i + |EscapeUnit(unit)|, out := PushUnit(s.out, unit))
  {
    EscapeLayout(chars, s.i, unit);
    var end := s.i + 2 + |SignedDecimal(Signed(unit))|;
    var after := s.(i := s.i + 1);
    assert chars[s.i + 1] == chars[s.i + 1..s.i + 2][0];
    LettersMeanControlWord(chars, s);
    LetterUMeansUnicodeEscape(chars, after, end);
    SignedDecimalParses(Signed(unit));
    UnicodeEscapeIsRead(chars, after, SignedDecimal(Signed(unit)), unit, end);
  }

  // ----- a run of escapes -----------------------------------------------------------------------

  function PushUnits(out: Output, units: seq<Unit>): Output
    decreases |units|
  {
    if units == [] then out else PushUnits(PushUnit(out, units[0]), units[1..])
  }

  /** The loop's state after an escape, or a run of escapes, of the given length. */
  function Past(s: State, length: nat, units: seq<Unit>): State {
    s.(i := s.i + length, out := PushUnits(s.out, units))
  }

  lemma EscapesSplit(chars: string, i: nat, units: seq<Unit>)
    requires units != [] && At(chars, i, EscapeUnits(units))
    ensures At(chars, i, EscapeUnit(units[0])) && At(chars, i + |EscapeUnit(units[0])|, EscapeUnits(units[1..]))
  {
    assert EscapeUnits(units) == EscapeUnit(units[0]) + EscapeUnits(units[1..]);
    AtSplits(chars, i, EscapeUnit(units[0]), EscapeUnits(units[1..]));
  }

  lemma FirstEscapeIsRead(chars: string, units: seq<Unit>, s: State)
    requires units != [] && At(chars, s.i, EscapeUnits(units)) && s.skipDepth.None? && s.ucSkip == 1
    ensures var next := s.(i := s.i + |EscapeUnit(units[0])|, out := PushUnit(s.out, units[0]));
            At(chars, next.i, EscapeUnits(units[1..])) && s.i < |chars| && Step(chars, s) == next
  {
    EscapesSplit(chars, s.i, units);
    EscapeIsRead(chars, units[0], s);
  }

  lemma {:induction false} EscapesAreRead(chars: string, units: seq<Unit>, s: State, end: State)
    requires At(chars, s.i, EscapeUnits(units)) && s.skipDepth.None? && s.ucSkip == 1
    requires end == Past(s, |EscapeUnits(units)|, units)
    ensures Loop(chars, s) == Loop(chars, end)
    decreases |units|
  {
    if units == [] {
      assert end == s;
    } else {
      FirstEscapeIsRead(chars, units, s);
      var next := s.(i := s.i + |EscapeUnit(units[0])|, out := PushUnit(s.out, units[0]));
      LoopStep(chars, s, next);
      assert |EscapeUnits(units)| == |EscapeUnit(units[0])| + |EscapeUnits(units[1..])|;
      EscapesAreRead(chars, units[1..], next, end);
    }
  }

  // ----- surrogate pairs ------------------------------------------------------------------------

  lemma {:induction false} PushUnitsAppend(out: Output, first: seq<Unit>, second: seq<Unit>)
    ensures PushUnits(out, first + second) == PushUnits(PushUnits(out, first), second)
    decreases |first|
  {
    if first == [] {
      assert first + second == second;
    } else {
      assert (first + second)[1..] == first[1..] + second;
      PushUnitsAppend(PushUnit(out, first[0]), first[1..], second);
    }
  }

  /** The units of a character push the character, whether or not they are a pair. */
  lemma CharIsPushed(out: Output, c: char)
    requires out.pendingHigh.None?
    ensures PushUnits(out, UnitsOf(c)) == out.Add([c])
  {
    var n := c as int;
    if n < 0x1_0000 {
      assert PushUnits(out, [n]) == PushUnit(out, n);
    } else {
      var high, low := 0xD800 + (n - 0x1_0000) / 1024, 0xDC00 + (n - 0x1_0000) % 1024;
      assert 0x1_0000 + (high - 0xD800) * 1024 + (low - 0xDC00) == n;
      assert [high, low][1..] == [low];
      assert PushUnits(PushUnit(out, high), [low]) == PushUnit(PushUnit(out, high), low);
    }
  }

  lemma {:induction false} TextIsPushed(out: Output, text: string)
    requires out.pendingHigh.None?
    ensures PushUnits(out, Utf16(text)) == out.Add(text)
    decreases |text|
  {
    if text == "" {
      assert out.text + text == out.text;
    } else {
      PushUnitsAppend(out, UnitsOf(text[0]), Utf16(text[1..]));
      CharIsPushed(out, text[0]);
      TextIsPushed(out.Add([text[0]]), text[1..]);
      assert out.text + [text[0]] + text[1..] == out.text + text;
    }
  }

  // ----- the document ---------------------------------------------------------------------------

  lemma HeaderOpensNoSkippedGroup(chars: string)
    requires At(chars, 0, HEADER)
    ensures !OpensSkippedGroup(chars, 0)
  {
    assert chars[..|HEADER|][2] == 'r';
    forall k | 0 <= k < |SKIPPED_GROUPS|
      ensures !StartsWith(chars[1..], SKIPPED_GROUPS[k])
    {
      assert chars[1..][1] == 'r' && SKIPPED_GROUPS[k][1] != 'r';
    }
  }

  lemma HeaderLayout(chars: string)
    requires At(chars, 0, HEADER)
    ensures chars[0] == '{' && chars[1] == '\\' && chars[6] == '\\' && chars[10] == ' '
    ensures WordEnd(chars, 2) == 5 && ParamEnd(chars, 5) == 6 && chars[2..5] == "rtf"
    ensures WordEnd(chars, 7) == 9 && ParamEnd(chars, 9) == 10 && chars[7..9] == "uc" && chars[9..10] == "1"
  {
    forall k | 0 <= k < |HEADER|
      ensures chars[k] == HEADER[k]
    {
      assert chars[..|HEADER|][k] == HEADER[k];
    }
    WordEndAt(chars, 2, 5);
    ParamEndAt(chars, 5, 6);
    WordEndAt(chars, 7, 9);
    ParamEndAt(chars, 9, 10);
  }

  lemma {:induction false} RtfIsNoPlainWord(k: nat)
    requires k <= |PLAIN_WORDS|
    ensures PlainWord("rtf", k) == ""
    decreases |PLAIN_WORDS| - k
  {
    if k < |PLAIN_WORDS| {
      assert "rtf"[0] == 'r' && "rtf"[1] == 't';
      assert PLAIN_WORDS[k].0[0] != 'r' || PLAIN_WORDS[k].0[1] != 't';
      RtfIsNoPlainWord(k + 1);
    }
  }

  /** `{\rtf1` opens the document group. */
  lemma RtfWordIsRead(chars: string)
    requires At(chars, 0, HEADER)
    ensures Step(chars, INITIAL) == INITIAL.(i := 1, depth := 1)
    ensures Step(chars, INITIAL.(i := 1, depth := 1)) == INITIAL.(i := 6, depth := 1)
  {
    HeaderOpensNoSkippedGroup(chars);
    HeaderLayout(chars);
    RtfIsNoPlainWord(0);
    assert chars[2] == chars[2..5][0];
    LettersMeanControlWord(chars, INITIAL.(i := 1, depth := 1));
    assert |"uc"| == 2 && |"u"| == 1;
    assert "" + "" == "";
  }

  /** `\uc1 ` asks for one fallback character. */
  lemma UcWordIsRead(chars: string)
    requires At(chars, 0, HEADER)
    ensures Step(chars, INITIAL.(i := 6, depth := 1)) == INITIAL.(i := |HEADER|, depth := 1)
  {
    HeaderLayout(chars);
    assert ParseUsize("1") == Some(1) by {
      assert "1"[..0] == "" && DigitsValue("1") == 1;
    }
    assert chars[7] == chars[7..9][0];
    LettersMeanControlWord(chars, INITIAL.(i := 6, depth := 1));
  }

  /** The header leaves the loop inside the document group, expecting one fallback character. */
  lemma HeaderIsRead(chars: string)
    requires At(chars, 0, HEADER)
    ensures Loop(chars, INITIAL) == Loop(chars, INITIAL.(i := |HEADER|, depth := 1))
  {
    RtfWordIsRead(chars);
    UcWordIsRead(chars);
    assert Loop(chars, INITIAL) == Loop(chars, INITIAL.(i := 1, depth := 1));
    assert Loop(chars, INITIAL.(i := 1, depth := 1)) == Loop(chars, INITIAL.(i := 6, depth := 1));
  }

  lemma DocumentIsRead(text: string)
    ensures Loop(Write(text), INITIAL).out.text == text
  {
    var escaped := EscapeUnits(Utf16(text));
    var chars := Write(text);
    assert chars == HEADER + (escaped + "}");
    assert chars[0..|chars|] == chars;
    AtSplits(chars, 0, HEADER, escaped + "}");
    AtSplits(chars, |HEADER|, escaped, "}");
    HeaderIsRead(chars);
    var s := INITIAL.(i := |HEADER|, depth := 1);
    TextIsPushed(s.out, text);
    assert "" + text == text;
    var end := s.(i := |HEADER| + |escaped|, out := Output(text, None));
    EscapesAreRead(chars, Utf16(text), s, end);
    assert chars[end.i..end.i + 1][0] == '}';
    assert Step(chars, end).i == |chars|;
  }

  /** Stripping a written document returns the text: every character, surrogate pairs included. */
  lemma WriteThenStrip(text: string)
    requires text != "" && IsTrimmed(text)
    ensures Strip(Write(text)) == text
  {
    DocumentIsRead(text);
    assert Write(text)[..5] == "{\\rtf";
    assert TrimStart(Write(text)) == Write(text);
  }
}
