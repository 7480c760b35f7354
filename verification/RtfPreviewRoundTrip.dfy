/**
 The web page's decoder reads the same written documents as the desktop's: `\uN?` escapes come back as the units
 they were written for, lone surrogates included, up to the white space the preview collapses.
 */
module RtfPreviewRoundTrip {
  import opened Options
  import opened RtfPreview
  import Q = Sequences
  import R = RtfDecoder
  import T = Text
  import W = RtfRoundTrip

  predicate IsAscii(s: string) {
    forall k | 0 <= k < |s| :: s[k] as int < 128
  }

  // ----- ASCII text as units --------------------------------------------------------------------

  lemma SliceOfAscii(s: string, from: nat, to: nat)
    requires from <= to <= |s|
    ensures Slice(Ascii(s), from, to) == Ascii(s[from..to])
  {
  }

  lemma {:induction false} SameWordEnd(s: string, i: nat)
    requires IsAscii(s) && i <= |s|
    ensures LettersEnd(Ascii(s), i) == R.WordEnd(s, i)
    decreases |s| - i
  {
    if i < |s| {
      SameWordEnd(s, i + 1);
    }
  }

  lemma {:induction false} SameParamEnd(s: string, i: nat)
    requires IsAscii(s) && i <= |s|
    ensures NumberEnd(Ascii(s), i) == R.ParamEnd(s, i)
    decreases |s| - i
  {
    if i < |s| {
      SameParamEnd(s, i + 1);
    }
  }

  // ----- numbers --------------------------------------------------------------------------------

  predicate AllDigitUnits(s: Units) {
    forall k | 0 <= k < |s| :: IsDigit(s[k])
  }

  lemma {:induction false} LeadingDigitsAppend(s: Units, last: Unit, value: nat)
    requires AllDigitUnits(s) && IsDigit(last)
    ensures LeadingDigits(s + [last], value) == 10 * LeadingDigits(s, value) + (last - U('0'))
    decreases |s|
  {
    if s == [] {
      assert [last][1..] == [];
    } else {
      assert (s + [last])[1..] == s[1..] + [last];
      LeadingDigitsAppend(s[1..], last, 10 * value + (s[0] - U('0')));
    }
  }

  lemma {:induction false} DigitsAreRead(digits: string)
    requires T.AllDigits(digits)
    ensures LeadingDigits(Ascii(digits), 0) == T.DigitsValue(digits)
    decreases |digits|
  {
    if digits != "" {
      var most, last := digits[..|digits| - 1], digits[|digits| - 1];
      assert Ascii(digits) == Ascii(most) + [U(last)];
      DigitsAreRead(most);
      LeadingDigitsAppend(Ascii(most), U(last), 0);
    }
  }

  lemma SignedDecimalIsRead(n: int)
    ensures ParseInt(Ascii(T.SignedDecimal(n))) == Some(n)
  {
    var digits := T.Decimal(if n < 0 then -n else n);
    T.DecimalValue(if n < 0 then -n else n);
    DigitsAreRead(digits);
    assert T.IsDigit(digits[0]);
    if n < 0 {
      assert Ascii(T.SignedDecimal(n))[1..] == Ascii(digits);
    }
  }

  // ----- one escape -----------------------------------------------------------------------------

  /** The control word at `s.i`, read off the text. */
  lemma ControlWordOfAscii(rtf: string, s: State, wordEnd: nat, paramEnd: nat)
    requires IsAscii(rtf) && s.i <= wordEnd <= paramEnd < |rtf|
    requires R.WordEnd(rtf, s.i) == wordEnd && R.ParamEnd(rtf, wordEnd) == paramEnd
    ensures LettersEnd(Ascii(rtf), s.i) == wordEnd && NumberEnd(Ascii(rtf), wordEnd) == paramEnd
    ensures Slice(Ascii(rtf), s.i, wordEnd) == Ascii(rtf[s.i..wordEnd])
    ensures Slice(Ascii(rtf), wordEnd, paramEnd) == Ascii(rtf[wordEnd..paramEnd])
  {
    SameWordEnd(rtf, s.i);
    SameParamEnd(rtf, wordEnd);
    SliceOfAscii(rtf, s.i, wordEnd);
    SliceOfAscii(rtf, wordEnd, paramEnd);
  }

  lemma BackslashMeansEscape(rtf: Units, s: State)
    requires At(rtf, s.i, '\\') && s.skipDepth.None?
    ensures Step(rtf, s) == Escape(rtf, s.(i := s.i + 1))
  {
    assert U('\\') != U('{') && U('\\') != U('}');
    assert !At(rtf, s.i, '{') && !At(rtf, s.i, '}');
  }

  lemma LetterMeansControlWord(rtf: Units, s: State)
    requires s.i < |rtf| && IsLetter(rtf[s.i])
    ensures Escape(rtf, s) == ControlWord(rtf, s)
  {
  }

  lemma LettersMeanControlWord(rtf: Units, s: State)
    requires s.i + 1 < |rtf| && At(rtf, s.i, '\\') && IsLetter(rtf[s.i + 1]) && s.skipDepth.None?
    ensures Step(rtf, s) == ControlWord(rtf, s.(i := s.i + 1))
  {
    BackslashMeansEscape(rtf, s);
    LetterMeansControlWord(rtf, s.(i := s.i + 1));
  }

  /** `\uN` and one plain fallback character: the unit is added, whichever it is. */
  lemma UnicodeWordIsRead(rtf: Units, s: State, wordEnd: nat, end: nat, unit: Unit)
    requires LettersEnd(rtf, s.i) == wordEnd < NumberEnd(rtf, wordEnd) == end && Slice(rtf, s.i, wordEnd) == Ascii("u")
    requires ParseInt(Slice(rtf, wordEnd, end)) == Some(W.Signed(unit)) && At(rtf, end, '?') && s.ucSkip == 1
    ensures ControlWord(rtf, s) == s.(i := end + 1, out := s.out + [unit])
  {
    assert |Ascii("par")| == |Ascii("tab")| == 3 && |Ascii("line")| == 4 && |Ascii("uc")| == 2 && |Ascii("u")| == 1;
    assert AfterFallback(rtf, end, 1) == AfterFallback(rtf, end + 1, 0);
  }

  lemma EscapeIsRead(rtf: string, doc: Units, unit: Unit, s: State)
    requires doc == Ascii(rtf) && IsAscii(rtf) && Q.At(rtf, s.i, W.EscapeUnit(unit))
    requires s.skipDepth.None? && s.ucSkip == 1
    ensures s.i < |doc| && Step(doc, s) == s.(i := s.i + |W.EscapeUnit(unit)|, out := s.out + [unit])
  {
    W.EscapeLayout(rtf, s.i, unit);
    var after, end := s.(i := s.i + 1), s.i + 2 + |T.SignedDecimal(W.Signed(unit))|;
    assert rtf[s.i + 1] == rtf[s.i + 1..s.i + 2][0] == 'u';
    assert doc[s.i] == U('\\') && doc[s.i + 1] == U('u') && doc[end] == U('?');
    LettersMeanControlWord(doc, s);
    ControlWordOfAscii(rtf, after, s.i + 2, end);
    SignedDecimalIsRead(W.Signed(unit));
    UnicodeWordIsRead(doc, after, s.i + 2, end, unit);
  }

  function Added(out: Units, units: Units): Units
    decreases |units|
  {
    if units == [] then out else Added(out + [units[0]], units[1..])
  }

  lemma {:induction false} AddedIsAppended(out: Units, units: Units)
    ensures Added(out, units) == out + units
    decreases |units|
  {
    if units != [] {
      AddedIsAppended(out + [units[0]], units[1..]);
    }
  }

  /** The loop's state after a run of escapes of the given length. */
  function Past(s: State, length: nat, units: Units): State {
    s.(i := s.i + length, out := Added(s.out, units))
  }

  lemma FirstEscapeIsRead(rtf: string, doc: Units, units: Units, s: State)
    requires doc == Ascii(rtf) && IsAscii(rtf) && s.skipDepth.None? && s.ucSkip == 1
    requires units != [] && Q.At(rtf, s.i, W.EscapeUnits(units))
    ensures var next := Past(s, |W.EscapeUnit(units[0])|, [units[0]]);
            Q.At(rtf, next.i, W.EscapeUnits(units[1..])) && Loop(doc, s) == Loop(doc, next)
  {
    W.EscapesSplit(rtf, s.i, units);
    EscapeIsRead(rtf, doc, units[0], s);
    assert Added(s.out, [units[0]]) == s.out + [units[0]];
    LoopStep(doc, s, Past(s, |W.EscapeUnit(units[0])|, [units[0]]));
  }

  lemma PastSplits(s: State, units: Units)
    requires units != []
    ensures var next := Past(s, |W.EscapeUnit(units[0])|, [units[0]]);
            Past(s, |W.EscapeUnits(units)|, units) == Past(next, |W.EscapeUnits(units[1..])|, units[1..])
  {
    assert |W.EscapeUnits(units)| == |W.EscapeUnit(units[0])| + |W.EscapeUnits(units[1..])|;
    assert Added(s.out, [units[0]]) == s.out + [units[0]];
  }

  lemma {:induction false} EscapesAreRead(rtf: string, doc: Units, units: Units, s: State)
    requires doc == Ascii(rtf) && IsAscii(rtf) && s.skipDepth.None? && s.ucSkip == 1
    requires Q.At(rtf, s.i, W.EscapeUnits(units))
    ensures Loop(doc, s) == Loop(doc, Past(s, |W.EscapeUnits(units)|, units))
    decreases |units|
  {
    if units == [] {
      assert Past(s, |W.EscapeUnits(units)|, units) == s;
    } else {
      FirstEscapeIsRead(rtf, doc, units, s);
      PastSplits(s, units);
      EscapesAreRead(rtf, doc, units[1..], Past(s, |W.EscapeUnit(units[0])|, [units[0]]));
    }
  }

  // ----- the document ---------------------------------------------------------------------------

  lemma HeaderOpensNoSkippedGroup(rtf: string)
    requires Q.At(rtf, 0, W.HEADER)
    ensures !OpensSkippedGroup(Ascii(rtf), 0)
  {
    assert rtf[..|W.HEADER|][2] == 'r';
    var head := Slice(Ascii(rtf), 2, 22);
    assert head[0] == U('r');
    assert Ascii("*\\")[0] != U('r');
    forall k | 0 <= k < |SKIPPED_GROUPS|
      ensures !(Ascii(SKIPPED_GROUPS[k]) <= head)
    {
      assert Ascii(SKIPPED_GROUPS[k])[0] != U('r');
    }
  }

  /** A control word without a meaning here. */
  lemma RtfWordIsRead(rtf: string)
    requires IsAscii(rtf) && Q.At(rtf, 0, W.HEADER)
    ensures Step(Ascii(rtf), INITIAL) == INITIAL.(i := 1, depth := 1, ucStack := [1])
    ensures Step(Ascii(rtf), INITIAL.(i := 1, depth := 1, ucStack := [1]))
         == INITIAL.(i := 6, depth := 1, ucStack := [1])
  {
    HeaderOpensNoSkippedGroup(rtf);
    W.HeaderLayout(rtf);
    var s := INITIAL.(i := 1, depth := 1, ucStack := [1]);
    assert rtf[2] == rtf[2..5][0];
    assert Ascii(rtf)[2] == U(rtf[2]);
    LettersMeanControlWord(Ascii(rtf), s);
    ControlWordOfAscii(rtf, s.(i := 2), 5, 6);
    assert Ascii("rtf")[0] == U('r');
    assert Ascii("par")[0] != U('r') && Ascii("line")[0] != U('r') && Ascii("tab")[0] != U('r');
    assert |Ascii("uc")| == 2 && |Ascii("u")| == 1;
    assert [] + [1] == [1];
  }

  lemma UcWordIsRead(rtf: string)
    requires IsAscii(rtf) && Q.At(rtf, 0, W.HEADER)
    ensures Step(Ascii(rtf), INITIAL.(i := 6, depth := 1, ucStack := [1]))
         == INITIAL.(i := |W.HEADER|, depth := 1, ucStack := [1])
  {
    W.HeaderLayout(rtf);
    var s := INITIAL.(i := 6, depth := 1, ucStack := [1]);
    assert rtf[7] == rtf[7..9][0];
    assert Ascii(rtf)[7] == U(rtf[7]);
    LettersMeanControlWord(Ascii(rtf), s);
    ControlWordOfAscii(rtf, s.(i := 7), 9, 10);
    assert ParseInt(Ascii("1")) == Some(1) by {
      assert Ascii("1") == [U('1')] && [U('1')][1..] == [];
    }
    assert |Ascii("par")| == 3 && |Ascii("line")| == 4 && |Ascii("tab")| == 3 && |Ascii("uc")| == 2;
  }

  lemma HeaderIsRead(rtf: string)
    requires IsAscii(rtf) && Q.At(rtf, 0, W.HEADER)
    ensures Loop(Ascii(rtf), INITIAL) == Loop(Ascii(rtf), INITIAL.(i := |W.HEADER|, depth := 1, ucStack := [1]))
  {
    var entered := INITIAL.(i := 1, depth := 1, ucStack := [1]);
    RtfWordIsRead(rtf);
    LoopStep(Ascii(rtf), INITIAL, entered);
    LoopStep(Ascii(rtf), entered, entered.(i := 6));
    UcWordIsRead(rtf);
    LoopStep(Ascii(rtf), entered.(i := 6), entered.(i := |W.HEADER|));
  }

  lemma {:induction false} EscapesAreAscii(units: Units)
    ensures IsAscii(W.EscapeUnits(units))
    decreases |units|
  {
    if units != [] {
      W.SignedDecimalIsParam(W.Signed(units[0]));
      assert IsAscii(T.SignedDecimal(W.Signed(units[0])));
      EscapesAreAscii(units[1..]);
    }
  }

  lemma LastBraceIsRead(rtf: string, doc: Units, s: State)
    requires doc == Ascii(rtf) && |rtf| == s.i + 1 && Q.At(rtf, s.i, "}")
    ensures Loop(doc, s).out == s.out
  {
    assert rtf[s.i..s.i + 1][0] == '}';
    var next := Step(doc, s);
    LoopStep(doc, s, next);
    assert next.i == |doc| && Loop(doc, next) == next;
  }

  lemma FramedLayout(head: string, middle: string, tail: string)
    ensures var whole := head + middle + tail;
            && Q.At(whole, 0, head) && Q.At(whole, |head|, middle) && Q.At(whole, |head| + |middle|, tail)
    ensures IsAscii(head) && IsAscii(middle) && IsAscii(tail) ==> IsAscii(head + middle + tail)
  {
    var whole := head + middle + tail;
    assert whole[0..|whole|] == head + (middle + tail);
    Q.AtSplits(whole, 0, head, middle + tail);
    Q.AtSplits(whole, |head|, middle, tail);
  }

  lemma WrittenLayout(units: Units)
    ensures var rtf, end := W.WriteUnits(units), |W.HEADER| + |W.EscapeUnits(units)|;
            && IsAscii(rtf) && |rtf| == end + 1
            && Q.At(rtf, 0, W.HEADER) && Q.At(rtf, |W.HEADER|, W.EscapeUnits(units)) && Q.At(rtf, end, "}")
  {
    EscapesAreAscii(units);
    FramedLayout(W.HEADER, W.EscapeUnits(units), "}");
  }

  lemma DocumentIsRead(units: Units)
    ensures Loop(Ascii(W.WriteUnits(units)), INITIAL).out == units
  {
    var rtf := W.WriteUnits(units);
    var s := INITIAL.(i := |W.HEADER|, depth := 1, ucStack := [1]);
    var end := Past(s, |W.EscapeUnits(units)|, units);
    WrittenLayout(units);
    HeaderIsRead(rtf);
    EscapesAreRead(rtf, Ascii(rtf), units, s);
    LastBraceIsRead(rtf, Ascii(rtf), end);
    AddedIsAppended([], units);
  }

  // ----- white space ----------------------------------------------------------------------------

  /** What `replace(/\s+/g, ' ').trim()` leaves of a text. */
  function Flattened(units: Units): Units {
    TrimUnitsEnd(TrimUnitsStart(Collapse(units)))
  }

  /** White space is the space character, alone. */
  predicate SingleSpaced(s: Units) {
    forall i | 0 <= i < |s| :: IsJsSpace(s[i]) ==> s[i] == U(' ') && (i + 1 < |s| ==> !IsJsSpace(s[i + 1]))
  }

  predicate IsFlat(s: Units) {
    SingleSpaced(s) && (s != [] ==> !IsJsSpace(s[0]) && !IsJsSpace(s[|s| - 1]))
  }

  lemma {:induction false} CollapseLeavesSingleSpaces(s: Units)
    ensures SingleSpaced(Collapse(s)) && (s == [] <==> Collapse(s) == [])
    ensures s != [] ==> (IsJsSpace(Collapse(s)[0]) <==> IsJsSpace(s[0]))
    decreases |s|
  {
    if s != [] {
      var rest := Collapse(s[1..]);
      CollapseLeavesSingleSpaces(s[1..]);
      assert IsJsSpace(U(' '));
      if !(IsJsSpace(s[0]) && |s| > 1 && IsJsSpace(s[1])) {
        assert Collapse(s)[1..] == rest;
        assert forall i | 1 <= i < |Collapse(s)| :: Collapse(s)[i] == rest[i - 1];
      }
    }
  }

  lemma {:induction false} SingleSpacesAreKept(s: Units)
    requires SingleSpaced(s)
    ensures Collapse(s) == s
    decreases |s|
  {
    if s != [] {
      assert SingleSpaced(s[1..]) by {
        assert forall i | 0 <= i < |s| - 1 :: s[1..][i] == s[i + 1];
      }
      SingleSpacesAreKept(s[1..]);
      assert s == [s[0]] + s[1..];
    }
  }

  lemma {:induction false} TrimStartKeepsSpacing(s: Units)
    requires SingleSpaced(s)
    ensures SingleSpaced(TrimUnitsStart(s)) && (TrimUnitsStart(s) != [] ==> !IsJsSpace(TrimUnitsStart(s)[0]))
    decreases |s|
  {
    if s != [] && IsJsSpace(s[0]) {
      assert forall i | 0 <= i < |s| - 1 :: s[1..][i] == s[i + 1];
      TrimStartKeepsSpacing(s[1..]);
    }
  }

  lemma {:induction false} TrimEndKeepsSpacing(s: Units)
    requires SingleSpaced(s)
    ensures SingleSpaced(TrimUnitsEnd(s)) && TrimUnitsEnd(s) <= s
    ensures TrimUnitsEnd(s) != [] ==> !IsJsSpace(TrimUnitsEnd(s)[|TrimUnitsEnd(s)| - 1])
    decreases |s|
  {
    if s != [] && IsJsSpace(s[|s| - 1]) {
      TrimEndKeepsSpacing(s[..|s| - 1]);
    }
  }

  /** The flattened text is flat, and only a flat text is left as it is. */
  lemma FlattenedExactly(s: Units)
    ensures IsFlat(Flattened(s))
    ensures Flattened(s) == s <==> IsFlat(s)
  {
    CollapseLeavesSingleSpaces(s);
    TrimStartKeepsSpacing(Collapse(s));
    TrimEndKeepsSpacing(TrimUnitsStart(Collapse(s)));
    if IsFlat(s) {
      SingleSpacesAreKept(s);
    }
  }

  // ----- the round trip -------------------------------------------------------------------------

  lemma WrittenIsRtf(units: Units)
    ensures TrimUnitsStart(Ascii(W.WriteUnits(units))) == Ascii(W.WriteUnits(units))
    ensures Ascii("{\\rtf") <= Ascii(W.WriteUnits(units))
  {
    var rtf := W.WriteUnits(units);
    assert rtf[..5] == "{\\rtf";
    assert Ascii(rtf)[..5] == Ascii("{\\rtf");
    assert Ascii(rtf)[0] == U('{');
  }

  /** Every unit comes back, lone surrogates included; only white space is flattened. */
  lemma WriteThenPreview(units: Units)
    ensures PlainText(Ascii(W.WriteUnits(units))) == Flattened(units)
    ensures PlainText(Ascii(W.WriteUnits(units))) == units <==> IsFlat(units)
  {
    DocumentIsRead(units);
    WrittenIsRtf(units);
    FlattenedExactly(units);
  }

  /** The preview of a written document is what the desktop's decoder reads from it, flattened. */
  lemma PreviewAgreesWithStrip(text: string)
    requires text != "" && T.IsTrimmed(text)
    ensures PlainText(Ascii(W.Write(text))) == Flattened(W.Utf16(R.Strip(W.Write(text))))
  {
    W.WriteThenStrip(text);
    WriteThenPreview(W.Utf16(text));
  }
}
