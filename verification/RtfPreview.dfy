/**
 `rtfToPlainText`, the web page's RTF decoder. It scopes `\ucN` to its group with a stack. Text is what
 JavaScript sees: a sequence of UTF-16 code units.
 */
module RtfPreview {
  import opened Options
  import opened Braces
  import T = Text

  type Unit = T.Unit
  type Units = seq<Unit>

  /** The unit of a character that is one unit long. */
  function U(c: char): Unit {
    if c as int < 0x1_0000 then c as int else 0xFFFD
  }

  function Ascii(s: string): Units {
    seq(|s|, i requires 0 <= i < |s| => U(s[i]))
  }

  datatype State = State(i: nat, out: Units, depth: nat, skipDepth: Option<nat>, ucSkip: nat, ucStack: seq<nat>)

  const INITIAL := State(0, [], 0, None, 1, [])

  const SKIPPED_GROUPS := ["fonttbl", "colortbl", "expandedcolortbl", "stylesheet", "info", "pict"]

  predicate At(rtf: Units, i: nat, c: char) {
    i < |rtf| && rtf[i] == U(c)
  }

  function Slice(rtf: Units, from: nat, to: nat): Units
    requires from <= to
  {
    rtf[Bounded(rtf, from)..Bounded(rtf, to)]
  }

  function Bounded(rtf: Units, i: nat): nat {
    if i < |rtf| then i else |rtf|
  }

  predicate OpensSkippedGroup(rtf: Units, i: nat)
    requires i < |rtf|
  {
    && At(rtf, i, '{')
    && At(rtf, i + 1, '\\')
    && var head := Slice(rtf, i + 2, i + 22);
       || Ascii("*\\") <= head
       || exists k | 0 <= k < |SKIPPED_GROUPS| :: Ascii(SKIPPED_GROUPS[k]) <= head
  }

  predicate IsDigit(u: Unit) {
    U('0') <= u <= U('9')
  }

  predicate IsLetter(u: Unit) {
    U('a') <= u <= U('z') || U('A') <= u <= U('Z')
  }

  function HexDigit(u: Unit): (digit: Option<nat>)
    ensures digit.Some? ==> digit.value < 16
  {
    if IsDigit(u) then Some(u - U('0'))
    else if U('a') <= u <= U('f') then Some(u - U('a') + 10)
    else if U('A') <= u <= U('F') then Some(u - U('A') + 10)
    else None
  }

  const CP1252_HIGH: Units := [
    0x20AC, 0xFFFD, 0x201A, 0x0192, 0x201E, 0x2026, 0x2020, 0x2021,
    0x02C6, 0x2030, 0x0160, 0x2039, 0x0152, 0xFFFD, 0x017D, 0xFFFD,
    0xFFFD, 0x2018, 0x2019, 0x201C, 0x201D, 0x2022, 0x2013, 0x2014,
    0x02DC, 0x2122, 0x0161, 0x203A, 0x0153, 0xFFFD, 0x017E, 0x0178]

  function Cp1252(byte: nat): Unit
    requires byte < 256
  {
    if 0x80 <= byte <= 0x9F then CP1252_HIGH[byte - 0x80] else byte
  }

  /** `\'xx`: the character, or nothing when the two units are not hex digits. */
  function HexChar(hex: Units): Units {
    if |hex| == 2 && HexDigit(hex[0]).Some? && HexDigit(hex[1]).Some? then
      [Cp1252(16 * HexDigit(hex[0]).value + HexDigit(hex[1]).value)]
    else
      []
  }

  function LettersEnd(rtf: Units, i: nat): (end: nat)
    ensures i <= end
    decreases |rtf| - i
  {
    if i < |rtf| && IsLetter(rtf[i]) then LettersEnd(rtf, i + 1) else i
  }

  function NumberEnd(rtf: Units, i: nat): (end: nat)
    ensures i <= end
    decreases |rtf| - i
  {
    if i < |rtf| && (rtf[i] == U('-') || IsDigit(rtf[i])) then NumberEnd(rtf, i + 1) else i
  }

  /** The fallback units after `\uN`. */
  function AfterFallback(rtf: Units, i: nat, remaining: nat): (end: nat)
    ensures i <= end
    decreases remaining
  {
    if remaining == 0 || i >= |rtf| then i
    else if At(rtf, i, '\\') && At(rtf, i + 1, '\'') then
      AfterFallback(rtf, if i + 4 < |rtf| then i + 4 else |rtf|, remaining - 1)
    else if !At(rtf, i, '{') && !At(rtf, i, '}') && !At(rtf, i, '\\') then
      AfterFallback(rtf, i + 1, remaining - 1)
    else
      i
  }

  /** The digits `Number.parseInt` reads before it stops. */
  function LeadingDigits(s: Units, value: nat): nat
    decreases |s|
  {
    if s != [] && IsDigit(s[0]) then LeadingDigits(s[1..], 10 * value + (s[0] - U('0'))) else value
  }

  /** `Number.parseInt(_, 10)` on digits and minus signs; `None` is NaN. */
  function ParseInt(s: Units): Option<int> {
    var digits := if s != [] && s[0] == U('-') then s[1..] else s;
    if digits == [] || !IsDigit(digits[0]) then None
    else Some((if s[0] == U('-') then -1 else 1) * LeadingDigits(digits, 0))
  }

  /** `Math.min(Math.max(_, low), high)` */
  function Clamped(n: int, low: nat, high: nat): (clamped: nat)
    requires low <= high
    ensures low <= clamped <= high && (low <= n <= high ==> clamped == n)
  {
    if n < low then low else if n > high then high else n
  }

  /** The unit a `\uN` parameter names: negative values wrap. Nothing when it is not a number. */
  function UnitOf(param: Option<int>): Units {
    if param.None? then []
    else [(if param.value < 0 then param.value + 65536 else param.value) % 0x1_0000]
  }

  /** A control word whose letters start at `s.i`. */
  function ControlWord(rtf: Units, s: State): (after: State)
    ensures s.i <= after.i
    ensures after.depth == s.depth && after.skipDepth == s.skipDepth && after.ucStack == s.ucStack
  {
    var wordEnd := LettersEnd(rtf, s.i);
    var paramEnd := NumberEnd(rtf, wordEnd);
    var word, param := Slice(rtf, s.i, wordEnd), ParseInt(Slice(rtf, wordEnd, paramEnd));
    var next := s.(i := if At(rtf, paramEnd, ' ') then paramEnd + 1 else paramEnd);
    if word == Ascii("par") || word == Ascii("line") then
      next.(out := s.out + [U('\n')])
    else if word == Ascii("tab") then
      next.(out := s.out + [U('\t')])
    else if word == Ascii("uc") && wordEnd < paramEnd then
      next.(ucSkip := if param.Some? then Clamped(param.value, 0, 8) else 1)
    else if word == Ascii("u") && wordEnd < paramEnd then
      next.(out := s.out + UnitOf(param), i := AfterFallback(rtf, next.i, s.ucSkip))
    else
      next
  }

  /** What follows a backslash; `s.i` is the position after it. */
  function Escape(rtf: Units, s: State): (after: State)
    ensures s.i <= after.i
    ensures after.depth == s.depth && after.skipDepth == s.skipDepth && after.ucStack == s.ucStack
  {
    var i := s.i;
    if i >= |rtf| then
      s
    else if At(rtf, i, '\\') || At(rtf, i, '{') || At(rtf, i, '}') then
      s.(i := i + 1, out := s.out + [rtf[i]])
    else if At(rtf, i, '~') then
      s.(i := i + 1, out := s.out + [U(' ')])
    else if At(rtf, i, '_') || At(rtf, i, '-') then
      s.(i := i + 1)
    else if At(rtf, i, '\'') then
      s.(i := i + 3, out := s.out + HexChar(Slice(rtf, i + 1, i + 3)))
    else if At(rtf, i, '\n') then
      s.(i := i + 1)
    else if At(rtf, i, '\r') then
      s.(i := if At(rtf, i + 1, '\n') then i + 2 else i + 1)
    else
      ControlWord(rtf, s)
  }

  /** One round of the loop. */
  function Step(rtf: Units, s: State): (after: State)
    requires s.i < |rtf|
    ensures s.i < after.i
  {
    if At(rtf, s.i, '{') then
      var skipDepth := if s.skipDepth.None? && OpensSkippedGroup(rtf, s.i) then Some(s.depth + 1) else s.skipDepth;
      s.(i := s.i + 1, depth := s.depth + 1, skipDepth := skipDepth, ucStack := s.ucStack + [s.ucSkip])
    else if At(rtf, s.i, '}') then
      var popped := s.ucStack != [];
      s.(i := s.i + 1,
         depth := if s.depth == 0 then 0 else s.depth - 1,
         skipDepth := if s.skipDepth == Some(s.depth) then None else s.skipDepth,
         ucSkip := if popped then s.ucStack[|s.ucStack| - 1] else 1,
         ucStack := if popped then s.ucStack[..|s.ucStack| - 1] else [])
    else if s.skipDepth.Some? then
      s.(i := s.i + 1)
    else if At(rtf, s.i, '\\') then
      Escape(rtf, s.(i := s.i + 1))
    else
      s.(i := s.i + 1, out := s.out + [rtf[s.i]])
  }

  function Loop(rtf: Units, s: State): State
    decreases |rtf| - s.i
  {
    if s.i >= |rtf| then s else Loop(rtf, Step(rtf, s))
  }

  lemma LoopStep(rtf: Units, s: State, next: State)
    requires s.i < |rtf| && Step(rtf, s) == next
    ensures Loop(rtf, s) == Loop(rtf, next)
  {
  }

  // ----- white space ----------------------------------------------------------------------------

  /** What `\s` matches. */
  predicate IsJsSpace(u: Unit) {
    || 0x09 <= u <= 0x0D
    || u in {0x20, 0xA0, 0x1680, 0x2028, 0x2029, 0x202F, 0x205F, 0x3000, 0xFEFF}
    || 0x2000 <= u <= 0x200A
  }

  function TrimUnitsStart(s: Units): Units {
    if s != [] && IsJsSpace(s[0]) then TrimUnitsStart(s[1..]) else s
  }

  function TrimUnitsEnd(s: Units): Units {
    if s != [] && IsJsSpace(s[|s| - 1]) then TrimUnitsEnd(s[..|s| - 1]) else s
  }

  /** `replace(/\s+/g, ' ')` */
  function Collapse(s: Units): Units
    decreases |s|
  {
    if s == [] then []
    else if IsJsSpace(s[0]) && |s| > 1 && IsJsSpace(s[1]) then Collapse(s[1..])
    else [if IsJsSpace(s[0]) then U(' ') else s[0]] + Collapse(s[1..])
  }

  function PlainText(rtf: Units): Units {
    if !(Ascii("{\\rtf") <= TrimUnitsStart(rtf)) then rtf
    else TrimUnitsEnd(TrimUnitsStart(Collapse(Loop(rtf, INITIAL).out)))
  }

  // ----- as the program runs it -----------------------------------------------------------------

  /** The loop over fallback units. */
  method SkipFallback(rtf: Units, i: nat, count: nat) returns (end: nat)
    ensures end == AfterFallback(rtf, i, count)
  {
    var remaining := count;
    end := i;
    while remaining > 0 && end < |rtf|
      invariant AfterFallback(rtf, end, remaining) == AfterFallback(rtf, i, count)
      decreases remaining
    {
      if At(rtf, end, '\\') && At(rtf, end + 1, '\'') {
        end := if end + 4 < |rtf| then end + 4 else |rtf|;
        remaining := remaining - 1;
      } else if !At(rtf, end, '{') && !At(rtf, end, '}') && !At(rtf, end, '\\') {
        end := end + 1;
        remaining := remaining - 1;
      } else {
        break;
      }
    }
  }

  method ReadControlWord(rtf: Units, before: State) returns (s: State)
    ensures s == ControlWord(rtf, before)
  {
    var wordStart, i := before.i, before.i;
    while i < |rtf| && IsLetter(rtf[i])
      invariant wordStart <= i && LettersEnd(rtf, i) == LettersEnd(rtf, wordStart)
    {
      i := i + 1;
    }
    var word := Slice(rtf, wordStart, i);
    var paramStart := i;
    while i < |rtf| && (rtf[i] == U('-') || IsDigit(rtf[i]))
      invariant paramStart <= i && NumberEnd(rtf, i) == NumberEnd(rtf, paramStart)
    {
      i := i + 1;
    }
    var param, hasParam := Slice(rtf, paramStart, i), paramStart < i;
    if At(rtf, i, ' ') {
      i := i + 1;
    }
    s := before.(i := i);
    if word == Ascii("par") || word == Ascii("line") {
      s := s.(out := s.out + [U('\n')]);
    } else if word == Ascii("tab") {
      s := s.(out := s.out + [U('\t')]);
    } else if word == Ascii("uc") && hasParam {
      var count := ParseInt(param);
      s := s.(ucSkip := if count.Some? then Clamped(count.value, 0, 8) else 1);
    } else if word == Ascii("u") && hasParam {
      var signed := ParseInt(param);
      if signed.Some? {
        var unit := if signed.value < 0 then signed.value + 65536 else signed.value;
        s := s.(out := s.out + [unit % 0x1_0000]);
      }
      var after := SkipFallback(rtf, s.i, s.ucSkip);
      s := s.(i := after);
    }
  }

  method ReadEscape(rtf: Units, before: State) returns (s: State)
    ensures s == Escape(rtf, before)
  {
    s := before;
    if s.i >= |rtf| {
      return;
    }
    var next := rtf[s.i];
    if next == U('\\') || next == U('{') || next == U('}') {
      return s.(out := s.out + [next], i := s.i + 1);
    }
    if next == U('~') {
      return s.(out := s.out + [U(' ')], i := s.i + 1);
    }
    if next == U('_') || next == U('-') {
      return s.(i := s.i + 1);
    }
    if next == U('\'') {
      return s.(out := s.out + HexChar(Slice(rtf, s.i + 1, s.i + 3)), i := s.i + 3);
    }
    if next == U('\n') || next == U('\r') {
      s := s.(i := s.i + 1);
      if next == U('\r') && At(rtf, s.i, '\n') {
        s := s.(i := s.i + 1);
      }
      return;
    }
    s := ReadControlWord(rtf, s);
  }

  /** The loop body. */
  method Round(rtf: Units, before: State) returns (s: State)
    requires before.i < |rtf|
    ensures s == Step(rtf, before)
  {
    s := before;
    if At(rtf, s.i, '{') {
      s := s.(depth := s.depth + 1, ucStack := s.ucStack + [s.ucSkip]);
      if s.skipDepth.None? && OpensSkippedGroup(rtf, s.i) {
        s := s.(skipDepth := Some(s.depth));
      }
      s := s.(i := s.i + 1);
    } else if At(rtf, s.i, '}') {
      if s.skipDepth == Some(s.depth) {
        s := s.(skipDepth := None);
      }
      s := s.(depth := if s.depth > 0 then s.depth - 1 else 0, i := s.i + 1);
      if s.ucStack == [] {
        s := s.(ucSkip := 1);
      } else {
        var top := |s.ucStack| - 1;
        s := s.(ucSkip := s.ucStack[top], ucStack := s.ucStack[..top]);
      }
    } else if s.skipDepth.Some? {
      s := s.(i := s.i + 1);
    } else if At(rtf, s.i, '\\') {
      s := ReadEscape(rtf, s.(i := s.i + 1));
    } else {
      s := s.(out := s.out + [rtf[s.i]], i := s.i + 1);
    }
  }

  method RtfToPlainText(rtf: Units) returns (text: Units)
    ensures text == PlainText(rtf)
  {
    if !(Ascii("{\\rtf") <= TrimUnitsStart(rtf)) {
      return rtf;
    }
    var s := INITIAL;
    while s.i < |rtf|
      invariant Loop(rtf, s) == Loop(rtf, INITIAL)
    {
      s := Round(rtf, s);
    }
    text := TrimUnitsEnd(TrimUnitsStart(Collapse(s.out)));
  }

  // ----- skipped groups and the scope of \uc ----------------------------------------------------

  /** Inside a skipped group only braces matter. */
  function SkipStep(rtf: Units, s: State): State
    requires s.i < |rtf|
  {
    if At(rtf, s.i, '{') then
      s.(i := s.i + 1, depth := s.depth + 1, ucStack := s.ucStack + [s.ucSkip])
    else if At(rtf, s.i, '}') && s.depth > 0 && s.ucStack != [] then
      s.(i := s.i + 1,
         depth := s.depth - 1,
         skipDepth := if s.skipDepth == Some(s.depth) then None else s.skipDepth,
         ucSkip := s.ucStack[|s.ucStack| - 1],
         ucStack := s.ucStack[..|s.ucStack| - 1])
    else
      s.(i := s.i + 1)
  }

  /** The rounds until the skipped group is closed, or to the end. */
  function SkipLoop(rtf: Units, s: State): State
    requires s.i <= |rtf|
    decreases |rtf| - s.i
  {
    if s.i == |rtf| || s.skipDepth.None? then s else SkipLoop(rtf, SkipStep(rtf, s))
  }

  lemma SkipStepIsStep(rtf: Units, s: State)
    requires s.i < |rtf| && s.skipDepth.Some? && 1 <= s.skipDepth.value <= s.depth == |s.ucStack|
    ensures Step(rtf, s) == SkipStep(rtf, s)
    ensures var next := SkipStep(rtf, s);
            |next.ucStack| == next.depth && (next.skipDepth.Some? ==> 1 <= next.skipDepth.value <= next.depth)
  {
  }

  lemma {:induction false} LoopSkips(rtf: Units, s: State)
    requires s.i <= |rtf| && |s.ucStack| == s.depth && (s.skipDepth.Some? ==> 1 <= s.skipDepth.value <= s.depth)
    ensures SkipLoop(rtf, s).i <= |rtf| && Loop(rtf, s) == Loop(rtf, SkipLoop(rtf, s))
    decreases |rtf| - s.i
  {
    if s.i < |rtf| && s.skipDepth.Some? {
      SkipStepIsStep(rtf, s);
      LoopSkips(rtf, SkipStep(rtf, s));
    }
  }

  /** Every level of a skipped group saves the same fallback count. */
  lemma {:induction false} SkipLoopClosesGroup(rtf: Units, s: State, base: seq<nat>, open: nat)
    requires s.i <= |rtf| && open >= 1
    requires s.skipDepth.Some? && s.skipDepth.value >= 1 && s.depth == s.skipDepth.value + open - 1
    requires s.ucStack == base + seq(open, _ => s.ucSkip)
    ensures match GroupEnd(rtf, U('{'), U('}'), s.i, open)
            case Some(end) =>
              SkipLoop(rtf, s) == s.(i := end, depth := s.skipDepth.value - 1, skipDepth := None, ucStack := base)
            case None => SkipLoop(rtf, s).i == |rtf| && SkipLoop(rtf, s).out == s.out
    decreases |rtf| - s.i
  {
    if s.i < |rtf| {
      var next := SkipStep(rtf, s);
      if At(rtf, s.i, '{') {
        assert next.ucStack == base + seq(open + 1, _ => s.ucSkip);
        SkipLoopClosesGroup(rtf, next, base, open + 1);
      } else if !At(rtf, s.i, '}') {
        SkipLoopClosesGroup(rtf, next, base, open);
      } else {
        assert next.ucStack == base + seq(open - 1, _ => s.ucSkip);
        if open > 1 {
          SkipLoopClosesGroup(rtf, next, base, open - 1);
        } else {
          assert next.ucStack == base;
        }
      }
    }
  }

  /**
   From any state at the brace that opens a skippable group, the loop comes to the position after the matching
   brace with nothing else changed, the `\uc` stack included. An unclosed group swallows the rest.
   */
  lemma SkippedGroupIsSteppedOver(rtf: Units, s: State)
    requires s.i < |rtf| && s.skipDepth.None? && OpensSkippedGroup(rtf, s.i) && |s.ucStack| == s.depth
    ensures match GroupEnd(rtf, U('{'), U('}'), s.i + 1, 1)
            case Some(end) => Loop(rtf, s) == Loop(rtf, s.(i := end))
            case None => Loop(rtf, s).out == s.out
  {
    var depth := s.depth + 1;
    var next := s.(i := s.i + 1, depth := depth, skipDepth := Some(depth), ucStack := s.ucStack + [s.ucSkip]);
    assert next.ucStack == s.ucStack + seq(1, _ => s.ucSkip);
    LoopStep(rtf, s, next);
    SkipLoopClosesGroup(rtf, next, s.ucStack, 1);
    LoopSkips(rtf, next);
  }

  /** The state after `n` rounds, or at the end of the text. */
  function Rounds(rtf: Units, s: State, n: nat): State
    decreases n
  {
    if n == 0 || s.i >= |rtf| then s else Rounds(rtf, Step(rtf, s), n - 1)
  }

  /** The stack has one saved count per open group, also in documents with stray closing braces. */
  lemma {:induction false} StackTracksDepth(rtf: Units, s: State, n: nat)
    requires |s.ucStack| == s.depth
    ensures |Rounds(rtf, s, n).ucStack| == Rounds(rtf, s, n).depth
    decreases n
  {
    if n > 0 && s.i < |rtf| {
      StackTracksDepth(rtf, Step(rtf, s), n - 1);
    }
  }

  /**
   `\ucN` is scoped to its group: when a group that was opened with a stack of height `height` closes, the count
   and the stack are what they were before it, whatever the group held.
   */
  lemma {:induction false} UcIsScoped(rtf: Units, s: State, n: nat, height: nat)
    requires height < |s.ucStack|
    requires forall m | 0 <= m < n :: height < |Rounds(rtf, s, m).ucStack|
    requires |Rounds(rtf, s, n).ucStack| == height
    ensures Rounds(rtf, s, n).ucSkip == s.ucStack[height] && Rounds(rtf, s, n).ucStack == s.ucStack[..height]
    decreases n
  {
    var next := Step(rtf, s);
    if n == 1 {
      assert Rounds(rtf, s, 1) == Rounds(rtf, next, 0);
    } else {
      assert Rounds(rtf, s, 1) == Rounds(rtf, next, 0);
      forall m | 0 <= m < n - 1
        ensures height < |Rounds(rtf, next, m).ucStack|
      {
        assert Rounds(rtf, s, m + 1) == Rounds(rtf, next, m);
      }
      assert next.ucStack[..height] == s.ucStack[..height] && next.ucStack[height] == s.ucStack[height];
      UcIsScoped(rtf, next, n - 1, height);
    }
  }
}
