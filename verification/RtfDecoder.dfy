/**
 `strip_rtf`: one pass over an RTF document that tracks brace depth, skips header groups, drops the fallback
 characters after `\uN` and pairs UTF-16 surrogates across escapes.
 */
module RtfDecoder {
  import opened Options
  import opened Text

  /** The first half of a UTF-16 surrogate pair. */
  type High = n: nat | 0xD800 <= n <= 0xDBFF witness 0xD800

  /** The text so far, and the first half of a pair whose second half has not come yet. */
  datatype Output = Output(text: string, pendingHigh: Option<High>) {
    function Add(more: string): Output {
      this.(text := text + more)
    }
  }

  /** The loop's variables. */
  datatype State = State(i: nat, depth: nat, skipDepth: Option<nat>, ucSkip: nat, out: Output)

  const INITIAL := State(0, 0, None, 1, Output("", None))

  const SKIPPED_GROUPS := ["\\fonttbl", "\\colortbl", "\\stylesheet", "\\info", "\\*\\", "\\expandedcolortbl"]

  /** The group opened at `i` is a header table or an ignorable destination. */
  predicate OpensSkippedGroup(chars: string, i: nat)
    requires i < |chars|
  {
    chars[i] == '{' && exists k | 0 <= k < |SKIPPED_GROUPS| :: StartsWith(chars[i + 1..], SKIPPED_GROUPS[k])
  }

  function HexDigit(c: char): Option<nat> {
    if IsDigit(c) then Some(DigitValue(c))
    else if 'a' <= c <= 'f' then Some(c as int - 'a' as int + 10)
    else if 'A' <= c <= 'F' then Some(c as int - 'A' as int + 10)
    else None
  }

  /** `u8::from_str_radix(_, 16)` on two characters; it also takes a plus sign before one digit. */
  function HexByte(first: char, second: char): (byte: Option<nat>)
    ensures byte.Some? ==> byte.value < 256
  {
    if HexDigit(second).None? then None
    else if first == '+' then HexDigit(second)
    else if HexDigit(first).None? then None
    else Some(16 * HexDigit(first).value + HexDigit(second).value)
  }

  const CP1252_HIGH: seq<char> := [
    '\U{20AC}', '\U{FFFD}', '\U{201A}', '\U{0192}', '\U{201E}', '\U{2026}', '\U{2020}', '\U{2021}',
    '\U{02C6}', '\U{2030}', '\U{0160}', '\U{2039}', '\U{0152}', '\U{FFFD}', '\U{017D}', '\U{FFFD}',
    '\U{FFFD}', '\U{2018}', '\U{2019}', '\U{201C}', '\U{201D}', '\U{2022}', '\U{2013}', '\U{2014}',
    '\U{02DC}', '\U{2122}', '\U{0161}', '\U{203A}', '\U{0153}', '\U{FFFD}', '\U{017E}', '\U{0178}']

  function Cp1252Char(byte: nat): char
    requires byte < 256
  {
    if 0x80 <= byte < 0xA0 then CP1252_HIGH[byte - 0x80] else byte as char
  }

  // ----- control words --------------------------------------------------------------------------

  function WordEnd(chars: string, i: nat): (end: nat)
    requires i <= |chars|
    ensures i <= end <= |chars|
    decreases |chars| - i
  {
    if i < |chars| && IsAlpha(chars[i]) then WordEnd(chars, i + 1) else i
  }

  predicate IsParamChar(c: char) {
    c == '-' || IsDigit(c)
  }

  function ParamEnd(chars: string, i: nat): (end: nat)
    requires i <= |chars|
    ensures i <= end <= |chars|
    decreases |chars| - i
  {
    if i < |chars| && IsParamChar(chars[i]) then ParamEnd(chars, i + 1) else i
  }

  /** `skip_rtf_fallback_chars` */
  function AfterFallback(chars: string, i: nat, count: nat): (end: nat)
    requires i <= |chars|
    ensures i <= end <= |chars|
    decreases count
  {
    if count == 0 || i == |chars| || chars[i] == '{' || chars[i] == '}' then
      i
    else if chars[i] == '\\' then
      if i + 1 < |chars| && chars[i + 1] == '\'' then
        AfterFallback(chars, if i + 4 < |chars| then i + 4 else |chars|, count - 1)
      else
        i
    else
      AfterFallback(chars, i + 1, count - 1)
  }

  /** `char::from_u32` */
  function CharOf(n: nat): string {
    if n < 0xD800 || 0xE000 <= n < 0x11_0000 then [n as char] else ""
  }

  /** `push_rtf_unicode_unit` */
  function PushUnit(out: Output, unit: nat): Output {
    if 0xD800 <= unit <= 0xDBFF then
      out.(pendingHigh := Some(unit))
    else if 0xDC00 <= unit <= 0xDFFF then
      match out.pendingHigh
      case Some(high) => Output(out.text + CharOf(0x1_0000 + (high - 0xD800) * 1024 + (unit - 0xDC00)), None)
      case None => out
    else
      Output(out.text + CharOf(unit), None)
  }

  /** The UTF-16 unit a `\uN` parameter names: negative values wrap, in 32 bits. */
  function UnitOf(signed: int): nat {
    (if signed < 0 then signed + 65536 else signed) % 0x1_0000_0000
  }

  /** Control words that stand for text. */
  const PLAIN_WORDS: seq<(string, string)> := [
    ("par", "\n"), ("line", "\n"), ("tab", "\t"), ("emdash", "\U{2014}"), ("endash", "\U{2013}"),
    ("lquote", "\U{2018}"), ("rquote", "\U{2019}"), ("ldblquote", "\U{201C}"), ("rdblquote", "\U{201D}"),
    ("bullet", "\U{2022}")]

  /** The text of a control word, from the `k`-th row of the table on. */
  function PlainWord(word: string, k: nat := 0): string
    requires k <= |PLAIN_WORDS|
    decreases |PLAIN_WORDS| - k
  {
    if k == |PLAIN_WORDS| then ""
    else if PLAIN_WORDS[k].0 == word then PLAIN_WORDS[k].1
    else PlainWord(word, k + 1)
  }

  /** `\ucN` */
  function SetUcSkip(s: State, param: string): State {
    var count := ParseUsize(param).GetOr(1);
    s.(ucSkip := if count < 8 then count else 8)
  }

  /** `\uN`; `next` is the position after its delimiter. */
  function UnicodeEscape(chars: string, s: State, param: string, next: nat): (after: State)
    requires next <= |chars|
    ensures next <= after.i <= |chars|
  {
    var signed := ParseI32(param);
    var out := if signed.Some? then PushUnit(s.out, UnitOf(signed.value)) else s.out;
    s.(i := AfterFallback(chars, next, s.ucSkip), out := out)
  }

  /** A control word whose letters start at `i`. */
  function ControlWord(chars: string, s: State): (after: State)
    requires s.i <= |chars|
    ensures s.i <= after.i <= |chars|
  {
    var wordEnd := WordEnd(chars, s.i);
    var paramEnd := ParamEnd(chars, wordEnd);
    var word, param := chars[s.i..wordEnd], chars[wordEnd..paramEnd];
    var next := if paramEnd < |chars| && chars[paramEnd] == ' ' then paramEnd + 1 else paramEnd;
    if word == "uc" then
      SetUcSkip(s, param).(i := next)
    else if word == "u" then
      UnicodeEscape(chars, s, param, next)
    else
      s.(i := next, out := s.out.Add(PlainWord(word)))
  }

  /** What follows a backslash outside skipped groups; `s.i` is the position after it. */
  function Escape(chars: string, s: State): (after: State)
    requires s.i <= |chars|
    ensures s.i <= after.i <= |chars|
  {
    if s.i == |chars| then
      s
    else if chars[s.i] == '\\' || chars[s.i] == '{' || chars[s.i] == '}' then
      s.(i := s.i + 1, out := s.out.Add([chars[s.i]]))
    else if chars[s.i] == '\n' || chars[s.i] == '\r' then
      s.(i := s.i + 1)
    else if chars[s.i] == '\'' then
      if s.i + 2 < |chars| then
        var byte := HexByte(chars[s.i + 1], chars[s.i + 2]);
        s.(i := s.i + 3, out := s.out.Add(if byte.Some? then [Cp1252Char(byte.value)] else ""))
      else
        s.(i := s.i + 1)
    else
      ControlWord(chars, s)
  }

  /** One round of the loop. */
  function Step(chars: string, s: State): (after: State)
    requires s.i < |chars|
    ensures s.i < after.i <= |chars|
  {
    if chars[s.i] == '{' then
      var skipDepth := if s.skipDepth.None? && OpensSkippedGroup(chars, s.i) then Some(s.depth + 1) else s.skipDepth;
      s.(i := s.i + 1, depth := s.depth + 1, skipDepth := skipDepth)
    else if chars[s.i] == '}' then
      s.(i := s.i + 1,
         depth := if s.depth == 0 then 0 else s.depth - 1,
         skipDepth := if s.skipDepth == Some(s.depth) then None else s.skipDepth)
    else if chars[s.i] == '\\' && s.skipDepth.None? then
      Escape(chars, s.(i := s.i + 1))
    else if s.skipDepth.Some? || s.depth == 0 then
      s.(i := s.i + 1)
    else
      s.(i := s.i + 1, out := s.out.Add([chars[s.i]]))
  }

  function Loop(chars: string, s: State): State
    requires s.i <= |chars|
    decreases |chars| - s.i
  {
    if s.i == |chars| then s else Loop(chars, Step(chars, s))
  }

  lemma LoopStep(chars: string, s: State, next: State)
    requires s.i < |chars| && Step(chars, s) == next
    ensures Loop(chars, s) == Loop(chars, next)
  {
  }

  function Strip(rtf: string): string {
    if !StartsWith(TrimStart(rtf), "{\\rtf") then
      rtf
    else
      var trimmed := Trim(Loop(rtf, INITIAL).out.text);
      if trimmed == "" then Trim(rtf) else trimmed
  }

  // ----- as the program runs it -----------------------------------------------------------------

  method SkipFallback(chars: string, start: nat, count: nat) returns (i: nat)
    requires start <= |chars|
    ensures i == AfterFallback(chars, start, count)
  {
    i := start;
    var left: nat := count;
    while left > 0
      invariant i <= |chars| && left <= count
      invariant AfterFallback(chars, i, left) == AfterFallback(chars, start, count)
    {
      if i >= |chars| || chars[i] == '{' || chars[i] == '}' {
        break;
      }
      if chars[i] == '\\' {
        if i + 1 < |chars| && chars[i + 1] == '\'' {
          i := if i + 4 < |chars| then i + 4 else |chars|;
        } else {
          break;
        }
      } else {
        i := i + 1;
      }
      left := left - 1;
    }
  }

  /** The control word at `start`: its letters, its parameter, and the position after the delimiter. */
  method ReadControlWord(chars: string, start: nat) returns (word: string, param: string, i: nat)
    requires start <= |chars|
    ensures var wordEnd := WordEnd(chars, start);
            var paramEnd := ParamEnd(chars, wordEnd);
            && word == chars[start..wordEnd]
            && param == chars[wordEnd..paramEnd]
            && i == if paramEnd < |chars| && chars[paramEnd] == ' ' then paramEnd + 1 else paramEnd
  {
    i := start;
    while i < |chars| && IsAlpha(chars[i])
      invariant start <= i <= |chars| && WordEnd(chars, i) == WordEnd(chars, start)
    {
      i := i + 1;
    }
    word := chars[start..i];
    var paramStart := i;
    param := "";
    while i < |chars| && IsParamChar(chars[i])
      invariant paramStart <= i <= |chars| && ParamEnd(chars, i) == ParamEnd(chars, paramStart)
      invariant param == chars[paramStart..i]
    {
      param := param + [chars[i]];
      i := i + 1;
    }
    if i < |chars| && chars[i] == ' ' {
      i := i + 1;
    }
  }

  /** What follows a backslash. */
  method ReadEscape(chars: string, s: State) returns (after: State)
    requires s.i <= |chars|
    ensures after == Escape(chars, s)
  {
    var i, out := s.i, s.out;
    if i >= |chars| {
      return s;
    }
    if chars[i] == '\\' || chars[i] == '{' || chars[i] == '}' {
      return s.(i := i + 1, out := out.Add([chars[i]]));
    }
    if chars[i] == '\n' || chars[i] == '\r' {
      return s.(i := i + 1);
    }
    if chars[i] == '\'' {
      if i + 2 >= |chars| {
        return s.(i := i + 1);
      }
      var byte := HexByte(chars[i + 1], chars[i + 2]);
      if byte.Some? {
        out := out.Add([Cp1252Char(byte.value)]);
      }
      return s.(i := i + 3, out := out);
    }
    var word, param, next := ReadControlWord(chars, i);
    if word == "uc" {
      var count := ParseUsize(param).GetOr(1);
      return s.(i := next, ucSkip := if count < 8 then count else 8);
    }
    if word == "u" {
      var signed := ParseI32(param);
      if signed.Some? {
        out := PushUnit(out, UnitOf(signed.value));
      }
      next := SkipFallback(chars, next, s.ucSkip);
      return s.(i := next, out := out);
    }
    after := s.(i := next, out := out.Add(PlainWord(word)));
  }

  /** The loop body. */
  method Round(chars: string, before: State) returns (s: State)
    requires before.i < |chars|
    ensures s == Step(chars, before)
  {
    s := before;
    var c := chars[s.i];
    if c == '{' {
      s := s.(depth := s.depth + 1);
      if s.skipDepth.None? && OpensSkippedGroup(chars, s.i) {
        s := s.(skipDepth := Some(s.depth));
      }
      s := s.(i := s.i + 1);
    } else if c == '}' {
      if s.skipDepth == Some(s.depth) {
        s := s.(skipDepth := None);
      }
      s := s.(depth := if s.depth == 0 then 0 else s.depth - 1, i := s.i + 1);
    } else if c == '\\' && s.skipDepth.None? {
      s := ReadEscape(chars, s.(i := s.i + 1));
    } else if s.skipDepth.Some? || s.depth == 0 {
      s := s.(i := s.i + 1);
    } else {
      s := s.(i := s.i + 1, out := s.out.Add([c]));
    }
  }

  method StripRtf(rtf: string) returns (text: string)
    ensures text == Strip(rtf)
  {
    if !StartsWith(TrimStart(rtf), "{\\rtf") {
      return rtf;
    }
    var s := INITIAL;
    while s.i < |rtf|
      invariant s.i <= |rtf| && Loop(rtf, s) == Loop(rtf, INITIAL)
    {
      s := Round(rtf, s);
    }
    var trimmed := Trim(s.out.text);
    text := if trimmed == "" then Trim(rtf) else trimmed;
  }
}
