/**
 `shell_quote` against a word parser for the POSIX shell (sections 2.2 and 2.3 of the Shell Command Language):
 the launcher path is one word, literally, wherever it stands in a command line.
 */
module ShellQuoting {
  import opened Options
  import opened Quoting
  import opened Text

  // ----- the parser -----------------------------------------------------------------------------------

  datatype Mode = Bare | Single | Double

  /** Characters that mean something to the shell when they stand unquoted. */
  predicate IsSpecial(c: char) {
    || c == '|' || c == '&' || c == ';' || c == '<' || c == '>' || c == '(' || c == ')' || c == '$' || c == '`'
    || c == '*' || c == '?' || c == '[' || c == '#' || c == '~' || c == '='
    || c == '%' || c == '!' || c == '{' || c == '}'
  }

  predicate IsBlank(c: char) {
    c == ' ' || c == '\t' || c == '\n'
  }

  predicate EscapableInDouble(c: char) {
    c == '$' || c == '`' || c == '"' || c == '\\' || c == '\n'
  }

  function Push(word: Option<string>, c: char): Option<string> {
    Some(word.GetOr("") + [c])
  }

  function Finish(word: Option<string>): seq<string> {
    if word.Some? then [word.value] else []
  }

  /**
   The words of the rest of a line, after the part of a word read so far. `None` for an unfinished quote, and
   for anything that would not be taken literally.
   */
  function Words(s: string, mode: Mode, word: Option<string>): Option<seq<string>>
    decreases |s|
  {
    if s == "" then
      if mode.Bare? then Some(Finish(word)) else None
    else
      var c, rest := s[0], s[1..];
      match mode
      case Single => if c == '\'' then Words(rest, Bare, word) else Words(rest, Single, Push(word, c))
      case Double =>
        if c == '"' then Words(rest, Bare, word)
        else if c == '$' || c == '`' then None
        else if c == '\\' && rest != "" && EscapableInDouble(rest[0]) then
          Words(rest[1..], Double, if rest[0] == '\n' then word else Push(word, rest[0]))
        else Words(rest, Double, Push(word, c))
      case Bare =>
        if c == '\'' then Words(rest, Single, Some(word.GetOr("")))
        else if c == '"' then Words(rest, Double, Some(word.GetOr("")))
        else if c == '\\' then
          if rest == "" then None
          else Words(rest[1..], Bare, if rest[0] == '\n' then word else Push(word, rest[0]))
        else if IsBlank(c) then Prepend(Finish(word), Words(rest, Bare, None))
        else if IsSpecial(c) then None
        else Words(rest, Bare, Push(word, c))
  }

  function Prepend(before: seq<string>, after: Option<seq<string>>): Option<seq<string>> {
    if after.Some? then Some(before + after.value) else None
  }

  // ----- the quoting ----------------------------------------------------------------------------------

  predicate IsSafe(c: char) {
    IsAlpha(c) || IsDigit(c) || c == '_' || c == '-' || c == '.' || c == '/' || c == ':' || c == '@' || c == '+'
  }

  predicate AllSafe(value: string) {
    forall i | 0 <= i < |value| :: IsSafe(value[i])
  }

  function ShellQuote(value: string): string {
    if value != "" && AllSafe(value) then
      value
    else
      "'" + Replace(value, "'", "'\\''") + "'"
  }

  /** An unquoted run of safe characters extends the word. */
  lemma {:induction false} SafeIsLiteral(value: string, rest: string, word: string)
    requires AllSafe(value)
    ensures Words(value + rest, Bare, Some(word)) == Words(rest, Bare, Some(word + value))
  {
    if value == "" {
      assert value + rest == rest && word + value == word;
    } else {
      var c, tail := value[0], value[1..];
      SafeIsPlain(c);
      SafeIsLiteral(tail, rest, word + [c]);
      assert value + rest == [c] + (tail + rest);
      BareStep(c, tail + rest, Some(word));
      assert word + [c] + tail == word + value;
    }
  }

  lemma SafeIsPlain(c: char)
    requires IsSafe(c)
    ensures c != '\'' && c != '"' && c != '\\' && !IsBlank(c) && !IsSpecial(c)
  {
  }

  lemma BareStep(c: char, rest: string, word: Option<string>)
    requires c != '\'' && c != '"' && c != '\\' && !IsBlank(c) && !IsSpecial(c)
    ensures Words([c] + rest, Bare, word) == Words(rest, Bare, Push(word, c))
  {
    assert ([c] + rest)[1..] == rest;
  }

  lemma SingleStep(c: char, rest: string, word: Option<string>)
    requires c != '\''
    ensures Words([c] + rest, Single, word) == Words(rest, Single, Push(word, c))
  {
    assert ([c] + rest)[1..] == rest;
  }

  /** The four characters for a quote inside quotes close the string, add the quote, and open it again. */
  lemma QuoteStep(rest: string, word: string)
    ensures Words("'\\''" + rest, Single, Some(word)) == Words(rest, Single, Some(word + "'"))
  {
    var s := "'\\''" + rest;
    assert s[1..] == "\\''" + rest;
    assert Words(s, Single, Some(word)) == Words("\\''" + rest, Bare, Some(word));
    assert ("\\''" + rest)[1..] == "''" + rest && ("''" + rest)[1..] == "'" + rest && ("'" + rest)[1..] == rest;
    assert Words("\\''" + rest, Bare, Some(word)) == Words("'" + rest, Bare, Some(word + "'"));
  }

  /** Inside single quotes everything is literal, quotes included. */
  lemma {:induction false} QuotedIsLiteral(value: string, rest: string, word: string)
    ensures Words(Replace(value, "'", "'\\''") + rest, Single, Some(word)) == Words(rest, Single, Some(word + value))
  {
    var quoted := Replace(value, "'", "'\\''");
    if value == "" {
      assert quoted + rest == rest && word + value == word;
    } else {
      var c, tail := value[0], value[1..];
      var later := Replace(tail, "'", "'\\''");
      QuotedIsLiteral(tail, rest, word + [c]);
      assert value == [c] + tail;
      assert word + [c] + tail == word + value;
      if c == '\'' {
        ReplaceHit(tail, "'", "'\\''");
        assert quoted + rest == "'\\''" + (later + rest);
        QuoteStep(later + rest, word);
      } else {
        ReplaceMiss(c, tail, "'", "'\\''");
        assert quoted + rest == [c] + (later + rest);
        SingleStep(c, later + rest, Some(word));
      }
    }
  }

  lemma BlankStep(rest: string, word: string)
    ensures Words(" " + rest, Bare, Some(word)) == Prepend([word], Words(rest, Bare, None))
  {
    assert (" " + rest)[1..] == rest;
  }

  lemma OpenStep(rest: string)
    ensures Words("'" + rest, Bare, None) == Words(rest, Single, Some(""))
  {
    assert ("'" + rest)[1..] == rest;
  }

  lemma CloseStep(rest: string, word: string)
    ensures Words("'" + rest, Single, Some(word)) == Words(rest, Bare, Some(word))
  {
    assert ("'" + rest)[1..] == rest;
  }

  lemma SafeWordIsRead(value: string, rest: string)
    requires value != "" && AllSafe(value)
    ensures Words(value + rest, Bare, None) == Words(rest, Bare, Some(value))
  {
    var c, tail := value[0], value[1..];
    SafeIsPlain(c);
    assert value + rest == [c] + (tail + rest);
    BareStep(c, tail + rest, None);
    SafeIsLiteral(tail, rest, "" + [c]);
    assert "" + [c] + tail == value;
  }

  /** Wherever a word may start, the quoted text is read as exactly that text, and the line goes on after it. */
  lemma QuotedWordIsRead(value: string, rest: string)
    ensures Words(ShellQuote(value) + rest, Bare, None) == Words(rest, Bare, Some(value))
  {
    if value != "" && AllSafe(value) {
      SafeWordIsRead(value, rest);
    } else {
      var inside := Replace(value, "'", "'\\''");
      assert ShellQuote(value) + rest == "'" + (inside + ("'" + rest));
      OpenStep(inside + ("'" + rest));
      QuotedIsLiteral(value, "'" + rest, "");
      assert "" + value == value;
      CloseStep(rest, value);
    }
  }

  /** `shell_quote(s)` alone is the single word `s`. */
  lemma QuotedIsOneWord(value: string)
    ensures Words(ShellQuote(value), Bare, None) == Some([value])
  {
    QuotedWordIsRead(value, "");
    assert ShellQuote(value) + "" == ShellQuote(value);
  }

  /** The command of a keybinding is the launcher and its flag: two words, for every path. */
  lemma CommandIsLauncherAndFlag(launcher: string, flag: string)
    requires flag != "" && AllSafe(flag)
    ensures Words(ShellQuote(launcher) + " " + flag, Bare, None) == Some([launcher, flag])
  {
    assert ShellQuote(launcher) + " " + flag == ShellQuote(launcher) + (" " + flag);
    QuotedWordIsRead(launcher, " " + flag);
    BlankStep(flag, launcher);
    SafeWordIsRead(flag, "");
    assert flag + "" == flag;
    assert [launcher] + [flag] == [launcher, flag];
  }
}
