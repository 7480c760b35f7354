/**
 `gvariant_string` and `format_string_array` against a reader of the GVariant text format, where a string stands
 between single quotes and a backslash takes the quote or backslash after it literally: whatever the items, the
 settings store reads the list that was meant.
 */
module GvariantLiterals {
  import opened Options
  import opened Quoting

  /** The string whose opening quote has been read, with the text after its closing quote. */
  function StringRest(s: string): Option<(string, string)> {
    if s == "" then None
    else if s[0] == '\'' then Some(("", s[1..]))
    else if s[0] == '\\' then
      if |s| >= 2 && (s[1] == '\'' || s[1] == '\\') then After(s[1], StringRest(s[2..])) else None
    else After(s[0], StringRest(s[1..]))
  }

  function After(c: char, read: Option<(string, string)>): Option<(string, string)> {
    match read
    case Some((value, rest)) => Some(([c] + value, rest))
    case None => None
  }

  /** The items of a list whose opening bracket has been read. */
  function ItemsRest(s: string): Option<seq<string>>
    decreases |s|
  {
    if s == "]" then Some([]) else ItemsFrom(s)
  }

  function ItemsFrom(s: string): Option<seq<string>>
    decreases |s|
  {
    if s == "" || s[0] != '\'' then
      None
    else
      match StringRest(s[1..])
      case None => None
      case Some((value, rest)) =>
        if rest == "]" then Some([value])
        else if |rest| >= 2 && |rest| < |s| && rest[0] == ',' && rest[1] == ' ' then
          match ItemsFrom(rest[2..])
          case Some(items) => Some([value] + items)
          case None => None
        else None
  }

  /** A string literal, alone */
  function ReadString(s: string): Option<string> {
    if s == "" || s[0] != '\'' then
      None
    else
      match StringRest(s[1..])
      case Some((value, rest)) => if rest == "" then Some(value) else None
      case None => None
  }

  function ReadList(s: string): Option<seq<string>> {
    if s != "" && s[0] == '[' then ItemsRest(s[1..]) else None
  }

  lemma PlainStep(c: char, s: string)
    requires c != '\\' && c != '\''
    ensures StringRest([c] + s) == After(c, StringRest(s))
  {
    assert ([c] + s)[1..] == s;
  }

  lemma EscapeStep(c: char, s: string)
    requires c == '\\' || c == '\''
    ensures StringRest(['\\', c] + s) == After(c, StringRest(s))
  {
    assert (['\\', c] + s)[2..] == s;
  }

  lemma {:induction false} EscapedIsRead(value: string, rest: string)
    ensures StringRest(Escaped(value) + ("'" + rest)) == Some((value, rest))
    decreases |value|
  {
    var tail := "'" + rest;
    if value == "" {
      assert Escaped(value) + tail == tail && tail[1..] == rest;
    } else {
      EscapedIsRead(value[1..], rest);
      FirstCharacterIsRead(value, tail);
      assert value == [value[0]] + value[1..];
    }
  }

  lemma FirstCharacterIsRead(value: string, tail: string)
    requires value != ""
    ensures StringRest(Escaped(value) + tail) == After(value[0], StringRest(Escaped(value[1..]) + tail))
  {
    hide StringRest;
    var c, more := value[0], Escaped(value[1..]) + tail;
    if c == '\\' || c == '\'' {
      assert Escaped(value) + tail == ['\\', c] + more;
      EscapeStep(c, more);
    } else {
      assert Escaped(value) + tail == [c] + more;
      PlainStep(c, more);
    }
  }

  /** The literal for any text is read as the text. */
  lemma LiteralIsTheText(value: string)
    ensures ReadString(GvariantString(value)) == Some(value)
  {
    GvariantIsEscaped(value);
    EscapedIsRead(value, "");
    var s := GvariantString(value);
    assert s == "'" + (Escaped(value) + ("'" + ""));
    assert s[1..] == Escaped(value) + ("'" + "");
  }

  lemma LastItem(value: string)
    ensures ItemsFrom("'" + (Escaped(value) + ("'" + "]"))) == Some([value])
  {
    hide StringRest, Escaped;
    var s := "'" + (Escaped(value) + ("'" + "]"));
    EscapedIsRead(value, "]");
    assert s[1..] == Escaped(value) + ("'" + "]");
  }

  lemma ItemBeforeOthers(value: string, next: string, others: seq<string>)
    requires ItemsFrom(next) == Some(others)
    ensures ItemsFrom("'" + (Escaped(value) + ("'" + (", " + next)))) == Some([value] + others)
  {
    hide StringRest, Escaped;
    var rest := ", " + next;
    var s := "'" + (Escaped(value) + ("'" + rest));
    EscapedIsRead(value, rest);
    assert s[1..] == Escaped(value) + ("'" + rest);
    assert rest[2..] == next && rest != "]";
  }

  lemma {:induction false} JoinedIsRead(items: seq<string>)
    requires items != []
    ensures ItemsFrom(Joined(items) + "]") == Some(items)
    decreases |items|
  {
    hide ItemsFrom, Escaped, GvariantString;
    var value := items[0];
    GvariantIsEscaped(value);
    if |items| == 1 {
      LastItem(value);
      assert items == [value];
      assert Joined(items) + "]" == "'" + (Escaped(value) + ("'" + "]"));
    } else {
      var next := Joined(items[1..]) + "]";
      JoinedIsRead(items[1..]);
      ItemBeforeOthers(value, next, items[1..]);
      assert Joined(items) + "]" == "'" + (Escaped(value) + ("'" + (", " + next)));
      assert [value] + items[1..] == items;
    }
  }

  /** The list written for any items is read as the items, also where this program's own reader loses some. */
  lemma ListIsTheItems(items: seq<string>)
    ensures ReadList(FormatStringArray(items)) == Some(items)
  {
    var s := FormatStringArray(items);
    assert s[1..] == Joined(items) + "]";
    if items != [] {
      JoinedIsRead(items);
      GvariantIsEscaped(items[0]);
      assert Joined(items)[0] == '\'';
    }
  }
}
