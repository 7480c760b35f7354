/** Brace matching as both RTF decoders count it: every brace, also one after a backslash. */
module Braces {
  import opened Options

  /** The position after the brace that closes `open` groups. */
  function GroupEnd<T(==)>(chars: seq<T>, opening: T, closing: T, i: nat, open: nat): (end: Option<nat>)
    requires i <= |chars| && open >= 1
    ensures end.Some? ==> i < end.value <= |chars|
    decreases |chars| - i
  {
    if i == |chars| then None
    else if chars[i] == opening then GroupEnd(chars, opening, closing, i + 1, open + 1)
    else if chars[i] == closing then
      if open == 1 then Some(i + 1) else GroupEnd(chars, opening, closing, i + 1, open - 1)
    else GroupEnd(chars, opening, closing, i + 1, open)
  }
}
