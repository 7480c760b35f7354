/** Sequence predicates shared by the parsers, printers and lists. */
module Sequences {
  /** `part` stands at position `i`. */
  predicate At<T(==)>(whole: seq<T>, i: nat, part: seq<T>) {
    i + |part| <= |whole| && whole[i..i + |part|] == part
  }

  lemma AtSplits<T>(whole: seq<T>, i: nat, left: seq<T>, right: seq<T>)
    requires At(whole, i, left + right)
    ensures At(whole, i, left) && At(whole, i + |left|, right)
  {
    assert whole[i..i + |left|] == (left + right)[..|left|];
    assert whole[i + |left|..i + |left| + |right|] == (left + right)[|left|..];
  }

  ghost predicate Distinct<T>(items: seq<T>) {
    forall i, j | 0 <= i < j < |items| :: items[i] != items[j]
  }
}
