/**
 SPDX license expressions: tokens, and a recursive-descent parser whose procedures advance one shared
 position. A raised `ValueError` or `IndexError` is `Failed`; every caller treats the two alike.
 */
module Spdx {
  import opened Options
  import opened Text

  datatype Node = Id(name: string) | And(children: seq<Node>) | Or(children: seq<Node>)

  // ----- tokens -------------------------------------------------------------------------------------

  /** `\s` in a Python pattern */
  predicate IsPatternSpace(c: char) {
    IsWhitespace(c) || 0x1C <= c as int <= 0x1F
  }

  predicate IsWordChar(c: char) {
    !IsPatternSpace(c) && c != '(' && c != ')'
  }

  function TokenEnd(s: string, i: nat): (end: nat)
    requires i <= |s|
    ensures i <= end <= |s|
    ensures forall k | i <= k < end :: IsWordChar(s[k])
    ensures end == |s| || !IsWordChar(s[end])
    decreases |s| - i
  {
    if i < |s| && IsWordChar(s[i]) then TokenEnd(s, i + 1) else i
  }

  function TokensFrom(s: string, i: nat): seq<string>
    requires i <= |s|
    decreases |s| - i
  {
    if i == |s| then []
    else if IsPatternSpace(s[i]) then TokensFrom(s, i + 1)
    else if !IsWordChar(s[i]) then [[s[i]]] + TokensFrom(s, i + 1)
    else [s[i..TokenEnd(s, i)]] + TokensFrom(s, TokenEnd(s, i))
  }

  /** The deprecated `MIT/Apache-2.0` form. */
  function SlashesToOr(s: string): string {
    if s == "" then "" else (if s[0] == '/' then " OR " else [s[0]]) + SlashesToOr(s[1..])
  }

  function Tokens(expression: string): seq<string> {
    TokensFrom(SlashesToOr(expression), 0)
  }

  // ----- the grammar --------------------------------------------------------------------------------

  /** A parsed node with the position after it, or an exception. */
  datatype Parsed = Parsed(node: Node, next: nat) | Failed

  function Upper(s: string): (u: string)
    ensures |u| == |s|
  {
    seq(|s|, i requires 0 <= i < |s| =>
      if 'a' <= s[i] <= 'z' then (s[i] as int - 'a' as int + 'A' as int) as char else s[i])
  }

  predicate IsKeyword(token: string) {
    Upper(token) in ["AND", "OR", "WITH"]
  }

  predicate IsIdentifier(token: string) {
    && token != "" && (IsAlpha(token[0]) || IsDigit(token[0]))
    && forall i | 0 <= i < |token| :: IsAlpha(token[i]) || IsDigit(token[i]) || token[i] in ".+:-"
  }

  predicate HasIdentifier(items: seq<string>, i: nat) {
    i < |items| && IsIdentifier(items[i]) && !IsKeyword(items[i])
  }

  predicate Peeks(items: seq<string>, i: nat, words: set<string>) {
    i < |items| && items[i] in words
  }

  const AND_WORDS := {"AND", "and"}
  const OR_WORDS := {"OR", "or"}

  /** `rstrip("+")` */
  function StripPlus(s: string): (stripped: string)
    ensures stripped <= s
    ensures stripped != "" ==> stripped[|stripped| - 1] != '+'
    ensures s != "" && s[0] != '+' ==> stripped != ""
  {
    if s != "" && s[|s| - 1] == '+' then StripPlus(s[..|s| - 1]) else s
  }

  /** The trees the parser can return: stripped identifiers, and operators over at least two operands. */
  predicate IsShaped(n: Node) {
    match n
    case Id(name) => IsIdentifier(name) && name[|name| - 1] != '+'
    case And(children) => |children| >= 2 && AllShaped(children)
    case Or(children) => |children| >= 2 && AllShaped(children)
  }

  predicate AllShaped(nodes: seq<Node>) {
    forall i | 0 <= i < |nodes| :: IsShaped(nodes[i])
  }

  function Primary(items: seq<string>, i: nat): (p: Parsed)
    requires i <= |items|
    ensures p.Parsed? ==> i < p.next <= |items|
    decreases |items| - i, 0
  {
    if Peeks(items, i, {"("}) then
      var inner := Disjunction(items, i + 1);
      if inner.Parsed? && Peeks(items, inner.next, {")"}) then Parsed(inner.node, inner.next + 1) else Failed
    else if !HasIdentifier(items, i) then
      Failed
    else if !Peeks(items, i + 1, {"WITH"}) then
      Parsed(Id(StripPlus(items[i])), i + 1)
    else if HasIdentifier(items, i + 2) then
      Parsed(Id(StripPlus(items[i])), i + 3) // the exception does not change which text is needed
    else
      Failed
  }

  function Conjunction(items: seq<string>, i: nat): (p: Parsed)
    requires i <= |items|
    ensures p.Parsed? ==> i < p.next <= |items|
    decreases |items| - i, 1
  {
    var first := Primary(items, i);
    if first.Failed? then Failed else MoreConjuncts(items, first.next, [first.node])
  }

  /** The loop of `conjunction` with the operands read so far. */
  function MoreConjuncts(items: seq<string>, i: nat, nodes: seq<Node>): (p: Parsed)
    requires i <= |items| && nodes != []
    ensures p.Parsed? ==> i <= p.next <= |items|
    decreases |items| - i, 1
  {
    if Peeks(items, i, AND_WORDS) then
      var operand := Primary(items, i + 1);
      if operand.Failed? then Failed else MoreConjuncts(items, operand.next, nodes + [operand.node])
    else
      Parsed(if |nodes| == 1 then nodes[0] else And(nodes), i)
  }

  function Disjunction(items: seq<string>, i: nat): (p: Parsed)
    requires i <= |items|
    ensures p.Parsed? ==> i < p.next <= |items|
    decreases |items| - i, 2
  {
    var first := Conjunction(items, i);
    if first.Failed? then Failed else MoreDisjuncts(items, first.next, [first.node])
  }

  function MoreDisjuncts(items: seq<string>, i: nat, nodes: seq<Node>): (p: Parsed)
    requires i <= |items| && nodes != []
    ensures p.Parsed? ==> i <= p.next <= |items|
    decreases |items| - i, 2
  {
    if Peeks(items, i, OR_WORDS) then
      var operand := Conjunction(items, i + 1);
      if operand.Failed? then Failed else MoreDisjuncts(items, operand.next, nodes + [operand.node])
    else
      Parsed(if |nodes| == 1 then nodes[0] else Or(nodes), i)
  }

  lemma ConjunctionBegins(items: seq<string>, i: nat)
    requires i <= |items|
    ensures Conjunction(items, i)
         == var first := Primary(items, i);
            if first.Failed? then Failed else MoreConjuncts(items, first.next, [first.node])
  {
  }

  lemma DisjunctionBegins(items: seq<string>, i: nat)
    requires i <= |items|
    ensures Disjunction(items, i)
         == var first := Conjunction(items, i);
            if first.Failed? then Failed else MoreDisjuncts(items, first.next, [first.node])
  {
  }

  lemma ConjunctStep(items: seq<string>, i: nat, nodes: seq<Node>)
    requires Peeks(items, i, AND_WORDS) && nodes != []
    ensures MoreConjuncts(items, i, nodes)
         == var operand := Primary(items, i + 1);
            if operand.Failed? then Failed else MoreConjuncts(items, operand.next, nodes + [operand.node])
  {
  }

  lemma DisjunctStep(items: seq<string>, i: nat, nodes: seq<Node>)
    requires Peeks(items, i, OR_WORDS) && nodes != []
    ensures MoreDisjuncts(items, i, nodes)
         == var operand := Conjunction(items, i + 1);
            if operand.Failed? then Failed else MoreDisjuncts(items, operand.next, nodes + [operand.node])
  {
  }

  lemma ConjunctsStop(items: seq<string>, i: nat, nodes: seq<Node>)
    requires i <= |items| && !Peeks(items, i, AND_WORDS) && nodes != []
    ensures MoreConjuncts(items, i, nodes) == Parsed(if |nodes| == 1 then nodes[0] else And(nodes), i)
  {
  }

  lemma DisjunctsStop(items: seq<string>, i: nat, nodes: seq<Node>)
    requires i <= |items| && !Peeks(items, i, OR_WORDS) && nodes != []
    ensures MoreDisjuncts(items, i, nodes) == Parsed(if |nodes| == 1 then nodes[0] else Or(nodes), i)
  {
  }

  // ----- the trees the grammar yields ---------------------------------------------------------------

  lemma {:induction false} PrimaryIsShaped(items: seq<string>, i: nat)
    requires i <= |items| && Primary(items, i).Parsed?
    ensures IsShaped(Primary(items, i).node)
    decreases |items| - i, 0
  {
    if Peeks(items, i, {"("}) {
      DisjunctionIsShaped(items, i + 1);
    }
  }

  lemma {:induction false} ConjunctionIsShaped(items: seq<string>, i: nat)
    requires i <= |items| && Conjunction(items, i).Parsed?
    ensures IsShaped(Conjunction(items, i).node)
    decreases |items| - i, 1
  {
    PrimaryIsShaped(items, i);
    MoreConjunctsAreShaped(items, Primary(items, i).next, [Primary(items, i).node]);
  }

  lemma {:induction false} MoreConjunctsAreShaped(items: seq<string>, i: nat, nodes: seq<Node>)
    requires i <= |items| && nodes != [] && AllShaped(nodes) && MoreConjuncts(items, i, nodes).Parsed?
    ensures IsShaped(MoreConjuncts(items, i, nodes).node)
    decreases |items| - i, 1
  {
    if Peeks(items, i, AND_WORDS) {
      var operand := Primary(items, i + 1);
      PrimaryIsShaped(items, i + 1);
      MoreConjunctsAreShaped(items, operand.next, nodes + [operand.node]);
    }
  }

  lemma {:induction false} DisjunctionIsShaped(items: seq<string>, i: nat)
    requires i <= |items| && Disjunction(items, i).Parsed?
    ensures IsShaped(Disjunction(items, i).node)
    decreases |items| - i, 2
  {
    ConjunctionIsShaped(items, i);
    MoreDisjunctsAreShaped(items, Conjunction(items, i).next, [Conjunction(items, i).node]);
  }

  lemma {:induction false} MoreDisjunctsAreShaped(items: seq<string>, i: nat, nodes: seq<Node>)
    requires i <= |items| && nodes != [] && AllShaped(nodes) && MoreDisjuncts(items, i, nodes).Parsed?
    ensures IsShaped(MoreDisjuncts(items, i, nodes).node)
    decreases |items| - i, 2
  {
    if Peeks(items, i, OR_WORDS) {
      var operand := Conjunction(items, i + 1);
      ConjunctionIsShaped(items, i + 1);
      MoreDisjunctsAreShaped(items, operand.next, nodes + [operand.node]);
    }
  }

  /** `parse` on tokens: the whole input must be one expression. */
  function ParseTokens(items: seq<string>): Parsed {
    var p := Disjunction(items, 0);
    if p.Parsed? && p.next == |items| then p else Failed
  }

  function Parse(expression: string): Parsed {
    ParseTokens(Tokens(expression))
  }

  // ----- the procedures -----------------------------------------------------------------------------

  /** The state `parse` shares between its nested functions. A method that returns `None` has raised. */
  class Parser {
    const items: seq<string>
    var position: nat

    constructor (items: seq<string>)
      ensures this.items == items && position == 0
    {
      this.items := items;
      position := 0;
    }

    /** What a procedure returned, with the position it left behind. */
    ghost function Outcome(node: Option<Node>): Parsed
      reads this
    {
      if node.Some? then Parsed(node.value, position) else Failed
    }

    method PeekIn(words: set<string>) returns (found: bool)
      ensures found == Peeks(items, position, words)
    {
      found := position < |items| && items[position] in words;
    }

    /** Reading past the end raises, after the position has moved. */
    method Take() returns (token: Option<string>)
      requires position <= |items|
      modifies this
      ensures position == old(position) + 1
      ensures token == if old(position) < |items| then Some(items[old(position)]) else None
    {
      position := position + 1;
      token := if position <= |items| then Some(items[position - 1]) else None;
    }

    method TakeIdentifier() returns (token: Option<string>)
      requires position <= |items|
      modifies this
      ensures token == if HasIdentifier(items, old(position)) then Some(items[old(position)]) else None
      ensures position == old(position) + 1
    {
      token := Take();
      if token.Some? && (IsKeyword(token.value) || !IsIdentifier(token.value)) {
        token := None;
      }
    }

    method ReadPrimary() returns (node: Option<Node>)
      requires position <= |items|
      modifies this
      ensures Outcome(node) == Primary(items, old(position))
      decreases |items| - position, 0
    {
      var next := PeekIn({"("});
      if next {
        var _ := Take();
        node := ReadDisjunction();
        if node.None? {
          return;
        }
        var closing := Take();
        if closing != Some(")") {
          return None;
        }
        return;
      }
      var token := TakeIdentifier();
      if token.None? {
        return None;
      }
      next := PeekIn({"WITH"});
      if next {
        var _ := Take();
        var exception := TakeIdentifier();
        if exception.None? {
          return None;
        }
      }
      node := Some(Id(StripPlus(token.value)));
    }

    method ReadConjunction() returns (node: Option<Node>)
      requires position <= |items|
      modifies this
      ensures Outcome(node) == Conjunction(items, old(position))
      decreases |items| - position, 1
    {
      ghost var start, whole := position, Conjunction(items, position);
      ConjunctionBegins(items, position);
      node := ReadPrimary();
      if node.None? {
        return;
      }
      var nodes := [node.value];
      var next := PeekIn(AND_WORDS);
      while next
        invariant start < position <= |items| && nodes != []
        invariant next == Peeks(items, position, AND_WORDS)
        invariant whole == MoreConjuncts(items, position, nodes)
        decreases |items| - position
      {
        ConjunctStep(items, position, nodes);
        var _ := Take();
        node := ReadPrimary();
        if node.None? {
          return;
        }
        nodes := nodes + [node.value];
        next := PeekIn(AND_WORDS);
      }
      ConjunctsStop(items, position, nodes);
      node := Some(if |nodes| == 1 then nodes[0] else And(nodes));
    }

    method ReadDisjunction() returns (node: Option<Node>)
      requires position <= |items|
      modifies this
      ensures Outcome(node) == Disjunction(items, old(position))
      decreases |items| - position, 2
    {
      ghost var start, whole := position, Disjunction(items, position);
      DisjunctionBegins(items, position);
      node := ReadConjunction();
      if node.None? {
        return;
      }
      var nodes := [node.value];
      var next := PeekIn(OR_WORDS);
      while next
        invariant start < position <= |items| && nodes != []
        invariant next == Peeks(items, position, OR_WORDS)
        invariant whole == MoreDisjuncts(items, position, nodes)
        decreases |items| - position
      {
        DisjunctStep(items, position, nodes);
        var _ := Take();
        node := ReadConjunction();
        if node.None? {
          return;
        }
        nodes := nodes + [node.value];
        next := PeekIn(OR_WORDS);
      }
      DisjunctsStop(items, position, nodes);
      node := Some(if |nodes| == 1 then nodes[0] else Or(nodes));
    }
  }

  method ParseExpression(expression: string) returns (node: Option<Node>)
    ensures node == if Parse(expression).Parsed? then Some(Parse(expression).node) else None
  {
    var parser := new Parser(Tokens(expression));
    node := parser.ReadDisjunction();
    if node.Some? && parser.position != |parser.items| {
      node := None;
    }
  }
}
