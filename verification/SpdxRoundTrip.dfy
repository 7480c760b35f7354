/**
 Parsing inverts a printer that parenthesises every operator, for every tree the parser can return, save
 those with an identifier that reads as a keyword once its plus signs are gone (`AND+` parses as `AND`).
 */
module SpdxRoundTrip {
  import opened Sequences
  import opened Spdx
  import opened Text

  function PrintTokens(n: Node): seq<string> {
    match n
    case Id(name) => [name]
    case And(children) => ["("] + Joined(children, "AND") + [")"]
    case Or(children) => ["("] + Joined(children, "OR") + [")"]
  }

  function Joined(nodes: seq<Node>, word: string): seq<string> {
    if nodes == [] then [] else PrintTokens(nodes[0]) + Rest(nodes[1..], word)
  }

  /** Each operand after its operator. */
  function Rest(nodes: seq<Node>, word: string): seq<string> {
    if nodes == [] then [] else [word] + PrintTokens(nodes[0]) + Rest(nodes[1..], word)
  }

  predicate HasKeyword(n: Node) {
    match n
    case Id(name) => IsKeyword(name)
    case And(children) => SomeKeyword(children)
    case Or(children) => SomeKeyword(children)
  }

  predicate SomeKeyword(nodes: seq<Node>) {
    nodes != [] && (HasKeyword(nodes[0]) || SomeKeyword(nodes[1..]))
  }

  /** The tree with the position after it, or a failure for a tree with a keyword in it. */
  function ReadAs(n: Node, hasKeyword: bool, next: nat): Parsed {
    if hasKeyword then Failed else Parsed(n, next)
  }

  // ----- reading printed tokens ---------------------------------------------------------------------

  lemma GroupReads(items: seq<string>, i: nat, inside: seq<string>, p: Parsed)
    requires At(items, i, ["("] + inside + [")"])
    requires At(items, i + 1, inside) && Disjunction(items, i + 1) == p && (p.Parsed? ==> p.next == i + 1 + |inside|)
    ensures Primary(items, i) == if p.Failed? then Failed else Parsed(p.node, p.next + 1)
  {
    AtSplits(items, i, ["("] + inside, [")"]);
    AtSplits(items, i, ["("], inside);
    assert items[i] == "(" && items[i + 1 + |inside|] == ")";
  }

  lemma GroupIsLaidOut(items: seq<string>, i: nat, inside: seq<string>)
    requires At(items, i, ["("] + inside + [")"])
    ensures At(items, i + 1, inside) && Peeks(items, i + 1 + |inside|, {")"})
  {
    AtSplits(items, i, ["("] + inside, [")"]);
    AtSplits(items, i, ["("], inside);
    assert items[i + 1 + |inside|] == [")"][0];
  }

  lemma {:induction false} PrimaryReads(items: seq<string>, i: nat, n: Node)
    requires IsShaped(n) && At(items, i, PrintTokens(n))
    requires !Peeks(items, i + |PrintTokens(n)|, {"WITH"})
    ensures Primary(items, i) == ReadAs(n, HasKeyword(n), i + |PrintTokens(n)|)
    decreases n, 0
  {
    match n {
      case Id(name) =>
        assert items[i..i + 1][0] == name;
      case And(children) =>
        var inside := Joined(children, "AND");
        GroupIsLaidOut(items, i, inside);
        JoinedConjuncts(items, i + 1, children);
        GroupReads(items, i, inside, ReadAs(n, SomeKeyword(children), i + 1 + |inside|));
      case Or(children) =>
        var inside := Joined(children, "OR");
        GroupIsLaidOut(items, i, inside);
        JoinedDisjuncts(items, i + 1, children);
        GroupReads(items, i, inside, ReadAs(n, SomeKeyword(children), i + 1 + |inside|));
    }
  }

  /** The token after a printed operand is its operator or the closing parenthesis. */
  predicate Stops(items: seq<string>, i: nat, word: string) {
    i < |items| && (items[i] == word || items[i] == ")")
  }

  lemma StopIsNoOther(items: seq<string>, i: nat)
    ensures Stops(items, i, "AND") ==> !Peeks(items, i, {"WITH"}) && !Peeks(items, i, OR_WORDS)
    ensures Stops(items, i, "OR") ==> !Peeks(items, i, {"WITH"}) && !Peeks(items, i, AND_WORDS)
    ensures Peeks(items, i, {")"}) ==> !Peeks(items, i, AND_WORDS) && !Peeks(items, i, OR_WORDS)
  {
  }

  lemma RestStops(items: seq<string>, i: nat, rest: seq<Node>, word: string, end: nat)
    requires At(items, i, Rest(rest, word)) && end == i + |Rest(rest, word)| && Peeks(items, end, {")"})
    ensures Stops(items, i, word)
  {
    if rest != [] {
      AtSplits(items, i, [word], PrintTokens(rest[0]) + Rest(rest[1..], word));
      assert Rest(rest, word) == [word] + (PrintTokens(rest[0]) + Rest(rest[1..], word));
      assert items[i] == [word][0];
    }
  }

  lemma RestUnfolds(rest: seq<Node>, word: string)
    requires rest != []
    ensures |Rest(rest, word)| == 1 + |PrintTokens(rest[0])| + |Rest(rest[1..], word)|
  {
  }

  lemma KeywordIsSomewhere(nodes: seq<Node>)
    requires nodes != []
    ensures SomeKeyword(nodes) <==> HasKeyword(nodes[0]) || SomeKeyword(nodes[1..])
  {
  }

  lemma RestSplits(items: seq<string>, i: nat, rest: seq<Node>, word: string)
    requires rest != [] && At(items, i, Rest(rest, word))
    ensures items[i] == word
    ensures At(items, i + 1, PrintTokens(rest[0])) && At(items, i + 1 + |PrintTokens(rest[0])|, Rest(rest[1..], word))
  {
    AtSplits(items, i, [word] + PrintTokens(rest[0]), Rest(rest[1..], word));
    AtSplits(items, i, [word], PrintTokens(rest[0]));
    assert items[i] == [word][0];
  }

  /** A conjunction of one operand is that operand. */
  lemma LoneConjunct(items: seq<string>, i: nat, p: Parsed)
    requires i <= |items| && Primary(items, i) == p
    requires p.Parsed? ==> !Peeks(items, p.next, AND_WORDS)
    ensures Conjunction(items, i) == p
  {
  }

  lemma LoneDisjunct(items: seq<string>, i: nat, p: Parsed)
    requires i <= |items| && Conjunction(items, i) == p
    requires p.Parsed? ==> !Peeks(items, p.next, OR_WORDS)
    ensures Disjunction(items, i) == p
  {
  }

  lemma {:induction false} JoinedConjuncts(items: seq<string>, i: nat, nodes: seq<Node>)
    requires |nodes| >= 2 && AllShaped(nodes) && At(items, i, Joined(nodes, "AND"))
    requires Peeks(items, i + |Joined(nodes, "AND")|, {")"})
    ensures Disjunction(items, i) == ReadAs(And(nodes), SomeKeyword(nodes), i + |Joined(nodes, "AND")|)
    decreases nodes
  {
    FirstConjunct(items, i, nodes);
    var end := i + |Joined(nodes, "AND")|;
    StopIsNoOther(items, end);
    LoneDisjunct(items, i, ReadAs(And(nodes), SomeKeyword(nodes), end));
  }

  /** How joined operands lie: the first one, then the rest, each after its operator. */
  lemma JoinedLaidOut(items: seq<string>, i: nat, nodes: seq<Node>, word: string, end: nat)
    requires nodes != [] && At(items, i, Joined(nodes, word))
    requires end == i + |Joined(nodes, word)| && Peeks(items, end, {")"})
    ensures At(items, i, PrintTokens(nodes[0]))
    ensures var next := i + |PrintTokens(nodes[0])|;
            && At(items, next, Rest(nodes[1..], word)) && Stops(items, next, word)
            && next + |Rest(nodes[1..], word)| == end
  {
    var first, tail := PrintTokens(nodes[0]), Rest(nodes[1..], word);
    assert Joined(nodes, word) == first + tail;
    AtSplits(items, i, first, tail);
    RestStops(items, i + |first|, nodes[1..], word, end);
  }

  lemma RestLaidOut(items: seq<string>, i: nat, rest: seq<Node>, word: string, end: nat)
    requires rest != [] && At(items, i, Rest(rest, word)) && end == i + |Rest(rest, word)| && Peeks(items, end, {")"})
    ensures i < |items| && items[i] == word && At(items, i + 1, PrintTokens(rest[0]))
    ensures var next := i + 1 + |PrintTokens(rest[0])|;
            && At(items, next, Rest(rest[1..], word)) && Stops(items, next, word)
            && next + |Rest(rest[1..], word)| == end
  {
    RestUnfolds(rest, word);
    RestSplits(items, i, rest, word);
    RestStops(items, i + 1 + |PrintTokens(rest[0])|, rest[1..], word, end);
  }

  /** A conjunction, given its first operand and how the loop goes. */
  lemma FirstOperandOfAnd(items: seq<string>, i: nat, n: Node, next: nat, p: Parsed)
    requires i <= |items|
    requires Primary(items, i) == ReadAs(n, HasKeyword(n), next)
    requires HasKeyword(n) ==> p == Failed
    requires !HasKeyword(n) ==> next <= |items| && MoreConjuncts(items, next, [n]) == p
    ensures Conjunction(items, i) == p
  {
    ConjunctionBegins(items, i);
  }

  lemma FirstOperandOfOr(items: seq<string>, i: nat, n: Node, next: nat, p: Parsed)
    requires i <= |items|
    requires Conjunction(items, i) == ReadAs(n, HasKeyword(n), next)
    requires HasKeyword(n) ==> p == Failed
    requires !HasKeyword(n) ==> next <= |items| && MoreDisjuncts(items, next, [n]) == p
    ensures Disjunction(items, i) == p
  {
    DisjunctionBegins(items, i);
  }

  lemma {:induction false} FirstConjunct(items: seq<string>, i: nat, nodes: seq<Node>)
    requires |nodes| >= 2 && AllShaped(nodes) && At(items, i, Joined(nodes, "AND"))
    requires Peeks(items, i + |Joined(nodes, "AND")|, {")"})
    ensures Conjunction(items, i) == ReadAs(And(nodes), SomeKeyword(nodes), i + |Joined(nodes, "AND")|)
    decreases nodes, 0
  {
    var next, end := i + |PrintTokens(nodes[0])|, i + |Joined(nodes, "AND")|;
    JoinedLaidOut(items, i, nodes, "AND", end);
    KeywordIsSomewhere(nodes);
    StopIsNoOther(items, next);
    PrimaryReads(items, i, nodes[0]);
    if !HasKeyword(nodes[0]) {
      assert [nodes[0]] + nodes[1..] == nodes;
      ConjunctsRead(items, next, [nodes[0]], nodes[1..], nodes, end);
    }
    FirstOperandOfAnd(items, i, nodes[0], next, ReadAs(And(nodes), SomeKeyword(nodes), end));
  }

  lemma Regroup(done: seq<Node>, rest: seq<Node>, whole: seq<Node>)
    requires rest != [] && AllShaped(rest) && whole == done + rest
    ensures IsShaped(rest[0]) && AllShaped(rest[1..])
    ensures whole == done + [rest[0]] + rest[1..]
  {
  }

  lemma ConjunctsEnd(items: seq<string>, i: nat, nodes: seq<Node>)
    requires |nodes| >= 2 && Peeks(items, i, {")"})
    ensures MoreConjuncts(items, i, nodes) == Parsed(And(nodes), i)
  {
    StopIsNoOther(items, i);
  }

  /** One round of the loop, given how the rest of it goes. */
  lemma ConjunctRound(items: seq<string>, i: nat, done: seq<Node>, n: Node, next: nat, p: Parsed)
    requires i < |items| && items[i] == "AND" && done != []
    requires Primary(items, i + 1) == ReadAs(n, HasKeyword(n), next)
    requires HasKeyword(n) ==> p == Failed
    requires !HasKeyword(n) ==> next <= |items| && MoreConjuncts(items, next, done + [n]) == p
    ensures MoreConjuncts(items, i, done) == p
  {
    ConjunctStep(items, i, done);
  }

  lemma {:induction false} ConjunctsRead(items: seq<string>, i: nat, done: seq<Node>, rest: seq<Node>, whole: seq<Node>,
                                           end: nat)
    requires whole == done + rest
    requires done != [] && AllShaped(rest) && |whole| >= 2
    requires At(items, i, Rest(rest, "AND")) && end == i + |Rest(rest, "AND")| && Peeks(items, end, {")"})
    ensures MoreConjuncts(items, i, done) == ReadAs(And(whole), SomeKeyword(rest), end)
    decreases rest
  {
    if rest == [] {
      assert whole == done;
      ConjunctsEnd(items, i, done);
    } else {
      var next := i + 1 + |PrintTokens(rest[0])|;
      RestLaidOut(items, i, rest, "AND", end);
      KeywordIsSomewhere(rest);
      Regroup(done, rest, whole);
      StopIsNoOther(items, next);
      PrimaryReads(items, i + 1, rest[0]);
      if !HasKeyword(rest[0]) {
        ConjunctsRead(items, next, done + [rest[0]], rest[1..], whole, end);
      }
      ConjunctRound(items, i, done, rest[0], next, ReadAs(And(whole), SomeKeyword(rest), end));
    }
  }

  lemma {:induction false} OperandReads(items: seq<string>, i: nat, n: Node)
    requires IsShaped(n) && At(items, i, PrintTokens(n))
    requires Stops(items, i + |PrintTokens(n)|, "OR")
    ensures Conjunction(items, i) == ReadAs(n, HasKeyword(n), i + |PrintTokens(n)|)
    decreases n, 1
  {
    var next := i + |PrintTokens(n)|;
    StopIsNoOther(items, next);
    PrimaryReads(items, i, n);
    LoneConjunct(items, i, ReadAs(n, HasKeyword(n), next));
  }

  lemma {:induction false} JoinedDisjuncts(items: seq<string>, i: nat, nodes: seq<Node>)
    requires |nodes| >= 2 && AllShaped(nodes) && At(items, i, Joined(nodes, "OR"))
    requires Peeks(items, i + |Joined(nodes, "OR")|, {")"})
    ensures Disjunction(items, i) == ReadAs(Or(nodes), SomeKeyword(nodes), i + |Joined(nodes, "OR")|)
    decreases nodes
  {
    var next, end := i + |PrintTokens(nodes[0])|, i + |Joined(nodes, "OR")|;
    JoinedLaidOut(items, i, nodes, "OR", end);
    KeywordIsSomewhere(nodes);
    OperandReads(items, i, nodes[0]);
    if !HasKeyword(nodes[0]) {
      assert [nodes[0]] + nodes[1..] == nodes;
      DisjunctsRead(items, next, [nodes[0]], nodes[1..], nodes, end);
    }
    FirstOperandOfOr(items, i, nodes[0], next, ReadAs(Or(nodes), SomeKeyword(nodes), end));
  }

  lemma DisjunctsEnd(items: seq<string>, i: nat, nodes: seq<Node>)
    requires |nodes| >= 2 && Peeks(items, i, {")"})
    ensures MoreDisjuncts(items, i, nodes) == Parsed(Or(nodes), i)
  {
    StopIsNoOther(items, i);
  }

  /** One round of the loop, given how the rest of it goes. */
  lemma DisjunctRound(items: seq<string>, i: nat, done: seq<Node>, n: Node, next: nat, p: Parsed)
    requires i < |items| && items[i] == "OR" && done != []
    requires Conjunction(items, i + 1) == ReadAs(n, HasKeyword(n), next)
    requires HasKeyword(n) ==> p == Failed
    requires !HasKeyword(n) ==> next <= |items| && MoreDisjuncts(items, next, done + [n]) == p
    ensures MoreDisjuncts(items, i, done) == p
  {
    DisjunctStep(items, i, done);
  }

  lemma {:induction false} DisjunctsRead(items: seq<string>, i: nat, done: seq<Node>, rest: seq<Node>, whole: seq<Node>,
                                           end: nat)
    requires whole == done + rest
    requires done != [] && AllShaped(rest) && |whole| >= 2
    requires At(items, i, Rest(rest, "OR")) && end == i + |Rest(rest, "OR")| && Peeks(items, end, {")"})
    ensures MoreDisjuncts(items, i, done) == ReadAs(Or(whole), SomeKeyword(rest), end)
    decreases rest
  {
    if rest == [] {
      assert whole == done;
      DisjunctsEnd(items, i, done);
    } else {
      var next := i + 1 + |PrintTokens(rest[0])|;
      RestLaidOut(items, i, rest, "OR", end);
      KeywordIsSomewhere(rest);
      Regroup(done, rest, whole);
      OperandReads(items, i + 1, rest[0]);
      if !HasKeyword(rest[0]) {
        DisjunctsRead(items, next, done + [rest[0]], rest[1..], whole, end);
      }
      DisjunctRound(items, i, done, rest[0], next, ReadAs(Or(whole), SomeKeyword(rest), end));
    }
  }

  lemma PrintedTokensParse(n: Node)
    requires IsShaped(n)
    ensures ParseTokens(PrintTokens(n)) == if HasKeyword(n) then Failed else Parsed(n, |PrintTokens(n)|)
  {
    var items := PrintTokens(n);
    assert At(items, 0, items);
    PrimaryReads(items, 0, n);
    var p := if HasKeyword(n) then Failed else Parsed(n, |items|);
    LoneConjunct(items, 0, p);
    LoneDisjunct(items, 0, p);
  }

  // ----- text ---------------------------------------------------------------------------------------

  /** The printed tokens with a space before each. */
  function Spaced(tokens: seq<string>): string {
    if tokens == [] then "" else " " + tokens[0] + Spaced(tokens[1..])
  }

  function Print(n: Node): string {
    Spaced(PrintTokens(n))
  }

  predicate IsToken(token: string) {
    || token == "(" || token == ")"
    || (token != "" && forall i | 0 <= i < |token| :: IsWordChar(token[i]) && token[i] != '/')
  }

  predicate AllTokens(tokens: seq<string>) {
    forall i | 0 <= i < |tokens| :: IsToken(tokens[i])
  }

  lemma {:induction false} NoSlashes(s: string)
    requires forall i | 0 <= i < |s| :: s[i] != '/'
    ensures SlashesToOr(s) == s
  {
    if s != "" {
      NoSlashes(s[1..]);
      assert s == [s[0]] + s[1..];
    }
  }

  lemma {:induction false} SpacedHasNoSlashes(tokens: seq<string>)
    requires AllTokens(tokens)
    ensures forall i | 0 <= i < |Spaced(tokens)| :: Spaced(tokens)[i] != '/'
  {
    if tokens != [] {
      SpacedHasNoSlashes(tokens[1..]);
    }
  }

  predicate Lies(s: string, i: nat, part: string) {
    i + |part| <= |s| && forall k | 0 <= k < |part| :: s[i + k] == part[k]
  }

  lemma LiesSplits(s: string, i: nat, left: string, right: string)
    requires Lies(s, i, left + right)
    ensures Lies(s, i, left) && Lies(s, i + |left|, right)
  {
    assert forall k | 0 <= k < |left| :: (left + right)[k] == left[k];
    forall k | 0 <= k < |right|
      ensures s[i + |left| + k] == right[k]
    {
      assert (left + right)[|left| + k] == right[k];
      assert s[i + (|left| + k)] == (left + right)[|left| + k];
    }
  }

  lemma TokenIsRead(s: string, i: nat, token: string)
    requires IsToken(token) && Lies(s, i, token)
    requires i + |token| == |s| || s[i + |token|] == ' '
    ensures TokensFrom(s, i) == [token] + TokensFrom(s, i + |token|)
  {
    var next := i + |token|;
    assert s[i..next] == token;
    assert s[i + 0] == token[0];
    if token != "(" && token != ")" {
      forall k | i <= k < next
        ensures IsWordChar(s[k])
      {
        assert s[i + (k - i)] == token[k - i];
      }
      assert TokenEnd(s, i) == next;
    }
  }

  lemma SpacedStart(s: string, i: nat, tokens: seq<string>)
    requires Lies(s, i, Spaced(tokens)) && i + |Spaced(tokens)| == |s|
    ensures i == |s| || s[i] == ' '
  {
    if tokens != [] {
      assert s[i + 0] == Spaced(tokens)[0];
    }
  }

  lemma SpacedLayout(s: string, i: nat, tokens: seq<string>)
    requires tokens != [] && Lies(s, i, Spaced(tokens)) && i + |Spaced(tokens)| == |s|
    ensures var next := i + 1 + |tokens[0]|;
            && i < |s| && s[i] == ' '
            && Lies(s, i + 1, tokens[0])
            && Lies(s, next, Spaced(tokens[1..])) && next + |Spaced(tokens[1..])| == |s|
  {
    LiesSplits(s, i, " " + tokens[0], Spaced(tokens[1..]));
    LiesSplits(s, i, " ", tokens[0]);
    assert s[i + 0] == " "[0];
  }

  lemma {:induction false} SpacedIsTokenized(s: string, i: nat, tokens: seq<string>)
    requires AllTokens(tokens) && Lies(s, i, Spaced(tokens)) && i + |Spaced(tokens)| == |s|
    ensures TokensFrom(s, i) == tokens
    decreases tokens
  {
    if tokens != [] {
      var next := i + 1 + |tokens[0]|;
      SpacedLayout(s, i, tokens);
      SpacedStart(s, next, tokens[1..]);
      TokenIsRead(s, i + 1, tokens[0]);
      SpacedIsTokenized(s, next, tokens[1..]);
    }
  }

  lemma {:induction false} PrintedAreTokens(n: Node)
    requires IsShaped(n)
    ensures AllTokens(PrintTokens(n))
    decreases n
  {
    match n {
      case Id(name) =>
      case And(children) => JoinedAreTokens(children, "AND");
      case Or(children) => JoinedAreTokens(children, "OR");
    }
  }

  lemma {:induction false} JoinedAreTokens(nodes: seq<Node>, word: string)
    requires AllShaped(nodes) && IsToken(word)
    ensures AllTokens(Joined(nodes, word)) && AllTokens(Rest(nodes, word))
    decreases nodes
  {
    if nodes != [] {
      PrintedAreTokens(nodes[0]);
      JoinedAreTokens(nodes[1..], word);
    }
  }

  /** A shaped tree's text parses back to the tree exactly when no identifier in it reads as a keyword. */
  lemma PrintThenParse(n: Node)
    requires IsShaped(n)
    ensures Parse(Print(n)) == if HasKeyword(n) then Failed else Parsed(n, |PrintTokens(n)|)
  {
    PrintedAreTokens(n);
    SpacedHasNoSlashes(PrintTokens(n));
    NoSlashes(Print(n));
    SpacedIsTokenized(Print(n), 0, PrintTokens(n));
    PrintedTokensParse(n);
  }

  /** So for every input that parses, printing the result and parsing again changes nothing. */
  lemma ParsePrintParse(expression: string)
    requires Parse(expression).Parsed? && !HasKeyword(Parse(expression).node)
    ensures Parse(Print(Parse(expression).node)).Parsed?
    ensures Parse(Print(Parse(expression).node)).node == Parse(expression).node
  {
    DisjunctionIsShaped(Tokens(expression), 0);
    PrintThenParse(Parse(expression).node);
  }

  /** The exception does occur: a keyword with a plus sign is taken for an identifier. */
  lemma KeywordWithPlusParses()
    ensures ParseTokens(["AND+"]) == Parsed(Id("AND"), 1) && HasKeyword(Id("AND"))
  {
    assert Upper("AND+") == "AND+" && Upper("AND") == "AND";
    assert StripPlus("AND+") == StripPlus("AND") == "AND";
    var items := ["AND+"];
    assert IsIdentifier("AND+");
    assert Primary(items, 0) == Parsed(Id("AND"), 1);
    assert Conjunction(items, 0) == Parsed(Id("AND"), 1);
  }
}
