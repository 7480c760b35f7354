/**
 The language the license parser accepts, as a grammar of its own: a choice of terms, each a list of factors, with
 operators in either case, optional exceptions and parentheses only where they are wanted. The parser accepts exactly
 the tokens of such expressions, in any spacing and with slashes for `OR`, and returns their tree without exceptions.
 */
module SpdxGrammar {
  import opened Options
  import opened Sequences
  import opened Spdx
  import opened Text

  datatype Factor = License(name: string, pluses: nat, exception: Option<string>) | Paren(inner: Choice)

  datatype Term = Last(factor: Factor) | Also(factor: Factor, word: string, rest: Term)

  datatype Choice = Only(term: Term) | Either(term: Term, word: string, rest: Choice)

  // ----- identifiers --------------------------------------------------------------------------------

  predicate IsReserved(s: string) {
    || (|s| == 3 && s[0] in "Aa" && s[1] in "Nn" && s[2] in "Dd")
    || (|s| == 2 && s[0] in "Oo" && s[1] in "Rr")
    || (|s| == 4 && s[0] in "Ww" && s[1] in "Ii" && s[2] in "Tt" && s[3] in "Hh")
  }

  predicate IsNameChar(c: char) {
    'a' <= c <= 'z' || 'A' <= c <= 'Z' || '0' <= c <= '9' || c == '.' || c == '+' || c == ':' || c == '-'
  }

  /** Letters, digits and four marks, not starting with a mark and not an operator. */
  predicate IsName(s: string) {
    s != "" && s[0] != '.' && s[0] != '+' && s[0] != ':' && s[0] != '-' && !IsReserved(s)
    && forall i | 0 <= i < |s| :: IsNameChar(s[i])
  }

  function Pluses(n: nat): string {
    if n == 0 then "" else Pluses(n - 1) + "+"
  }

  // ----- expressions --------------------------------------------------------------------------------

  predicate IsFactor(f: Factor) {
    match f
    case License(name, pluses, exception) =>
      && name != "" && name[|name| - 1] != '+' && IsName(name + Pluses(pluses))
      && (exception.Some? ==> IsName(exception.value))
    case Paren(inner) => IsChoice(inner)
  }

  predicate IsTerm(t: Term) {
    && IsFactor(t.factor)
    && (t.Also? ==> (t.word == "AND" || t.word == "and") && IsTerm(t.rest))
  }

  predicate IsChoice(c: Choice) {
    && IsTerm(c.term)
    && (c.Either? ==> (c.word == "OR" || c.word == "or") && IsChoice(c.rest))
  }

  function FactorTokens(f: Factor): seq<string> {
    match f
    case License(name, pluses, exception) =>
      [name + Pluses(pluses)] + if exception.Some? then ["WITH", exception.value] else []
    case Paren(inner) => ["("] + ChoiceTokens(inner) + [")"]
  }

  function TermTokens(t: Term): seq<string> {
    FactorTokens(t.factor) + if t.Also? then [t.word] + TermTokens(t.rest) else []
  }

  function ChoiceTokens(c: Choice): seq<string> {
    TermTokens(c.term) + if c.Either? then [c.word] + ChoiceTokens(c.rest) else []
  }

  /** The tree of a factor: no exceptions, no trailing plus signs, no parentheses. */
  function FactorTree(f: Factor): Node
    decreases f, 0
  {
    match f
    case License(name, _, _) => Id(name)
    case Paren(inner) => ChoiceTree(inner)
  }

  function TermNodes(t: Term): (nodes: seq<Node>)
    ensures nodes != [] && (|nodes| == 1 <==> t.Last?)
    decreases t, 0
  {
    [FactorTree(t.factor)] + if t.Also? then TermNodes(t.rest) else []
  }

  function TermTree(t: Term): Node
    decreases t, 1
  {
    if t.Last? then FactorTree(t.factor) else And(TermNodes(t))
  }

  function ChoiceNodes(c: Choice): (nodes: seq<Node>)
    ensures nodes != [] && (|nodes| == 1 <==> c.Only?)
    decreases c, 0
  {
    [TermTree(c.term)] + if c.Either? then ChoiceNodes(c.rest) else []
  }

  function ChoiceTree(c: Choice): Node
    decreases c, 1
  {
    if c.Only? then TermTree(c.term) else Or(ChoiceNodes(c))
  }

  // ----- identifiers as the parser tests them -------------------------------------------------------

  lemma SameReserved(s: string)
    ensures IsKeyword(s) <==> IsReserved(s)
  {
    var u := Upper(s);
    assert u == "AND" <==> |u| == 3 && u[0] == 'A' && u[1] == 'N' && u[2] == 'D';
    assert u == "OR" <==> |u| == 2 && u[0] == 'O' && u[1] == 'R';
    assert u == "WITH" <==> |u| == 4 && u[0] == 'W' && u[1] == 'I' && u[2] == 'T' && u[3] == 'H';
  }

  lemma SameNames(items: seq<string>, i: nat)
    ensures HasIdentifier(items, i) <==> i < |items| && IsName(items[i])
  {
    if i < |items| {
      SameReserved(items[i]);
    }
  }

  lemma {:induction false} PlusesAreStripped(name: string, pluses: nat)
    requires name != "" && name[|name| - 1] != '+'
    ensures StripPlus(name + Pluses(pluses)) == name
    decreases pluses
  {
    if pluses == 0 {
      assert name + "" == name;
    } else {
      var s := name + Pluses(pluses);
      assert s[..|s| - 1] == name + Pluses(pluses - 1);
      PlusesAreStripped(name, pluses - 1);
    }
  }

  lemma {:induction false} StrippedAndPluses(s: string) returns (pluses: nat)
    ensures s == StripPlus(s) + Pluses(pluses)
    decreases |s|
  {
    if s != "" && s[|s| - 1] == '+' {
      var fewer := StrippedAndPluses(s[..|s| - 1]);
      pluses := fewer + 1;
      assert s == s[..|s| - 1] + "+";
      assert StripPlus(s) + Pluses(fewer) + "+" == StripPlus(s) + Pluses(pluses);
    } else {
      pluses := 0;
      assert s + "" == s;
    }
  }

  // ----- every expression is read as its tree -------------------------------------------------------

  /** No operator the expression could go on with: 0 for a factor, 1 for a term, 2 for a choice. */
  predicate Stops(items: seq<string>, i: nat, level: nat) {
    && !Peeks(items, i, {"WITH"})
    && (level >= 1 ==> !Peeks(items, i, AND_WORDS))
    && (level >= 2 ==> !Peeks(items, i, OR_WORDS))
  }

  lemma FirstToken(items: seq<string>, i: nat, token: string, rest: seq<string>)
    requires At(items, i, [token] + rest)
    ensures i < |items| && items[i] == token && At(items, i + 1, rest)
  {
    AtSplits(items, i, [token], rest);
    assert items[i..i + 1][0] == token;
  }

  lemma Regroup(done: seq<Node>, node: Node, rest: seq<Node>)
    ensures done + [node] + rest == done + ([node] + rest)
  {
  }

  lemma SliceInTwo(items: seq<string>, i: nat, j: nat, k: nat)
    requires i <= j <= k <= |items|
    ensures items[i..k] == items[i..j] + items[j..k]
  {
  }

  lemma SliceAfterFirst(items: seq<string>, i: nat, k: nat)
    requires i < k <= |items|
    ensures items[i..k] == [items[i]] + items[i + 1..k]
  {
  }

  lemma LicenseReads(items: seq<string>, i: nat, f: Factor)
    requires f.License? && IsFactor(f) && At(items, i, FactorTokens(f)) && Stops(items, i + |FactorTokens(f)|, 0)
    ensures Primary(items, i) == Parsed(FactorTree(f), i + |FactorTokens(f)|)
  {
    var id := f.name + Pluses(f.pluses);
    assert items[i] == items[i..i + |FactorTokens(f)|][0] == id;
    assert id[0] == f.name[0] && IsNameChar(id[0]);
    SameNames(items, i);
    PlusesAreStripped(f.name, f.pluses);
    if f.exception.Some? {
      assert items[i + 1] == items[i..i + 3][1] == "WITH" && items[i + 2] == items[i..i + 3][2];
      SameNames(items, i + 2);
    }
  }

  lemma ParenReads(items: seq<string>, i: nat, inner: Parsed)
    requires i < |items| && items[i] == "(" && Disjunction(items, i + 1) == inner && inner.Parsed?
    requires Peeks(items, inner.next, {")"})
    ensures Primary(items, i) == Parsed(inner.node, inner.next + 1)
  {
  }

  lemma {:induction false} FactorReads(items: seq<string>, i: nat, f: Factor)
    requires IsFactor(f) && At(items, i, FactorTokens(f)) && Stops(items, i + |FactorTokens(f)|, 0)
    ensures Primary(items, i) == Parsed(FactorTree(f), i + |FactorTokens(f)|)
    decreases f, 0
  {
    if f.License? {
      LicenseReads(items, i, f);
    } else {
      var tokens := ChoiceTokens(f.inner);
      var end := i + 1 + |tokens|;
      AtSplits(items, i, ["("] + tokens, [")"]);
      AtSplits(items, i, ["("], tokens);
      assert items[i] == items[i..i + 1][0] && items[end] == items[end..end + 1][0] == ")";
      ChoiceReads(items, i + 1, f.inner);
      ParenReads(items, i, Parsed(ChoiceTree(f.inner), end));
    }
  }

  lemma OneConjunct(items: seq<string>, i: nat, node: Node)
    requires i <= |items| && Stops(items, i, 1)
    ensures MoreConjuncts(items, i, [node]) == Parsed(node, i)
  {
    ConjunctsStop(items, i, [node]);
  }

  lemma OneDisjunct(items: seq<string>, i: nat, node: Node)
    requires i <= |items| && Stops(items, i, 2)
    ensures MoreDisjuncts(items, i, [node]) == Parsed(node, i)
  {
    DisjunctsStop(items, i, [node]);
  }

  lemma {:induction false} TermReads(items: seq<string>, i: nat, t: Term)
    requires IsTerm(t) && At(items, i, TermTokens(t)) && Stops(items, i + |TermTokens(t)|, 1)
    ensures Conjunction(items, i) == Parsed(TermTree(t), i + |TermTokens(t)|)
    decreases t, 1
  {
    hide At, Stops, Conjunction, MoreConjuncts, Primary, FactorTokens, TermTokens, IsFactor;
    var next := i + |FactorTokens(t.factor)|;
    TermLayout(items, i, t);
    FactorReads(items, i, t.factor);
    ConjunctionBegins(items, i);
    if t.Also? {
      ConjunctsRead(items, next, [FactorTree(t.factor)], t.word, t.rest);
    } else {
      OneConjunct(items, next, FactorTree(t.factor));
    }
  }

  lemma TermLayout(items: seq<string>, i: nat, t: Term)
    requires IsTerm(t) && At(items, i, TermTokens(t)) && Stops(items, i + |TermTokens(t)|, 1)
    ensures var next := i + |FactorTokens(t.factor)|;
            && At(items, i, FactorTokens(t.factor)) && next <= |items| && Stops(items, next, 0)
            && (t.Last? ==> next == i + |TermTokens(t)|)
            && (t.Also? ==> At(items, next, [t.word] + TermTokens(t.rest)))
            && (t.Also? ==> next + 1 + |TermTokens(t.rest)| == i + |TermTokens(t)|)
  {
    hide FactorTokens, IsFactor;
    var first := FactorTokens(t.factor);
    if t.Also? {
      AtSplits(items, i, first, [t.word] + TermTokens(t.rest));
      FirstToken(items, i + |first|, t.word, TermTokens(t.rest));
    } else {
      assert first + [] == first;
    }
  }

  lemma AndIsPeeked(items: seq<string>, i: nat)
    requires i < |items| && (items[i] == "AND" || items[i] == "and")
    ensures Peeks(items, i, AND_WORDS)
  {
  }

  lemma LastConjunct(items: seq<string>, i: nat, nodes: seq<Node>)
    requires i <= |items| && Stops(items, i, 1) && |nodes| >= 2
    ensures MoreConjuncts(items, i, nodes) == Parsed(And(nodes), i)
  {
    ConjunctsStop(items, i, nodes);
  }

  lemma {:induction false} ConjunctsRead(items: seq<string>, i: nat, done: seq<Node>, word: string, t: Term)
    requires done != [] && IsTerm(t) && (word == "AND" || word == "and") && At(items, i, [word] + TermTokens(t))
    requires Stops(items, i + 1 + |TermTokens(t)|, 1)
    ensures MoreConjuncts(items, i, done) == Parsed(And(done + TermNodes(t)), i + 1 + |TermTokens(t)|)
    decreases t, 0
  {
    hide At, Stops, Peeks, FactorTokens, FactorTree, IsFactor, MoreConjuncts, Primary;
    var next := i + 1 + |FactorTokens(t.factor)|;
    var more := done + [FactorTree(t.factor)];
    FirstToken(items, i, word, TermTokens(t));
    TermLayout(items, i + 1, t);
    FactorReads(items, i + 1, t.factor);
    AndIsPeeked(items, i);
    ConjunctStep(items, i, done);
    if t.Also? {
      ConjunctsRead(items, next, more, t.word, t.rest);
      Regroup(done, FactorTree(t.factor), TermNodes(t.rest));
    } else {
      LastConjunct(items, next, more);
      assert more == done + TermNodes(t);
    }
  }

  lemma {:induction false} ChoiceReads(items: seq<string>, i: nat, c: Choice)
    requires IsChoice(c) && At(items, i, ChoiceTokens(c)) && Stops(items, i + |ChoiceTokens(c)|, 2)
    ensures Disjunction(items, i) == Parsed(ChoiceTree(c), i + |ChoiceTokens(c)|)
    decreases c, 1
  {
    hide At, Stops, Disjunction, MoreDisjuncts, Conjunction, TermTokens, ChoiceTokens, IsTerm;
    var next := i + |TermTokens(c.term)|;
    ChoiceLayout(items, i, c);
    TermReads(items, i, c.term);
    DisjunctionBegins(items, i);
    if c.Either? {
      DisjunctsRead(items, next, [TermTree(c.term)], c.word, c.rest);
    } else {
      OneDisjunct(items, next, TermTree(c.term));
    }
  }

  lemma ChoiceLayout(items: seq<string>, i: nat, c: Choice)
    requires IsChoice(c) && At(items, i, ChoiceTokens(c)) && Stops(items, i + |ChoiceTokens(c)|, 2)
    ensures var next := i + |TermTokens(c.term)|;
            && At(items, i, TermTokens(c.term)) && next <= |items| && Stops(items, next, 1)
            && (c.Only? ==> next == i + |ChoiceTokens(c)|)
            && (c.Either? ==> At(items, next, [c.word] + ChoiceTokens(c.rest)))
            && (c.Either? ==> next + 1 + |ChoiceTokens(c.rest)| == i + |ChoiceTokens(c)|)
  {
    hide TermTokens, IsTerm;
    var first := TermTokens(c.term);
    if c.Either? {
      AtSplits(items, i, first, [c.word] + ChoiceTokens(c.rest));
      FirstToken(items, i + |first|, c.word, ChoiceTokens(c.rest));
    } else {
      assert first + [] == first;
    }
  }

  lemma OrIsPeeked(items: seq<string>, i: nat)
    requires i < |items| && (items[i] == "OR" || items[i] == "or")
    ensures Peeks(items, i, OR_WORDS)
  {
  }

  lemma LastDisjunct(items: seq<string>, i: nat, nodes: seq<Node>)
    requires i <= |items| && Stops(items, i, 2) && |nodes| >= 2
    ensures MoreDisjuncts(items, i, nodes) == Parsed(Or(nodes), i)
  {
    DisjunctsStop(items, i, nodes);
  }

  lemma {:induction false} DisjunctsRead(items: seq<string>, i: nat, done: seq<Node>, word: string, c: Choice)
    requires done != [] && IsChoice(c) && (word == "OR" || word == "or") && At(items, i, [word] + ChoiceTokens(c))
    requires Stops(items, i + 1 + |ChoiceTokens(c)|, 2)
    ensures MoreDisjuncts(items, i, done) == Parsed(Or(done + ChoiceNodes(c)), i + 1 + |ChoiceTokens(c)|)
    decreases c, 0
  {
    hide At, Stops, Peeks, TermTokens, TermTree, IsTerm, MoreDisjuncts, Conjunction;
    var next := i + 1 + |TermTokens(c.term)|;
    var more := done + [TermTree(c.term)];
    FirstToken(items, i, word, ChoiceTokens(c));
    ChoiceLayout(items, i + 1, c);
    TermReads(items, i + 1, c.term);
    OrIsPeeked(items, i);
    DisjunctStep(items, i, done);
    if c.Either? {
      DisjunctsRead(items, next, more, c.word, c.rest);
      Regroup(done, TermTree(c.term), ChoiceNodes(c.rest));
    } else {
      LastDisjunct(items, next, more);
      assert more == done + ChoiceNodes(c);
    }
  }

  // ----- everything that is read is an expression ---------------------------------------------------

  lemma {:induction false} PrimaryIsWritten(items: seq<string>, i: nat) returns (f: Factor)
    requires i <= |items| && Primary(items, i).Parsed?
    ensures var p := Primary(items, i); IsFactor(f) && FactorTokens(f) == items[i..p.next] && FactorTree(f) == p.node
    decreases |items| - i, 0
  {
    var p := Primary(items, i);
    if Peeks(items, i, {"("}) {
      var inner := DisjunctionIsWritten(items, i + 1);
      f := Paren(inner);
      var end := Disjunction(items, i + 1).next;
      assert items[end] == ")" && p.next == end + 1;
      SliceAfterFirst(items, i, p.next);
      SliceInTwo(items, i + 1, end, p.next);
      assert items[end..p.next] == [")"];
      assert ["("] + items[i + 1..end] + [")"] == ["("] + (items[i + 1..end] + [")"]);
    } else {
      SameNames(items, i);
      var pluses := StrippedAndPluses(items[i]);
      var name := StripPlus(items[i]);
      if Peeks(items, i + 1, {"WITH"}) {
        SameNames(items, i + 2);
        f := License(name, pluses, Some(items[i + 2]));
        assert items[i..p.next] == [items[i], items[i + 1], items[i + 2]];
      } else {
        f := License(name, pluses, None);
        assert items[i..p.next] == [items[i]];
      }
    }
  }

  lemma {:induction false} ConjunctionIsWritten(items: seq<string>, i: nat) returns (t: Term)
    requires i <= |items| && Conjunction(items, i).Parsed?
    ensures var p := Conjunction(items, i); IsTerm(t) && TermTokens(t) == items[i..p.next] && TermTree(t) == p.node
    decreases |items| - i, 1
  {
    var first, p := Primary(items, i), Conjunction(items, i);
    ConjunctionBegins(items, i);
    var f := PrimaryIsWritten(items, i);
    if Peeks(items, first.next, AND_WORDS) {
      var rest := ConjunctsAreWritten(items, first.next, [first.node]);
      t := Also(f, items[first.next], rest);
      SliceInTwo(items, i, first.next, p.next);
    } else {
      ConjunctsStop(items, first.next, [first.node]);
      t := Last(f);
    }
  }

  lemma {:induction false} ConjunctsAreWritten(items: seq<string>, i: nat, done: seq<Node>) returns (t: Term)
    requires Peeks(items, i, AND_WORDS) && done != [] && MoreConjuncts(items, i, done).Parsed?
    ensures var p := MoreConjuncts(items, i, done);
            && IsTerm(t) && i < p.next <= |items| && [items[i]] + TermTokens(t) == items[i..p.next]
            && p.node == And(done + TermNodes(t))
    decreases |items| - i, 1
  {
    hide FactorTokens, FactorTree, IsFactor;
    var operand, p := Primary(items, i + 1), MoreConjuncts(items, i, done);
    ConjunctStep(items, i, done);
    var f := PrimaryIsWritten(items, i + 1);
    var more := done + [operand.node];
    if Peeks(items, operand.next, AND_WORDS) {
      var rest := ConjunctsAreWritten(items, operand.next, more);
      t := Also(f, items[operand.next], rest);
      SliceAfterFirst(items, i, p.next);
      SliceInTwo(items, i + 1, operand.next, p.next);
      Regroup(done, operand.node, TermNodes(rest));
    } else {
      ConjunctsStop(items, operand.next, more);
      t := Last(f);
      SliceAfterFirst(items, i, p.next);
    }
  }

  lemma {:induction false} DisjunctionIsWritten(items: seq<string>, i: nat) returns (c: Choice)
    requires i <= |items| && Disjunction(items, i).Parsed?
    ensures var p := Disjunction(items, i);
            IsChoice(c) && ChoiceTokens(c) == items[i..p.next] && ChoiceTree(c) == p.node
    decreases |items| - i, 2
  {
    var first, p := Conjunction(items, i), Disjunction(items, i);
    DisjunctionBegins(items, i);
    var t := ConjunctionIsWritten(items, i);
    if Peeks(items, first.next, OR_WORDS) {
      var rest := DisjunctsAreWritten(items, first.next, [first.node]);
      c := Either(t, items[first.next], rest);
      SliceInTwo(items, i, first.next, p.next);
    } else {
      DisjunctsStop(items, first.next, [first.node]);
      c := Only(t);
    }
  }

  lemma {:induction false} DisjunctsAreWritten(items: seq<string>, i: nat, done: seq<Node>) returns (c: Choice)
    requires Peeks(items, i, OR_WORDS) && done != [] && MoreDisjuncts(items, i, done).Parsed?
    ensures var p := MoreDisjuncts(items, i, done);
            && IsChoice(c) && i < p.next <= |items| && [items[i]] + ChoiceTokens(c) == items[i..p.next]
            && p.node == Or(done + ChoiceNodes(c))
    decreases |items| - i, 2
  {
    hide TermTokens, TermTree, IsTerm;
    var operand, p := Conjunction(items, i + 1), MoreDisjuncts(items, i, done);
    DisjunctStep(items, i, done);
    var t := ConjunctionIsWritten(items, i + 1);
    var more := done + [operand.node];
    if Peeks(items, operand.next, OR_WORDS) {
      var rest := DisjunctsAreWritten(items, operand.next, more);
      c := Either(t, items[operand.next], rest);
      SliceAfterFirst(items, i, p.next);
      SliceInTwo(items, i + 1, operand.next, p.next);
      Regroup(done, operand.node, ChoiceNodes(rest));
    } else {
      DisjunctsStop(items, operand.next, more);
      c := Only(t);
      SliceAfterFirst(items, i, p.next);
    }
  }

  /** The parser accepts exactly the tokens of the expressions, and every expression is read as its own tree. */
  lemma AcceptsExactly(items: seq<string>)
    ensures ParseTokens(items).Parsed? <==> exists c :: IsChoice(c) && ChoiceTokens(c) == items
    ensures forall c | IsChoice(c) && ChoiceTokens(c) == items :: ParseTokens(items) == Parsed(ChoiceTree(c), |items|)
  {
    forall c | IsChoice(c) && ChoiceTokens(c) == items
      ensures ParseTokens(items) == Parsed(ChoiceTree(c), |items|)
    {
      assert At(items, 0, items);
      ChoiceReads(items, 0, c);
    }
    if ParseTokens(items).Parsed? {
      var c := DisjunctionIsWritten(items, 0);
      assert items[0..|items|] == items;
    }
  }

  // ----- text ---------------------------------------------------------------------------------------

  /** A text in pieces: white space, the slash that stands for `OR`, and tokens. */
  datatype Piece = Gap(c: char) | Slash | Token(text: string)

  predicate IsGap(c: char) {
    c == ' ' || c == '\t' || c == '\n' || c == '\r' || IsPatternSpace(c)
  }

  predicate IsWord(s: string) {
    s != "" && forall i | 0 <= i < |s| :: !IsGap(s[i]) && s[i] != '(' && s[i] != ')' && s[i] != '/'
  }

  predicate IsPiece(piece: Piece) {
    match piece
    case Gap(c) => IsGap(c)
    case Slash => true
    case Token(text) => text == "(" || text == ")" || IsWord(text)
  }

  /** No two words touch. */
  predicate ArePieces(pieces: seq<Piece>) {
    && (forall i | 0 <= i < |pieces| :: IsPiece(pieces[i]))
    && forall i | 0 <= i < |pieces| - 1 ::
         pieces[i].Token? && IsWord(pieces[i].text) && pieces[i + 1].Token? ==> !IsWord(pieces[i + 1].text)
  }

  function PieceText(piece: Piece): string {
    match piece
    case Gap(c) => [c]
    case Slash => "/"
    case Token(text) => text
  }

  function PiecesText(pieces: seq<Piece>): string {
    if pieces == [] then "" else PieceText(pieces[0]) + PiecesText(pieces[1..])
  }

  function PieceTokens(piece: Piece): seq<string> {
    match piece
    case Gap(_) => []
    case Slash => ["OR"]
    case Token(text) => [text]
  }

  function PiecesTokens(pieces: seq<Piece>): seq<string> {
    if pieces == [] then [] else PieceTokens(pieces[0]) + PiecesTokens(pieces[1..])
  }

  lemma {:induction false} SlashesAppend(a: string, b: string)
    ensures SlashesToOr(a + b) == SlashesToOr(a) + SlashesToOr(b)
    decreases |a|
  {
    if a == "" {
      assert a + b == b;
    } else {
      assert (a + b)[1..] == a[1..] + b;
      SlashesAppend(a[1..], b);
    }
  }

  lemma {:induction false} NoSlashes(s: string)
    requires '/' !in s
    ensures SlashesToOr(s) == s
    decreases |s|
  {
    if s != "" {
      NoSlashes(s[1..]);
      assert s == [s[0]] + s[1..];
    }
  }

  /** The text after the slashes are replaced. */
  function Expanded(pieces: seq<Piece>): string {
    if pieces == [] then "" else (if pieces[0].Slash? then " OR " else PieceText(pieces[0])) + Expanded(pieces[1..])
  }

  lemma {:induction false} SlashesExpand(pieces: seq<Piece>)
    requires ArePieces(pieces)
    ensures SlashesToOr(PiecesText(pieces)) == Expanded(pieces)
    decreases |pieces|
  {
    if pieces != [] {
      SlashesExpand(pieces[1..]);
      SlashesAppend(PieceText(pieces[0]), PiecesText(pieces[1..]));
      if pieces[0].Slash? {
        assert SlashesToOr("/") == " OR " + SlashesToOr("") == " OR ";
      } else {
        assert !IsPatternSpace('/');
        NoSlashes(PieceText(pieces[0]));
      }
    }
  }

  /** A word starts the expansion only if it starts the pieces. */
  lemma WordDoesNotGoOn(pieces: seq<Piece>)
    requires ArePieces(pieces) && (pieces != [] ==> !(pieces[0].Token? && IsWord(pieces[0].text)))
    ensures Expanded(pieces) == "" || !IsWordChar(Expanded(pieces)[0])
  {
  }

  lemma WordIsRead(s: string, i: nat, word: string)
    requires IsWord(word) && At(s, i, word) && (i + |word| == |s| || !IsWordChar(s[i + |word|]))
    ensures TokensFrom(s, i) == [word] + TokensFrom(s, i + |word|)
  {
    forall k | i <= k < i + |word|
      ensures IsWordChar(s[k])
    {
      assert s[k] == s[i..i + |word|][k - i] == word[k - i];
    }
    assert s[i] == s[i..i + |word|][0];
    assert TokenEnd(s, i) == i + |word|;
  }

  lemma GapIsRead(s: string, i: nat)
    requires i < |s| && IsPatternSpace(s[i])
    ensures TokensFrom(s, i) == TokensFrom(s, i + 1)
  {
  }

  lemma ParenthesisIsRead(s: string, i: nat)
    requires i < |s| && (s[i] == '(' || s[i] == ')')
    ensures TokensFrom(s, i) == [[s[i]]] + TokensFrom(s, i + 1)
  {
  }

  lemma CharAt(s: string, i: nat, part: string, k: nat)
    requires At(s, i, part) && k < |part|
    ensures i + k < |s| && s[i + k] == part[k]
  {
    assert s[i..i + |part|][k] == part[k];
  }

  lemma SlashIsRead(s: string, i: nat)
    requires At(s, i, " OR ")
    ensures TokensFrom(s, i) == ["OR"] + TokensFrom(s, i + 4)
  {
    hide At, TokensFrom, IsWordChar;
    CharAt(s, i, " OR ", 0);
    CharAt(s, i, " OR ", 3);
    assert " OR " == " " + ("OR" + " ");
    AtSplits(s, i, " ", "OR" + " ");
    AtSplits(s, i + 1, "OR", " ");
    SpaceIsNoWord();
    GapIsRead(s, i);
    WordIsRead(s, i + 1, "OR");
    GapIsRead(s, i + 3);
  }

  lemma SpaceIsNoWord()
    ensures IsPatternSpace(' ') && !IsWordChar(' ') && IsWord("OR")
  {
  }

  lemma NothingIsLeft(s: string)
    ensures TokensFrom(s, |s|) == []
  {
  }

  lemma GapIsSpace(c: char)
    ensures IsGap(c) <==> IsPatternSpace(c)
  {
  }

  /** What one piece adds to the tokens. */
  lemma PieceIsRead(s: string, i: nat, piece: Piece)
    requires IsPiece(piece) && At(s, i, if piece.Slash? then " OR " else PieceText(piece))
    requires piece.Token? && IsWord(piece.text) ==>
      i + |piece.text| == |s| || !IsWordChar(s[i + |piece.text|])
    ensures TokensFrom(s, i) == PieceTokens(piece) + TokensFrom(s, i + if piece.Slash? then 4 else |PieceText(piece)|)
  {
    match piece {
      case Gap(c) =>
        GapIsSpace(c);
        assert s[i] == s[i..i + 1][0];
        assert [] + TokensFrom(s, i + 1) == TokensFrom(s, i + 1);
      case Slash =>
        SlashIsRead(s, i);
      case Token(text) =>
        if IsWord(text) {
          WordIsRead(s, i, text);
        } else {
          assert s[i] == s[i..i + 1][0] == text[0];
          ParenthesisIsRead(s, i);
        }
    }
  }

  lemma {:induction false} PiecesAreRead(s: string, i: nat, pieces: seq<Piece>)
    requires ArePieces(pieces) && i <= |s| && s[i..] == Expanded(pieces)
    ensures TokensFrom(s, i) == PiecesTokens(pieces)
    decreases |pieces|
  {
    hide IsPiece, PieceTokens, IsWord, IsWordChar, At, TokensFrom;
    if pieces == [] {
      assert i == |s|;
      NothingIsLeft(s);
    } else {
      var first := if pieces[0].Slash? then " OR " else PieceText(pieces[0]);
      var next := i + |first|;
      assert s[i..] == first + Expanded(pieces[1..]);
      TailFollows(s, i, first, Expanded(pieces[1..]));
      NextIsNoWord(s, next, pieces);
      PieceIsRead(s, i, pieces[0]);
      PiecesAreRead(s, next, pieces[1..]);
    }
  }

  lemma TailFollows(s: string, i: nat, first: string, rest: string)
    requires i <= |s| && s[i..] == first + rest
    ensures At(s, i, first) && s[i + |first|..] == rest
  {
    assert s[i..i + |first|] == s[i..][..|first|];
    assert s[i + |first|..] == s[i..][|first|..];
  }

  lemma NextIsNoWord(s: string, next: nat, pieces: seq<Piece>)
    requires ArePieces(pieces) && pieces != [] && next <= |s| && s[next..] == Expanded(pieces[1..])
    ensures pieces[0].Token? && IsWord(pieces[0].text) ==> next == |s| || !IsWordChar(s[next])
  {
    if pieces[0].Token? && IsWord(pieces[0].text) {
      if |pieces| > 1 {
        assert pieces[1..][0] == pieces[0 + 1];
      }
      WordDoesNotGoOn(pieces[1..]);
      if next < |s| {
        assert s[next] == s[next..][0];
      }
    }
  }

  /** The tokens of a text are those of its pieces, whatever the white space and however `OR` is written. */
  lemma PiecesAreTokenized(pieces: seq<Piece>)
    requires ArePieces(pieces)
    ensures Tokens(PiecesText(pieces)) == PiecesTokens(pieces)
  {
    SlashesExpand(pieces);
    var s := Expanded(pieces);
    assert s[0..] == s;
    PiecesAreRead(s, 0, pieces);
  }

  /** Every spelling of an expression parses to the expression's tree. */
  lemma EverySpellingParses(c: Choice, pieces: seq<Piece>)
    requires IsChoice(c) && ArePieces(pieces) && PiecesTokens(pieces) == ChoiceTokens(c)
    ensures Parse(PiecesText(pieces)) == Parsed(ChoiceTree(c), |ChoiceTokens(c)|)
  {
    PiecesAreTokenized(pieces);
    AcceptsExactly(ChoiceTokens(c));
  }

  /** `GPL-2.0 WITH Classpath-exception-2.0` needs the license and not the exception. */
  lemma ExceptionIsDropped()
    ensures ParseTokens(["GPL-2.0", "WITH", "Classpath-exception-2.0"]) == Parsed(Id("GPL-2.0"), 3)
  {
    hide ParseTokens, IsName;
    var name, exception := "GPL-2.0", "Classpath-exception-2.0";
    var c := Only(Last(License(name, 0, Some(exception))));
    assert name + Pluses(0) == name;
    NamesOfTheExample();
    assert ChoiceTokens(c) == FactorTokens(c.term.factor) + [] + [] == [name, "WITH", exception];
    AcceptsExactly(ChoiceTokens(c));
  }

  lemma NamesOfTheExample()
    ensures IsName("GPL-2.0") && IsName("Classpath-exception-2.0")
  {
  }
}
