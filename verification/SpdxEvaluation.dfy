/**
 Evaluating a license expression against the license texts a crate publishes, and against a copyleft pattern,
 compared with its meaning: whoever relies on the expression picks one operand of every `OR` and must then
 meet every license picked.
 */
module SpdxEvaluation {
  import opened Options
  import opened Spdx
  import opened Text

  type Names = set<string>

  /** SPDX identifier prefix and the family of texts it belongs to; the first match counts. */
  const FAMILY_OF: seq<(string, string)> := [
    ("Apache-", "Apache-2.0"), ("MPL-", "MPL-2.0"), ("LGPL-", "LGPL"), ("AGPL-", "AGPL"),
    ("GPL-", "GPL"), ("EPL-", "EPL"), ("CDLA-Permissive", "CDLA-Permissive"),
    ("Unicode-", "Unicode"), ("BSL-", "BSL-1.0"), ("CC0-", "CC0-1.0"), ("Unlicense", "Unlicense"),
    ("WTFPL", "WTFPL"), ("Zlib", "Zlib"), ("BSD-", "BSD"), ("0BSD", "ISC"), ("ISC", "ISC"),
    ("MIT", "MIT"), ("NCSA", "NCSA"), ("OpenSSL", "OpenSSL"), ("OFL-", "OFL")]

  function FamilyFrom(identifier: string, k: nat): Option<string>
    requires k <= |FAMILY_OF|
    decreases |FAMILY_OF| - k
  {
    if k == |FAMILY_OF| then None
    else if FAMILY_OF[k].0 <= identifier then Some(FAMILY_OF[k].1)
    else FamilyFrom(identifier, k + 1)
  }

  function Family(identifier: string): Option<string> {
    FamilyFrom(identifier, 0)
  }

  /** The families whose texts an identifier requires. LGPL-3.0 adds permissions to GPL-3.0 and needs both. */
  function Required(name: string, family: string): Names {
    if "LGPL-3" <= Upper(name) then {"LGPL", "GPL"} else {family}
  }

  /** One identifier: its own unclassified text, nothing, or `None` when a known text is missing. */
  function LeafNeeds(name: string, families: Names): Option<Names> {
    match Family(name)
    case None => Some({name})
    case Some(family) => if Required(name, family) <= families then Some({}) else None
  }

  // ----- which texts a license needs ----------------------------------------------------------------

  predicate MatchesRow(identifier: string, k: nat)
    requires k < |FAMILY_OF|
  {
    FAMILY_OF[k].0 <= identifier
  }

  /** The row is the first of the table, from the given one on, whose prefix begins the identifier. */
  ghost predicate IsFirstMatch(identifier: string, from: nat, k: nat) {
    from <= k < |FAMILY_OF| && MatchesRow(identifier, k) && forall j | from <= j < k :: !MatchesRow(identifier, j)
  }

  lemma {:induction false} FamilyFromFinds(identifier: string, from: nat, family: string)
    requires from <= |FAMILY_OF|
    ensures FamilyFrom(identifier, from) == Some(family)
       <==> exists k: nat :: IsFirstMatch(identifier, from, k) && FAMILY_OF[k].1 == family
    decreases |FAMILY_OF| - from
  {
    if from < |FAMILY_OF| {
      if MatchesRow(identifier, from) {
        assert IsFirstMatch(identifier, from, from);
        assert forall k: nat :: IsFirstMatch(identifier, from, k) ==> k == from;
      } else {
        FamilyFromFinds(identifier, from + 1, family);
        assert forall k: nat :: IsFirstMatch(identifier, from, k) <==> IsFirstMatch(identifier, from + 1, k);
      }
    }
  }

  /** An identifier belongs to the family of the first row whose prefix begins it, and else to none. */
  lemma FamilyExactly(identifier: string, family: string)
    ensures Family(identifier) == Some(family)
       <==> exists k: nat :: IsFirstMatch(identifier, 0, k) && FAMILY_OF[k].1 == family
  {
    FamilyFromFinds(identifier, 0, family);
  }

  lemma LgplThreeIsOfAFamily(name: string)
    requires "LGPL-3" <= name
    ensures Family(name) == Some("LGPL") && "LGPL-3" <= Upper(name)
  {
    assert name[..6] == "LGPL-3" && name[0] == 'L' && name[1] == 'G';
    assert IsFirstMatch(name, 0, 2) by {
      assert FAMILY_OF[2].0 == "LGPL-" == name[..5];
      assert FAMILY_OF[0].0[0] == 'A' && FAMILY_OF[1].0[0] == 'M';
    }
    FamilyExactly(name, "LGPL");
    assert Upper(name)[..6] == "LGPL-3";
  }

  /**
   An LGPL-3 license needs the texts of both families, GPL-2 and GPL-3 only their own, and an identifier outside the
   table a text of its own.
   */
  lemma TextsALicenseNeeds(name: string, families: Names)
    ensures "LGPL-3" <= name ==>
              LeafNeeds(name, families) == if "LGPL" in families && "GPL" in families then Some({}) else None
    ensures "LGPL-2" <= name || "GPL-" <= name ==>
              LeafNeeds(name, families)
              == if (if "GPL-" <= name then "GPL" else "LGPL") in families then Some({}) else None
    ensures Family(name).None? ==> LeafNeeds(name, families) == Some({name})
  {
    if "LGPL-3" <= name {
      LgplThreeIsOfAFamily(name);
    }
    if "LGPL-2" <= name || "GPL-" <= name {
      OtherGnuFamilies(name);
    }
  }

  lemma OtherGnuFamilies(name: string)
    requires "LGPL-2" <= name || "GPL-" <= name
    ensures Family(name) == Some(if "GPL-" <= name then "GPL" else "LGPL") && !("LGPL-3" <= Upper(name))
  {
    if "GPL-" <= name {
      assert name[..4] == "GPL-" && name[0] == 'G';
      assert IsFirstMatch(name, 0, 4) by {
        assert FAMILY_OF[4].0 == "GPL-";
        assert FAMILY_OF[0].0[0] == FAMILY_OF[3].0[0] == 'A';
        assert FAMILY_OF[1].0[0] == 'M' && FAMILY_OF[2].0[0] == 'L';
      }
      FamilyExactly(name, "GPL");
      assert Upper(name)[0] == 'G' && "LGPL-3"[0] == 'L';
    } else {
      assert name[..6] == "LGPL-2" && name[0] == 'L' && name[5] == '2';
      assert IsFirstMatch(name, 0, 2) by {
        assert FAMILY_OF[2].0 == "LGPL-" == name[..5];
        assert FAMILY_OF[0].0[0] == 'A' && FAMILY_OF[1].0[0] == 'M';
      }
      FamilyExactly(name, "LGPL");
      assert Upper(name)[5] == '2' && "LGPL-3"[5] == '3';
    }
  }

  // ----- the order `min` uses -----------------------------------------------------------------------

  lemma {:induction false} SomeTextIsLeast(names: Names)
    requires names != {}
    ensures exists least :: least in names && forall other | other in names :: !TextLess(other, least)
    decreases |names|
  {
    hide TextLess;
    var name :| name in names;
    TextLessIsIrreflexive(name);
    if names - {name} == {} {
      assert names == {name};
    } else {
      SomeTextIsLeast(names - {name});
      var least :| least in names - {name} && forall other | other in names - {name} :: !TextLess(other, least);
      if TextLess(name, least) {
        forall other | other in names
          ensures !TextLess(other, name)
        {
          if TextLess(other, name) {
            TextLessIsTransitive(other, name, least);
          }
        }
      }
    }
  }

  /** `sorted(names)` */
  ghost function Sorted(names: Names): seq<string>
    decreases |names|
  {
    if names == {} then
      []
    else
      SomeTextIsLeast(names);
      var least :| least in names && forall other | other in names :: !TextLess(other, least);
      [least] + Sorted(names - {least})
  }

  ghost predicate ListLess(a: seq<string>, b: seq<string>) {
    b != [] && (a == [] || TextLess(a[0], b[0]) || (a[0] == b[0] && ListLess(a[1..], b[1..])))
  }

  /** `(len(a), sorted(a)) < (len(b), sorted(b))` */
  ghost predicate Cheaper(a: Names, b: Names) {
    |a| < |b| || (|a| == |b| && ListLess(Sorted(a), Sorted(b)))
  }

  // ----- the evaluators -----------------------------------------------------------------------------

  ghost function Cheapest(options: seq<Option<Names>>): Option<Names> {
    if options == [] then
      None
    else
      var later := Cheapest(options[1..]);
      if options[0].None? || (later.Some? && Cheaper(later.value, options[0].value)) then later else options[0]
  }

  function Together(options: seq<Option<Names>>): Option<Names> {
    if options == [] then
      Some({})
    else
      var later := Together(options[1..]);
      if options[0].None? || later.None? then None else Some(options[0].value + later.value)
  }

  ghost function UnknownNeeded(n: Node, families: Names): Option<Names>
    decreases n
  {
    match n
    case Id(name) => LeafNeeds(name, families)
    case Or(children) => Cheapest(EachNeeded(children, families))
    case And(children) => Together(EachNeeded(children, families))
  }

  ghost function EachNeeded(nodes: seq<Node>, families: Names): (options: seq<Option<Names>>)
    ensures |options| == |nodes|
    decreases nodes
  {
    if nodes == [] then [] else [UnknownNeeded(nodes[0], families)] + EachNeeded(nodes[1..], families)
  }

  ghost predicate Satisfied(n: Node, families: Names, unclassified: nat) {
    var needed := UnknownNeeded(n, families);
    needed.Some? && |needed.value| <= unclassified
  }

  /** `pattern` says which identifiers the copyleft expression matches. */
  predicate UnavoidableCopyleft(n: Node, pattern: string -> bool)
    decreases n
  {
    match n
    case Id(name) => pattern(name)
    case Or(children) => AllUnavoidable(children, pattern)
    case And(children) => SomeUnavoidable(children, pattern)
  }

  predicate AllUnavoidable(nodes: seq<Node>, pattern: string -> bool)
    decreases nodes
  {
    nodes == [] || (UnavoidableCopyleft(nodes[0], pattern) && AllUnavoidable(nodes[1..], pattern))
  }

  predicate SomeUnavoidable(nodes: seq<Node>, pattern: string -> bool)
    decreases nodes
  {
    nodes != [] && (UnavoidableCopyleft(nodes[0], pattern) || SomeUnavoidable(nodes[1..], pattern))
  }

  // ----- the meaning --------------------------------------------------------------------------------

  /** `picked` are the licenses met by one way of choosing at every `OR`. */
  ghost predicate Chooses(n: Node, picked: Names)
    decreases n
  {
    match n
    case Id(name) => picked == {name}
    case Or(children) => ChoosesOne(children, picked)
    case And(children) => ChoosesAll(children, picked)
  }

  ghost predicate ChoosesOne(nodes: seq<Node>, picked: Names)
    decreases nodes
  {
    nodes != [] && (Chooses(nodes[0], picked) || ChoosesOne(nodes[1..], picked))
  }

  ghost predicate ChoosesAll(nodes: seq<Node>, picked: Names)
    decreases nodes
  {
    if nodes == [] then
      picked == {}
    else
      exists first, others :: Chooses(nodes[0], first) && ChoosesAll(nodes[1..], others) && picked == first + others
  }

  /** A picked license of a known family lacks a text. */
  predicate Misses(picked: Names, families: Names) {
    exists name | name in picked :: LeafNeeds(name, families).None?
  }

  predicate Matched(picked: Names, pattern: string -> bool) {
    exists name | name in picked :: pattern(name)
  }

  function Unknown(picked: Names): Names {
    set name | name in picked && Family(name).None?
  }

  ghost predicate Meets(n: Node, families: Names, picked: Names) {
    Chooses(n, picked) && !Misses(picked, families)
  }

  // ----- the cheapest way is a real choice ------------------------------------------------------------

  lemma {:induction false} NeededIsAChoice(n: Node, families: Names) returns (picked: Names)
    requires UnknownNeeded(n, families).Some?
    ensures Meets(n, families, picked) && Unknown(picked) == UnknownNeeded(n, families).value
    decreases n
  {
    match n {
      case Id(name) => picked := {name};
      case Or(children) => picked := CheapestIsAChoice(children, families);
      case And(children) => picked := TogetherIsAChoice(children, families);
    }
  }

  lemma {:induction false} CheapestIsAChoice(nodes: seq<Node>, families: Names) returns (picked: Names)
    requires Cheapest(EachNeeded(nodes, families)).Some?
    ensures ChoosesOne(nodes, picked) && !Misses(picked, families)
    ensures Unknown(picked) == Cheapest(EachNeeded(nodes, families)).value
    decreases nodes
  {
    var options := EachNeeded(nodes, families);
    assert options[1..] == EachNeeded(nodes[1..], families);
    if Cheapest(options) == options[0] {
      picked := NeededIsAChoice(nodes[0], families);
    } else {
      picked := CheapestIsAChoice(nodes[1..], families);
    }
  }

  lemma {:induction false} TogetherIsAChoice(nodes: seq<Node>, families: Names) returns (picked: Names)
    requires Together(EachNeeded(nodes, families)).Some?
    ensures ChoosesAll(nodes, picked) && !Misses(picked, families)
    ensures Unknown(picked) == Together(EachNeeded(nodes, families)).value
    decreases nodes
  {
    if nodes == [] {
      picked := {};
    } else {
      assert EachNeeded(nodes, families)[1..] == EachNeeded(nodes[1..], families);
      var first := NeededIsAChoice(nodes[0], families);
      var others := TogetherIsAChoice(nodes[1..], families);
      picked := first + others;
    }
  }

  lemma {:induction false} NoneMeansEveryChoiceMisses(n: Node, families: Names, picked: Names)
    requires UnknownNeeded(n, families).None? && Chooses(n, picked)
    ensures Misses(picked, families)
    decreases n
  {
    match n {
      case Id(name) => assert name in picked;
      case Or(children) => NoCheapest(children, families, picked);
      case And(children) => NotTogether(children, families, picked);
    }
  }

  lemma {:induction false} NoCheapest(nodes: seq<Node>, families: Names, picked: Names)
    requires Cheapest(EachNeeded(nodes, families)).None? && ChoosesOne(nodes, picked)
    ensures Misses(picked, families)
    decreases nodes
  {
    assert EachNeeded(nodes, families)[1..] == EachNeeded(nodes[1..], families);
    if Chooses(nodes[0], picked) {
      NoneMeansEveryChoiceMisses(nodes[0], families, picked);
    } else {
      NoCheapest(nodes[1..], families, picked);
    }
  }

  lemma {:induction false} NotTogether(nodes: seq<Node>, families: Names, picked: Names)
    requires Together(EachNeeded(nodes, families)).None? && ChoosesAll(nodes, picked)
    ensures Misses(picked, families)
    decreases nodes
  {
    assert EachNeeded(nodes, families)[1..] == EachNeeded(nodes[1..], families);
    var first, others :| Chooses(nodes[0], first) && ChoosesAll(nodes[1..], others) && picked == first + others;
    if UnknownNeeded(nodes[0], families).None? {
      NoneMeansEveryChoiceMisses(nodes[0], families, first);
    } else {
      NotTogether(nodes[1..], families, others);
    }
  }

  /** `unknown_needed` is `None` exactly when every choice misses the text of a known family. */
  lemma NoneExactlyWhenEveryChoiceMisses(n: Node, families: Names)
    ensures UnknownNeeded(n, families).None? <==> forall picked | Chooses(n, picked) :: Misses(picked, families)
  {
    if UnknownNeeded(n, families).None? {
      forall picked | Chooses(n, picked)
        ensures Misses(picked, families)
      {
        NoneMeansEveryChoiceMisses(n, families, picked);
      }
    } else {
      var picked := NeededIsAChoice(n, families);
      assert Chooses(n, picked) && !Misses(picked, families);
    }
  }

  /** Acceptance is sound: some choice is met by the texts found. */
  lemma SatisfiedIsWitnessed(n: Node, families: Names, unclassified: nat)
    requires Satisfied(n, families, unclassified)
    ensures exists picked :: Meets(n, families, picked) && |Unknown(picked)| <= unclassified
  {
    var picked := NeededIsAChoice(n, families);
  }

  /** Copyleft is unavoidable exactly when every choice contains a matching license. */
  lemma UnavoidableExactlyWhenEveryChoiceMatches(n: Node, pattern: string -> bool)
    ensures UnavoidableCopyleft(n, pattern) <==> forall picked | Chooses(n, picked) :: Matched(picked, pattern)
  {
    if UnavoidableCopyleft(n, pattern) {
      forall picked | Chooses(n, picked)
        ensures Matched(picked, pattern)
      {
        EveryChoiceMatches(n, pattern, picked);
      }
    } else {
      var picked := SomeChoiceAvoids(n, pattern);
      assert Chooses(n, picked);
    }
  }

  lemma {:induction false} EveryChoiceMatches(n: Node, pattern: string -> bool, picked: Names)
    requires UnavoidableCopyleft(n, pattern) && Chooses(n, picked)
    ensures Matched(picked, pattern)
    decreases n
  {
    match n {
      case Id(name) => assert name in picked;
      case Or(children) => OneMatches(children, pattern, picked);
      case And(children) => AllMatch(children, pattern, picked);
    }
  }

  lemma {:induction false} OneMatches(nodes: seq<Node>, pattern: string -> bool, picked: Names)
    requires AllUnavoidable(nodes, pattern) && ChoosesOne(nodes, picked)
    ensures Matched(picked, pattern)
    decreases nodes
  {
    if Chooses(nodes[0], picked) {
      EveryChoiceMatches(nodes[0], pattern, picked);
    } else {
      OneMatches(nodes[1..], pattern, picked);
    }
  }

  lemma {:induction false} AllMatch(nodes: seq<Node>, pattern: string -> bool, picked: Names)
    requires SomeUnavoidable(nodes, pattern) && ChoosesAll(nodes, picked)
    ensures Matched(picked, pattern)
    decreases nodes
  {
    var first, others :| Chooses(nodes[0], first) && ChoosesAll(nodes[1..], others) && picked == first + others;
    if UnavoidableCopyleft(nodes[0], pattern) {
      EveryChoiceMatches(nodes[0], pattern, first);
    } else {
      AllMatch(nodes[1..], pattern, others);
    }
  }

  lemma {:induction false} SomeChoiceAvoids(n: Node, pattern: string -> bool) returns (picked: Names)
    requires !UnavoidableCopyleft(n, pattern)
    ensures Chooses(n, picked) && !Matched(picked, pattern)
    decreases n
  {
    match n {
      case Id(name) => picked := {name};
      case Or(children) => picked := OneAvoids(children, pattern);
      case And(children) => picked := AllAvoid(children, pattern);
    }
  }

  lemma {:induction false} OneAvoids(nodes: seq<Node>, pattern: string -> bool) returns (picked: Names)
    requires !AllUnavoidable(nodes, pattern)
    ensures ChoosesOne(nodes, picked) && !Matched(picked, pattern)
    decreases nodes
  {
    if !UnavoidableCopyleft(nodes[0], pattern) {
      picked := SomeChoiceAvoids(nodes[0], pattern);
    } else {
      picked := OneAvoids(nodes[1..], pattern);
    }
  }

  lemma {:induction false} AllAvoid(nodes: seq<Node>, pattern: string -> bool) returns (picked: Names)
    requires !SomeUnavoidable(nodes, pattern)
    ensures ChoosesAll(nodes, picked) && !Matched(picked, pattern)
    decreases nodes
  {
    if nodes == [] {
      picked := {};
    } else {
      var first := SomeChoiceAvoids(nodes[0], pattern);
      var others := AllAvoid(nodes[1..], pattern);
      picked := first + others;
    }
  }

  // ----- when the cheapest way is the cheapest --------------------------------------------------------

  function UnknownNames(n: Node): Names
    decreases n
  {
    match n
    case Id(name) => if Family(name).None? then {name} else {}
    case Or(children) => AllUnknownNames(children)
    case And(children) => AllUnknownNames(children)
  }

  function AllUnknownNames(nodes: seq<Node>): Names
    decreases nodes
  {
    if nodes == [] then {} else UnknownNames(nodes[0]) + AllUnknownNames(nodes[1..])
  }

  /** The unknown identifiers that every choice must meet. */
  function Forced(n: Node): Names
    decreases n
  {
    match n
    case Id(name) => if Family(name).None? then {name} else {}
    case Or(children) => {}
    case And(children) => AllForced(children)
  }

  function AllForced(nodes: seq<Node>): Names
    decreases nodes
  {
    if nodes == [] then {} else Forced(nodes[0]) + AllForced(nodes[1..])
  }

  /** The unknown identifiers that occur below an `OR`. */
  function Optional(n: Node): Names
    decreases n
  {
    match n
    case Id(name) => {}
    case Or(children) => AllUnknownNames(children)
    case And(children) => AllOptional(children)
  }

  function AllOptional(nodes: seq<Node>): Names
    decreases nodes
  {
    if nodes == [] then {} else Optional(nodes[0]) + AllOptional(nodes[1..])
  }

  /** No unknown identifier that two operands of one `AND` share occurs below an `OR` in either of them. */
  predicate SharesNoChoice(n: Node)
    decreases n
  {
    match n
    case Id(name) => true
    case Or(children) => EachSharesNoChoice(children)
    case And(children) => EachSharesNoChoice(children) && ChoicesAreApart(children)
  }

  predicate EachSharesNoChoice(nodes: seq<Node>)
    decreases nodes
  {
    nodes == [] || (SharesNoChoice(nodes[0]) && EachSharesNoChoice(nodes[1..]))
  }

  predicate ChoicesAreApart(nodes: seq<Node>)
    decreases nodes
  {
    || nodes == []
    || (&& Optional(nodes[0]) !! AllUnknownNames(nodes[1..])
        && UnknownNames(nodes[0]) !! AllOptional(nodes[1..])
        && ChoicesAreApart(nodes[1..]))
  }

  lemma {:induction false} ForcedOrOptional(n: Node)
    ensures UnknownNames(n) == Forced(n) + Optional(n)
    decreases n
  {
    match n {
      case Id(name) =>
      case Or(children) =>
      case And(children) => AllForcedOrOptional(children);
    }
  }

  lemma {:induction false} AllForcedOrOptional(nodes: seq<Node>)
    ensures AllUnknownNames(nodes) == AllForced(nodes) + AllOptional(nodes)
    decreases nodes
  {
    if nodes != [] {
      ForcedOrOptional(nodes[0]);
      AllForcedOrOptional(nodes[1..]);
    }
  }

  /** Every choice meets the forced names, and the rest of what it needs lies below an `OR`. */
  ghost predicate Splits(names: Names, forced: Names, optional: Names) {
    forced <= names <= forced + optional
  }

  lemma {:induction false} ChoiceSplits(n: Node, picked: Names)
    requires Chooses(n, picked)
    ensures Splits(Unknown(picked), Forced(n), Optional(n))
    decreases n
  {
    match n {
      case Id(name) =>
      case Or(children) => OneChoiceSplits(children, picked);
      case And(children) => AllChoicesSplit(children, picked);
    }
  }

  lemma {:induction false} OneChoiceSplits(nodes: seq<Node>, picked: Names)
    requires ChoosesOne(nodes, picked)
    ensures Unknown(picked) <= AllUnknownNames(nodes)
    decreases nodes
  {
    if Chooses(nodes[0], picked) {
      ChoiceSplits(nodes[0], picked);
      ForcedOrOptional(nodes[0]);
    } else {
      OneChoiceSplits(nodes[1..], picked);
    }
  }

  lemma UnknownOfBoth(first: Names, others: Names)
    ensures Unknown(first + others) == Unknown(first) + Unknown(others)
  {
  }

  lemma {:induction false} AllChoicesSplit(nodes: seq<Node>, picked: Names)
    requires ChoosesAll(nodes, picked)
    ensures Splits(Unknown(picked), AllForced(nodes), AllOptional(nodes))
    decreases nodes
  {
    if nodes != [] {
      var first, others :| Chooses(nodes[0], first) && ChoosesAll(nodes[1..], others) && picked == first + others;
      ChoiceSplits(nodes[0], first);
      AllChoicesSplit(nodes[1..], others);
      UnknownOfBoth(first, others);
    }
  }

  lemma SizeOfUnion(a: Names, b: Names)
    requires a !! b
    ensures |a + b| == |a| + |b|
  {
  }

  /** Of two sets with the same forced names, the one with fewer other names is the smaller. */
  lemma ForcedCountsOnce(a: Names, x: Names, forced: Names)
    requires forced <= a && forced <= x && |a - forced| <= |x - forced|
    ensures |a| <= |x|
  {
    SizeOfUnion(forced, a - forced);
    SizeOfUnion(forced, x - forced);
    assert forced + (a - forced) == a && forced + (x - forced) == x;
  }

  /** Two operands: outside the forced names, what they need adds up. */
  lemma OptionalNamesAdd(a: Names, b: Names, f: Names, g: Names, o: Names, p: Names)
    requires Splits(a, f, o) && Splits(b, g, p) && o !! g + p && f + o !! p
    ensures Splits(a + b, f + g, o + p)
    ensures |(a + b) - (f + g)| == |a - f| + |b - g|
  {
    assert (a + b) - (f + g) == (a - f) + (b - g);
    SizeOfUnion(a - f, b - g);
  }

  lemma NeededSplits(n: Node, families: Names)
    requires UnknownNeeded(n, families).Some?
    ensures Splits(UnknownNeeded(n, families).value, Forced(n), Optional(n))
  {
    var picked := NeededIsAChoice(n, families);
    ChoiceSplits(n, picked);
  }

  lemma AllNeededSplit(nodes: seq<Node>, families: Names)
    requires Together(EachNeeded(nodes, families)).Some?
    ensures Splits(Together(EachNeeded(nodes, families)).value, AllForced(nodes), AllOptional(nodes))
  {
    var picked := TogetherIsAChoice(nodes, families);
    AllChoicesSplit(nodes, picked);
  }

  lemma {:induction false} NoChoiceIsCheaper(n: Node, families: Names, picked: Names)
    requires SharesNoChoice(n) && Meets(n, families, picked)
    ensures UnknownNeeded(n, families).Some?
    ensures |UnknownNeeded(n, families).value - Forced(n)| <= |Unknown(picked) - Forced(n)|
    decreases n, 0
  {
    match n {
      case Id(name) =>
        assert name in picked;
        assert UnknownNeeded(n, families) == Some(Forced(n));
        assert Forced(n) - Forced(n) == {};
      case Or(children) =>
        NoOperandIsCheaper(children, families, picked);
        assert UnknownNeeded(n, families).value - {} == UnknownNeeded(n, families).value;
        assert Unknown(picked) - {} == Unknown(picked);
      case And(children) => NoCombinationIsCheaper(children, families, picked);
    }
  }

  lemma {:induction false} NeededIsSmallest(n: Node, families: Names, picked: Names)
    requires SharesNoChoice(n) && Meets(n, families, picked)
    ensures UnknownNeeded(n, families).Some? && |UnknownNeeded(n, families).value| <= |Unknown(picked)|
    decreases n, 1
  {
    NoChoiceIsCheaper(n, families, picked);
    NeededSplits(n, families);
    ChoiceSplits(n, picked);
    ForcedCountsOnce(UnknownNeeded(n, families).value, Unknown(picked), Forced(n));
  }

  lemma {:induction false} NoOperandIsCheaper(nodes: seq<Node>, families: Names, picked: Names)
    requires EachSharesNoChoice(nodes) && ChoosesOne(nodes, picked) && !Misses(picked, families)
    ensures var best := Cheapest(EachNeeded(nodes, families)); best.Some? && |best.value| <= |Unknown(picked)|
    decreases nodes
  {
    assert EachNeeded(nodes, families)[1..] == EachNeeded(nodes[1..], families);
    if Chooses(nodes[0], picked) {
      NeededIsSmallest(nodes[0], families, picked);
    } else {
      NoOperandIsCheaper(nodes[1..], families, picked);
    }
  }

  lemma {:induction false} NoCombinationIsCheaper(nodes: seq<Node>, families: Names, picked: Names)
    requires EachSharesNoChoice(nodes) && ChoicesAreApart(nodes)
    requires ChoosesAll(nodes, picked) && !Misses(picked, families)
    ensures Together(EachNeeded(nodes, families)).Some?
    ensures |Together(EachNeeded(nodes, families)).value - AllForced(nodes)| <= |Unknown(picked) - AllForced(nodes)|
    decreases nodes
  {
    if nodes == [] {
      assert Together(EachNeeded(nodes, families)).value - AllForced(nodes) == {};
    } else {
      var first, others :| Chooses(nodes[0], first) && ChoosesAll(nodes[1..], others) && picked == first + others;
      NoChoiceIsCheaper(nodes[0], families, first);
      NoCombinationIsCheaper(nodes[1..], families, others);
      ChoiceSplits(nodes[0], first);
      AllChoicesSplit(nodes[1..], others);
      OperandsAdd(nodes, Unknown(first), Unknown(others));
      UnknownOfBoth(first, others);
      NeededAdds(nodes, families, UnknownNeeded(nodes[0], families).value,
                 Together(EachNeeded(nodes[1..], families)).value);
    }
  }

  lemma OperandsAdd(nodes: seq<Node>, a: Names, b: Names)
    requires nodes != [] && ChoicesAreApart(nodes)
    requires Splits(a, Forced(nodes[0]), Optional(nodes[0]))
    requires Splits(b, AllForced(nodes[1..]), AllOptional(nodes[1..]))
    ensures |a + b - AllForced(nodes)| == |a - Forced(nodes[0])| + |b - AllForced(nodes[1..])|
  {
    ForcedOrOptional(nodes[0]);
    AllForcedOrOptional(nodes[1..]);
    OptionalNamesAdd(a, b, Forced(nodes[0]), AllForced(nodes[1..]), Optional(nodes[0]), AllOptional(nodes[1..]));
  }

  lemma NeededAdds(nodes: seq<Node>, families: Names, head: Names, tail: Names)
    requires nodes != [] && ChoicesAreApart(nodes)
    requires UnknownNeeded(nodes[0], families) == Some(head)
    requires Together(EachNeeded(nodes[1..], families)) == Some(tail)
    ensures Together(EachNeeded(nodes, families)) == Some(head + tail)
    ensures |head + tail - AllForced(nodes)| == |head - Forced(nodes[0])| + |tail - AllForced(nodes[1..])|
  {
    assert EachNeeded(nodes, families)[1..] == EachNeeded(nodes[1..], families);
    NeededSplits(nodes[0], families);
    AllNeededSplit(nodes[1..], families);
    OperandsAdd(nodes, head, tail);
  }

  /**
   Acceptance is complete as well, as long as what two operands of an `AND` share is not up for choice in either.
   */
  lemma SatisfiedExactly(n: Node, families: Names, unclassified: nat)
    requires SharesNoChoice(n)
    ensures Satisfied(n, families, unclassified) <==>
            exists picked :: Meets(n, families, picked) && |Unknown(picked)| <= unclassified
  {
    if Satisfied(n, families, unclassified) {
      SatisfiedIsWitnessed(n, families, unclassified);
    }
    if picked :| Meets(n, families, picked) && |Unknown(picked)| <= unclassified {
      NeededIsSmallest(n, families, picked);
    }
  }

  /** `A AND A` is such an expression: repeating a license that is needed anyway costs nothing. */
  lemma RepetitionIsFree(n: Node, families: Names, unclassified: nat)
    requires Optional(n) == {} && SharesNoChoice(n)
    ensures SharesNoChoice(And([n, n]))
    ensures Satisfied(And([n, n]), families, unclassified) <==> Satisfied(n, families, unclassified)
  {
    var twice := And([n, n]);
    assert [n, n][1..] == [n] && [n][1..] == [];
    assert AllOptional([n]) == Optional(n) + {};
    assert EachSharesNoChoice([n]) && ChoicesAreApart([n]);
    EachOfTwo(n, n, families);
    if needed :| UnknownNeeded(n, families) == Some(needed) {
      CheapestOfTwo(needed, needed);
      assert needed + needed == needed;
    }
  }

  // ----- the cheapest way is not always the cheapest --------------------------------------------------

  lemma PrefixesAreUpperCase(k: nat)
    requires k < |FAMILY_OF|
    ensures FAMILY_OF[k].0 != "" && FAMILY_OF[k].0[0] < 'a'
  {
  }

  lemma {:induction false} LowerCaseHasNoFamily(name: string, k: nat)
    requires name != "" && 'a' <= name[0] <= 'z' && k <= |FAMILY_OF|
    ensures FamilyFrom(name, k).None?
    decreases |FAMILY_OF| - k
  {
    if k < |FAMILY_OF| {
      PrefixesAreUpperCase(k);
      LowerCaseHasNoFamily(name, k + 1);
    }
  }

  lemma SortedSingleton(name: string)
    ensures Sorted({name}) == [name]
  {
    assert {name} - {name} == {};
  }

  lemma EachOfTwo(x: Node, y: Node, families: Names)
    ensures EachNeeded([x, y], families) == [UnknownNeeded(x, families), UnknownNeeded(y, families)]
  {
    assert [x, y][1..] == [y] && [y][1..] == [];
    assert EachNeeded([y], families) == [UnknownNeeded(y, families)] + EachNeeded([], families);
  }

  lemma CheapestOfTwo(x: Names, y: Names)
    ensures Cheapest([Some(x), Some(y)]) == Some(if Cheaper(y, x) then y else x)
    ensures Together([Some(x), Some(y)]) == Some(x + y)
  {
    var options := [Some(x), Some(y)];
    assert options[1..] == [Some(y)] && [Some(y)][1..] == [];
    assert Cheapest([Some(y)]) == Some(y);
    assert Together([Some(y)]) == Some(y + {}) && y + {} == y;
  }

  lemma GreedyOr(a: string, b: string, families: Names)
    requires Family(a).None? && Family(b).None? && a != b && !TextLess(b, a)
    ensures UnknownNeeded(Or([Id(a), Id(b)]), families) == Some({a})
  {
    EachOfTwo(Id(a), Id(b), families);
    SortedSingleton(a);
    SortedSingleton(b);
    assert !ListLess([b], [a]);
    CheapestOfTwo({a}, {b});
  }

  lemma ChoosesOfTwo(x: Node, y: Node, picked: Names)
    ensures Chooses(x, picked) || Chooses(y, picked) ==> Chooses(Or([x, y]), picked)
    ensures Chooses(x, picked) && Chooses(y, picked) ==> Chooses(And([x, y]), picked)
  {
    assert [x, y][1..] == [y] && [y][1..] == [];
    assert picked + {} == picked && picked + picked == picked;
    if Chooses(y, picked) {
      assert ChoosesOne([y], picked);
      assert ChoosesAll([], {});
      assert ChoosesAll([y], picked);
    }
  }

  /** An `OR` between two unknown identifiers, the later of which is needed anyway. */
  function SharedNeed(a: string, b: string): Node {
    And([Or([Id(a), Id(b)]), Id(b)])
  }

  /**
   Each `OR` is decided by itself and takes the identifier that sorts first, so an expression that one
   unrecognised text would meet is refused.
   */
  lemma CheapestIsGreedy(a: string, b: string, families: Names)
    requires Family(a).None? && Family(b).None? && a != b && !TextLess(b, a)
    ensures Meets(SharedNeed(a, b), families, {b}) && |Unknown({b})| == 1
    ensures UnknownNeeded(SharedNeed(a, b), families) == Some({a, b})
    ensures !Satisfied(SharedNeed(a, b), families, 1)
  {
    var either := Or([Id(a), Id(b)]);
    GreedyOr(a, b, families);
    EachOfTwo(either, Id(b), families);
    CheapestOfTwo({a}, {b});
    assert {a} + {b} == {a, b};
    ChoosesOfTwo(Id(a), Id(b), {b});
    ChoosesOfTwo(either, Id(b), {b});
    assert Unknown({b}) == {b};
  }

  /** Such identifiers exist. */
  lemma CurlOrZlibAcknowledgement(families: Names)
    ensures !Satisfied(SharedNeed("curl", "zlib-acknowledgement"), families, 1)
    ensures Meets(SharedNeed("curl", "zlib-acknowledgement"), families, {"zlib-acknowledgement"})
  {
    var a, b := "curl", "zlib-acknowledgement";
    assert a[0] == 'c' && b[0] == 'z';
    LowerCaseHasNoFamily(a, 0);
    LowerCaseHasNoFamily(b, 0);
    CheapestIsGreedy(a, b, families);
  }
}
