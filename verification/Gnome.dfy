/**
 Reconciling GNOME's list of custom keybindings, which other applications share, with the shortcuts in the
 settings. `gsettings` calls succeed. A row named `Copywraith: <label>` is one of ours.
 */
module Gnome {
  import opened Options
  import opened Sequences
  import opened Text

  type Path = string
  type Label = string

  /** A row's `name` key: ours with the label after the prefix, or any other text. */
  datatype RowName = Own(caption: Label) | Foreign(name: string)

  datatype Row = Row(name: RowName, command: string, binding: string)

  /** The rows that have keys set; a row that is reset has none. */
  type Rows = map<Path, Row>

  /** What each label should be bound to; `None` for a cleared or untranslatable accelerator. */
  type Wanted = Label -> Option<Row>

  const LABELS: seq<Label> := ["Toggle popup", "Starred popup", "Paste as plain text"]

  predicate Ours(rows: Rows, p: Path) {
    p in rows && rows[p].name.Own?
  }

  predicate OwnRow(rows: Rows, p: Path, caption: Label) {
    p in rows && rows[p].name == Own(caption)
  }

  function Without(paths: seq<Path>, gone: set<Path>): seq<Path> {
    if paths == [] then
      []
    else
      Without(paths[..|paths| - 1], gone) + (if paths[|paths| - 1] in gone then [] else [paths[|paths| - 1]])
  }

  // ----- the lowest free slot -------------------------------------------------------------------------

  const CUSTOM_PATH_PREFIX := "/org/gnome/settings-daemon/plugins/media-keys/custom-keybindings/"

  function Slot(n: nat): Path {
    CUSTOM_PATH_PREFIX + "custom" + Decimal(n) + "/"
  }

  /** The path of the `n`-th custom keybinding, spelled out. */
  predicate IsSlot(path: Path, n: nat) {
    path == "/org/gnome/settings-daemon/plugins/media-keys/custom-keybindings/custom" + Decimal(n) + "/"
  }

  lemma SlotsDiffer(a: nat, b: nat)
    requires Slot(a) == Slot(b)
    ensures a == b
  {
    var start := CUSTOM_PATH_PREFIX + "custom";
    assert Slot(a)[|start|..][..|Decimal(a)|] == Decimal(a);
    assert Slot(b)[|start|..][..|Decimal(b)|] == Decimal(b);
    assert |Decimal(a)| == |Decimal(b)|;
    DecimalValue(a);
    DecimalValue(b);
  }

  /** All slots below `n` are taken. */
  ghost predicate TakenBelow(paths: seq<Path>, n: nat) {
    forall k: nat | k < n :: Slot(k) in paths
  }

  lemma {:induction false} DistinctSlotsFit(paths: seq<Path>, n: nat)
    requires TakenBelow(paths, n)
    ensures n <= |paths|
  {
    if n > 0 {
      var last := Slot(n - 1);
      var i :| 0 <= i < |paths| && paths[i] == last;
      var rest := paths[..i] + paths[i + 1..];
      forall k: nat | k < n - 1
        ensures Slot(k) in rest
      {
        if Slot(k) == last {
          SlotsDiffer(k, n - 1);
        }
      }
      DistinctSlotsFit(rest, n - 1);
    }
  }

  ghost predicate IsLowestFree(paths: seq<Path>, n: nat) {
    Slot(n) !in paths && TakenBelow(paths, n)
  }

  lemma LowestFreeIsUnique(paths: seq<Path>, a: nat, b: nat)
    requires IsLowestFree(paths, a) && IsLowestFree(paths, b)
    ensures a == b
  {
  }

  lemma {:induction false} SomeSlotIsFree(paths: seq<Path>, n: nat) returns (free: nat)
    requires TakenBelow(paths, n)
    ensures IsLowestFree(paths, free)
    decreases |paths| + 1 - n
  {
    DistinctSlotsFit(paths, n);
    if Slot(n) in paths {
      DistinctSlotsFit(paths, n + 1);
      free := SomeSlotIsFree(paths, n + 1);
    } else {
      free := n;
    }
  }

  /** A list of any length leaves one of its first `|paths| + 1` slots free. */
  ghost function LowestFree(paths: seq<Path>): (n: nat)
    ensures IsLowestFree(paths, n) && n <= |paths|
  {
    var free := FreeSlot(paths);
    DistinctSlotsFit(paths, free);
    free
  }

  ghost function FreeSlot(paths: seq<Path>): (n: nat)
    ensures IsLowestFree(paths, n)
  {
    assert exists n: nat :: IsLowestFree(paths, n) by {
      var free := SomeSlotIsFree(paths, 0);
    }
    var n: nat :| IsLowestFree(paths, n);
    n
  }

  method NextFreePath(paths: seq<Path>) returns (path: Path)
    ensures path == Slot(LowestFree(paths))
    ensures path !in paths && exists n: nat :: IsSlot(path, n) && forall k: nat, p | k < n && IsSlot(p, k) :: p in paths
  {
    var n: nat := 0;
    while Slot(n) in paths
      invariant TakenBelow(paths, n) && n <= |paths|
      decreases |paths| - n
    {
      n := n + 1;
      DistinctSlotsFit(paths, n);
    }
    LowestFreeIsUnique(paths, n, LowestFree(paths));
    path := Slot(n);
    assert IsSlot(path, n) && forall k: nat, p | k < n && IsSlot(p, k) :: p == Slot(k);
  }

  // ----- the reconciliation ---------------------------------------------------------------------------

  /** The shared list, the rows, and our rows of the original list that no label has claimed yet. */
  datatype Sync = Sync(paths: seq<Path>, rows: Rows, owned: map<Label, Path>)

  /** Our rows by caption; a later row with the same label takes its place. */
  function OwnedRows(paths: seq<Path>, rows: Rows): map<Label, Path> {
    if paths == [] then
      map[]
    else
      var last := paths[|paths| - 1];
      var before := OwnedRows(paths[..|paths| - 1], rows);
      if Ours(rows, last) then before[rows[last].name.caption := last] else before
  }

  /** One turn of the loop over the actions. */
  ghost function SyncLabel(s: Sync, caption: Label, wanted: Wanted): Sync {
    match wanted(caption)
    case None =>
      if caption in s.owned then
        Sync(Without(s.paths, {s.owned[caption]}), s.rows - {s.owned[caption]}, s.owned - {caption})
      else
        s
    case Some(row) =>
      if caption in s.owned then
        Sync(s.paths, s.rows[s.owned[caption] := row], s.owned - {caption})
      else
        var path := Slot(LowestFree(s.paths));
        Sync(s.paths + [path], s.rows[path := row], s.owned)
  }

  ghost function SyncLabels(s: Sync, labels: seq<Label>, wanted: Wanted): Sync {
    if labels == [] then s else SyncLabel(SyncLabels(s, labels[..|labels| - 1], wanted), labels[|labels| - 1], wanted)
  }

  /** Rows named like ours that match no action are removed. */
  function RemoveLeftovers(s: Sync): Sync {
    Sync(Without(s.paths, s.owned.Values), s.rows - s.owned.Values, map[])
  }

  ghost function Install(paths: seq<Path>, rows: Rows, labels: seq<Label>, wanted: Wanted): Sync {
    RemoveLeftovers(SyncLabels(Sync(paths, rows, OwnedRows(paths, rows)), labels, wanted))
  }

  /** The settings store. */
  class Gsettings {
    var paths: seq<Path>
    var rows: Rows

    constructor (paths: seq<Path>, rows: Rows)
      ensures this.paths == paths && this.rows == rows
    {
      this.paths := paths;
      this.rows := rows;
    }

    method FindOwned() returns (owned: map<Label, Path>)
      ensures owned == OwnedRows(paths, rows)
    {
      owned := map[];
      for i := 0 to |paths|
        invariant owned == OwnedRows(paths[..i], rows)
      {
        assert paths[..i + 1][..i] == paths[..i];
        if paths[i] in rows && rows[paths[i]].name.Own? {
          owned := owned[rows[paths[i]].name.caption := paths[i]];
        }
      }
      assert paths[..|paths|] == paths;
    }

    /** One turn of the loop over the actions, on the local copies of the list and of our rows. */
    method SyncAction(caption: Label, wanted: Wanted, list: seq<Path>, owned: map<Label, Path>)
      returns (newList: seq<Path>, newOwned: map<Label, Path>, listChanged: bool)
      modifies this`rows
      ensures Sync(newList, rows, newOwned) == SyncLabel(Sync(list, old(rows), owned), caption, wanted)
      ensures !listChanged ==> newList == list
    {
      newList, newOwned, listChanged := list, owned, false;
      match wanted(caption) {
        case None =>
          if caption in owned {
            var path := owned[caption];
            newOwned := owned - {caption};
            newList := Without(list, {path});
            rows := rows - {path};
            listChanged := true;
          }
        case Some(row) =>
          var path;
          if caption in owned {
            path := owned[caption];
            newOwned := owned - {caption};
          } else {
            path := NextFreePath(list);
            newList := list + [path];
            listChanged := true;
          }
          rows := rows[path := row];
      }
    }

    method InstallBindings(wanted: Wanted)
      modifies this
      ensures var after := Install(old(paths), old(rows), LABELS, wanted);
              paths == after.paths && rows == after.rows
      ensures Distinct(old(paths)) && Sensible(wanted) && UniqueLabels(old(paths), old(rows)) ==>
                && Reconciled(paths, rows, ["Toggle popup", "Starred popup", "Paste as plain text"], wanted)
                && OthersKept(Sync(old(paths), old(rows), map[]), Sync(paths, rows, map[]))
    {
      var owned := FindOwned();
      var list := paths;
      ghost var start := Sync(paths, rows, owned);
      var listChanged := false;
      for i := 0 to |LABELS|
        invariant Sync(list, rows, owned) == SyncLabels(start, LABELS[..i], wanted)
        invariant !listChanged ==> list == paths
        invariant paths == old(paths)
      {
        assert LABELS[..i + 1][..i] == LABELS[..i];
        var changed;
        list, owned, changed := SyncAction(LABELS[i], wanted, list, owned);
        listChanged := listChanged || changed;
      }
      assert LABELS[..|LABELS|] == LABELS;
      if owned != map[] {
        list := Without(list, owned.Values);
        rows := rows - owned.Values;
        listChanged := true;
      } else {
        NothingToRemove(list);
        assert owned.Values == {} && rows - {} == rows;
      }
      if listChanged {
        paths := list;
      }
      LabelsInstalled(old(paths), old(rows), wanted);
    }
  }

  lemma LabelsInstalled(paths: seq<Path>, rows: Rows, wanted: Wanted)
    ensures var after := Install(paths, rows, LABELS, wanted);
            Distinct(paths) && Sensible(wanted) && UniqueLabels(paths, rows) ==>
              && Reconciled(after.paths, after.rows, ["Toggle popup", "Starred popup", "Paste as plain text"], wanted)
              && OthersKept(Sync(paths, rows, map[]), Sync(after.paths, after.rows, map[]))
  {
    if Distinct(paths) && Sensible(wanted) && UniqueLabels(paths, rows) {
      assert |LABELS[0]| == 12 && |LABELS[1]| == 13 && |LABELS[2]| == 19;
      InstallReconciles(paths, rows, LABELS, wanted);
      assert LABELS == ["Toggle popup", "Starred popup", "Paste as plain text"];
    }
  }

  lemma {:induction false} NothingToRemove(paths: seq<Path>)
    ensures Without(paths, {}) == paths
  {
    if paths != [] {
      NothingToRemove(paths[..|paths| - 1]);
    }
  }

  // ----- what reconciliation achieves -----------------------------------------------------------------

  /** The rows of other applications, in the order of the list. */
  function Others(paths: seq<Path>, rows: Rows): seq<Path> {
    if paths == [] then
      []
    else
      Others(paths[..|paths| - 1], rows) + (if Ours(rows, paths[|paths| - 1]) then [] else [paths[|paths| - 1]])
  }

  /** No two of our rows carry the same label. */
  ghost predicate UniqueLabels(paths: seq<Path>, rows: Rows) {
    forall p, q, caption | p in paths && q in paths && OwnRow(rows, p, caption) && OwnRow(rows, q, caption) :: p == q
  }

  /** A wanted row carries its label. */
  ghost predicate Sensible(wanted: Wanted) {
    forall caption :: wanted(caption).Some? ==> wanted(caption).value.name == Own(caption)
  }

  /** Exactly one row of ours for every bound label, as wanted, and no other row of ours. */
  ghost predicate Reconciled(paths: seq<Path>, rows: Rows, labels: seq<Label>, wanted: Wanted) {
    && UniqueLabels(paths, rows)
    && (forall caption | caption in labels && wanted(caption).Some? ::
          HasRow(Sync(paths, rows, map[]), wanted(caption).value))
    && (forall p, caption | p in paths && OwnRow(rows, p, caption) :: caption in labels && wanted(caption).Some?)
  }

  lemma {:induction false} WithoutMembers(paths: seq<Path>, gone: set<Path>)
    ensures forall p :: p in Without(paths, gone) <==> p in paths && p !in gone
    ensures Distinct(paths) ==> Distinct(Without(paths, gone))
  {
    if paths != [] {
      WithoutMembers(paths[..|paths| - 1], gone);
    }
  }

  /** The rows claimed so far are our unprocessed rows, by their labels. */
  ghost predicate OwnedOk(s: Sync) {
    forall caption | caption in s.owned :: s.owned[caption] in s.paths && OwnRow(s.rows, s.owned[caption], caption)
  }

  lemma {:induction false} OwnedRowsOk(paths: seq<Path>, rows: Rows)
    ensures OwnedOk(Sync(paths, rows, OwnedRows(paths, rows)))
    ensures forall p, caption | p in paths && OwnRow(rows, p, caption) :: caption in OwnedRows(paths, rows)
  {
    if paths != [] {
      OwnedRowsOk(paths[..|paths| - 1], rows);
    }
  }

  // ----- other applications' rows ---------------------------------------------------------------------

  predicate SameRow(before: Rows, after: Rows, p: Path) {
    (p in before <==> p in after) && (p in before ==> before[p] == after[p])
  }

  /** The rows of other applications keep their order and their contents. */
  ghost predicate OthersKept(before: Sync, after: Sync) {
    && Others(after.paths, after.rows) == Others(before.paths, before.rows)
    && forall p | p in Others(before.paths, before.rows) :: SameRow(before.rows, after.rows, p)
  }

  lemma {:induction false} OthersAreNotOurs(paths: seq<Path>, rows: Rows)
    ensures forall p :: p in Others(paths, rows) <==> p in paths && !Ours(rows, p)
  {
    if paths != [] {
      OthersAreNotOurs(paths[..|paths| - 1], rows);
    }
  }

  lemma {:induction false} OthersAfterRemoval(paths: seq<Path>, rows: Rows, gone: set<Path>)
    requires forall p | p in gone && p in paths :: Ours(rows, p)
    ensures Others(Without(paths, gone), rows - gone) == Others(paths, rows)
  {
    if paths != [] {
      var init, last := paths[..|paths| - 1], paths[|paths| - 1];
      OthersAfterRemoval(init, rows, gone);
      if last in gone {
        assert Without(init, gone) + [] == Without(init, gone);
        assert Others(init, rows) + [] == Others(init, rows);
      } else {
        assert Without(paths, gone)[..|Without(paths, gone)| - 1] == Without(init, gone);
      }
    }
  }

  lemma {:induction false} OthersAfterWrite(paths: seq<Path>, rows: Rows, q: Path, row: Row)
    requires row.name.Own? && (q in paths ==> Ours(rows, q))
    ensures Others(paths, rows[q := row]) == Others(paths, rows)
  {
    if paths != [] {
      OthersAfterWrite(paths[..|paths| - 1], rows, q, row);
    }
  }

  lemma RemovalKeepsOthers(s: Sync, gone: set<Path>, owned: map<Label, Path>)
    requires forall p | p in gone :: p in s.paths && Ours(s.rows, p)
    ensures OthersKept(s, Sync(Without(s.paths, gone), s.rows - gone, owned))
  {
    OthersAfterRemoval(s.paths, s.rows, gone);
    OthersAreNotOurs(s.paths, s.rows);
  }

  lemma WriteKeepsOthers(s: Sync, q: Path, row: Row, owned: map<Label, Path>)
    requires row.name.Own? && (q in s.paths ==> Ours(s.rows, q))
    ensures OthersKept(s, Sync(s.paths, s.rows[q := row], owned))
    ensures q !in s.paths ==> OthersKept(s, Sync(s.paths + [q], s.rows[q := row], owned))
  {
    OthersAfterWrite(s.paths, s.rows, q, row);
    OthersAreNotOurs(s.paths, s.rows);
    assert (s.paths + [q])[..|s.paths|] == s.paths;
  }

  // ----- one turn -------------------------------------------------------------------------------------

  /** Each of our rows in the list is unclaimed, or is what a processed label wants. */
  ghost predicate Accounted(s: Sync, done: seq<Label>, wanted: Wanted) {
    forall p, caption | p in s.paths && OwnRow(s.rows, p, caption) ::
      caption in s.owned || (caption in done && wanted(caption) == Some(s.rows[p]))
  }

  ghost predicate HasRow(s: Sync, row: Row) {
    exists p :: p in s.paths && p in s.rows && s.rows[p] == row
  }

  ghost predicate Bound(s: Sync, done: seq<Label>, wanted: Wanted) {
    forall caption | caption in done && wanted(caption).Some? :: HasRow(s, wanted(caption).value)
  }

  ghost predicate Unclaimed(s: Sync, done: seq<Label>) {
    forall caption | caption in done :: caption !in s.owned
  }

  ghost predicate Progress(s: Sync, done: seq<Label>, wanted: Wanted) {
    && Distinct(s.paths)
    && OwnedOk(s)
    && UniqueLabels(s.paths, s.rows)
    && Accounted(s, done, wanted)
    && Unclaimed(s, done)
    && Bound(s, done, wanted)
  }

  lemma FewerRowsStayUnique(s: Sync, t: Sync)
    requires UniqueLabels(s.paths, s.rows)
    requires forall p, caption | p in t.paths && OwnRow(t.rows, p, caption) ::
               p in s.paths && OwnRow(s.rows, p, caption)
    ensures UniqueLabels(t.paths, t.rows)
  {
  }

  lemma DropAccounts(s: Sync, done: seq<Label>, caption: Label, wanted: Wanted)
    requires Progress(s, done, wanted) && caption in s.owned && wanted(caption).None?
    ensures var after := SyncLabel(s, caption, wanted);
            && Distinct(after.paths) && UniqueLabels(after.paths, after.rows)
            && Accounted(after, done + [caption], wanted)
  {
    var q := s.owned[caption];
    var after := SyncLabel(s, caption, wanted);
    WithoutMembers(s.paths, {q});
    assert forall p, c | p in after.paths && OwnRow(after.rows, p, c) :: p in s.paths && OwnRow(s.rows, p, c);
    FewerRowsStayUnique(s, after);
    forall p, c | p in after.paths && OwnRow(after.rows, p, c)
      ensures c in after.owned || (c in done + [caption] && wanted(c) == Some(after.rows[p]))
    {
      assert OwnRow(s.rows, p, c) && OwnRow(s.rows, q, caption);
      assert c != caption;
    }
  }

  lemma DropTurn(s: Sync, done: seq<Label>, caption: Label, wanted: Wanted)
    requires Progress(s, done, wanted) && Sensible(wanted) && caption in s.owned && wanted(caption).None?
    ensures Progress(SyncLabel(s, caption, wanted), done + [caption], wanted)
    ensures OthersKept(s, SyncLabel(s, caption, wanted))
  {
    var q := s.owned[caption];
    var after := SyncLabel(s, caption, wanted);
    DropAccounts(s, done, caption, wanted);
    WithoutMembers(s.paths, {q});
    RemovalKeepsOthers(s, {q}, s.owned - {caption});
    forall other | other in done + [caption] && wanted(other).Some?
      ensures HasRow(after, wanted(other).value)
    {
      assert HasRow(s, wanted(other).value);
      var p :| p in s.paths && p in s.rows && s.rows[p] == wanted(other).value;
      assert OwnRow(s.rows, p, other);
      assert p in after.paths && after.rows[p] == wanted(other).value;
    }
    forall c | c in after.owned
      ensures after.owned[c] in after.paths && OwnRow(after.rows, after.owned[c], c)
    {
      assert c in s.owned && OwnRow(s.rows, s.owned[c], c);
    }
  }

  lemma ClaimTurn(s: Sync, done: seq<Label>, caption: Label, wanted: Wanted)
    requires Progress(s, done, wanted) && Sensible(wanted) && caption in s.owned && wanted(caption).Some?
    ensures Progress(SyncLabel(s, caption, wanted), done + [caption], wanted)
    ensures OthersKept(s, SyncLabel(s, caption, wanted))
  {
    var q := s.owned[caption];
    var after := SyncLabel(s, caption, wanted);
    WriteKeepsOthers(s, q, wanted(caption).value, s.owned - {caption});
    assert forall p, c | p in after.paths && OwnRow(after.rows, p, c) :: p in s.paths && OwnRow(s.rows, p, c);
    FewerRowsStayUnique(s, after);
    forall other | other in done + [caption] && wanted(other).Some?
      ensures HasRow(after, wanted(other).value)
    {
      if other == caption {
        assert q in after.paths && after.rows[q] == wanted(caption).value;
      } else {
        assert HasRow(s, wanted(other).value);
        var p :| p in s.paths && p in s.rows && s.rows[p] == wanted(other).value;
        assert OwnRow(s.rows, p, other);
        assert p in after.paths && after.rows[p] == wanted(other).value;
      }
    }
  }

  lemma AddAccounts(s: Sync, done: seq<Label>, caption: Label, wanted: Wanted)
    requires Progress(s, done, wanted) && Sensible(wanted)
    requires caption !in s.owned && caption !in done && wanted(caption).Some?
    ensures var after := SyncLabel(s, caption, wanted);
            && Distinct(after.paths) && UniqueLabels(after.paths, after.rows)
            && Accounted(after, done + [caption], wanted)
  {
    var q := Slot(LowestFree(s.paths));
    var after := SyncLabel(s, caption, wanted);
    forall p, c | p in after.paths && OwnRow(after.rows, p, c)
      ensures (p == q && c == caption) || (p in s.paths && OwnRow(s.rows, p, c) && c != caption)
    {
      if p != q {
        assert OwnRow(s.rows, p, c);
      }
    }
    forall p, c | p in after.paths && OwnRow(after.rows, p, c)
      ensures c in after.owned || (c in done + [caption] && wanted(c) == Some(after.rows[p]))
    {
      if p != q {
        assert OwnRow(s.rows, p, c);
      }
    }
  }

  lemma AddTurn(s: Sync, done: seq<Label>, caption: Label, wanted: Wanted)
    requires Progress(s, done, wanted) && Sensible(wanted)
    requires caption !in s.owned && caption !in done && wanted(caption).Some?
    ensures Progress(SyncLabel(s, caption, wanted), done + [caption], wanted)
    ensures OthersKept(s, SyncLabel(s, caption, wanted))
  {
    var q := Slot(LowestFree(s.paths));
    var after := SyncLabel(s, caption, wanted);
    AddAccounts(s, done, caption, wanted);
    WriteKeepsOthers(s, q, wanted(caption).value, s.owned);
    forall other | other in done + [caption] && wanted(other).Some?
      ensures HasRow(after, wanted(other).value)
    {
      if other == caption {
        assert q in after.paths && after.rows[q] == wanted(caption).value;
      } else {
        assert HasRow(s, wanted(other).value);
        var p :| p in s.paths && p in s.rows && s.rows[p] == wanted(other).value;
        assert p in after.paths && after.rows[p] == wanted(other).value;
      }
    }
  }

  lemma Turn(s: Sync, done: seq<Label>, caption: Label, wanted: Wanted)
    requires Progress(s, done, wanted) && Sensible(wanted) && caption !in done
    ensures Progress(SyncLabel(s, caption, wanted), done + [caption], wanted)
    ensures OthersKept(s, SyncLabel(s, caption, wanted))
  {
    if caption in s.owned {
      if wanted(caption).None? {
        DropTurn(s, done, caption, wanted);
      } else {
        ClaimTurn(s, done, caption, wanted);
      }
    } else if wanted(caption).Some? {
      AddTurn(s, done, caption, wanted);
    }
  }

  lemma {:induction false} Turns(s: Sync, labels: seq<Label>, wanted: Wanted)
    requires Progress(s, [], wanted) && Sensible(wanted) && Distinct(labels)
    ensures Progress(SyncLabels(s, labels, wanted), labels, wanted)
    ensures OthersKept(s, SyncLabels(s, labels, wanted))
  {
    if labels != [] {
      var init, last := labels[..|labels| - 1], labels[|labels| - 1];
      assert labels == init + [last] && last !in init;
      Turns(s, init, wanted);
      Turn(SyncLabels(s, init, wanted), init, last, wanted);
    }
  }

  // ----- the whole run --------------------------------------------------------------------------------

  lemma LeftoversLeave(s: Sync, labels: seq<Label>, wanted: Wanted)
    requires Progress(s, labels, wanted) && Sensible(wanted)
    ensures var after := RemoveLeftovers(s);
            Distinct(after.paths) && Reconciled(after.paths, after.rows, labels, wanted) && OthersKept(s, after)
  {
    var after := RemoveLeftovers(s);
    WithoutMembers(s.paths, s.owned.Values);
    RemovalKeepsOthers(s, s.owned.Values, map[]);
    forall p, c | p in after.paths && OwnRow(after.rows, p, c)
      ensures p in s.paths && OwnRow(s.rows, p, c) && c !in s.owned
    {
      assert OwnRow(s.rows, p, c);
    }
    FewerRowsStayUnique(s, after);
    forall c | c in labels && wanted(c).Some?
      ensures HasRow(Sync(after.paths, after.rows, map[]), wanted(c).value)
    {
      assert HasRow(s, wanted(c).value);
      var p :| p in s.paths && p in s.rows && s.rows[p] == wanted(c).value;
      assert OwnRow(s.rows, p, c);
      assert p in after.paths && after.rows[p] == wanted(c).value;
    }
  }

  lemma ThenOthersKept(a: Sync, b: Sync, c: Sync)
    requires OthersKept(a, b) && OthersKept(b, c)
    ensures OthersKept(a, c)
  {
  }

  /** Exactly one row for every bound action, none besides, and nobody else's row touched or moved. */
  lemma InstallReconciles(paths: seq<Path>, rows: Rows, labels: seq<Label>, wanted: Wanted)
    requires Distinct(paths) && Distinct(labels) && Sensible(wanted) && UniqueLabels(paths, rows)
    ensures var after := Install(paths, rows, labels, wanted);
            && Distinct(after.paths)
            && Reconciled(after.paths, after.rows, labels, wanted)
            && OthersKept(Sync(paths, rows, map[]), after)
  {
    var start := Sync(paths, rows, OwnedRows(paths, rows));
    OwnedRowsOk(paths, rows);
    Turns(start, labels, wanted);
    var done := SyncLabels(start, labels, wanted);
    LeftoversLeave(done, labels, wanted);
    ThenOthersKept(start, done, RemoveLeftovers(done));
  }

  // ----- two rows with one label ----------------------------------------------------------------------

  /** `r` is a row of ours that nothing will claim; `w` is the one its label stands for. */
  ghost predicate Shadowed(s: Sync, caption: Label, r: Path, w: Path) {
    && OwnedOk(s)
    && r != w && r in s.paths && OwnRow(s.rows, r, caption) && r !in s.owned.Values
    && (caption in s.owned ==> s.owned[caption] == w)
  }

  lemma ShadowStays(s: Sync, caption: Label, r: Path, w: Path, turn: Label, wanted: Wanted)
    requires Shadowed(s, caption, r, w) && Sensible(wanted)
    ensures Shadowed(SyncLabel(s, turn, wanted), caption, r, w)
  {
    var after := SyncLabel(s, turn, wanted);
    if turn in s.owned {
      WithoutMembers(s.paths, {s.owned[turn]});
      assert s.owned[turn] in s.owned.Values;
      forall c | c in after.owned
        ensures after.owned[c] in after.paths && OwnRow(after.rows, after.owned[c], c)
      {
        assert OwnRow(s.rows, s.owned[c], c) && OwnRow(s.rows, s.owned[turn], turn);
      }
    }
  }

  lemma {:induction false} ShadowStaysThroughout(s: Sync, caption: Label, r: Path, w: Path, labels: seq<Label>,
                                                 wanted: Wanted)
    requires Shadowed(s, caption, r, w) && Sensible(wanted)
    ensures Shadowed(SyncLabels(s, labels, wanted), caption, r, w)
  {
    if labels != [] {
      var init := labels[..|labels| - 1];
      ShadowStaysThroughout(s, caption, r, w, init, wanted);
      ShadowStays(SyncLabels(s, init, wanted), caption, r, w, labels[|labels| - 1], wanted);
    }
  }

  /** `w` is claimed by its label, or was claimed and is bound. */
  ghost predicate Standing(s: Sync, caption: Label, w: Path) {
    && OwnedOk(s)
    && w in s.paths && OwnRow(s.rows, w, caption)
    && (if caption in s.owned then s.owned[caption] == w else w !in s.owned.Values)
  }

  lemma StandingStays(s: Sync, caption: Label, w: Path, turn: Label, wanted: Wanted)
    requires Standing(s, caption, w) && Sensible(wanted) && wanted(caption).Some?
    ensures Standing(SyncLabel(s, turn, wanted), caption, w)
  {
    var after := SyncLabel(s, turn, wanted);
    if turn in s.owned {
      WithoutMembers(s.paths, {s.owned[turn]});
      assert OwnRow(s.rows, s.owned[turn], turn);
      forall c | c in after.owned
        ensures after.owned[c] in after.paths && OwnRow(after.rows, after.owned[c], c)
      {
        assert OwnRow(s.rows, s.owned[c], c);
      }
    }
  }

  lemma {:induction false} StandingStaysThroughout(s: Sync, caption: Label, w: Path, labels: seq<Label>, wanted: Wanted)
    requires Standing(s, caption, w) && Sensible(wanted) && wanted(caption).Some?
    ensures Standing(SyncLabels(s, labels, wanted), caption, w)
  {
    if labels != [] {
      var init := labels[..|labels| - 1];
      StandingStaysThroughout(s, caption, w, init, wanted);
      StandingStays(SyncLabels(s, init, wanted), caption, w, labels[|labels| - 1], wanted);
    }
  }

  lemma {:induction false} BoundIsClaimed(s: Sync, labels: seq<Label>, wanted: Wanted)
    ensures forall c | c in SyncLabels(s, labels, wanted).owned :: c !in labels
  {
    if labels != [] {
      BoundIsClaimed(s, labels[..|labels| - 1], wanted);
    }
  }

  /** With two rows of one label, both or the wrong one stay. */
  lemma DuplicatesRemain(paths: seq<Path>, rows: Rows, labels: seq<Label>, wanted: Wanted)
    requires Sensible(wanted) && !UniqueLabels(paths, rows)
    ensures var after := Install(paths, rows, labels, wanted); !Reconciled(after.paths, after.rows, labels, wanted)
  {
    var start := Sync(paths, rows, OwnedRows(paths, rows));
    OwnedRowsOk(paths, rows);
    var p, q, caption :| p in paths && q in paths && OwnRow(rows, p, caption) && OwnRow(rows, q, caption) && p != q;
    var w := start.owned[caption];
    var r := if p == w then q else p;
    ShadowStaysThroughout(start, caption, r, w, labels, wanted);
    var done := SyncLabels(start, labels, wanted);
    var after := RemoveLeftovers(done);
    WithoutMembers(done.paths, done.owned.Values);
    BoundIsClaimed(start, labels, wanted);
    assert r in after.paths && OwnRow(after.rows, r, caption);
    if caption in labels && wanted(caption).Some? {
      StandingStaysThroughout(start, caption, w, labels, wanted);
      assert w in after.paths && OwnRow(after.rows, w, caption);
    }
  }

  /** Reconciliation succeeds exactly when no two of our rows carry one label. */
  lemma InstallReconcilesExactly(paths: seq<Path>, rows: Rows, labels: seq<Label>, wanted: Wanted)
    requires Distinct(paths) && Distinct(labels) && Sensible(wanted)
    ensures var after := Install(paths, rows, labels, wanted);
            Reconciled(after.paths, after.rows, labels, wanted) <==> UniqueLabels(paths, rows)
  {
    if UniqueLabels(paths, rows) {
      InstallReconciles(paths, rows, labels, wanted);
    } else {
      DuplicatesRemain(paths, rows, labels, wanted);
    }
  }

  // ----- a repeat run ---------------------------------------------------------------------------------

  lemma StableTurn(s: Sync, caption: Label, labels: seq<Label>, wanted: Wanted)
    requires Reconciled(s.paths, s.rows, labels, wanted) && Sensible(wanted) && OwnedOk(s)
    requires caption in labels && (wanted(caption).Some? <==> caption in s.owned)
    ensures SyncLabel(s, caption, wanted) == Sync(s.paths, s.rows, s.owned - {caption})
  {
    if wanted(caption).Some? {
      assert HasRow(Sync(s.paths, s.rows, map[]), wanted(caption).value);
      var p :| p in s.paths && p in s.rows && s.rows[p] == wanted(caption).value;
      assert OwnRow(s.rows, p, caption) && OwnRow(s.rows, s.owned[caption], caption);
      assert s.rows[p := s.rows[p]] == s.rows;
    } else {
      assert s.owned - {caption} == s.owned;
    }
  }

  lemma {:induction false} StableTurns(s: Sync, done: seq<Label>, labels: seq<Label>, wanted: Wanted)
    requires Reconciled(s.paths, s.rows, labels, wanted) && Sensible(wanted) && OwnedOk(s)
    requires Distinct(done) && forall c | c in done :: c in labels && (wanted(c).Some? <==> c in s.owned)
    ensures SyncLabels(s, done, wanted) == Sync(s.paths, s.rows, s.owned - (set c | c in done))
  {
    if done == [] {
      assert s.owned - (set c | c in done) == s.owned;
    } else {
      var init, last := done[..|done| - 1], done[|done| - 1];
      assert done == init + [last] && last !in init;
      StableTurns(s, init, labels, wanted);
      var before := SyncLabels(s, init, wanted);
      StableTurn(before, last, labels, wanted);
      assert before.owned - {last} == s.owned - (set c | c in done);
    }
  }

  /** Installing again over a reconciled list changes neither the list nor a row. */
  lemma InstallIsIdempotent(paths: seq<Path>, rows: Rows, labels: seq<Label>, wanted: Wanted)
    requires Distinct(labels) && Sensible(wanted) && Reconciled(paths, rows, labels, wanted)
    ensures Install(paths, rows, labels, wanted) == Sync(paths, rows, map[])
  {
    var start := Sync(paths, rows, OwnedRows(paths, rows));
    OwnedRowsOk(paths, rows);
    forall c | c in labels
      ensures wanted(c).Some? <==> c in start.owned
    {
      if wanted(c).Some? {
        assert HasRow(Sync(paths, rows, map[]), wanted(c).value);
        var p :| p in paths && p in rows && rows[p] == wanted(c).value;
        assert OwnRow(rows, p, c);
      }
    }
    forall c | c in start.owned
      ensures c in labels
    {
      assert OwnRow(rows, start.owned[c], c);
    }
    StableTurns(start, labels, labels, wanted);
    assert start.owned - (set c | c in labels) == map[];
    NothingToRemove(paths);
    var none: map<Label, Path> := map[];
    assert none.Values == {} && rows - {} == rows;
  }

  // ----- removal --------------------------------------------------------------------------------------

  /** The listed paths that are ours. */
  function OwnPaths(paths: seq<Path>, rows: Rows): set<Path> {
    set p | p in paths && Ours(rows, p)
  }

  /** Each listed row is looked up when its turn comes, and reset if it is ours by then. */
  function RemoveOwn(paths: seq<Path>, rows: Rows): (seq<Path>, Rows) {
    if paths == [] then
      ([], rows)
    else
      var (kept, left) := RemoveOwn(paths[..|paths| - 1], rows);
      var last := paths[|paths| - 1];
      if Ours(left, last) then (kept, left - {last}) else (kept + [last], left)
  }

  /** Removal leaves the other applications' rows, in order, and resets every row of ours. */
  lemma {:induction false} RemovalLeavesTheOthers(paths: seq<Path>, rows: Rows)
    requires Distinct(paths)
    ensures RemoveOwn(paths, rows).0 == Others(paths, rows)
    ensures RemoveOwn(paths, rows).1 == rows - OwnPaths(paths, rows)
  {
    if paths == [] {
      assert rows - {} == rows;
    } else {
      var init, last := paths[..|paths| - 1], paths[|paths| - 1];
      assert paths == init + [last] && last !in init;
      RemovalLeavesTheOthers(init, rows);
      assert last !in OwnPaths(init, rows);
      assert Ours(rows - OwnPaths(init, rows), last) <==> Ours(rows, last);
      assert OwnPaths(paths, rows) == OwnPaths(init, rows) + (if Ours(rows, last) then {last} else {});
      assert Others(init, rows) + [] == Others(init, rows);
      assert rows - OwnPaths(paths, rows)
          == if Ours(rows, last) then rows - OwnPaths(init, rows) - {last} else rows - OwnPaths(init, rows);
    }
  }

  lemma {:induction false} NothingOwnRemoved(paths: seq<Path>, rows: Rows)
    requires RemoveOwn(paths, rows).1 == rows
    ensures RemoveOwn(paths, rows).0 == paths
  {
    if paths != [] {
      var (kept, left) := RemoveOwn(paths[..|paths| - 1], rows);
      RowsOnlyLeave(paths[..|paths| - 1], rows);
      assert left == rows;
      NothingOwnRemoved(paths[..|paths| - 1], rows);
    }
  }

  lemma {:induction false} RowsOnlyLeave(paths: seq<Path>, rows: Rows)
    ensures RemoveOwn(paths, rows).1.Keys <= rows.Keys
    ensures RemoveOwn(paths, rows).1.Keys == rows.Keys ==> RemoveOwn(paths, rows).1 == rows
  {
    if paths != [] {
      RowsOnlyLeave(paths[..|paths| - 1], rows);
    }
  }

  method RemoveBindings(store: Gsettings) returns (removed: bool)
    modifies store
    ensures (store.paths, store.rows) == RemoveOwn(old(store.paths), old(store.rows))
    ensures removed <==> store.rows != old(store.rows)
  {
    var paths := store.paths;
    ghost var rows := store.rows;
    var kept := [];
    removed := false;
    for i := 0 to |paths|
      invariant (kept, store.rows) == RemoveOwn(paths[..i], rows)
      invariant store.paths == paths
      invariant removed <==> store.rows != rows
    {
      assert paths[..i + 1][..i] == paths[..i];
      RowsOnlyLeave(paths[..i], rows);
      if paths[i] in store.rows && store.rows[paths[i]].name.Own? {
        store.rows := store.rows - {paths[i]};
        removed := true;
      } else {
        kept := kept + [paths[i]];
      }
    }
    assert paths[..|paths|] == paths;
    if removed {
      store.paths := kept;
    } else {
      NothingOwnRemoved(paths, rows);
    }
  }
}
