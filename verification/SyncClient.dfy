/**
 The device side as the program runs it: `LocalStorage` updates its table in place, and `SyncClient` walks the
 server's history page by page. Each method is tied to the function of the same step in `DeviceTable` and
 `SyncProtocol`.
 */
module SyncClient {
  import opened Options
  import opened ServerTable
  import opened SyncProtocol
  import opened SyncInvariants
  import opened SyncCoverage
  import D = DeviceTable

  class LocalStorage {
    var rows: D.LocalRows
    var watermark: Option<Key>

    constructor ()
      ensures rows == map[] && watermark == None
    {
      rows := map[];
      watermark := None;
    }

    method FindByHash(hash: Hash) returns (found: Option<Id>)
      requires D.HashUnique(rows)
      ensures found == D.Find(rows, hash)
    {
      if id :| id in rows && rows[id].hash == hash {
        found := Some(id);
      } else {
        found := None;
      }
    }

    /** Returns the id of a new row, or `None` when the content was known and only moved to the top. */
    method InsertEntry(hash: Hash, newId: Id, now: nat) returns (inserted: Option<Id>)
      requires D.HashUnique(rows) && newId !in rows
      modifies this`rows
      ensures rows == D.Capture(old(rows), hash, newId, now)
      ensures inserted == if D.Find(old(rows), hash).Some? then None else Some(newId)
      ensures D.HashUnique(rows)
      // known content gets the new time, other content a row of its own that waits in the outbox
      ensures forall id | id in old(rows) :: id in rows
                && rows[id] == if old(rows)[id].hash == hash then old(rows)[id].(updated := now) else old(rows)[id]
      ensures inserted.Some? <==> forall id | id in old(rows) :: old(rows)[id].hash != hash
      ensures rows.Keys == old(rows).Keys + if inserted.Some? then {newId} else {}
      ensures inserted.Some? ==> inserted.value == newId && rows[newId] == D.LocalRow(hash, false, false, now)
    {
      var existing := FindByHash(hash);
      if existing.Some? {
        rows := rows[existing.value := rows[existing.value].(updated := now)];
        return None;
      }
      rows := rows[newId := D.LocalRow(hash, false, false, now)];
      inserted := Some(newId);
    }

    method ToggleStar(id: Id, now: nat) returns (starred: Option<bool>)
      modifies this`rows
      ensures id in old(rows) ==> rows == D.Toggle(old(rows), id, now) && starred == Some(rows[id].starred)
      ensures id !in old(rows) ==> rows == old(rows) && starred == None
      // the star is flipped, and the row waits in the outbox with the new time
      ensures id in old(rows) ==>
                && starred == Some(!old(rows)[id].starred)
                && rows == old(rows)[id := D.LocalRow(old(rows)[id].hash, !old(rows)[id].starred, false, now)]
    {
      if id !in rows {
        return None;
      }
      var newValue := !rows[id].starred;
      rows := rows[id := rows[id].(starred := newValue, synced := false, updated := now)];
      starred := Some(newValue);
    }

    /** Acknowledge a push, unless the row changed while it was in flight. */
    method MarkSyncedIfUnchanged(id: Id, pushedUpdated: nat) returns (marked: bool)
      modifies this`rows
      ensures rows == D.MarkSynced(old(rows), id, pushedUpdated)
      ensures marked <==> id in old(rows) && old(rows)[id].updated == pushedUpdated
      ensures rows == if marked then old(rows)[id := old(rows)[id].(synced := true)] else old(rows)
    {
      if id !in rows || rows[id].updated != pushedUpdated {
        return false;
      }
      rows := rows[id := rows[id].(synced := true)];
      marked := true;
    }

    method ApplyRemoteStar(hash: Hash, starred: bool, now: nat) returns (changed: bool)
      requires D.HashUnique(rows)
      modifies this`rows
      ensures rows == D.ApplyRemoteStar(old(rows), hash, starred, now)
      ensures D.HashUnique(rows)
      ensures changed <==> rows != old(rows)
      // only a synced row with this content takes the star over
      ensures rows.Keys == old(rows).Keys
      ensures forall id | id in old(rows) ::
                rows[id] == if old(rows)[id].hash == hash && old(rows)[id].synced && old(rows)[id].starred != starred
                            then D.LocalRow(hash, starred, true, now) else old(rows)[id]
    {
      var existing := FindByHash(hash);
      if existing.None? {
        return false;
      }
      var row := rows[existing.value];
      if !row.synced || row.starred == starred {
        return false;
      }
      rows := rows[existing.value := row.(starred := starred, updated := now)];
      changed := true;
    }

    method InsertRemoteEntry(key: Key, hash: Hash, starred: bool) returns (created: bool)
      requires D.HashUnique(rows)
      modifies this`rows
      ensures rows == D.InsertRemote(old(rows), key, hash, starred)
      ensures D.HashUnique(rows)
      ensures created <==> rows != old(rows)
      ensures created <==> key.id !in old(rows) && forall id | id in old(rows) :: old(rows)[id].hash != hash
      ensures rows == if created then old(rows)[key.id := D.LocalRow(hash, starred, true, key.instant)] else old(rows)
    {
      var existing := FindByHash(hash);
      if existing.Some? || key.id in rows {
        return false;
      }
      rows := rows[key.id := D.LocalRow(hash, starred, true, key.instant)];
      created := true;
    }

    method DeleteEntry(id: Id) returns (deleted: bool)
      modifies this`rows
      ensures rows == old(rows) - {id} && deleted == (id in old(rows))
    {
      deleted := id in rows;
      rows := rows - {id};
    }
  }

  /** How one ingestion ended: whether the list changed, or a transient error. */
  datatype IngestResult = Applied(changed: bool) | TransientError

  /**
   What the outside world answers during one pull: the server as it stands when it serves the n-th page request,
   whether that request gets through, and for the n-th ingestion the blob download and the clock.
   */
  datatype Answers = Answers(server: nat -> Server, reachable: nat -> bool, blob: nat -> D.BlobAnswer, now: nat -> nat)

  /** The server's table is sound, and until the next request other clients only move entries up or delete them. */
  ghost predicate PlausibleAt(answers: Answers, n: nat) {
    var s := answers.server(n);
    && KeyedById(s.rows)
    && HashUnique(s.rows)
    && (forall id | id in s.rows :: s.rows[id].key.Le(s.top))
    && OnlyMovesUp(s, answers.server(n + 1))
  }

  ghost predicate Plausible(answers: Answers) {
    forall n: nat :: PlausibleAt(answers, n)
  }

  /** The local table after some ingestions, whether one of them failed, and how many changed the table. */
  datatype Ingestion = Ingestion(rows: D.LocalRows, failed: bool, changes: nat)

  function StartingFrom(rows: D.LocalRows): Ingestion {
    Ingestion(rows, false, 0)
  }

  /** One more entry handed to ingestion. */
  ghost function IngestOne(before: Ingestion, remote: Row, answer: D.BlobAnswer, now: nat): Ingestion {
    match D.Ingest(before.rows, remote, answer, now)
    case Done(after) => before.(rows := after, changes := before.changes + if after != before.rows then 1 else 0)
    case Failed => before.(failed := true)
  }

  /** Handing `visited` to ingestion in order. */
  ghost function IngestAll(rows: D.LocalRows, visited: seq<Row>, answers: Answers): Ingestion
    decreases |visited|
  {
    if visited == [] then
      StartingFrom(rows)
    else
      var n := |visited| - 1;
      IngestOne(IngestAll(rows, visited[..n], answers), visited[n], answers.blob(n), answers.now(n))
  }

  /** The content of an entry, or its id, is in the table, unless the entry was to be skipped. */
  ghost predicate IsPresent(rows: D.LocalRows, remote: Row, answer: D.BlobAnswer) {
    var content := D.ContentOf(remote, answer);
    D.Skips(remote, answer) || (content.Some? && D.Knows(rows, content.value)) || remote.key.id in rows
  }

  lemma {:induction false} VisitedIsPresent(rows: D.LocalRows, visited: seq<Row>, answers: Answers)
    requires D.HashUnique(rows) && !IngestAll(rows, visited, answers).failed
    ensures D.HashUnique(IngestAll(rows, visited, answers).rows)
    ensures forall k | 0 <= k < |visited| ::
              IsPresent(IngestAll(rows, visited, answers).rows, visited[k], answers.blob(k))
    decreases |visited|
  {
    if visited != [] {
      var n := |visited| - 1;
      var before := IngestAll(rows, visited[..n], answers);
      VisitedIsPresent(rows, visited[..n], answers);
      IngestedIsPresent(before.rows, visited[n], answers.blob(n), answers.now(n));
      var after := IngestAll(rows, visited, answers).rows;
      forall k | 0 <= k < n
        ensures IsPresent(after, visited[k], answers.blob(k))
      {
        assert visited[..n][k] == visited[k];
        StaysPresent(before.rows, after, visited[n].key, visited[k], answers.blob(k));
      }
    }
  }

  lemma IngestedIsPresent(rows: D.LocalRows, remote: Row, answer: D.BlobAnswer, now: nat)
    requires D.HashUnique(rows) && D.Ingest(rows, remote, answer, now).Done?
    ensures var after := D.Ingest(rows, remote, answer, now).rows;
            && D.HashUnique(after) && D.OnlyTakesOver(rows, remote.key, after)
            && IsPresent(after, remote, answer)
  {
    var after := D.Ingest(rows, remote, answer, now).rows;
    D.IngestOnlyTakesOver(rows, remote, D.Knows(rows, remote.hash), answer, now);
    var content := D.ContentOf(remote, answer);
    if content.Some? && !D.Skips(remote, answer) && remote.key.id !in after {
      assert D.Knows(rows, content.value);
      var id :| id in rows && rows[id].hash == content.value;
      assert id in after && after[id].hash == content.value;
    }
  }

  lemma StaysPresent(rows: D.LocalRows, after: D.LocalRows, key: Key, remote: Row, answer: D.BlobAnswer)
    requires D.OnlyTakesOver(rows, key, after) && IsPresent(rows, remote, answer)
    ensures IsPresent(after, remote, answer)
  {
    var content := D.ContentOf(remote, answer);
    if content.Some? && D.Knows(rows, content.value) {
      var id :| id in rows && rows[id].hash == content.value;
      assert id in after && after[id].hash == content.value;
    }
  }

  /** The entries a pull is for: those above the old watermark. */
  predicate Wanted(watermark: Option<Key>, key: Key) {
    watermark.None? || watermark.value.Lt(key)
  }

  ghost predicate Descending(rows: seq<Row>) {
    forall i, j | 0 <= i < j < |rows| :: rows[j].key.Lt(rows[i].key)
  }

  // ----- the walk shrinks -----------------------------------------------------------------------

  /** Every page leaves strictly fewer rows under the cursor, whatever other clients write meanwhile. */
  lemma CursorShrinks(before: Server, after: Server, cursor: Option<Key>, low: Row)
    requires OnlyMovesUp(before, after)
    requires low.key.id in before.rows && before.rows[low.key.id] == low && Within(cursor, low.key)
    requires low.key.Le(before.top)
    requires KeyedById(before.rows)
    ensures |Below(after.rows, Some(low.key))| < |Below(before.rows, cursor)|
  {
    var fewer := Below(after.rows, Some(low.key));
    var more := Below(before.rows, cursor);
    assert fewer <= more - {low.key.id};
    ProperSubsetIsSmaller(fewer, more, low.key.id);
  }

  lemma ProperSubsetIsSmaller(a: set<nat>, b: set<nat>, x: nat)
    requires a <= b - {x} && x in b
    ensures |a| < |b|
  {
    assert b - {x} == a + (b - {x} - a);
  }

  // ----- list_entries ---------------------------------------------------------------------------

  method Newest(rows: Rows, ids: set<Id>) returns (newest: Id)
    requires ids != {} && ids <= rows.Keys && KeyedById(rows)
    ensures newest in ids
    ensures forall id | id in ids && id != newest :: rows[id].key.Lt(rows[newest].key)
  {
    newest :| newest in ids;
    var left := ids - {newest};
    while left != {}
      invariant left <= ids && newest in ids - left
      invariant forall id | id in ids - left && id != newest :: rows[id].key.Lt(rows[newest].key)
      decreases left
    {
      var id :| id in left;
      if rows[newest].key.Lt(rows[id].key) {
        newest := id;
      }
      left := left - {id};
    }
  }

  /** `list_entries` for a sync client: one page and the number of rows below the cursor. */
  method ListEntries(rows: Rows, before: Option<Key>, limit: nat) returns (page: seq<Row>, total: nat)
    requires KeyedById(rows)
    ensures IsPage(rows, before, limit, page)
    ensures total == |Below(rows, before)|
  {
    var below := Below(rows, before);
    total := |below|;
    page := [];
    var left := below;
    while |page| < limit && left != {}
      invariant left <= below
      invariant |page| <= limit && |page| + |left| == |below|
      invariant Descending(page)
      invariant forall r | r in page :: r.key.id in below - left && rows[r.key.id] == r
      invariant forall id | id in below - left :: rows[id] in page
      invariant forall id, i | id in left && 0 <= i < |page| :: rows[id].key.Lt(page[i].key)
    {
      var id := Newest(rows, left);
      page := page + [rows[id]];
      left := left - {id};
    }
  }

  // ----- pull_new_entries -----------------------------------------------------------------------

  /** Every row the server held all along. */
  ghost predicate Unchanging(answers: Answers) {
    forall n: nat :: answers.server(n) == answers.server(0)
  }

  function VisitsOf(sid: Sid, visited: seq<Row>): set<Visit> {
    set r | r in visited :: Visit(sid, r.key)
  }

  lemma MoreVisited(sid: Sid, visited: seq<Row>, more: seq<Row>)
    ensures VisitsOf(sid, visited) <= VisitsOf(sid, visited + more)
    ensures forall j | 0 <= j < |more| :: Visit(sid, more[j].key) in VisitsOf(sid, visited + more)
  {
    forall j | 0 <= j < |more|
      ensures Visit(sid, more[j].key) in VisitsOf(sid, visited + more)
    {
      assert (visited + more)[|visited| + j] == more[j];
    }
  }

  /** Ingesting one more entry extends the run; an earlier failure is remembered. */
  lemma IngestOneMore(rows0: D.LocalRows, visited: seq<Row>, answers: Answers, before: Ingestion, row: Row,
                      alone: Ingestion)
    requires IngestAll(rows0, visited, answers) == before
    requires IngestOne(StartingFrom(before.rows), row, answers.blob(|visited|), answers.now(|visited|)) == alone
    ensures IngestAll(rows0, visited + [row], answers)
         == Ingestion(alone.rows, before.failed || alone.failed, before.changes + alone.changes)
  {
    assert (visited + [row])[..|visited|] == visited;
  }

  /** A page is done with: every entry of it visited, or the rest at or below the watermark. */
  lemma PageDone(s: Server, walk: Walk, page: seq<Row>, count: nat, hasMore: bool, top: Key, handled: set<Visit>,
                 handled': set<Visit>)
    requires page != [] && Descending(page) && count <= |page|
    requires walk.newest.Some? && Accounted(s, Ingesting(walk, page, 0, hasMore, top, None), handled)
    requires handled <= handled' && forall j | 0 <= j < count :: Visit(walk.sid, page[j].key) in handled'
    requires count < |page| ==> AtWatermark(walk, page[count].key)
    ensures count < |page| || !hasMore ==> Accounted(s, Finishing(walk), handled')
    ensures count == |page| && hasMore ==>
              Accounted(s, Fetching(walk.(cursor := Some(page[|page| - 1].key), pageSize := PAGE_SIZE)), handled')
  {
    var pass := Ingesting(walk, page, 0, hasMore, top, None);
    forall key: Key | Ahead(pass, key) && count < |page|
      ensures Visit(walk.sid, key) in handled' || AtWatermark(walk, key)
    {
      if exists j :: 0 <= j < |page| && page[j].key == key {
        var j :| 0 <= j < |page| && page[j].key == key;
        assert j > count ==> key.Lt(page[count].key);
      } else {
        assert page[|page| - 1].key.Le(page[count].key);
      }
    }
  }

  // ----- one pull as a whole --------------------------------------------------------------------

  /** Every entry above the old watermark and not above `newest` was visited. */
  ghost predicate NothingMissed(rows: Rows, watermark: Option<Key>, newest: Key, visited: seq<Row>) {
    forall id | id in rows && rows[id].key.Le(newest) && Wanted(watermark, rows[id].key) ::
      exists r :: r in visited && r.key == rows[id].key
  }

  ghost predicate AllKnown(rows: Rows, newest: Option<Key>, visited: seq<Row>) {
    && (forall r | r in visited :: r.key.id in rows && rows[r.key.id] == r)
    && (newest.Some? ==> forall id | id in rows :: rows[id].key.Le(newest.value))
  }

  /** Newest first, above the watermark, and not below the cursor. */
  ghost predicate InOrder(watermark: Option<Key>, cursor: Option<Key>, visited: seq<Row>) {
    && Descending(visited)
    && (forall r | r in visited :: Wanted(watermark, r.key))
    && (cursor.None? ==> visited == [])
    && (cursor.Some? ==> forall r | r in visited :: cursor.value.Le(r.key))
  }

  /** What holds whenever the loop is about to ask for a page. */
  ghost predicate WalkOk(answers: Answers, n: nat, walk: Walk, visited: seq<Row>) {
    && !walk.failed
    && walk.initialized == walk.watermark.Some?
    && walk.cursor.Some? == walk.newest.Some?
    && InOrder(walk.watermark, walk.cursor, visited)
    && Accounted(answers.server(n), Fetching(walk), VisitsOf(walk.sid, visited))
    && (Unchanging(answers) ==> AllKnown(answers.server(0).rows, walk.newest, visited))
  }

  /** What holds when the loop has ended, the last page having been read from `server(n)`. */
  ghost predicate WalkEnded(answers: Answers, n: nat, watermark: Option<Key>, newest: Option<Key>, visited: seq<Row>) {
    && Descending(visited)
    && (forall r | r in visited :: Wanted(watermark, r.key))
    && (newest.Some? ==> NothingMissed(answers.server(n).rows, watermark, newest.value, visited))
    && (newest.None? ==> visited == [] && answers.server(n).rows == map[])
    && (Unchanging(answers) ==> AllKnown(answers.server(0).rows, newest, visited))
  }

  lemma NoPage(answers: Answers, n: nat, walk: Walk, visited: seq<Row>)
    requires Plausible(answers) && WalkOk(answers, n, walk, visited)
    requires IsPage(answers.server(n).rows, walk.cursor, ClampLimit(walk.pageSize), [])
    ensures WalkEnded(answers, n, walk.watermark, walk.newest, visited)
  {
    assert PlausibleAt(answers, n);
    var s := answers.server(n);
    assert Below(s.rows, walk.cursor) == {};
    forall id | id in s.rows
      ensures !Within(walk.cursor, s.rows[id].key)
    {
      assert id !in Below(s.rows, walk.cursor);
    }
    if walk.newest.Some? {
      FinishedMissesNothing(s, walk, visited);
    }
  }

  /** A finished walk has visited all that is above the watermark. */
  lemma FinishedMissesNothing(s: Server, walk: Walk, visited: seq<Row>)
    requires walk.initialized == walk.watermark.Some? && !walk.failed && walk.newest.Some?
    requires Accounted(s, Finishing(walk), VisitsOf(walk.sid, visited))
    ensures NothingMissed(s.rows, walk.watermark, walk.newest.value, visited)
  {
    forall id | id in s.rows && s.rows[id].key.Le(walk.newest.value) && Wanted(walk.watermark, s.rows[id].key)
      ensures exists r :: r in visited && r.key == s.rows[id].key
    {
      assert Visit(walk.sid, s.rows[id].key) in VisitsOf(walk.sid, visited);
    }
  }

  lemma PageAppends(watermark: Option<Key>, cursor: Option<Key>, visited: seq<Row>, page: seq<Row>, count: nat)
    requires InOrder(watermark, cursor, visited) && page != []
    requires Descending(page) && count <= |page| && forall r | r in page :: Within(cursor, r.key)
    requires forall j | 0 <= j < count :: Wanted(watermark, page[j].key)
    ensures InOrder(watermark, Some(page[|page| - 1].key), visited + page[..count])
  {
    forall r | r in page[..count]
      ensures r in page
    {
    }
  }

  /** What a page leaves to visit: nothing, or what is below its last entry. */
  lemma PageAccount(s: Server, walk: Walk, visited: seq<Row>, page: seq<Row>, count: nat)
    requires KeyedById(s.rows) && forall id | id in s.rows :: s.rows[id].key.Le(s.top)
    requires Accounted(s, Fetching(walk), VisitsOf(walk.sid, visited))
    requires walk.cursor.Some? == walk.newest.Some?
    requires IsPage(s.rows, walk.cursor, ClampLimit(walk.pageSize), page) && page != []
    requires count <= |page| && (count < |page| ==> AtWatermark(walk, page[count].key))
    ensures count < |page| || !HasMore(s.rows, walk.cursor, ClampLimit(walk.pageSize)) ==>
              Accounted(s, Finishing(WithNewest(walk, page)), VisitsOf(walk.sid, visited + page[..count]))
    ensures count == |page| && HasMore(s.rows, walk.cursor, ClampLimit(walk.pageSize)) ==>
              Accounted(s, Fetching(NextPage(walk, page)), VisitsOf(walk.sid, visited + page[..count]))
  {
    var hasMore := HasMore(s.rows, walk.cursor, ClampLimit(walk.pageSize));
    PageIsAccounted(s, walk, page, VisitsOf(walk.sid, visited));
    MoreVisited(walk.sid, visited, page[..count]);
    PageDone(s, WithNewest(walk, page), page, count, hasMore, s.top,
             VisitsOf(walk.sid, visited), VisitsOf(walk.sid, visited + page[..count]));
  }

  function WithNewest(walk: Walk, page: seq<Row>): Walk
    requires page != []
  {
    if walk.newest.None? then walk.(newest := Some(page[0].key)) else walk
  }

  function NextPage(walk: Walk, page: seq<Row>): Walk
    requires page != []
  {
    WithNewest(walk, page).(cursor := Some(page[|page| - 1].key), pageSize := PAGE_SIZE)
  }

  lemma PageIsKnown(answers: Answers, n: nat, walk: Walk, visited: seq<Row>, page: seq<Row>, count: nat)
    requires Unchanging(answers) && WalkOk(answers, n, walk, visited)
    requires IsPage(answers.server(n).rows, walk.cursor, ClampLimit(walk.pageSize), page)
    requires page != [] && count <= |page|
    ensures AllKnown(answers.server(0).rows, WithNewest(walk, page).newest, visited + page[..count])
  {
    var rows := answers.server(0).rows;
    assert answers.server(n).rows == rows;
    FirstPageIsNewest(rows, walk, page);
    forall r | r in visited + page[..count]
      ensures r.key.id in rows && rows[r.key.id] == r
    {
      assert r in visited || r in page;
    }
  }

  /** The walk ends with this page. */
  lemma PageEnds(answers: Answers, n: nat, walk: Walk, visited: seq<Row>, page: seq<Row>, count: nat)
    requires Plausible(answers) && WalkOk(answers, n, walk, visited)
    requires IsPage(answers.server(n).rows, walk.cursor, ClampLimit(walk.pageSize), page) && page != []
    requires count <= |page| && forall j | 0 <= j < count :: Wanted(walk.watermark, page[j].key)
    requires count < |page| ==> !Wanted(walk.watermark, page[count].key)
    requires count < |page| || !HasMore(answers.server(n).rows, walk.cursor, ClampLimit(walk.pageSize))
    ensures WalkEnded(answers, n, walk.watermark, WithNewest(walk, page).newest, visited + page[..count])
  {
    assert PlausibleAt(answers, n);
    PageAccount(answers.server(n), walk, visited, page, count);
    PageAppends(walk.watermark, walk.cursor, visited, page, count);
    FinishedMissesNothing(answers.server(n), WithNewest(walk, page), visited + page[..count]);
    if Unchanging(answers) {
      PageIsKnown(answers, n, walk, visited, page, count);
    }
  }

  /** The walk goes on, with a cursor that has fewer rows below it. */
  lemma PageContinues(answers: Answers, n: nat, walk: Walk, visited: seq<Row>, page: seq<Row>)
    requires Plausible(answers) && WalkOk(answers, n, walk, visited)
    requires IsPage(answers.server(n).rows, walk.cursor, ClampLimit(walk.pageSize), page) && page != []
    requires forall j | 0 <= j < |page| :: Wanted(walk.watermark, page[j].key)
    requires HasMore(answers.server(n).rows, walk.cursor, ClampLimit(walk.pageSize))
    ensures WalkOk(answers, n + 1, NextPage(walk, page), visited + page)
    ensures |Below(answers.server(n + 1).rows, NextPage(walk, page).cursor)|
            < |Below(answers.server(n).rows, walk.cursor)|
  {
    assert PlausibleAt(answers, n);
    var s, s' := answers.server(n), answers.server(n + 1);
    assert page[..|page|] == page && page[|page| - 1] in page;
    PageAccount(s, walk, visited, page, |page|);
    PageAppends(walk.watermark, walk.cursor, visited, page, |page|);
    CursorShrinks(s, s', walk.cursor, page[|page| - 1]);
    MovingUpKeepsAccount(s, s', Fetching(NextPage(walk, page)), VisitsOf(walk.sid, visited + page));
    if Unchanging(answers) {
      PageIsKnown(answers, n, walk, visited, page, |page|);
    }
  }

  lemma FirstPageIsNewest(rows: Rows, walk: Walk, page: seq<Row>)
    requires IsPage(rows, walk.cursor, ClampLimit(walk.pageSize), page) && page != []
    ensures walk.cursor.None? ==> forall id | id in rows :: rows[id].key.Le(page[0].key)
  {
    forall id | walk.cursor.None? && id in rows && rows[id] in page
      ensures rows[id].key.Le(page[0].key)
    {
      var j :| 0 <= j < |page| && page[j] == rows[id];
    }
  }

  /** On an unchanging server a pull visits exactly the wanted entries, each once. */
  lemma ExactlyTheWanted(answers: Answers, n: nat, watermark: Option<Key>, newest: Option<Key>, visited: seq<Row>)
    requires Plausible(answers) && WalkEnded(answers, n, watermark, newest, visited) && Unchanging(answers)
    ensures forall r :: r in visited <==> r in answers.server(0).rows.Values && Wanted(watermark, r.key)
  {
    assert PlausibleAt(answers, 0);
    var rows := answers.server(0).rows;
    forall r | r in rows.Values && Wanted(watermark, r.key)
      ensures r in visited
    {
      var id :| id in rows && rows[id] == r;
      assert newest.Some?;
      var seen :| seen in visited && seen.key == r.key;
    }
    forall r | r in visited
      ensures r in rows.Values
    {
      assert rows[r.key.id] in rows.Values;
    }
  }

  lemma OneMoreOf(visited: seq<Row>, page: seq<Row>, count: nat)
    requires count < |page|
    ensures visited + page[..count] + [page[count]] == visited + page[..count + 1]
  {
  }

  /** The loop's `had_ingest_error` and `pulled`. */
  datatype Tally = Tally(failed: bool, pulled: nat) {
    function Of(rows: D.LocalRows): Ingestion {
      Ingestion(rows, failed, pulled)
    }
  }

  class SyncClient {
    var generation: nat
    var initialized: bool
    var watermark: Option<Key>

    ghost function State(): PullState
      reads this
    {
      PullState(generation, initialized, watermark)
    }

    constructor (storage: LocalStorage)
      ensures State() == RestorePull(storage.watermark)
      ensures generation == 0 && watermark == storage.watermark && initialized == watermark.Some?
    {
      generation := 0;
      initialized := storage.watermark.Some?;
      watermark := storage.watermark;
    }

    /** A stored watermark that cannot be cleared stays; the failure is only logged. */
    method ResetPullCursor(storage: LocalStorage, cleared: bool)
      modifies this, storage`watermark
      ensures State() == ResetPull(old(State()))
      ensures generation == old(generation) + 1 && watermark == None && !initialized
      ensures storage.watermark == if cleared then None else old(storage.watermark)
    {
      generation := generation + 1;
      initialized := false;
      watermark := None;
      if cleared {
        storage.watermark := None;
      }
    }

    method IngestRemoteEntry(storage: LocalStorage, remote: Row, answer: D.BlobAnswer,
                             now: nat) returns (result: IngestResult)
      requires D.HashUnique(storage.rows)
      modifies storage`rows
      ensures D.HashUnique(storage.rows)
      ensures IngestOne(StartingFrom(old(storage.rows)), remote, answer, now)
           == Ingestion(storage.rows, result.TransientError?, if result == Applied(true) then 1 else 0)
      ensures result == Applied(true) <==> storage.rows != old(storage.rows)
      // a blob that is gone or has other bytes: nothing is stored, and the entry counts as done with
      ensures var known := exists id :: id in old(storage.rows) && old(storage.rows)[id].hash == remote.hash;
              remote.payload.Blob? && !known ==>
                && (answer.Transient? ==> result == TransientError && storage.rows == old(storage.rows))
                && (answer.Gone? ==> result == Applied(false) && storage.rows == old(storage.rows))
                && (answer.Got? && answer.dataHash != remote.payload.blobHash ==>
                      result == Applied(false) && storage.rows == old(storage.rows))
                && (answer == D.Got(remote.payload.blobHash) && remote.key.id !in old(storage.rows) ==>
                      && result == Applied(true)
                      && storage.rows == old(storage.rows)[remote.key.id :=
                           D.LocalRow(remote.hash, remote.starred, true, remote.key.instant)])
      // an image without a blob is skipped while the server has none, whether the content is known or not
      ensures remote.payload.ImageWithoutBlob? && !answer.Got? ==>
                result == (if answer.Gone? then Applied(false) else TransientError) && storage.rows == old(storage.rows)
    {
      var contentHash := remote.hash;
      if remote.payload.ImageWithoutBlob? {
        match answer
        case Transient => return TransientError;
        case Gone => return Applied(false);
        case Got(dataHash) => contentHash := dataHash;
      }
      var existing := storage.FindByHash(contentHash);
      if existing.Some? {
        var changed := storage.ApplyRemoteStar(contentHash, remote.starred, now);
        return Applied(changed);
      }
      if remote.payload.Blob? {
        match answer
        case Transient => return TransientError;
        case Gone => return Applied(false);
        case Got(dataHash) =>
          if dataHash != remote.payload.blobHash {
            return Applied(false);
          }
      }
      var created := storage.InsertRemoteEntry(remote.key, contentHash, remote.starred);
      result := Applied(created);
    }

    /** The entries of one page, until the watermark: the first `count` of them are handed to ingestion. */
    method IngestPage(storage: LocalStorage, page: seq<Row>, answers: Answers, done: nat, before: Tally,
                      ghost rows0: D.LocalRows, ghost visited: seq<Row>)
        returns (count: nat, tally: Tally)
      requires D.HashUnique(storage.rows)
      requires initialized == watermark.Some? && done == |visited|
      requires IngestAll(rows0, visited, answers) == before.Of(storage.rows)
      modifies storage`rows
      ensures D.HashUnique(storage.rows)
      ensures count <= |page| && forall j | 0 <= j < count :: Wanted(watermark, page[j].key)
      ensures count < |page| ==> !Wanted(watermark, page[count].key)
      ensures IngestAll(rows0, visited + page[..count], answers) == tally.Of(storage.rows)
    {
      count, tally := 0, before;
      ghost var seen := visited;
      assert visited == visited + page[..0];
      while count < |page|
        invariant count <= |page| && seen == visited + page[..count]
        invariant D.HashUnique(storage.rows)
        invariant forall j | 0 <= j < count :: Wanted(watermark, page[j].key)
        invariant IngestAll(rows0, seen, answers) == tally.Of(storage.rows)
      {
        var remote := page[count];
        if initialized && watermark.Some? && remote.key.Le(watermark.value) {
          return;
        }
        tally := IngestNext(storage, remote, answers, done + count, tally, rows0, seen);
        OneMoreOf(visited, page, count);
        seen, count := seen + [remote], count + 1;
      }
    }

    /** One entry, the n-th that is handed to ingestion. */
    method IngestNext(storage: LocalStorage, remote: Row, answers: Answers, n: nat, before: Tally,
                      ghost rows0: D.LocalRows, ghost visited: seq<Row>)
        returns (tally: Tally)
      requires D.HashUnique(storage.rows)
      requires n == |visited| && IngestAll(rows0, visited, answers) == before.Of(storage.rows)
      modifies storage`rows
      ensures D.HashUnique(storage.rows)
      ensures IngestAll(rows0, visited + [remote], answers) == tally.Of(storage.rows)
    {
      ghost var earlier := before.Of(storage.rows);
      var result := IngestRemoteEntry(storage, remote, answers.blob(n), answers.now(n));
      var changed := if result == Applied(true) then 1 else 0;
      IngestOneMore(rows0, visited, answers, earlier, remote, Ingestion(storage.rows, result.TransientError?, changed));
      tally := Tally(before.failed || result.TransientError?, before.pulled + changed);
    }

    /**
     Promote the newest position seen, only forward, and only if no reset happened since `generation0`. A save
     that fails is only logged.
     */
    method CommitWatermark(storage: LocalStorage, generation0: nat, newestSeen: Option<Key>, failed: bool, saved: bool)
      modifies this, storage`watermark
      ensures State() == Commit(generation0, newestSeen, failed, old(State()))
      ensures generation == old(generation)
      ensures newestSeen.Some? && !failed && generation == generation0 ==>
                && initialized
                && watermark == if old(watermark).Some? && newestSeen.value.Le(old(watermark).value) then old(watermark)
                                else newestSeen
      ensures newestSeen.None? || failed || generation != generation0 ==>
                watermark == old(watermark) && initialized == old(initialized)
      ensures storage.watermark == if watermark == old(watermark) || !saved then old(storage.watermark) else watermark
    {
      if newestSeen.None? || failed || generation != generation0 {
        return;
      }
      if watermark.None? || watermark.value.Lt(newestSeen.value) {
        watermark := newestSeen;
        if saved {
          storage.watermark := newestSeen;
        }
      }
      initialized := true;
    }

    /** The rest of a round, on the page that came back. */
    method VisitPage(storage: LocalStorage, answers: Answers, n: nat, walk: Walk, page: seq<Row>, hasMore: bool,
                     done: nat,
                     before: Tally, ghost rows0: D.LocalRows, ghost visited0: seq<Row>)
        returns (ended: bool, next: Walk, count: nat, tally: Tally, ghost visited: seq<Row>)
      requires Plausible(answers) && WalkOk(answers, n, walk, visited0)
      requires IsPage(answers.server(n).rows, walk.cursor, ClampLimit(walk.pageSize), page) && page != []
      requires hasMore == HasMore(answers.server(n).rows, walk.cursor, ClampLimit(walk.pageSize))
      requires D.HashUnique(storage.rows) && walk.watermark == watermark && initialized == watermark.Some?
      requires done == |visited0| && IngestAll(rows0, visited0, answers) == before.Of(storage.rows)
      modifies storage`rows
      ensures D.HashUnique(storage.rows)
      ensures |visited| == done + count && IngestAll(rows0, visited, answers) == tally.Of(storage.rows)
      ensures ended ==> WalkEnded(answers, n, watermark, next.newest, visited)
      ensures !ended ==>
                && next.watermark == watermark && next.pageSize == 100
                && WalkOk(answers, n + 1, next, visited)
                && |Below(answers.server(n + 1).rows, next.cursor)| < |Below(answers.server(n).rows, walk.cursor)|
    {
      next := walk;
      if next.newest.None? {
        next := next.(newest := Some(page[0].key));
      }
      count, tally := IngestPage(storage, page, answers, done, before, rows0, visited0);
      visited := visited0 + page[..count];
      if count < |page| || !hasMore {
        PageEnds(answers, n, walk, visited0, page, count);
        ended := true;
        return;
      }
      PageContinues(answers, n, walk, visited0, page);
      assert page[..count] == page;
      next := next.(cursor := Some(page[|page| - 1].key), pageSize := PAGE_SIZE);
      ended := false;
    }

    /** One round of the loop, on the page that the n-th request returns; `walk` bundles the loop's variables. */
    method PullPage(storage: LocalStorage, answers: Answers, n: nat, walk: Walk, done: nat, before: Tally,
                    ghost rows0: D.LocalRows, ghost visited0: seq<Row>)
        returns (ended: bool, next: Walk, count: nat, tally: Tally, ghost visited: seq<Row>)
      requires Plausible(answers) && WalkOk(answers, n, walk, visited0)
      requires D.HashUnique(storage.rows) && walk.watermark == watermark && initialized == watermark.Some?
      requires done == |visited0| && IngestAll(rows0, visited0, answers) == before.Of(storage.rows)
      modifies storage`rows
      ensures D.HashUnique(storage.rows)
      ensures |visited| == done + count && IngestAll(rows0, visited, answers) == tally.Of(storage.rows)
      ensures ended ==> WalkEnded(answers, n, watermark, next.newest, visited)
      ensures !ended ==>
                && next.watermark == watermark && next.pageSize == 100
                && WalkOk(answers, n + 1, next, visited)
                && |Below(answers.server(n + 1).rows, next.cursor)| < |Below(answers.server(n).rows, walk.cursor)|
    {
      assert PlausibleAt(answers, n);
      var page, total := ListEntries(answers.server(n).rows, walk.cursor, ClampLimit(walk.pageSize));
      if page == [] {
        NoPage(answers, n, walk, visited0);
        ended, next, count, tally, visited := true, walk, 0, before, visited0;
        return;
      }
      var hasMore := ClampLimit(walk.pageSize) < total;
      ended, next, count, tally, visited :=
        VisitPage(storage, answers, n, walk, page, hasMore, done, before, rows0, visited0);
    }

    /**
     The loop over pages. `visited` lists the entries handed to ingestion in order, `newest` is the newest
     position seen, `last` numbers the request that ended the walk, and `asked` lists the limits of the requests.
     */
    method WalkPages(storage: LocalStorage, sid: Sid, answers: Answers)
        returns (completed: bool, tally: Tally, newest: Option<Key>, last: nat, ghost visited: seq<Row>,
                 ghost asked: seq<nat>)
      requires Plausible(answers)
      requires D.HashUnique(storage.rows)
      requires initialized == watermark.Some?
      modifies storage`rows
      ensures D.HashUnique(storage.rows)
      ensures IngestAll(old(storage.rows), visited, answers) == tally.Of(storage.rows)
      ensures completed ==> WalkEnded(answers, last, watermark, newest, visited)
      ensures |asked| == last + 1 && asked[0] == if watermark.Some? then 1 else 100
      ensures forall k | 0 < k < |asked| :: asked[k] == 100
    {
      var walk := BeginWalk(generation, sid, PullState(generation, initialized, watermark));
      var done := 0;
      tally, newest, last, visited, asked := Tally(false, 0), None, 0, [], [walk.pageSize];
      while true
        invariant D.HashUnique(storage.rows)
        invariant done == |visited| && IngestAll(old(storage.rows), visited, answers) == tally.Of(storage.rows)
        invariant walk.watermark == watermark && WalkOk(answers, last, walk, visited)
        invariant |asked| == last + 1 && asked[last] == walk.pageSize
        invariant asked[0] == if watermark.Some? then 1 else 100
        invariant forall k | 0 < k < |asked| :: asked[k] == 100
        decreases |Below(answers.server(last).rows, walk.cursor)|
      {
        if !answers.reachable(last) {
          completed := false;
          return;
        }
        var ended, count;
        ended, walk, count, tally, visited :=
          PullPage(storage, answers, last, walk, done, tally, old(storage.rows), visited);
        done, newest := done + count, walk.newest;
        if ended {
          break;
        }
        last, asked := last + 1, asked + [walk.pageSize];
      }
      completed := true;
    }

    /** One pull. */
    method PullNewEntries(storage: LocalStorage, sid: Sid, answers: Answers, saved: bool)
        returns (completed: bool, pulled: nat, newest: Option<Key>, last: nat, ghost visited: seq<Row>,
                 ghost asked: seq<nat>)
      requires Plausible(answers)
      requires D.HashUnique(storage.rows)
      requires initialized == watermark.Some?
      modifies this, storage
      ensures D.HashUnique(storage.rows)
      // the table after ingesting what was visited, and how many of those changed it
      ensures storage.rows == IngestAll(old(storage.rows), visited, answers).rows
      ensures pulled == IngestAll(old(storage.rows), visited, answers).changes
      // what was visited is on the device, unless the server had nothing to store
      ensures !IngestAll(old(storage.rows), visited, answers).failed ==>
                forall k | 0 <= k < |visited| :: IsPresent(storage.rows, visited[k], answers.blob(k))
      // the first request probes for one entry when there is a watermark; every other one asks for a full page
      ensures |asked| == last + 1 && asked[0] == if old(watermark).Some? then 1 else 100
      ensures forall k | 0 < k < |asked| :: asked[k] == 100
      // nothing between the old watermark and `newest` was missed, whatever other clients wrote meanwhile
      ensures completed ==> WalkEnded(answers, last, old(watermark), newest, visited)
      // on an unchanging server: exactly the wanted entries, newest first, each once
      ensures completed && Unchanging(answers) ==>
                && Descending(visited)
                && forall r :: r in visited <==> r in answers.server(0).rows.Values && Wanted(old(watermark), r.key)
      ensures !completed ==> State() == old(State()) && storage.watermark == old(storage.watermark)
      ensures completed ==>
                var failed := IngestAll(old(storage.rows), visited, answers).failed;
                State() == Commit(old(generation), newest, failed, old(State()))
      ensures storage.watermark == if watermark == old(watermark) || !saved then old(storage.watermark) else watermark
      // a completed pull without a transient error leaves the newest position it saw, or the old one if that is newer
      ensures generation == old(generation)
      ensures completed && newest.Some? && !IngestAll(old(storage.rows), visited, answers).failed ==>
                && initialized
                && watermark == if old(watermark).Some? && newest.value.Le(old(watermark).value) then old(watermark)
                                else newest
      ensures !(completed && newest.Some? && !IngestAll(old(storage.rows), visited, answers).failed) ==>
                watermark == old(watermark) && initialized == old(initialized)
    {
      var generation0 := generation;
      var tally;
      completed, tally, newest, last, visited, asked := WalkPages(storage, sid, answers);
      pulled := tally.pulled;
      if !tally.failed {
        VisitedIsPresent(old(storage.rows), visited, answers);
      }
      if !completed {
        return;
      }
      if Unchanging(answers) {
        ExactlyTheWanted(answers, last, watermark, newest, visited);
      }
      CommitWatermark(storage, generation0, newest, tally.failed, saved);
    }
  }
}
