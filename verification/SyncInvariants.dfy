/** The inductive invariants of the synchronisation protocol, each kept by every event. */
module SyncInvariants {
  import opened Options
  import opened ServerTable
  import opened SyncProtocol
  import D = DeviceTable

  // ----- tables ---------------------------------------------------------------------------------

  ghost predicate LocalOk(rows: D.LocalRows, contents: map<Id, Hash>) {
    && D.HashUnique(rows)
    && (forall id | id in rows :: id in contents && contents[id] == rows[id].hash)
  }

  ghost predicate HandledOk(handled: set<Visit>, servers: map<Sid, Server>) {
    forall v | v in handled :: v.sid in servers && v.key.Le(servers[v.sid].top)
  }

  ghost predicate PushesOk(w: World) {
    && w.dev.waiting <= w.hist.sent
    && w.hist.applied <= w.hist.sent
    && (forall p | p in w.hist.sent ::
          && p.attempt < |w.hist.sent|
          && p.id in w.hist.contents
          && w.hist.contents[p.id] == p.hash)
  }

  predicate HasServer(pass: Pass) {
    !pass.Idle? && !pass.Started?
  }

  function SidOf(pass: Pass): Sid
    requires HasServer(pass)
  {
    if pass.Configured? then pass.sid else pass.walk.sid
  }

  function GenerationOf(pass: Pass): nat
    requires !pass.Idle?
  {
    if pass.Started? || pass.Configured? then pass.generation else pass.walk.generation
  }

  ghost predicate TablesInv(w: World) {
    && w.dev.config in w.servers
    && (HasServer(w.dev.pass) ==> SidOf(w.dev.pass) in w.servers)
    && (forall sid | sid in w.servers :: ServerOk(w.servers[sid], w.hist.contents))
    && LocalOk(w.dev.rows, w.hist.contents)
    && HandledOk(w.hist.handled, w.servers)
    && PushesOk(w)
  }

  /** A write that puts one row above everything handed out, and records the content of its id. */
  lemma PutKeepsServer(s: Server, row: Row, contents: map<Id, Hash>)
    requires ServerOk(s, contents)
    requires s.top.Lt(row.key)
    requires row.key.id in contents ==> contents[row.key.id] == row.hash
    requires forall id | id in s.rows && s.rows[id].hash == row.hash :: id == row.key.id
    ensures ServerOk(Put(s, row), contents[row.key.id := row.hash])
  {
  }

  lemma CreateKeepsServer(s: Server, hash: Hash, payload: Payload, starred: Option<bool>, newId: Id, instant: nat,
                          contents: map<Id, Hash>)
    requires ServerOk(s, contents)
    requires newId !in contents
    requires s.top.Lt(Key(instant, Target(s.rows, hash, newId)))
    ensures ServerOk(Create(s, hash, payload, starred, newId, instant), contents[Target(s.rows, hash, newId) := hash])
    ensures Create(s, hash, payload, starred, newId, instant).top == Key(instant, Target(s.rows, hash, newId))
    ensures forall id | id in contents :: contents[Target(s.rows, hash, newId) := hash][id] == contents[id]
  {
    match Find(s.rows, hash)
    case Some(id) =>
      var row := s.rows[id];
      PutKeepsServer(s, row.(key := Key(instant, row.key.id), starred := starred.GetOr(row.starred)), contents);
    case None =>
      PutKeepsServer(s, Row(Key(instant, newId), hash, starred.GetOr(false), payload), contents);
  }

  lemma IngestKeepsLocal(rows: D.LocalRows, remote: Row, known: bool, answer: D.BlobAnswer, now: nat,
                         contents: map<Id, Hash>)
    requires LocalOk(rows, contents)
    requires remote.key.id in contents && contents[remote.key.id] == remote.hash
    requires remote.payload.ImageWithoutBlob? ==> !answer.Got?
    ensures D.Write(rows, remote, known, answer, now).Done? ==>
              LocalOk(D.Write(rows, remote, known, answer, now).rows, contents)
  {
  }

  lemma OnServerKeepsTables(w: World, sid: Sid, s: Server, contents: map<Id, Hash>)
    requires TablesInv(w) && sid in w.servers
    requires forall id | id in w.hist.contents :: id in contents && contents[id] == w.hist.contents[id]
    requires ServerOk(s, contents) && w.servers[sid].top.Le(s.top)
    ensures TablesInv(OnServer(w, sid, s).(hist := w.hist.(contents := contents)))
  {
  }

  lemma CreateOnKeepsTables(w: World, sid: Sid, hash: Hash, payload: Payload, starred: Option<bool>, newId: Id,
                            instant: nat)
    requires TablesInv(w) && sid in w.servers && newId !in w.hist.contents
    requires w.servers[sid].top.Lt(Key(instant, Target(w.servers[sid].rows, hash, newId)))
    ensures TablesInv(CreateOn(w, sid, hash, payload, starred, newId, instant))
  {
    var s := w.servers[sid];
    CreateKeepsServer(s, hash, payload, starred, newId, instant, w.hist.contents);
    OnServerKeepsTables(w, sid, Create(s, hash, payload, starred, newId, instant),
                        w.hist.contents[Target(s.rows, hash, newId) := hash]);
  }

  lemma ServerWriteKeepsTables(w: World, e: Event)
    requires TablesInv(w) && Enabled(w, e)
    requires IsServerWrite(e)
    ensures TablesInv(Next(w, e))
  {
    match e
    case RemoteCreate(sid, hash, payload, starred, newId, instant) =>
      CreateOnKeepsTables(w, sid, hash, payload, starred, newId, instant);
    case PushApplied(push, sid, payload, newId, instant) =>
      CreateOnKeepsTables(w, sid, push.hash, payload, Some(push.starred), newId, instant);
    case RemoteStar(sid, id, starred, instant) =>
      var row := w.servers[sid].rows[id];
      PutKeepsServer(w.servers[sid], row.(key := Key(instant, id), starred := starred), w.hist.contents);
      assert w.hist.contents[id := w.hist.contents[id]] == w.hist.contents;
      OnServerKeepsTables(w, sid, Star(w.servers[sid], id, starred, instant), w.hist.contents);
    case RemoteDelete(sid, id) =>
      OnServerKeepsTables(w, sid, Delete(w.servers[sid], id), w.hist.contents);
  }

  lemma CaptureKeepsLocal(rows: D.LocalRows, contents: map<Id, Hash>, hash: Hash, newId: Id, now: nat)
    requires LocalOk(rows, contents) && newId !in contents
    ensures var after := D.Capture(rows, hash, newId, now);
            LocalOk(after, if D.Find(rows, hash).Some? then contents else contents[newId := hash])
  {
  }

  lemma MoreContentsKeepServers(servers: map<Sid, Server>, contents: map<Id, Hash>, contents': map<Id, Hash>)
    requires forall sid | sid in servers :: ServerOk(servers[sid], contents)
    requires forall id | id in contents :: id in contents' && contents'[id] == contents[id]
    ensures forall sid | sid in servers :: ServerOk(servers[sid], contents')
  {
  }

  lemma CaptureKeepsTables(w: World, e: Event)
    requires TablesInv(w) && Enabled(w, e) && e.Captured?
    ensures TablesInv(Next(w, e))
  {
    CaptureKeepsLocal(w.dev.rows, w.hist.contents, e.hash, e.newId, e.now);
    MoreContentsKeepServers(w.servers, w.hist.contents, w.hist.contents[e.newId := e.hash]);
  }

  /** Changes of single fields of local rows, and deletions. */
  lemma LocalEditKeepsTables(w: World, rows: D.LocalRows, after: World)
    requires TablesInv(w) && LocalOk(rows, w.hist.contents)
    requires after.servers == w.servers && after.dev.rows == rows
    requires after.dev.config == w.dev.config && after.dev.pass == w.dev.pass && after.dev.waiting <= w.dev.waiting
    requires after.hist == w.hist.(choices := after.hist.choices)
    ensures TablesInv(after)
  {
  }

  lemma ToggleKeepsTables(w: World, e: Event)
    requires TablesInv(w) && Enabled(w, e) && e.Toggled?
    ensures TablesInv(Next(w, e))
  {
    LocalEditKeepsTables(w, D.Toggle(w.dev.rows, e.id, e.now), Next(w, e));
  }

  lemma DeletionKeepsTables(w: World, e: Event)
    requires TablesInv(w) && Enabled(w, e) && e.LocallyDeleted?
    ensures TablesInv(Next(w, e))
  {
    LocalEditKeepsTables(w, w.dev.rows - {e.id}, Next(w, e));
  }

  lemma AckKeepsTables(w: World, e: Event)
    requires TablesInv(w) && Enabled(w, e) && e.PushAcked?
    ensures TablesInv(Next(w, e))
  {
    LocalEditKeepsTables(w, D.MarkSynced(w.dev.rows, e.push.id, e.push.stamp), Next(w, e));
  }

  lemma SnapshotKeepsTables(w: World, e: Event)
    requires TablesInv(w) && Enabled(w, e)
    requires e.Snapshot?
    ensures TablesInv(Next(w, e))
  {
    var row := w.dev.rows[e.id];
    var push := Push(|w.hist.sent|, e.id, row.hash, row.starred, row.updated);
    assert push !in w.hist.sent;
  }

  lemma PushTasksKeepTables(w: World, e: Event)
    requires TablesInv(w) && Enabled(w, e)
    requires e.PushSettingsRead? || e.PushDropped? || e.BatchEnded?
    ensures TablesInv(Next(w, e))
  {
    LocalEditKeepsTables(w, w.dev.rows, Next(w, e));
  }

  /** Steps that leave servers, local rows and pushes alone. */
  ghost predicate SameTables(w: World, after: World) {
    && after.servers == w.servers
    && after.dev.rows == w.dev.rows && after.dev.waiting <= w.dev.waiting
    && after.hist.contents == w.hist.contents && after.hist.handled <= w.hist.handled
    && after.hist.sent == w.hist.sent && after.hist.applied == w.hist.applied
  }

  lemma SameTablesKeepTables(w: World, after: World)
    requires TablesInv(w) && SameTables(w, after)
    requires after.dev.config in w.servers
    requires HasServer(after.dev.pass) ==> SidOf(after.dev.pass) in w.servers
    ensures TablesInv(after)
  {
  }

  lemma PassStepsKeepTables(w: World, e: Event)
    requires TablesInv(w) && Enabled(w, e) && IsPassStep(e)
    ensures TablesInv(Next(w, e))
  {
    SameTablesKeepTables(w, Next(w, e));
  }

  lemma ArrivalKeepsTables(w: World, e: Event)
    requires TablesInv(w) && Enabled(w, e) && e.PageArrived?
    ensures TablesInv(Next(w, e))
  {
    SameTablesKeepTables(w, Next(w, e));
  }

  lemma CommitKeepsTables(w: World, e: Event)
    requires TablesInv(w) && Enabled(w, e) && e.PassFinished?
    ensures TablesInv(Next(w, e))
  {
    SameTablesKeepTables(w, Next(w, e));
  }

  lemma SettingsStepsKeepTables(w: World, e: Event)
    requires TablesInv(w) && Enabled(w, e) && IsSettingsStep(e)
    ensures TablesInv(Next(w, e))
  {
    SameTablesKeepTables(w, Next(w, e));
  }

  lemma EntryDoneKeepsTables(w: World, rows: D.LocalRows, failed: bool, now: nat)
    requires TablesInv(w) && PageInv(w) && w.dev.pass.Ingesting?
    requires LocalOk(rows, w.hist.contents)
    ensures TablesInv(EntryDoneOn(w, rows, failed, now))
  {
    assert w.dev.pass.page[w.dev.pass.next] in w.dev.pass.page;
  }

  lemma IngestKeepsTables(w: World, e: Event)
    requires TablesInv(w) && PageInv(w) && Enabled(w, e) && e.EntryIngested?
    ensures TablesInv(Next(w, e))
  {
    var remote := w.dev.pass.page[w.dev.pass.next];
    var known := w.dev.pass.known.GetOr(false);
    var ingested := D.Write(w.dev.rows, remote, known, e.answer, e.now);
    assert remote in w.dev.pass.page;
    IngestKeepsLocal(w.dev.rows, remote, known, e.answer, e.now, w.hist.contents);
    if !AtWatermark(w.dev.pass.walk, remote.key) {
      EntryDoneKeepsTables(w, if ingested.Done? then ingested.rows else w.dev.rows, ingested.Failed?, e.now);
    }
  }

  lemma TablesKept(w: World, e: Event)
    requires TablesInv(w) && PageInv(w) && Enabled(w, e)
    ensures TablesInv(Next(w, e))
  {
    if IsServerWrite(e) {
      ServerWriteKeepsTables(w, e);
    } else if e.Captured? {
      CaptureKeepsTables(w, e);
    } else if e.Toggled? {
      ToggleKeepsTables(w, e);
    } else if e.LocallyDeleted? {
      DeletionKeepsTables(w, e);
    } else if e.PushAcked? {
      AckKeepsTables(w, e);
    } else if e.Snapshot? {
      SnapshotKeepsTables(w, e);
    } else if e.EntryIngested? {
      IngestKeepsTables(w, e);
    } else if e.PushSettingsRead? || e.PushDropped? || e.BatchEnded? {
      PushTasksKeepTables(w, e);
    } else if IsSettingsStep(e) {
      SettingsStepsKeepTables(w, e);
    } else if e.PageArrived? {
      ArrivalKeepsTables(w, e);
    } else if e.PassFinished? {
      CommitKeepsTables(w, e);
    } else {
      PassStepsKeepTables(w, e);
    }
  }

  // ----- the page being ingested ----------------------------------------------------------------

  /**
   The rows of a page are a snapshot. A row that still has its key is unchanged; any other row of the server
   with the same content was written after the page was read.
   */
  ghost predicate PageOk(s: Server, pass: Pass, contents: map<Id, Hash>, handled: set<Visit>)
    requires pass.Ingesting?
  {
    && pass.next < |pass.page|
    && pass.walk.newest.Some?
    && pass.pageTop.Le(s.top)
    && (forall i, j | 0 <= i < j < |pass.page| :: pass.page[j].key.Lt(pass.page[i].key))
    && (forall r | r in pass.page :: r.key.Le(pass.pageTop))
    && (forall r | r in pass.page :: r.key.id in contents && contents[r.key.id] == r.hash)
    && (forall r, id | r in pass.page && id in s.rows && s.rows[id].hash == r.hash ::
          s.rows[id] == r || pass.pageTop.Lt(s.rows[id].key))
    && (forall v | v in handled && v.sid == pass.walk.sid :: v.key.Le(pass.pageTop))
  }

  ghost predicate PageInv(w: World) {
    w.dev.pass.Ingesting? ==>
      && w.dev.pass.walk.sid in w.servers
      && PageOk(w.servers[w.dev.pass.walk.sid], w.dev.pass, w.hist.contents, w.hist.handled)
  }

  lemma MovingUpKeepsPage(before: Server, after: Server, pass: Pass, contents: map<Id, Hash>,
                          contents': map<Id, Hash>, handled: set<Visit>)
    requires pass.Ingesting? && PageOk(before, pass, contents, handled)
    requires OnlyMovesUp(before, after)
    requires forall id | id in contents :: id in contents' && contents'[id] == contents[id]
    ensures PageOk(after, pass, contents', handled)
  {
  }

  lemma WritesOnlyMoveUp(w: World, e: Event)
    requires TablesInv(w) && Enabled(w, e)
    requires IsServerWrite(e)
    ensures Next(w, e).servers.Keys == w.servers.Keys
    ensures forall sid | sid in w.servers :: OnlyMovesUp(w.servers[sid], Next(w, e).servers[sid])
  {
    match e
    case RemoteCreate(sid, hash, payload, starred, newId, instant) =>
      CreateOnlyMovesUp(w.servers[sid], hash, payload, starred, newId, instant);
    case PushApplied(push, sid, payload, newId, instant) =>
      CreateOnlyMovesUp(w.servers[sid], push.hash, payload, Some(push.starred), newId, instant);
    case _ =>
  }

  lemma ServerWriteKeepsPage(w: World, e: Event)
    requires TablesInv(w) && PageInv(w) && Enabled(w, e)
    requires IsServerWrite(e)
    ensures PageInv(Next(w, e))
  {
    WritesOnlyMoveUp(w, e);
    ContentsAreKept(w, e);
    var pass := w.dev.pass;
    if pass.Ingesting? {
      MovingUpKeepsPage(w.servers[pass.walk.sid], Next(w, e).servers[pass.walk.sid], pass,
                        w.hist.contents, Next(w, e).hist.contents, w.hist.handled);
    }
  }

  lemma ContentsAreKept(w: World, e: Event)
    requires TablesInv(w) && Enabled(w, e)
    requires IsServerWrite(e)
    ensures forall id | id in w.hist.contents ::
              id in Next(w, e).hist.contents && Next(w, e).hist.contents[id] == w.hist.contents[id]
  {
  }

  lemma ArrivalMakesPage(w: World, e: Event)
    requires TablesInv(w) && Enabled(w, e) && e.PageArrived?
    ensures PageInv(Next(w, e))
  {
    var walk := w.dev.pass.walk;
    var s := w.servers[walk.sid];
    forall r, id | r in e.page && id in s.rows && s.rows[id].hash == r.hash
      ensures s.rows[id] == r
    {
      assert s.rows[r.key.id] == r;
    }
  }

  lemma EntryDoneKeepsPage(w: World, rows: D.LocalRows, failed: bool, now: nat)
    requires PageInv(w) && w.dev.pass.Ingesting?
    ensures PageInv(EntryDoneOn(w, rows, failed, now))
  {
    assert w.dev.pass.page[w.dev.pass.next] in w.dev.pass.page;
  }

  lemma IngestKeepsPage(w: World, e: Event)
    requires PageInv(w) && Enabled(w, e) && e.EntryIngested?
    ensures PageInv(Next(w, e))
  {
    var pass := w.dev.pass;
    if !AtWatermark(pass.walk, pass.page[pass.next].key) {
      var ingested := D.Write(w.dev.rows, pass.page[pass.next], pass.known.GetOr(false), e.answer, e.now);
      EntryDoneKeepsPage(w, if ingested.Done? then ingested.rows else w.dev.rows, ingested.Failed?, e.now);
    }
  }

  lemma PageKept(w: World, e: Event)
    requires TablesInv(w) && PageInv(w) && Enabled(w, e)
    ensures PageInv(Next(w, e))
  {
    if IsServerWrite(e) {
      ServerWriteKeepsPage(w, e);
    } else if e.PageArrived? {
      ArrivalMakesPage(w, e);
    } else if e.EntryLookedUp? {
      LookUpKeepsPage(w, e);
    } else if e.EntryIngested? {
      IngestKeepsPage(w, e);
    } else {
      OtherEventsKeepPage(w, e);
    }
  }

  lemma LookUpKeepsPage(w: World, e: Event)
    requires PageInv(w) && Enabled(w, e) && e.EntryLookedUp?
    ensures PageInv(Next(w, e))
  {
  }

  lemma OtherEventsKeepPage(w: World, e: Event)
    requires PageInv(w) && Enabled(w, e)
    requires !IsServerWrite(e) && !(e.PageArrived? || e.EntryLookedUp? || e.EntryIngested?)
    ensures PageInv(Next(w, e))
  {
    var after := Next(w, e);
    assert after.servers == w.servers;
    assert after.dev.pass == w.dev.pass || !after.dev.pass.Ingesting?;
    assert after.hist.handled <= w.hist.handled;
    assert forall id | id in w.hist.contents :: id in after.hist.contents;
  }
}
