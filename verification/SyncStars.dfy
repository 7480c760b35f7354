/** Star agreement: what the device shows for a synced row is what the server holds. */
module SyncStars {
  import opened Options
  import opened ServerTable
  import opened SyncProtocol
  import opened SyncInvariants
  import opened SyncCoverage
  import D = DeviceTable

  /** Every synced local row has the server's star, once the server's row was handled at its key. */
  ghost predicate Agrees(local: D.LocalRows, rows: Rows, sid: Sid, handled: set<Visit>) {
    forall a, b | a in local && b in rows && local[a].synced && local[a].hash == rows[b].hash ::
      rows[b].payload.ImageWithoutBlob? || Visit(sid, rows[b].key) !in handled || local[a].starred == rows[b].starred
  }

  ghost predicate NothingHandled(sid: Sid, handled: set<Visit>) {
    forall v | v in handled :: v.sid != sid
  }

  /** An applied push whose reply is awaited left its row at a key no pull has handled. */
  ghost predicate Unhandled(rows: Rows, sid: Sid, hash: Hash, handled: set<Visit>) {
    forall id | id in rows && rows[id].hash == hash :: Visit(sid, rows[id].key) !in handled
  }

  /** Content that a pull did not find can only have been captured since, and waits in the outbox. */
  ghost predicate NotFoundIsPending(local: D.LocalRows, pass: Pass) {
    pass.Ingesting? && pass.next < |pass.page| && pass.known == Some(false) ==>
      forall id | id in local && local[id].hash == pass.page[pass.next].hash :: !local[id].synced
  }

  ghost predicate StarInv(w: World)
  {
    var dev, hist := w.dev, w.hist;
    && dev.config in w.servers
    && (!dev.pass.Idle? ==> dev.waiting == {} && dev.batch.None?)
    && (dev.batch.None? ==> dev.waiting !! hist.applied)
    && NotFoundIsPending(dev.rows, dev.pass)
    && (!hist.changing ==>
          && (dev.batch.Some? && dev.batch.value != dev.config ==> NothingHandled(dev.config, hist.handled))
          && (HasServer(dev.pass) && SidOf(dev.pass) != dev.config ==> NothingHandled(dev.config, hist.handled))
          && (forall p | p in dev.waiting && p in hist.applied ::
                Unhandled(w.servers[dev.config].rows, dev.config, p.hash, hist.handled))
          && Agrees(dev.rows, w.servers[dev.config].rows, dev.config, hist.handled))
  }

  // ----- server writes: a written row has a key nobody has handled ------------------------------

  lemma MovingUpKeepsAgreement(local: D.LocalRows, before: Server, after: Server, sid: Sid, handled: set<Visit>)
    requires OnlyMovesUp(before, after)
    requires forall v | v in handled && v.sid == sid :: v.key.Le(before.top)
    requires Agrees(local, before.rows, sid, handled)
    ensures Agrees(local, after.rows, sid, handled)
  {
  }

  lemma MovingUpKeepsUnhandled(before: Server, after: Server, sid: Sid, hash: Hash, handled: set<Visit>)
    requires OnlyMovesUp(before, after)
    requires forall v | v in handled && v.sid == sid :: v.key.Le(before.top)
    requires Unhandled(before.rows, sid, hash, handled)
    ensures Unhandled(after.rows, sid, hash, handled)
  {
  }

  lemma PushedRowIsUnhandled(s: Server, sid: Sid, hash: Hash, payload: Payload, starred: Option<bool>, newId: Id,
                             instant: nat, handled: set<Visit>)
    requires KeyedById(s.rows) && HashUnique(s.rows)
    requires s.top.Lt(Key(instant, Target(s.rows, hash, newId)))
    requires forall v | v in handled && v.sid == sid :: v.key.Le(s.top)
    ensures Unhandled(Create(s, hash, payload, starred, newId, instant).rows, sid, hash, handled)
  {
  }

  lemma ServerWriteKeepsStars(w: World, e: Event)
    requires TablesInv(w) && StarInv(w) && Enabled(w, e) && Serial(w, e)
    requires IsServerWrite(e)
    ensures StarInv(Next(w, e))
  {
    WritesOnlyMoveUp(w, e);
    var config, handled, after := w.dev.config, w.hist.handled, Next(w, e);
    var before, now := w.servers[config], after.servers[config];
    if !w.hist.changing {
      MovingUpKeepsAgreement(w.dev.rows, before, now, config, handled);
      forall p | p in w.dev.waiting && p in after.hist.applied
        ensures Unhandled(now.rows, config, p.hash, handled)
      {
        if p in w.hist.applied {
          MovingUpKeepsUnhandled(before, now, config, p.hash, handled);
        } else if w.dev.batch == Some(config) {
          PushedRowIsUnhandled(before, config, p.hash, e.payload, Some(p.starred), e.newId, e.instant, handled);
        }
      }
    }
  }

  // ----- ingestion ------------------------------------------------------------------------------

  lemma IngestAgrees(local: D.LocalRows, remote: Row, known: bool, answer: D.BlobAnswer, now: nat, rows: Rows,
                     sid: Sid, handled: set<Visit>, contents: map<Id, Hash>)
    requires LocalOk(local, contents)
    requires KeyedById(rows) && HashUnique(rows)
    requires forall id | id in rows :: id in contents && contents[id] == rows[id].hash
    requires remote.key.id in contents && contents[remote.key.id] == remote.hash
    requires remote.payload.ImageWithoutBlob? ==> !answer.Got?
    requires || known || remote.payload.ImageWithoutBlob?
             || forall id | id in local && local[id].hash == remote.hash :: !local[id].synced
    requires forall id | id in rows && rows[id].hash == remote.hash ::
               rows[id] == remote || (rows[id].key != remote.key && Visit(sid, rows[id].key) !in handled)
    requires Agrees(local, rows, sid, handled)
    requires D.Write(local, remote, known, answer, now).Done?
    ensures Agrees(D.Write(local, remote, known, answer, now).rows, rows, sid, handled + {Visit(sid, remote.key)})
  {
    var local' := D.Write(local, remote, known, answer, now).rows;
    forall a, b | a in local' && b in rows && local'[a].synced && local'[a].hash == rows[b].hash
      ensures || rows[b].payload.ImageWithoutBlob?
              || Visit(sid, rows[b].key) !in handled + {Visit(sid, remote.key)}
              || local'[a].starred == rows[b].starred
    {
      if rows[b].key == remote.key {
        assert rows[b] == remote;
      }
    }
  }

  lemma EntryDoneKeepsStars(w: World, rows: D.LocalRows, failed: bool, now: nat)
    requires StarInv(w) && w.dev.pass.Ingesting? && w.dev.pass.next < |w.dev.pass.page|
    requires !w.hist.changing ==>
               Agrees(rows, w.servers[w.dev.config].rows, w.dev.config, EntryDoneOn(w, rows, failed, now).hist.handled)
    ensures StarInv(EntryDoneOn(w, rows, failed, now))
  {
  }

  /** Ingestion changes no row whose content is not the ingested one, and unsyncs nothing. */
  lemma WrittenRowsAgree(w: World, e: Event)
    requires TablesInv(w) && PageInv(w) && StarInv(w) && Enabled(w, e) && e.EntryIngested? && !w.hist.changing
    requires !AtWatermark(w.dev.pass.walk, w.dev.pass.page[w.dev.pass.next].key)
    ensures var pass := w.dev.pass;
            var remote := pass.page[pass.next];
            var ingested := D.Write(w.dev.rows, remote, pass.known.GetOr(false), e.answer, e.now);
            ingested.Done? ==> Agrees(ingested.rows, w.servers[w.dev.config].rows, w.dev.config,
                                      w.hist.handled + {Visit(pass.walk.sid, remote.key)})
  {
    var pass := w.dev.pass;
    var remote := pass.page[pass.next];
    var config := w.dev.config;
    assert remote in pass.page;
    if D.Write(w.dev.rows, remote, pass.known.GetOr(false), e.answer, e.now).Done? && pass.walk.sid == config {
      IngestAgrees(w.dev.rows, remote, pass.known.GetOr(false), e.answer, e.now, w.servers[config].rows, config,
                   w.hist.handled, w.hist.contents);
    }
  }

  lemma IngestKeepsStars(w: World, e: Event)
    requires TablesInv(w) && PageInv(w) && StarInv(w) && Enabled(w, e) && e.EntryIngested?
    ensures StarInv(Next(w, e))
  {
    var pass := w.dev.pass;
    var remote := pass.page[pass.next];
    if !AtWatermark(pass.walk, remote.key) {
      var ingested := D.Write(w.dev.rows, remote, pass.known.GetOr(false), e.answer, e.now);
      if !w.hist.changing {
        WrittenRowsAgree(w, e);
      }
      EntryDoneKeepsStars(w, if ingested.Done? then ingested.rows else w.dev.rows, ingested.Failed?, e.now);
    }
  }

  lemma LookUpKeepsStars(w: World, e: Event)
    requires StarInv(w) && Enabled(w, e) && e.EntryLookedUp?
    ensures StarInv(Next(w, e))
  {
  }

  // ----- the rest -------------------------------------------------------------------------------

  /** A matching acknowledgement: the server's row is not handled yet, so it cannot disagree. */
  lemma AckKeepsStars(w: World, e: Event)
    requires TablesInv(w) && StarInv(w) && Enabled(w, e) && e.PushAcked?
    ensures StarInv(Next(w, e))
  {
    var p := e.push;
    assert p.id in w.dev.rows ==> w.dev.rows[p.id].hash == p.hash;
  }

  lemma CaptureKeepsStars(w: World, e: Event)
    requires TablesInv(w) && StarInv(w) && Enabled(w, e) && e.Captured?
    ensures StarInv(Next(w, e))
  {
  }

  lemma ToggleKeepsStars(w: World, e: Event)
    requires TablesInv(w) && StarInv(w) && Enabled(w, e) && e.Toggled?
    ensures StarInv(Next(w, e))
  {
  }

  lemma DeletionKeepsStars(w: World, e: Event)
    requires TablesInv(w) && StarInv(w) && Enabled(w, e) && e.LocallyDeleted?
    ensures StarInv(Next(w, e))
  {
  }

  lemma SnapshotKeepsStars(w: World, e: Event)
    requires TablesInv(w) && StarInv(w) && Enabled(w, e) && Serial(w, e) && e.Snapshot?
    ensures StarInv(Next(w, e))
  {
    var row := w.dev.rows[e.id];
    assert Push(|w.hist.sent|, e.id, row.hash, row.starred, row.updated) !in w.hist.applied;
  }

  lemma PushTasksKeepStars(w: World, e: Event)
    requires TablesInv(w) && StarInv(w) && Enabled(w, e) && Serial(w, e)
    requires e.PushSettingsRead? || e.PushDropped? || e.BatchEnded?
    ensures StarInv(Next(w, e))
  {
  }

  lemma PassStepsKeepStars(w: World, e: Event)
    requires TablesInv(w) && StarInv(w) && Enabled(w, e) && Serial(w, e)
    requires IsPassStep(e) && !e.EntryLookedUp?
    ensures StarInv(Next(w, e))
  {
  }

  lemma ArrivalKeepsStars(w: World, e: Event)
    requires TablesInv(w) && StarInv(w) && Enabled(w, e) && Serial(w, e)
    requires e.PageArrived?
    ensures StarInv(Next(w, e))
  {
  }

  lemma CommitKeepsStars(w: World, e: Event)
    requires TablesInv(w) && StarInv(w) && Enabled(w, e) && Serial(w, e)
    requires e.PassFinished?
    ensures StarInv(Next(w, e))
  {
  }

  lemma SettingsStepsKeepStars(w: World, e: Event)
    requires TablesInv(w) && StarInv(w) && Enabled(w, e) && Serial(w, e)
    requires IsSettingsStep(e)
    ensures StarInv(Next(w, e))
  {
  }

  lemma StarsKept(w: World, e: Event)
    requires TablesInv(w) && PageInv(w) && StarInv(w) && Enabled(w, e) && Serial(w, e)
    ensures StarInv(Next(w, e))
  {
    if IsServerWrite(e) {
      ServerWriteKeepsStars(w, e);
    } else if e.EntryIngested? {
      IngestKeepsStars(w, e);
    } else if e.PushAcked? {
      AckKeepsStars(w, e);
    } else if e.EntryLookedUp? {
      LookUpKeepsStars(w, e);
    } else if e.Captured? {
      CaptureKeepsStars(w, e);
    } else if e.Toggled? {
      ToggleKeepsStars(w, e);
    } else if e.LocallyDeleted? {
      DeletionKeepsStars(w, e);
    } else if e.Snapshot? {
      SnapshotKeepsStars(w, e);
    } else if e.PushSettingsRead? || e.PushDropped? || e.BatchEnded? {
      PushTasksKeepStars(w, e);
    } else if IsSettingsStep(e) {
      SettingsStepsKeepStars(w, e);
    } else if e.PageArrived? {
      ArrivalKeepsStars(w, e);
    } else if e.PassFinished? {
      CommitKeepsStars(w, e);
    } else {
      PassStepsKeepStars(w, e);
    }
  }

  lemma {:induction false} StarsOverRuns(w: World, events: seq<Event>)
    requires CoverageInv(w) && StarInv(w) && Possible(w, events, true)
    ensures CoverageInv(Run(w, events, true)) && StarInv(Run(w, events, true))
    decreases |events|
  {
    if events != [] {
      CoverageKept(w, events[0]);
      StarsKept(w, events[0]);
      StarsOverRuns(Next(w, events[0]), events[1..]);
    }
  }
}
