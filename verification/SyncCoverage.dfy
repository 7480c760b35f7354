/** What the stored watermark means: everything at or below it was handed to ingestion. */
module SyncCoverage {
  import opened Options
  import opened ServerTable
  import opened SyncProtocol
  import opened SyncInvariants
  import D = DeviceTable

  /** Every entry at or below `mark`, at the key it has now, was handled since the last cursor reset. */
  ghost predicate Covered(rows: Rows, sid: Sid, mark: Key, handled: set<Visit>) {
    forall id | id in rows && rows[id].key.Le(mark) :: Visit(sid, rows[id].key) in handled
  }

  /** What a watermark, in memory or stored, is worth: it accounts for the configured server unless it is outdated. */
  ghost predicate MarkOk(w: World, mark: Option<Key>, origin: Option<Origin>, outdated: bool) {
    && mark.Some? == origin.Some?
    && (outdated ==> mark.Some?)
    && (mark.Some? ==> origin.value.since <= w.hist.epoch && (outdated <==> origin.value.since != w.hist.epoch))
    && (mark.Some? && !outdated && !w.hist.changing ==>
          && w.dev.config in w.servers
          && origin.value.sid == w.dev.config
          && mark.value.Le(w.servers[w.dev.config].top)
          && Covered(w.servers[w.dev.config].rows, w.dev.config, mark.value, w.hist.handled))
  }

  ghost predicate WatermarkInv(w: World) {
    && w.dev.config in w.servers
    && w.dev.pull.initialized == w.dev.pull.watermark.Some?
    && MarkOk(w, w.dev.pull.watermark, w.hist.origin, w.hist.restored)
    && MarkOk(w, w.dev.disk, w.hist.diskOrigin, w.hist.uncleared)
  }

  /** The walk will still come to this key. */
  ghost predicate Ahead(pass: Pass, key: Key) {
    match pass
    case Fetching(walk) => walk.cursor.Some? && key.Lt(walk.cursor.value)
    case Ingesting(_, page, next, hasMore, _, _) =>
      || (exists j :: next <= j < |page| && page[j].key == key)
      || (hasMore && page != [] && key.Lt(page[|page| - 1].key))
    case _ => false
  }

  /** No entry between the old watermark and the newest position seen can slip through this pass. */
  ghost predicate Accounted(s: Server, pass: Pass, handled: set<Visit>)
    requires HasServer(pass) && !pass.Configured?
  {
    var walk := pass.walk;
    && (walk.newest.None? ==> walk.cursor.None?)
    && (walk.newest.Some? ==>
          && walk.newest.value.Le(s.top)
          && (pass.Fetching? ==> walk.cursor.Some?)
          && (!walk.failed ==>
                forall id | id in s.rows && s.rows[id].key.Le(walk.newest.value)
                          && !AtWatermark(walk, s.rows[id].key) ::
                  Visit(walk.sid, s.rows[id].key) in handled || Ahead(pass, s.rows[id].key)))
  }

  /** What a pass may rely on while no reset has overtaken it. */
  ghost predicate PassInv(w: World) {
    var pass := w.dev.pass;
    !pass.Idle? && w.dev.config in w.servers ==>
      && GenerationOf(pass) <= w.dev.pull.generation
      && (GenerationOf(pass) == w.dev.pull.generation ==>
            && w.hist.passEpoch == w.hist.epoch
            && (HasServer(pass) && !pass.Configured? ==>
                  && pass.walk.initialized == w.dev.pull.initialized
                  && pass.walk.watermark == w.dev.pull.watermark)
            && (!w.hist.changing && HasServer(pass) ==>
                  && SidOf(pass) == w.dev.config
                  && (!pass.Configured? ==> Accounted(w.servers[w.dev.config], pass, w.hist.handled))))
  }

  ghost predicate CoverageInv(w: World) {
    TablesInv(w) && PageInv(w) && WatermarkInv(w) && PassInv(w)
  }

  // ----- server writes --------------------------------------------------------------------------

  lemma MovingUpKeepsCoverage(before: Server, after: Server, sid: Sid, mark: Key, handled: set<Visit>)
    requires OnlyMovesUp(before, after) && mark.Le(before.top)
    requires Covered(before.rows, sid, mark, handled)
    ensures Covered(after.rows, sid, mark, handled)
  {
  }

  lemma MovingUpKeepsAccount(before: Server, after: Server, pass: Pass, handled: set<Visit>)
    requires HasServer(pass) && !pass.Configured?
    requires OnlyMovesUp(before, after)
    requires Accounted(before, pass, handled)
    ensures Accounted(after, pass, handled)
  {
  }

  lemma ServerWriteKeepsCoverage(w: World, e: Event)
    requires CoverageInv(w) && Enabled(w, e)
    requires IsServerWrite(e)
    ensures WatermarkInv(Next(w, e)) && PassInv(Next(w, e))
  {
    WritesOnlyMoveUp(w, e);
    var before, after := w.servers[w.dev.config], Next(w, e).servers[w.dev.config];
    if w.dev.pull.watermark.Some? && !w.hist.restored && !w.hist.changing {
      MovingUpKeepsCoverage(before, after, w.dev.config, w.dev.pull.watermark.value, w.hist.handled);
    }
    if w.dev.disk.Some? && !w.hist.uncleared && !w.hist.changing {
      MovingUpKeepsCoverage(before, after, w.dev.config, w.dev.disk.value, w.hist.handled);
    }
    if HasServer(w.dev.pass) && !w.dev.pass.Configured? && Accounted(before, w.dev.pass, w.hist.handled) {
      MovingUpKeepsAccount(before, after, w.dev.pass, w.hist.handled);
    }
  }

  // ----- the pull loop --------------------------------------------------------------------------

  lemma PageIsAccounted(s: Server, walk: Walk, page: seq<Row>, handled: set<Visit>)
    requires KeyedById(s.rows) && (forall id | id in s.rows :: s.rows[id].key.Le(s.top))
    requires Accounted(s, Fetching(walk), handled)
    requires IsPage(s.rows, walk.cursor, ClampLimit(walk.pageSize), page)
    ensures Accounted(s, TakePage(walk, page, HasMore(s.rows, walk.cursor, ClampLimit(walk.pageSize)), s.top), handled)
  {
    var limit := ClampLimit(walk.pageSize);
    var hasMore := HasMore(s.rows, walk.cursor, limit);
    if !hasMore {
      LastPageIsComplete(s.rows, walk.cursor, limit, page);
    }
    var pass := TakePage(walk, page, hasMore, s.top);
    if page != [] {
      assert page[0] in page;
      forall id | id in s.rows && Within(walk.cursor, s.rows[id].key)
        ensures Ahead(pass, s.rows[id].key)
      {
        if s.rows[id] in page {
          var j :| 0 <= j < |page| && page[j] == s.rows[id];
        }
      }
    }
  }

  /** Stopping at the watermark is safe: all that was ahead is at or below it. */
  lemma StoppingIsAccounted(s: Server, pass: Pass, handled: set<Visit>)
    requires pass.Ingesting? && pass.next < |pass.page|
    requires forall i, j | 0 <= i < j < |pass.page| :: pass.page[j].key.Lt(pass.page[i].key)
    requires AtWatermark(pass.walk, pass.page[pass.next].key)
    requires pass.walk.newest.Some? && Accounted(s, pass, handled)
    ensures Accounted(s, Finishing(pass.walk), handled)
  {
    var at := pass.page[pass.next].key;
    forall key: Key | Ahead(pass, key)
      ensures AtWatermark(pass.walk, key)
    {
      if pass.hasMore && key.Lt(pass.page[|pass.page| - 1].key) {
        assert key.Lt(at);
      } else {
        var j :| pass.next <= j < |pass.page| && pass.page[j].key == key;
      }
    }
  }

  /** Past an entry: it was handled, or the pass is marked as failed. */
  lemma AdvancingIsAccounted(s: Server, pass: Pass, failed: bool, handled: set<Visit>, handled': set<Visit>)
    requires pass.Ingesting? && pass.next < |pass.page|
    requires pass.walk.newest.Some? && Accounted(s, pass, handled)
    requires handled <= handled'
    requires failed || Visit(pass.walk.sid, pass.page[pass.next].key) in handled'
    ensures Accounted(s, Advance(pass, failed), handled')
  {
    var after := Advance(pass, failed);
    forall key: Key | Ahead(pass, key) && key != pass.page[pass.next].key
      ensures Ahead(after, key)
    {
      if exists j :: pass.next <= j < |pass.page| && pass.page[j].key == key {
        var j :| pass.next <= j < |pass.page| && pass.page[j].key == key;
        assert j > pass.next;
      }
    }
  }

  lemma ArrivalKeepsCoverage(w: World, e: Event)
    requires CoverageInv(w) && Enabled(w, e) && e.PageArrived?
    ensures WatermarkInv(Next(w, e)) && PassInv(Next(w, e))
  {
    var walk := w.dev.pass.walk;
    var s := w.servers[walk.sid];
    MoreHandledKeepsMarks(w, Next(w, e));
    if Accounted(s, w.dev.pass, w.hist.handled) {
      PageIsAccounted(s, walk, e.page, w.hist.handled);
    }
  }

  /** More entries handled, and nothing else that a watermark's worth depends on. */
  lemma MoreHandledKeepsMarks(w: World, after: World)
    requires WatermarkInv(w)
    requires after.servers == w.servers && after.dev.config == w.dev.config
    requires after.dev.pull == w.dev.pull && after.dev.disk == w.dev.disk
    requires w.hist.handled <= after.hist.handled && after.hist == w.hist.(handled := after.hist.handled)
    ensures WatermarkInv(after)
  {
  }

  lemma EntryDoneKeepsMarks(w: World, rows: D.LocalRows, failed: bool, now: nat)
    requires WatermarkInv(w) && w.dev.pass.Ingesting? && w.dev.pass.next < |w.dev.pass.page|
    ensures WatermarkInv(EntryDoneOn(w, rows, failed, now))
  {
    MoreHandledKeepsMarks(w, EntryDoneOn(w, rows, failed, now));
  }

  lemma EntryDoneKeepsPass(w: World, rows: D.LocalRows, failed: bool, now: nat)
    requires PageInv(w) && PassInv(w) && w.dev.pass.Ingesting?
    ensures PassInv(EntryDoneOn(w, rows, failed, now))
  {
    var pass := w.dev.pass;
    var s := w.servers[pass.walk.sid];
    if Accounted(s, pass, w.hist.handled) {
      AdvancingIsAccounted(s, pass, failed, w.hist.handled, EntryDoneOn(w, rows, failed, now).hist.handled);
    }
  }

  lemma IngestKeepsCoverage(w: World, e: Event)
    requires CoverageInv(w) && Enabled(w, e) && e.EntryIngested?
    ensures WatermarkInv(Next(w, e)) && PassInv(Next(w, e))
  {
    var pass := w.dev.pass;
    var s := w.servers[pass.walk.sid];
    if !AtWatermark(pass.walk, pass.page[pass.next].key) {
      var ingested := D.Write(w.dev.rows, pass.page[pass.next], pass.known.GetOr(false), e.answer, e.now);
      var rows := if ingested.Done? then ingested.rows else w.dev.rows;
      EntryDoneKeepsMarks(w, rows, ingested.Failed?, e.now);
      EntryDoneKeepsPass(w, rows, ingested.Failed?, e.now);
    } else if Accounted(s, pass, w.hist.handled) {
      StoppingIsAccounted(s, pass, w.hist.handled);
    }
  }

  /** The commit. A reset since the pass began has changed the generation and voids it. */
  lemma CommitKeepsCoverage(w: World, e: Event)
    requires CoverageInv(w) && Enabled(w, e) && e.PassFinished?
    ensures WatermarkInv(Next(w, e)) && PassInv(Next(w, e))
  {
    var walk := w.dev.pass.walk;
    var s := w.servers[w.dev.config];
    if Moves(walk, w.dev.pull) && !w.hist.changing && !w.hist.restored {
      forall id | id in s.rows && s.rows[id].key.Le(walk.newest.value)
        ensures Visit(w.dev.config, s.rows[id].key) in w.hist.handled
      {
        assert !Ahead(w.dev.pass, s.rows[id].key);
      }
    }
  }

  /** What the coverage invariant speaks of: nothing the user and push tasks touch. */
  ghost predicate SamePull(w: World, after: World) {
    && after.servers == w.servers
    && after.dev.config == w.dev.config && after.dev.pull == w.dev.pull
    && after.dev.disk == w.dev.disk && after.dev.pass == w.dev.pass
    && after.hist == w.hist.(choices := after.hist.choices, sent := after.hist.sent, contents := after.hist.contents)
  }

  lemma SamePullKeepsCoverage(w: World, after: World)
    requires WatermarkInv(w) && PassInv(w) && SamePull(w, after)
    ensures WatermarkInv(after) && PassInv(after)
  {
  }

  lemma LocalEventsKeepCoverage(w: World, e: Event)
    requires CoverageInv(w) && Enabled(w, e) && IsLocal(e)
    ensures WatermarkInv(Next(w, e)) && PassInv(Next(w, e))
  {
    SamePullKeepsCoverage(w, Next(w, e));
  }

  /** A pull that begins, step by step, looks up an entry, or is given up. */
  lemma WatermarkReadKeepsCoverage(w: World, e: Event)
    requires CoverageInv(w) && Enabled(w, e) && e.WatermarkRead?
    ensures WatermarkInv(Next(w, e)) && PassInv(Next(w, e))
  {
  }

  lemma LookUpKeepsAccount(s: Server, pass: Pass, known: Option<bool>, handled: set<Visit>)
    requires pass.Ingesting? && Accounted(s, pass, handled)
    ensures Accounted(s, pass.(known := known), handled)
  {
    var after := pass.(known := known);
    assert forall key: Key :: Ahead(pass, key) ==> Ahead(after, key);
  }

  lemma LookUpKeepsCoverage(w: World, e: Event)
    requires CoverageInv(w) && Enabled(w, e) && e.EntryLookedUp?
    ensures WatermarkInv(Next(w, e)) && PassInv(Next(w, e))
  {
    var pass, known := w.dev.pass, Next(w, e).dev.pass.known;
    MoreHandledKeepsMarks(w, Next(w, e));
    if Accounted(w.servers[pass.walk.sid], pass, w.hist.handled) {
      LookUpKeepsAccount(w.servers[pass.walk.sid], pass, known, w.hist.handled);
    }
  }

  lemma PassStepsKeepCoverage(w: World, e: Event)
    requires CoverageInv(w) && Enabled(w, e) && IsPassStep(e) && !e.WatermarkRead? && !e.EntryLookedUp?
    ensures WatermarkInv(Next(w, e)) && PassInv(Next(w, e))
  {
  }

  /** A save voids what the pull in flight relies on until the reset; the reset voids every account. */
  lemma SettingsStepsKeepCoverage(w: World, e: Event)
    requires CoverageInv(w) && Enabled(w, e) && IsSettingsStep(e)
    ensures WatermarkInv(Next(w, e)) && PassInv(Next(w, e))
  {
  }

  lemma CoverageKept(w: World, e: Event)
    requires CoverageInv(w) && Enabled(w, e)
    ensures CoverageInv(Next(w, e))
  {
    TablesKept(w, e);
    PageKept(w, e);
    if IsServerWrite(e) {
      ServerWriteKeepsCoverage(w, e);
    } else if e.PageArrived? {
      ArrivalKeepsCoverage(w, e);
    } else if e.EntryIngested? {
      IngestKeepsCoverage(w, e);
    } else if e.PassFinished? {
      CommitKeepsCoverage(w, e);
    } else if IsLocal(e) {
      LocalEventsKeepCoverage(w, e);
    } else if e.WatermarkRead? {
      WatermarkReadKeepsCoverage(w, e);
    } else if e.EntryLookedUp? {
      LookUpKeepsCoverage(w, e);
    } else if IsPassStep(e) {
      PassStepsKeepCoverage(w, e);
    } else {
      SettingsStepsKeepCoverage(w, e);
    }
  }

  lemma {:induction false} CoverageOverRuns(w: World, events: seq<Event>, serial: bool)
    requires CoverageInv(w) && Possible(w, events, serial)
    ensures CoverageInv(Run(w, events, serial))
    decreases |events|
  {
    if events != [] {
      CoverageKept(w, events[0]);
      CoverageOverRuns(Next(w, events[0]), events[1..], serial);
    }
  }

  lemma InitiallyCovered(w: World)
    requires Init(w)
    ensures CoverageInv(w)
  {
  }
}
