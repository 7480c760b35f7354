/** The outbox: a row leaves it only when a server has taken the user's last choice about it. */
module SyncOutbox {
  import opened Options
  import opened ServerTable
  import opened SyncProtocol
  import opened SyncInvariants
  import opened SyncCoverage
  import D = DeviceTable

  /** Some server applied a push of this row that carried its content and the user's last choice. */
  ghost predicate Delivered(applied: set<Push>, id: Id, hash: Hash, choice: Choice) {
    exists p :: p in applied && p.id == id && p.hash == hash && choice.stamp <= p.stamp && p.starred == choice.starred
  }

  ghost predicate RowsDelivered(rows: D.LocalRows, choices: map<Id, Choice>, applied: set<Push>) {
    forall id | id in rows && rows[id].synced && id in choices :: Delivered(applied, id, rows[id].hash, choices[id])
  }

  /** A row in the outbox still shows the user's last choice, under a local timestamp. */
  ghost predicate RowsPending(rows: D.LocalRows, choices: map<Id, Choice>, clock: nat) {
    && choices.Keys <= rows.Keys
    && (forall id | id in rows && !rows[id].synced ::
          && id in choices
          && rows[id].starred == choices[id].starred
          && choices[id].stamp <= rows[id].updated <= clock)
  }

  /** A push not older than the user's last choice carries it. */
  ghost predicate PushesCurrent(w: World) {
    && (forall id | id in w.hist.choices :: w.hist.choices[id].stamp <= w.dev.clock)
    && (forall p | p in w.hist.sent ::
          && p.stamp <= w.dev.clock
          && (p.id in w.hist.choices && w.hist.choices[p.id].stamp <= p.stamp ==>
                p.starred == w.hist.choices[p.id].starred))
  }

  ghost predicate OutboxInv(w: World) {
    && RowsDelivered(w.dev.rows, w.hist.choices, w.hist.applied)
    && RowsPending(w.dev.rows, w.hist.choices, w.dev.clock)
    && PushesCurrent(w)
  }

  lemma AckKeepsOutbox(w: World, e: Event)
    requires TablesInv(w) && OutboxInv(w) && Enabled(w, e) && e.PushAcked?
    ensures OutboxInv(Next(w, e))
  {
    var p := e.push;
    if p.id in w.dev.rows && !w.dev.rows[p.id].synced && w.dev.rows[p.id].updated == p.stamp {
      assert w.dev.rows[p.id].hash == p.hash;
      assert Delivered(w.hist.applied, p.id, p.hash, w.hist.choices[p.id]);
    }
  }

  lemma CaptureKeepsRows(rows: D.LocalRows, choices: map<Id, Choice>, applied: set<Push>, clock: nat, hash: Hash,
                         newId: Id, now: nat)
    requires RowsDelivered(rows, choices, applied) && RowsPending(rows, choices, clock) && newId !in rows && clock < now
    ensures var after := D.Capture(rows, hash, newId, now);
            var choices' := if D.Find(rows, hash).Some? then choices else choices[newId := Choice(now, false)];
            RowsDelivered(after, choices', applied) && RowsPending(after, choices', now)
  {
  }

  lemma CaptureKeepsOutbox(w: World, hash: Hash, newId: Id, now: nat)
    requires LocalOk(w.dev.rows, w.hist.contents) && PushesOk(w) && OutboxInv(w)
    requires newId !in w.hist.contents && w.dev.clock < now
    ensures OutboxInv(CaptureOn(w, hash, newId, now))
  {
    CaptureKeepsRows(w.dev.rows, w.hist.choices, w.hist.applied, w.dev.clock, hash, newId, now);
    assert forall p | p in w.hist.sent :: p.id != newId;
  }

  lemma ToggleKeepsOutbox(w: World, e: Event)
    requires TablesInv(w) && OutboxInv(w) && Enabled(w, e) && e.Toggled?
    ensures OutboxInv(Next(w, e))
  {
  }

  lemma DeletionKeepsOutbox(w: World, e: Event)
    requires TablesInv(w) && OutboxInv(w) && Enabled(w, e) && e.LocallyDeleted?
    ensures OutboxInv(Next(w, e))
  {
  }

  lemma SnapshotKeepsOutbox(w: World, e: Event)
    requires TablesInv(w) && OutboxInv(w) && Enabled(w, e) && e.Snapshot?
    ensures OutboxInv(Next(w, e))
  {
  }

  lemma PushKeepsOutbox(w: World, e: Event)
    requires TablesInv(w) && OutboxInv(w) && Enabled(w, e) && e.PushApplied?
    ensures OutboxInv(Next(w, e))
  {
    var after := Next(w, e);
    forall id | id in w.dev.rows && w.dev.rows[id].synced && id in w.hist.choices
      ensures Delivered(after.hist.applied, id, w.dev.rows[id].hash, w.hist.choices[id])
    {
      var p :| p in w.hist.applied && p.id == id && p.hash == w.dev.rows[id].hash
               && w.hist.choices[id].stamp <= p.stamp && p.starred == w.hist.choices[id].starred;
      assert p in after.hist.applied;
    }
  }

  lemma TakingOverKeepsRows(rows: D.LocalRows, key: Key, after: D.LocalRows, choices: map<Id, Choice>,
                            applied: set<Push>, clock: nat, now: nat)
    requires RowsDelivered(rows, choices, applied) && RowsPending(rows, choices, clock) && clock <= now
    requires D.OnlyTakesOver(rows, key, after)
    ensures RowsDelivered(after, choices, applied) && RowsPending(after, choices, now)
  {
  }

  lemma IngestKeepsOutbox(w: World, e: Event)
    requires OutboxInv(w) && Enabled(w, e) && e.EntryIngested?
    ensures OutboxInv(Next(w, e))
  {
    var remote := w.dev.pass.page[w.dev.pass.next];
    var known := w.dev.pass.known.GetOr(false);
    var ingested := D.Write(w.dev.rows, remote, known, e.answer, e.now);
    if ingested.Done? {
      D.IngestOnlyTakesOver(w.dev.rows, remote, known, e.answer, e.now);
      TakingOverKeepsRows(w.dev.rows, remote.key, ingested.rows, w.hist.choices, w.hist.applied, w.dev.clock, e.now);
    }
  }

  /** What the outbox invariant speaks of, unchanged. */
  ghost predicate SameOutbox(w: World, after: World) {
    && after.dev.rows == w.dev.rows && after.dev.clock == w.dev.clock
    && after.hist.choices == w.hist.choices && after.hist.sent == w.hist.sent && after.hist.applied == w.hist.applied
  }

  predicate ChangesOutbox(e: Event) {
    || e.Captured? || e.Toggled? || e.LocallyDeleted?
    || e.Snapshot? || e.PushApplied? || e.PushAcked? || e.EntryIngested?
  }

  lemma OtherEventsKeepOutbox(w: World, e: Event)
    requires Enabled(w, e) && !ChangesOutbox(e)
    ensures SameOutbox(w, Next(w, e))
  {
  }

  lemma SameOutboxKept(w: World, after: World)
    requires OutboxInv(w) && SameOutbox(w, after)
    ensures OutboxInv(after)
  {
  }

  lemma OutboxKept(w: World, e: Event)
    requires TablesInv(w) && OutboxInv(w) && Enabled(w, e)
    ensures OutboxInv(Next(w, e))
  {
    if e.PushAcked? {
      AckKeepsOutbox(w, e);
    } else if e.Captured? {
      CaptureKeepsOutbox(w, e.hash, e.newId, e.now);
    } else if e.Toggled? {
      ToggleKeepsOutbox(w, e);
    } else if e.LocallyDeleted? {
      DeletionKeepsOutbox(w, e);
    } else if e.Snapshot? {
      SnapshotKeepsOutbox(w, e);
    } else if e.PushApplied? {
      PushKeepsOutbox(w, e);
    } else if e.EntryIngested? {
      IngestKeepsOutbox(w, e);
    } else {
      OtherEventsKeepOutbox(w, e);
      SameOutboxKept(w, Next(w, e));
    }
  }

  lemma {:induction false} OutboxOverRuns(w: World, events: seq<Event>, serial: bool)
    requires CoverageInv(w) && OutboxInv(w) && Possible(w, events, serial)
    ensures CoverageInv(Run(w, events, serial)) && OutboxInv(Run(w, events, serial))
    decreases |events|
  {
    if events != [] {
      CoverageKept(w, events[0]);
      OutboxKept(w, events[0]);
      OutboxOverRuns(Next(w, events[0]), events[1..], serial);
    }
  }
}
