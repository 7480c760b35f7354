/**
 What becomes of the user's last choice about a row once a server has taken it. It stays, on the server and on the
 device, unless another client or the user decides anew, or an attempt older than the choice is applied late.
 */
module SyncLastChoice {
  import opened Options
  import opened ServerTable
  import opened SyncProtocol
  import opened SyncInvariants
  import opened SyncCoverage
  import opened SyncOutbox
  import opened SyncStars
  import D = DeviceTable

  /** A local row with its content, the user's last choice about it, and the server it is pushed to. */
  datatype Subject = Subject(sid: Sid, id: Id, hash: Hash, choice: Choice)

  /** The server has a row for this content, and it carries this star. */
  ghost predicate Shows(rows: Rows, hash: Hash, starred: bool) {
    && (exists id :: id in rows && rows[id].hash == hash)
    && (forall id | id in rows && rows[id].hash == hash :: rows[id].starred == starred)
  }

  // ----- what may happen meanwhile ----------------------------------------------------------------

  ghost predicate IsAbout(w: World, sid: Sid, hash: Hash, onSid: Sid, id: Id) {
    onSid == sid && sid in w.servers && id in w.servers[sid].rows && w.servers[sid].rows[id].hash == hash
  }

  /** No other client decides about this content on this server. */
  ghost predicate LeavesAlone(w: World, e: Event, sid: Sid, hash: Hash) {
    match e
    case RemoteCreate(on, created, _, _, _, _) => on != sid || created != hash
    case RemoteStar(on, id, _, _) => !IsAbout(w, sid, hash, on, id)
    case RemoteDelete(on, id) => !IsAbout(w, sid, hash, on, id)
    case _ => true
  }

  /** Nor does the user decide anew, or change servers. */
  ghost predicate UserRests(e: Event, s: Subject) {
    match e
    case Toggled(id, _) => id != s.id
    case LocallyDeleted(id) => id != s.id
    case SettingsSaved(sid) => sid == s.sid
    case _ => true
  }

  predicate IsAttempt(e: Event, sid: Sid, hash: Hash) {
    e.PushApplied? && e.sid == sid && e.push.hash == hash
  }

  /** An attempt that was copied from the row after the choice. */
  predicate IsCurrent(push: Push, s: Subject) {
    push.id == s.id && push.hash == s.hash && s.choice.stamp <= push.stamp
  }

  ghost predicate Calm(w: World, e: Event, s: Subject) {
    && LeavesAlone(w, e, s.sid, s.hash)
    && UserRests(e, s)
    && (IsAttempt(e, s.sid, s.hash) ==> IsCurrent(e.push, s))
  }

  ghost predicate CalmThroughout(w: World, events: seq<Event>, serial: bool, s: Subject)
    requires Possible(w, events, serial)
    decreases |events|
  {
    events == [] || (Calm(w, events[0], s) && CalmThroughout(Next(w, events[0]), events[1..], serial, s))
  }

  ghost predicate LeftAloneThroughout(w: World, events: seq<Event>, serial: bool, sid: Sid, hash: Hash)
    requires Possible(w, events, serial)
    decreases |events|
  {
    events == [] || (&& LeavesAlone(w, events[0], sid, hash)
                     && LeftAloneThroughout(Next(w, events[0]), events[1..], serial, sid, hash))
  }

  // ----- the server ---------------------------------------------------------------------------------

  /** The star of the last attempt about this content that the server applies. */
  function LastApplied(events: seq<Event>, sid: Sid, hash: Hash, starred: bool): bool
    decreases |events|
  {
    if events == [] then
      starred
    else
      LastApplied(events[1..], sid, hash, if IsAttempt(events[0], sid, hash) then events[0].push.starred else starred)
  }

  lemma CreateShows(s: Server, hash: Hash, payload: Payload, starred: bool, newId: Id, instant: nat)
    requires KeyedById(s.rows) && HashUnique(s.rows)
    ensures Shows(Create(s, hash, payload, Some(starred), newId, instant).rows, hash, starred)
  {
    var after := Create(s, hash, payload, Some(starred), newId, instant).rows;
    assert Target(s.rows, hash, newId) in after;
  }

  /** Writing about other content changes nothing here. */
  lemma CreateShowsStill(s: Server, hash: Hash, payload: Payload, starred: Option<bool>, newId: Id, instant: nat,
                         other: Hash, shown: bool)
    requires KeyedById(s.rows) && newId !in s.rows && hash != other && Shows(s.rows, other, shown)
    ensures Shows(Create(s, hash, payload, starred, newId, instant).rows, other, shown)
  {
    var id :| id in s.rows && s.rows[id].hash == other;
    var after := Create(s, hash, payload, starred, newId, instant).rows;
    assert id in after && after[id] == s.rows[id];
  }

  lemma StarShowsStill(s: Server, id: Id, starred: bool, instant: nat, other: Hash, shown: bool)
    requires KeyedById(s.rows) && id in s.rows && s.rows[id].hash != other && Shows(s.rows, other, shown)
    ensures Shows(Star(s, id, starred, instant).rows, other, shown)
  {
    var k :| k in s.rows && s.rows[k].hash == other;
    assert Star(s, id, starred, instant).rows[k] == s.rows[k];
  }

  lemma DeleteShowsStill(s: Server, id: Id, other: Hash, shown: bool)
    requires (id in s.rows ==> s.rows[id].hash != other) && Shows(s.rows, other, shown)
    ensures Shows(Delete(s, id).rows, other, shown)
  {
    var k :| k in s.rows && s.rows[k].hash == other;
    assert k in Delete(s, id).rows;
  }

  lemma ServerStep(w: World, e: Event, sid: Sid, hash: Hash, starred: bool)
    requires TablesInv(w) && Enabled(w, e) && sid in w.servers && Shows(w.servers[sid].rows, hash, starred)
    requires LeavesAlone(w, e, sid, hash)
    ensures sid in Next(w, e).servers
    ensures Shows(Next(w, e).servers[sid].rows, hash, if IsAttempt(e, sid, hash) then e.push.starred else starred)
  {
    if IsServerWrite(e) && e.sid == sid {
      ServerWriteStep(w, e, sid, hash, starred);
    } else {
      OtherServersStay(w, e, sid);
    }
  }

  lemma OtherServersStay(w: World, e: Event, sid: Sid)
    requires Enabled(w, e) && sid in w.servers && !(IsServerWrite(e) && e.sid == sid)
    ensures sid in Next(w, e).servers && Next(w, e).servers[sid] == w.servers[sid]
  {
  }

  lemma ServerWriteStep(w: World, e: Event, sid: Sid, hash: Hash, starred: bool)
    requires TablesInv(w) && Enabled(w, e) && sid in w.servers && Shows(w.servers[sid].rows, hash, starred)
    requires LeavesAlone(w, e, sid, hash) && IsServerWrite(e) && e.sid == sid
    ensures Shows(Next(w, e).servers[sid].rows, hash, if IsAttempt(e, sid, hash) then e.push.starred else starred)
  {
    var server := w.servers[sid];
    match e {
      case RemoteCreate(_, created, payload, remoteStarred, newId, instant) =>
        CreateShowsStill(server, created, payload, remoteStarred, newId, instant, hash, starred);
      case RemoteStar(_, id, star, instant) => StarShowsStill(server, id, star, instant, hash, starred);
      case RemoteDelete(_, id) => DeleteShowsStill(server, id, hash, starred);
      case PushApplied(push, _, payload, newId, instant) =>
        if push.hash == hash {
          CreateShows(server, hash, payload, push.starred, newId, instant);
        } else {
          CreateShowsStill(server, push.hash, payload, Some(push.starred), newId, instant, hash, starred);
        }
    }
  }

  /** While other clients leave the content alone, the server shows what the last attempt it applied carried. */
  lemma {:induction false} ServerShowsTheLastAttempt(w: World, events: seq<Event>, serial: bool, sid: Sid, hash: Hash,
                                                     starred: bool)
    requires CoverageInv(w) && Possible(w, events, serial) && LeftAloneThroughout(w, events, serial, sid, hash)
    requires sid in w.servers && Shows(w.servers[sid].rows, hash, starred)
    ensures sid in Run(w, events, serial).servers
    ensures Shows(Run(w, events, serial).servers[sid].rows, hash, LastApplied(events, sid, hash, starred))
    decreases |events|
  {
    if events != [] {
      ServerStep(w, events[0], sid, hash, starred);
      CoverageKept(w, events[0]);
      ServerShowsTheLastAttempt(Next(w, events[0]), events[1..], serial, sid, hash,
                                if IsAttempt(events[0], sid, hash) then events[0].push.starred else starred);
    }
  }

  // ----- the device ---------------------------------------------------------------------------------

  /** A pull in flight reads that server. What it has read shows the choice, or cannot reach the row any more. */
  ghost predicate PullIsHarmless(w: World, s: Subject, serial: bool) {
    && (HasServer(w.dev.pass) ==> SidOf(w.dev.pass) == s.sid)
    && (w.dev.pass.Ingesting? ==>
          || (serial && s.id in w.dev.rows && !w.dev.rows[s.id].synced)
          || forall r | r in w.dev.pass.page && r.hash == s.hash :: r.starred == s.choice.starred)
  }

  /** Device and server show the choice. */
  ghost predicate Kept(w: World, s: Subject) {
    && w.dev.config == s.sid && s.sid in w.servers
    && s.id in w.dev.rows && w.dev.rows[s.id].hash == s.hash && w.dev.rows[s.id].starred == s.choice.starred
    && s.id in w.hist.choices && w.hist.choices[s.id] == s.choice
    && Shows(w.servers[s.sid].rows, s.hash, s.choice.starred)
  }

  lemma ServerKeepsChoice(w: World, e: Event, s: Subject)
    requires TablesInv(w) && OutboxInv(w) && Enabled(w, e) && Calm(w, e, s) && Kept(w, s)
    ensures s.sid in Next(w, e).servers && Shows(Next(w, e).servers[s.sid].rows, s.hash, s.choice.starred)
  {
    ServerStep(w, e, s.sid, s.hash, s.choice.starred);
  }

  /** What ingestion does to a row whose content it ingests, or does not. */
  lemma WriteKeepsChoice(rows: D.LocalRows, remote: Row, known: bool, answer: D.BlobAnswer, now: nat, s: Subject)
    requires D.HashUnique(rows) && s.id in rows && rows[s.id].hash == s.hash && rows[s.id].starred == s.choice.starred
    requires remote.payload.ImageWithoutBlob? ==> !answer.Got?
    requires remote.hash == s.hash ==> !rows[s.id].synced || remote.starred == s.choice.starred
    requires D.Write(rows, remote, known, answer, now).Done?
    ensures var after := D.Write(rows, remote, known, answer, now).rows;
            s.id in after && after[s.id] == rows[s.id]
  {
  }

  /** The row still shows the choice, and the choice is the last one. */
  ghost predicate RowStays(after: World, s: Subject) {
    && s.id in after.dev.rows && after.dev.rows[s.id].hash == s.hash
    && after.dev.rows[s.id].starred == s.choice.starred
    && s.id in after.hist.choices && after.hist.choices[s.id] == s.choice
  }

  lemma EntryDoneKeepsChoice(w: World, rows: D.LocalRows, failed: bool, now: nat, s: Subject, serial: bool)
    requires w.dev.pass.Ingesting? && w.dev.pass.next < |w.dev.pass.page|
    requires Kept(w, s) && PullIsHarmless(w, s, serial) && s.id in rows && rows[s.id] == w.dev.rows[s.id]
    ensures var after := EntryDoneOn(w, rows, failed, now);
            RowStays(after, s) && PullIsHarmless(after, s, serial)
  {
  }

  lemma IngestKeepsChoice(w: World, e: Event, s: Subject, serial: bool)
    requires TablesInv(w) && PageInv(w) && Enabled(w, e) && e.EntryIngested?
    requires Kept(w, s) && PullIsHarmless(w, s, serial)
    ensures RowStays(Next(w, e), s) && PullIsHarmless(Next(w, e), s, serial)
  {
    var pass := w.dev.pass;
    var remote := pass.page[pass.next];
    assert remote in pass.page;
    if !AtWatermark(pass.walk, remote.key) {
      var ingested := D.Write(w.dev.rows, remote, pass.known.GetOr(false), e.answer, e.now);
      if ingested.Done? {
        WriteKeepsChoice(w.dev.rows, remote, pass.known.GetOr(false), e.answer, e.now, s);
      }
      EntryDoneKeepsChoice(w, if ingested.Done? then ingested.rows else w.dev.rows, ingested.Failed?, e.now, s, serial);
    }
  }

  lemma UserKeepsRow(w: World, e: Event, s: Subject)
    requires TablesInv(w) && Enabled(w, e) && UserRests(e, s) && Kept(w, s)
    requires e.Captured? || e.Toggled? || e.LocallyDeleted?
    ensures RowStays(Next(w, e), s) && (!w.dev.rows[s.id].synced ==> !Next(w, e).dev.rows[s.id].synced)
  {
  }

  lemma PushesKeepRow(w: World, e: Event, s: Subject)
    requires TablesInv(w) && Enabled(w, e) && Kept(w, s)
    requires e.Snapshot? || e.PushApplied? || e.PushAcked?
    ensures RowStays(Next(w, e), s)
    ensures !e.PushAcked? && !w.dev.rows[s.id].synced ==> !Next(w, e).dev.rows[s.id].synced
  {
  }

  lemma OtherEventsKeepRow(w: World, e: Event, s: Subject)
    requires TablesInv(w) && Enabled(w, e) && !e.EntryIngested? && UserRests(e, s) && Kept(w, s)
    ensures RowStays(Next(w, e), s)
    ensures !e.PushAcked? && !w.dev.rows[s.id].synced ==> !Next(w, e).dev.rows[s.id].synced
  {
    if !ChangesOutbox(e) {
      OtherEventsKeepOutbox(w, e);
    } else if e.Captured? || e.Toggled? || e.LocallyDeleted? {
      UserKeepsRow(w, e, s);
    } else {
      PushesKeepRow(w, e, s);
    }
  }

  lemma ConfigStays(w: World, e: Event)
    requires Enabled(w, e) && (e.SettingsSaved? ==> e.sid == w.dev.config)
    ensures Next(w, e).dev.config == w.dev.config
  {
  }

  /** In runs that keep pushes and pulls apart nothing is acknowledged during a pull. */
  ghost predicate StarInvIf(w: World, serial: bool) {
    serial ==> StarInv(w)
  }

  /** A page that arrives shows the choice as the server does. */
  lemma ArrivalStaysHarmless(w: World, e: Event, s: Subject, serial: bool)
    requires TablesInv(w) && Enabled(w, e) && e.PageArrived? && Kept(w, s) && PullIsHarmless(w, s, serial)
    ensures PullIsHarmless(Next(w, e), s, serial)
  {
    var rows := w.servers[s.sid].rows;
    forall r | r in e.page && r.hash == s.hash
      ensures r.starred == s.choice.starred
    {
      assert exists id :: id in rows && rows[id] == r;
    }
  }

  lemma PullStaysHarmless(w: World, e: Event, s: Subject, serial: bool)
    requires TablesInv(w) && StarInvIf(w, serial) && Enabled(w, e) && UserRests(e, s) && Kept(w, s)
    requires !e.EntryIngested? && !e.PageArrived? && PullIsHarmless(w, s, serial)
    ensures PullIsHarmless(Next(w, e), s, serial)
  {
    OtherEventsKeepRow(w, e, s);
  }

  lemma ChoiceStep(w: World, e: Event, s: Subject, serial: bool)
    requires CoverageInv(w) && OutboxInv(w) && StarInvIf(w, serial) && Enabled(w, e) && Calm(w, e, s)
    requires Kept(w, s) && PullIsHarmless(w, s, serial)
    ensures Kept(Next(w, e), s) && PullIsHarmless(Next(w, e), s, serial)
  {
    ServerKeepsChoice(w, e, s);
    ConfigStays(w, e);
    if e.EntryIngested? {
      IngestKeepsChoice(w, e, s, serial);
    } else {
      OtherEventsKeepRow(w, e, s);
      if e.PageArrived? {
        ArrivalStaysHarmless(w, e, s, serial);
      } else {
        PullStaysHarmless(w, e, s, serial);
      }
    }
  }

  lemma {:induction false} ChoiceSurvivesCalm(w: World, events: seq<Event>, serial: bool, s: Subject)
    requires CoverageInv(w) && OutboxInv(w) && StarInvIf(w, serial)
    requires Possible(w, events, serial) && CalmThroughout(w, events, serial, s)
    requires Kept(w, s) && PullIsHarmless(w, s, serial)
    ensures Kept(Run(w, events, serial), s)
    decreases |events|
  {
    if events != [] {
      ChoiceStep(w, events[0], s, serial);
      CoverageKept(w, events[0]);
      OutboxKept(w, events[0]);
      if serial {
        StarsKept(w, events[0]);
      }
      ChoiceSurvivesCalm(Next(w, events[0]), events[1..], serial, s);
    }
  }

  // ----- the attempt that delivers the choice -----------------------------------------------------------

  /** The configured server applies an attempt that carries the last choice about a row in the outbox. */
  ghost predicate Delivers(w: World, e: Event, s: Subject) {
    && Enabled(w, e) && IsAttempt(e, s.sid, s.hash) && IsCurrent(e.push, s) && w.dev.config == s.sid
    && s.id in w.dev.rows && !w.dev.rows[s.id].synced
    && s.id in w.hist.choices && w.hist.choices[s.id] == s.choice
  }

  lemma DeliveryShows(w: World, e: Event, s: Subject)
    requires TablesInv(w) && OutboxInv(w) && Delivers(w, e, s)
    ensures s.sid in Next(w, e).servers && Shows(Next(w, e).servers[s.sid].rows, s.hash, s.choice.starred)
    ensures s.sid in w.servers && e.push.starred == s.choice.starred
  {
    assert e.push.starred == s.choice.starred;
    CreateShows(w.servers[s.sid], s.hash, e.payload, e.push.starred, e.newId, e.instant);
  }

  lemma DeliveryIsKept(w: World, e: Event, s: Subject, serial: bool)
    requires TablesInv(w) && OutboxInv(w) && Delivers(w, e, s) && PullIsHarmless(w, s, serial)
    ensures Kept(Next(w, e), s) && PullIsHarmless(Next(w, e), s, serial)
  {
    DeliveryShows(w, e, s);
  }
}
