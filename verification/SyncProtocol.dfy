/**
 The synchronisation protocol as a transition system: one device, any number of servers it may be configured
 for, other clients of those servers, and the user. Every event is one atomic step of the program (one storage
 transaction, one lock region, one message), so the interleavings are those of the real tasks.
 */
module SyncProtocol {
  import opened Options
  import opened ServerTable
  import D = DeviceTable

  /** A set of endpoints that reach one server. */
  type Sid = nat

  datatype PullState = PullState(generation: nat, initialized: bool, watermark: Option<Key>)

  /** The local variables of one run of `pull_new_entries`. */
  datatype Walk = Walk(
    generation: nat,
    sid: Sid,
    initialized: bool,
    watermark: Option<Key>,
    cursor: Option<Key>,
    pageSize: nat,
    newest: Option<Key>,
    failed: bool)

  /**
   Where a pull stands. `known` is what looking up the content of the next entry found, once it was looked up.
   `pageTop` is history: the server's largest key when it answered.
   */
  datatype Pass =
    | Idle
    | Started(generation: nat)
    | Configured(generation: nat, sid: Sid)
    | Fetching(walk: Walk)
    | Ingesting(walk: Walk, page: seq<Row>, next: nat, hasMore: bool, pageTop: Key, known: Option<bool>)
    | Finishing(walk: Walk)

  /** One attempt to push a row: the state copied from it, which a server may apply at any later time. */
  datatype Push = Push(attempt: nat, id: Id, hash: Hash, starred: bool, stamp: nat)

  /**
   `waiting` holds the attempts whose reply a task still awaits; `batch` is the server the running push batch
   read from the settings.
   */
  datatype Device = Device(
    rows: D.LocalRows,
    config: Sid,
    pull: PullState,
    disk: Option<Key>,
    pass: Pass,
    waiting: set<Push>,
    batch: Option<Sid>,
    clock: nat)

  datatype Visit = Visit(sid: Sid, key: Key)

  /** The user's last choice about a row: when, and which star state. */
  datatype Choice = Choice(stamp: nat, starred: bool)

  /**
   The account a watermark belongs to: the number of resets when the first of the pulls it builds on began, and
   the server the last of them read.
   */
  datatype Origin = Origin(since: nat, sid: Sid)

  /**
   What happened so far; no step of the program reads it.

   `handled`: server positions handed to ingestion without a transient error since the last cursor reset.
   `changing`: a change of servers was saved and its cursor reset has not happened.
   `epoch`: the number of resets. `passEpoch`: its value when the current pull began.
   `origin`, `diskOrigin`: the account of the watermark in memory and of the stored one.
   `uncleared`: the stored watermark survived the latest reset, or was built on one that did.
   `restored`: this process started from such a watermark and has not been reset since.
   */
  datatype History = History(
    handled: set<Visit>,
    changing: bool,
    epoch: nat,
    passEpoch: nat,
    origin: Option<Origin>,
    diskOrigin: Option<Origin>,
    uncleared: bool,
    restored: bool,
    choices: map<Id, Choice>,
    sent: set<Push>,
    applied: set<Push>,
    contents: map<Id, Hash>)

  datatype World = World(servers: map<Sid, Server>, dev: Device, hist: History)

  datatype Event =
    // other clients, through any server
    | RemoteCreate(sid: Sid, hash: Hash, payload: Payload, remoteStarred: Option<bool>, newId: Id, instant: nat)
    | RemoteStar(sid: Sid, id: Id, starred: bool, instant: nat)
    | RemoteDelete(sid: Sid, id: Id)
    // the user of this device
    | Captured(hash: Hash, newId: Id, now: nat)
    | Toggled(id: Id, now: nat)
    | LocallyDeleted(id: Id)
    // push tasks
    | Snapshot(id: Id)
    | PushSettingsRead
    | PushApplied(push: Push, sid: Sid, payload: Payload, newId: Id, instant: nat)
    | PushAcked(push: Push)
    | PushDropped(push: Push)
    | BatchEnded
    // the pull task
    | GenerationRead
    | PullSettingsRead
    | WatermarkRead
    | PageArrived(page: seq<Row>)
    | EntryLookedUp
    | EntryIngested(answer: D.BlobAnswer, now: nat)
    | PassFinished(saved: bool)
    | PassAbandoned
    // settings and process life
    | SettingsSaved(sid: Sid)
    | CursorReset(cleared: bool)
    | Restarted

  const PAGE_SIZE := 100
  const PROBE_PAGE_SIZE := 1

  // ----- the pull loop --------------------------------------------------------------------------

  /** The state `pull_new_entries` enters its loop with. */
  function BeginWalk(generation: nat, sid: Sid, pull: PullState): Walk {
    Walk(generation, sid, pull.initialized, pull.watermark, None,
         if pull.initialized && pull.watermark.Some? then PROBE_PAGE_SIZE else PAGE_SIZE, None, false)
  }

  /** A page came back: an empty one ends the loop, the first one fixes the newest position seen. */
  function TakePage(walk: Walk, page: seq<Row>, hasMore: bool, pageTop: Key): Pass {
    if page == [] then
      Finishing(walk)
    else
      Ingesting(if walk.newest.None? then walk.(newest := Some(page[0].key)) else walk, page, 0, hasMore, pageTop, None)
  }

  /** The entry was pulled already, and so was everything the walk would reach after it. */
  predicate AtWatermark(walk: Walk, key: Key) {
    walk.initialized && walk.watermark.Some? && key.Le(walk.watermark.value)
  }

  /** After an entry: the next one of the page, the next page, or the end. */
  function Advance(pass: Pass, failed: bool): Pass
    requires pass.Ingesting? && pass.next < |pass.page|
  {
    var walk := pass.walk.(failed := pass.walk.failed || failed);
    if pass.next + 1 < |pass.page| then
      pass.(walk := walk, next := pass.next + 1, known := None)
    else if pass.hasMore then
      Fetching(walk.(cursor := Some(pass.page[|pass.page| - 1].key), pageSize := PAGE_SIZE))
    else
      Finishing(walk)
  }

  /** The next entry is not done with before its content was looked up; an image without a blob has none yet. */
  predicate NeedsLookup(pass: Pass)
    requires pass.Ingesting? && pass.next < |pass.page|
  {
    !AtWatermark(pass.walk, pass.page[pass.next].key) && !pass.page[pass.next].payload.ImageWithoutBlob?
  }

  /** Whether a finished pull may write to the pull state at all: a reset since its start has voided it. */
  predicate MayCommit(generation: nat, newest: Option<Key>, failed: bool, pull: PullState) {
    newest.Some? && !failed && generation == pull.generation
  }

  /** Whether it moves the watermark: only forward. */
  predicate Advances(newest: Key, pull: PullState) {
    pull.watermark.None? || pull.watermark.value.Lt(newest)
  }

  function Commit(generation: nat, newest: Option<Key>, failed: bool, pull: PullState): PullState {
    if !MayCommit(generation, newest, failed, pull) then
      pull
    else if Advances(newest.value, pull) then
      pull.(watermark := newest, initialized := true)
    else
      pull.(initialized := true)
  }

  function ResetPull(pull: PullState): PullState {
    PullState(pull.generation + 1, false, None)
  }

  /** `SyncClient::new` */
  function RestorePull(disk: Option<Key>): PullState {
    PullState(0, disk.Some?, disk)
  }

  // ----- when an event can happen ---------------------------------------------------------------

  /**
   The assumptions of the model, event by event. A server's write gives its row a key above every key it ever
   handed out, new ids are unused, local timestamps increase, and a server has no blob for a row without one.
   */
  ghost predicate Enabled(w: World, e: Event) {
    match e
    case RemoteCreate(sid, hash, _, _, newId, instant) =>
      && sid in w.servers
      && newId !in w.hist.contents
      && w.servers[sid].top.Lt(Key(instant, Target(w.servers[sid].rows, hash, newId)))
    case RemoteStar(sid, id, _, instant) =>
      sid in w.servers && id in w.servers[sid].rows && w.servers[sid].top.Lt(Key(instant, id))
    case RemoteDelete(sid, id) => sid in w.servers
    case Captured(_, newId, now) => newId !in w.hist.contents && w.dev.clock < now
    case Toggled(id, now) => id in w.dev.rows && w.dev.clock < now
    case LocallyDeleted(_) => true
    case Snapshot(id) => id in w.dev.rows && !w.dev.rows[id].synced
    case PushSettingsRead => w.dev.batch.None?
    case PushApplied(push, sid, _, newId, instant) =>
      && push in w.hist.sent
      && sid in w.servers
      && newId !in w.hist.contents
      && w.servers[sid].top.Lt(Key(instant, Target(w.servers[sid].rows, push.hash, newId)))
    case PushAcked(push) => push in w.dev.waiting && push in w.hist.applied
    case PushDropped(push) => true
    case BatchEnded => w.dev.waiting == {}
    case GenerationRead => w.dev.pass.Idle?
    case PullSettingsRead => w.dev.pass.Started?
    case WatermarkRead => w.dev.pass.Configured?
    case PageArrived(page) =>
      && w.dev.pass.Fetching?
      && w.dev.pass.walk.sid in w.servers
      && var walk := w.dev.pass.walk;
         IsPage(w.servers[walk.sid].rows, walk.cursor, ClampLimit(walk.pageSize), page)
    case EntryLookedUp =>
      w.dev.pass.Ingesting? && w.dev.pass.next < |w.dev.pass.page| && NeedsLookup(w.dev.pass) && w.dev.pass.known.None?
    case EntryIngested(answer, now) =>
      && w.dev.pass.Ingesting?
      && w.dev.pass.next < |w.dev.pass.page|
      && (w.dev.pass.page[w.dev.pass.next].payload.ImageWithoutBlob? ==> !answer.Got?)
      && (NeedsLookup(w.dev.pass) ==> w.dev.pass.known.Some?)
      && w.dev.clock < now
    case PassFinished(_) => w.dev.pass.Finishing?
    case PassAbandoned => true
    case SettingsSaved(sid) => sid in w.servers
    case CursorReset(_) => true
    case Restarted => true
  }

  /** Steps of other clients that write to a server, the application of a push among them. */
  predicate IsServerWrite(e: Event) {
    e.RemoteCreate? || e.RemoteStar? || e.RemoteDelete? || e.PushApplied?
  }

  /** Steps of the user and of push tasks on the device. */
  predicate IsLocal(e: Event) {
    || e.Captured? || e.Toggled? || e.LocallyDeleted?
    || e.Snapshot? || e.PushSettingsRead? || e.PushAcked? || e.PushDropped? || e.BatchEnded?
  }

  /** Steps with which a pull begins, looks up, or ends without a commit. */
  predicate IsPassStep(e: Event) {
    e.GenerationRead? || e.PullSettingsRead? || e.WatermarkRead? || e.EntryLookedUp? || e.PassAbandoned?
  }

  /** Changes of settings, resets and restarts. */
  predicate IsSettingsStep(e: Event) {
    e.SettingsSaved? || e.CursorReset? || e.Restarted?
  }

  /** The loop body's order: a batch of pushes ends before a pull begins, and the other way round. */
  ghost predicate Serial(w: World, e: Event) {
    match e
    case GenerationRead => w.dev.waiting == {} && w.dev.batch.None?
    case Snapshot(_) => w.dev.pass.Idle?
    case PushSettingsRead => w.dev.pass.Idle?
    case PushApplied(push, sid, _, _, _) => push in w.dev.waiting ==> w.dev.batch == Some(sid)
    case _ => true
  }

  // ----- what an event does ---------------------------------------------------------------------

  ghost function OnServer(w: World, sid: Sid, s: Server): World {
    w.(servers := w.servers[sid := s])
  }

  ghost function Note(w: World, id: Id, hash: Hash): World {
    w.(hist := w.hist.(contents := w.hist.contents[id := hash]))
  }

  ghost function CreateOn(w: World, sid: Sid, hash: Hash, payload: Payload, starred: Option<bool>, newId: Id,
                          instant: nat): World
    requires sid in w.servers
  {
    var s := w.servers[sid];
    Note(OnServer(w, sid, Create(s, hash, payload, starred, newId, instant)), Target(s.rows, hash, newId), hash)
  }

  ghost function CaptureOn(w: World, hash: Hash, newId: Id, now: nat): World {
    var rows := D.Capture(w.dev.rows, hash, newId, now);
    var after := w.(dev := w.dev.(rows := rows, clock := now));
    if D.Find(w.dev.rows, hash).Some? then
      after
    else
      after.(hist := w.hist.(contents := w.hist.contents[newId := hash],
                             choices := w.hist.choices[newId := Choice(now, false)]))
  }

  ghost function ToggleOn(w: World, id: Id, now: nat): World
    requires id in w.dev.rows
  {
    w.(dev := w.dev.(rows := D.Toggle(w.dev.rows, id, now), clock := now),
       hist := w.hist.(choices := w.hist.choices[id := Choice(now, !w.dev.rows[id].starred)]))
  }

  ghost function SnapshotOn(w: World, id: Id): World
    requires id in w.dev.rows
  {
    var row := w.dev.rows[id];
    var push := Push(|w.hist.sent|, id, row.hash, row.starred, row.updated);
    w.(dev := w.dev.(waiting := w.dev.waiting + {push}), hist := w.hist.(sent := w.hist.sent + {push}))
  }

  /** One entry is done with; it counts as handled unless its ingestion failed. */
  ghost function EntryDoneOn(w: World, rows: D.LocalRows, failed: bool, now: nat): World
    requires w.dev.pass.Ingesting? && w.dev.pass.next < |w.dev.pass.page|
  {
    var pass := w.dev.pass;
    var visit := Visit(pass.walk.sid, pass.page[pass.next].key);
    w.(dev := w.dev.(rows := rows, pass := Advance(pass, failed), clock := now),
       hist := w.hist.(handled := if failed then w.hist.handled else w.hist.handled + {visit}))
  }

  ghost function LookUpOn(w: World): World
    requires w.dev.pass.Ingesting? && w.dev.pass.next < |w.dev.pass.page|
  {
    var pass := w.dev.pass;
    w.(dev := w.dev.(pass := pass.(known := Some(D.Knows(w.dev.rows, pass.page[pass.next].hash)))))
  }

  ghost function IngestOn(w: World, answer: D.BlobAnswer, now: nat): World
    requires w.dev.pass.Ingesting? && w.dev.pass.next < |w.dev.pass.page|
  {
    var pass := w.dev.pass;
    var remote := pass.page[pass.next];
    if AtWatermark(pass.walk, remote.key) then
      w.(dev := w.dev.(pass := Finishing(pass.walk)))
    else
      match D.Write(w.dev.rows, remote, pass.known.GetOr(false), answer, now)
      case Failed => EntryDoneOn(w, w.dev.rows, true, now)
      case Done(rows) => EntryDoneOn(w, rows, false, now)
  }

  predicate Moves(walk: Walk, pull: PullState) {
    MayCommit(walk.generation, walk.newest, walk.failed, pull) && Advances(walk.newest.value, pull)
  }

  /** The account of a watermark that this walk moves: the one it continues, or a new one. */
  function AccountOf(walk: Walk, passEpoch: nat, origin: Option<Origin>): Origin {
    Origin(if walk.watermark.Some? && origin.Some? then origin.value.since else passEpoch, walk.sid)
  }

  /** The commit. Saving the watermark may fail, which is only logged. */
  ghost function FinishOn(w: World, saved: bool): World
    requires w.dev.pass.Finishing?
  {
    var walk := w.dev.pass.walk;
    var pull := Commit(walk.generation, walk.newest, walk.failed, w.dev.pull);
    if !Moves(walk, w.dev.pull) then
      w.(dev := w.dev.(pull := pull, pass := Idle))
    else
      var origin := Some(AccountOf(walk, w.hist.passEpoch, w.hist.origin));
      var after := w.(dev := w.dev.(pull := pull, pass := Idle), hist := w.hist.(origin := origin));
      if saved then
        after.(dev := after.dev.(disk := walk.newest),
               hist := after.hist.(diskOrigin := origin, uncleared := w.hist.restored))
      else
        after
  }

  /** The reset. Clearing the stored watermark may fail, which is only logged. */
  ghost function ResetOn(w: World, cleared: bool): World {
    w.(dev := w.dev.(pull := ResetPull(w.dev.pull), disk := if cleared then None else w.dev.disk),
       hist := w.hist.(handled := {}, changing := false, epoch := w.hist.epoch + 1,
                       origin := None,
                       diskOrigin := if cleared then None else w.hist.diskOrigin,
                       uncleared := !cleared && w.dev.disk.Some?,
                       restored := false))
  }

  ghost function RestartOn(w: World): World {
    w.(dev := w.dev.(pull := RestorePull(w.dev.disk), pass := Idle, waiting := {}, batch := None),
       hist := w.hist.(origin := w.hist.diskOrigin, restored := w.hist.uncleared))
  }

  ghost function Next(w: World, e: Event): World
    requires Enabled(w, e)
  {
    match e
    case RemoteCreate(sid, hash, payload, starred, newId, instant) =>
      CreateOn(w, sid, hash, payload, starred, newId, instant)
    case RemoteStar(sid, id, starred, instant) =>
      OnServer(w, sid, Star(w.servers[sid], id, starred, instant))
    case RemoteDelete(sid, id) =>
      OnServer(w, sid, Delete(w.servers[sid], id))
    case Captured(hash, newId, now) => CaptureOn(w, hash, newId, now)
    case Toggled(id, now) => ToggleOn(w, id, now)
    case LocallyDeleted(id) =>
      w.(dev := w.dev.(rows := w.dev.rows - {id}), hist := w.hist.(choices := w.hist.choices - {id}))
    case Snapshot(id) => SnapshotOn(w, id)
    case PushSettingsRead => w.(dev := w.dev.(batch := Some(w.dev.config)))
    case PushApplied(push, sid, payload, newId, instant) =>
      var after := CreateOn(w, sid, push.hash, payload, Some(push.starred), newId, instant);
      after.(hist := after.hist.(applied := w.hist.applied + {push}))
    case PushAcked(push) =>
      w.(dev := w.dev.(rows := D.MarkSynced(w.dev.rows, push.id, push.stamp), waiting := w.dev.waiting - {push}))
    case PushDropped(push) => w.(dev := w.dev.(waiting := w.dev.waiting - {push}))
    case BatchEnded => w.(dev := w.dev.(batch := None))
    case GenerationRead =>
      w.(dev := w.dev.(pass := Started(w.dev.pull.generation)), hist := w.hist.(passEpoch := w.hist.epoch))
    case PullSettingsRead =>
      w.(dev := w.dev.(pass := Configured(w.dev.pass.generation, w.dev.config)))
    case WatermarkRead =>
      w.(dev := w.dev.(pass := Fetching(BeginWalk(w.dev.pass.generation, w.dev.pass.sid, w.dev.pull))))
    case PageArrived(page) =>
      var walk := w.dev.pass.walk;
      var s := w.servers[walk.sid];
      w.(dev := w.dev.(pass := TakePage(walk, page, HasMore(s.rows, walk.cursor, ClampLimit(walk.pageSize)), s.top)))
    case EntryLookedUp => LookUpOn(w)
    case EntryIngested(answer, now) => IngestOn(w, answer, now)
    case PassFinished(saved) => FinishOn(w, saved)
    case PassAbandoned => w.(dev := w.dev.(pass := Idle))
    case SettingsSaved(sid) =>
      w.(dev := w.dev.(config := sid), hist := w.hist.(changing := w.hist.changing || sid != w.dev.config))
    case CursorReset(cleared) => ResetOn(w, cleared)
    case Restarted => RestartOn(w)
  }

  // ----- runs -----------------------------------------------------------------------------------

  /** A fresh installation, next to servers with any history of their own. */
  ghost predicate Init(w: World) {
    && w.dev == Device(map[], w.dev.config, PullState(0, false, None), None, Idle, {}, None, w.dev.clock)
    && w.dev.config in w.servers
    && w.hist == History({}, false, 0, 0, None, None, false, false, map[], {}, {}, w.hist.contents)
    && (forall sid | sid in w.servers :: ServerOk(w.servers[sid], w.hist.contents))
  }

  /** Rows are keyed by id, hold distinct contents, and sit at or below the largest key handed out. */
  ghost predicate ServerOk(s: Server, contents: map<Id, Hash>) {
    && KeyedById(s.rows)
    && HashUnique(s.rows)
    && (forall id | id in s.rows :: s.rows[id].key.Le(s.top))
    && (forall id | id in s.rows :: id in contents && contents[id] == s.rows[id].hash)
  }

  ghost predicate Possible(w: World, events: seq<Event>, serial: bool)
    decreases |events|
  {
    events == [] || (&& Enabled(w, events[0])
                     && (serial ==> Serial(w, events[0]))
                     && Possible(Next(w, events[0]), events[1..], serial))
  }

  /** The state a run ends in. */
  ghost function Run(w: World, events: seq<Event>, serial: bool): World
    requires Possible(w, events, serial)
    decreases |events|
  {
    if events == [] then w else Run(Next(w, events[0]), events[1..], serial)
  }

  // ----- events and tables ------------------------------------------------------------------------

  /** What the steps of other clients leave on their server: one row stamped and starred, or one row less. */
  lemma ServerStepsTouchOneRow(w: World, e: Event)
    requires Enabled(w, e) && (e.RemoteStar? || e.RemoteDelete?) && KeyedById(w.servers[e.sid].rows)
    ensures var before: Rows := w.servers[e.sid].rows;
            var after := Next(w, e).servers[e.sid].rows;
            && Next(w, e).dev == w.dev
            && (forall sid | sid in w.servers && sid != e.sid :: Next(w, e).servers[sid] == w.servers[sid])
            && (e.RemoteDelete? ==> after == before - {e.id})
            && (e.RemoteStar? ==>
                  && after.Keys == before.Keys && after[e.id].starred == e.starred
                  && after[e.id].key == Key(e.instant, e.id) && after[e.id].hash == before[e.id].hash
                  && forall id | id in before && id != e.id :: after[id] == before[id])
  {
  }

  /** What the user's steps and an acknowledgement leave on the device; no server sees them. */
  lemma LocalStepsTouchOneRow(w: World, e: Event)
    requires Enabled(w, e) && (e.Toggled? || e.LocallyDeleted? || e.PushAcked?)
    ensures var before: D.LocalRows := w.dev.rows;
            var after := Next(w, e).dev.rows;
            && Next(w, e).servers == w.servers
            && (e.LocallyDeleted? ==> after == before - {e.id})
            && (e.Toggled? ==>
                  after == before[e.id := before[e.id].(starred := !before[e.id].starred, synced := false,
                                                        updated := e.now)])
            && (e.PushAcked? ==>
                  after == if e.push.id in before && before[e.push.id].updated == e.push.stamp
                           then before[e.push.id := before[e.push.id].(synced := true)] else before)
  {
  }
}
