/** Concrete runs of the protocol, built event by event, and the beginning that two of them share. */
module SyncRuns {
  import opened Options
  import opened ServerTable
  import opened SyncProtocol
  import D = DeviceTable

  ghost predicate MayHappen(w: World, e: Event, serial: bool) {
    Enabled(w, e) && (serial ==> Serial(w, e))
  }

  /** The state a run ends in, if every event is possible in turn. */
  ghost function RunFrom(w: World, events: seq<Event>, serial: bool): Option<World>
    decreases |events|
  {
    if events == [] then
      Some(w)
    else if MayHappen(w, events[0], serial) then
      RunFrom(Next(w, events[0]), events[1..], serial)
    else
      None
  }

  lemma {:induction false} RunFromIsARun(w: World, events: seq<Event>, serial: bool)
    requires RunFrom(w, events, serial).Some?
    ensures Possible(w, events, serial) && Some(Run(w, events, serial)) == RunFrom(w, events, serial)
    decreases |events|
  {
    if events != [] {
      RunFromIsARun(Next(w, events[0]), events[1..], serial);
    }
  }

  /** A run of the sync loop is a run. */
  lemma {:induction false} SerialIsPossible(w: World, events: seq<Event>)
    requires RunFrom(w, events, true).Some?
    ensures RunFrom(w, events, false) == RunFrom(w, events, true)
    decreases |events|
  {
    if events != [] {
      SerialIsPossible(Next(w, events[0]), events[1..]);
    }
  }

  lemma {:induction false} Extend(w: World, events: seq<Event>, at: World, e: Event, serial: bool)
    requires RunFrom(w, events, serial) == Some(at) && MayHappen(at, e, serial)
    ensures RunFrom(w, events + [e], serial) == Some(Next(at, e))
    decreases |events|
  {
    if events == [] {
      assert events + [e] == [e] && [e][1..] == [];
    } else {
      assert (events + [e])[1..] == events[1..] + [e];
      Extend(Next(w, events[0]), events[1..], at, e, serial);
    }
  }

  const FRESH := PullState(0, false, None)

  /** No entry has been handled, no reset has happened, and no watermark was ever stored. */
  ghost function NoPullYet(choices: map<Id, Choice>, sent: set<Push>, applied: set<Push>,
                           contents: map<Id, Hash>): History {
    History({}, false, 0, 0, None, None, false, false, choices, sent, applied, contents)
  }

  // ----- the device captures content 7 and a server takes it -------------------------------------------

  const PUSH := Push(0, 1, 7, false, 1)

  ghost function Empty(): World {
    World(map[0 := Server(map[], Key(0, 0))], Device(map[], 0, FRESH, None, Idle, {}, None, 0),
          NoPullYet(map[], {}, {}, map[]))
  }

  /** Captured, and possibly on its way to the server. */
  ghost function Unshared(waiting: set<Push>, batch: Option<Sid>): World {
    World(map[0 := Server(map[], Key(0, 0))],
          Device(map[1 := D.LocalRow(7, false, false, 1)], 0, FRESH, None, Idle, waiting, batch, 1),
          NoPullYet(map[1 := Choice(1, false)], waiting, {}, map[1 := 7]))
  }

  ghost function ServerRow(payload: Payload, instant: nat, starred: bool): Row {
    Row(Key(instant, 2), 7, starred, payload)
  }

  ghost function OneRow(row: Row): map<Sid, Server> {
    map[0 := Server(map[2 := row], row.key)]
  }

  /** On the server, with the acknowledgement on its way or taken. */
  ghost function Shared(row: Row, synced: bool, waiting: set<Push>, batch: Option<Sid>): World {
    World(OneRow(row),
          Device(map[1 := D.LocalRow(7, false, synced, 1)], 0, FRESH, None, Idle, waiting, batch, 1),
          NoPullYet(map[1 := Choice(1, false)], {PUSH}, {PUSH}, map[1 := 7, 2 := 7]))
  }

  lemma CaptureStep()
    ensures MayHappen(Empty(), Captured(7, 1, 1), true) && Next(Empty(), Captured(7, 1, 1)) == Unshared({}, None)
  {
  }

  lemma SnapshotStep()
    ensures MayHappen(Unshared({}, None), Snapshot(1), true)
    ensures Next(Unshared({}, None), Snapshot(1)) == Unshared({PUSH}, None)
  {
  }

  lemma PushStep(payload: Payload)
    ensures var e := PushApplied(PUSH, 0, payload, 2, 1);
            && MayHappen(Unshared({PUSH}, Some(0)), e, true)
            && Next(Unshared({PUSH}, Some(0)), e) == Shared(ServerRow(payload, 1, false), false, {PUSH}, Some(0))
  {
    var w, row := Unshared({PUSH}, Some(0)), ServerRow(payload, 1, false);
    assert Find(w.servers[0].rows, 7) == None;
    assert w.servers[0].rows[2 := row] == map[2 := row];
    assert w.servers[0 := Server(map[2 := row], row.key)] == OneRow(row);
    assert {} + {PUSH} == {PUSH};
    assert map[1 := 7][2 := 7] == map[1 := 7, 2 := 7];
  }

  /** The first four events of two runs. */
  lemma ContentIsShared(payload: Payload) returns (events: seq<Event>)
    ensures RunFrom(Empty(), events, true) == Some(Shared(ServerRow(payload, 1, false), false, {PUSH}, Some(0)))
  {
    CaptureStep();
    SnapshotStep();
    PushStep(payload);
    events := [];
    Extend(Empty(), events, Empty(), Captured(7, 1, 1), true);
    events := events + [Captured(7, 1, 1)];
    Extend(Empty(), events, Unshared({}, None), Snapshot(1), true);
    events := events + [Snapshot(1)];
    Extend(Empty(), events, Unshared({PUSH}, None), PushSettingsRead, true);
    events := events + [PushSettingsRead];
    Extend(Empty(), events, Unshared({PUSH}, Some(0)), PushApplied(PUSH, 0, payload, 2, 1), true);
    events := events + [PushApplied(PUSH, 0, payload, 2, 1)];
  }

  /** Another client stars it. */
  lemma StarStep(payload: Payload, synced: bool, waiting: set<Push>, batch: Option<Sid>)
    ensures var w := Shared(ServerRow(payload, 1, false), synced, waiting, batch);
            && MayHappen(w, RemoteStar(0, 2, true, 2), true)
            && Next(w, RemoteStar(0, 2, true, 2)) == Shared(ServerRow(payload, 2, true), synced, waiting, batch)
  {
    var row, starred := ServerRow(payload, 1, false), ServerRow(payload, 2, true);
    assert map[2 := row][2 := starred] == map[2 := starred];
    assert OneRow(row)[0 := Server(map[2 := starred], starred.key)] == OneRow(starred);
  }

  // ----- a pull of a server with one row ----------------------------------------------------------------

  ghost function At(w: World, pass: Pass): World {
    w.(dev := w.dev.(pass := pass))
  }

  /** The state in which a pull that begins now has read the watermark. */
  ghost function Begun(w: World): World {
    var walk := BeginWalk(w.dev.pull.generation, w.dev.config, w.dev.pull);
    At(w.(hist := w.hist.(passEpoch := w.hist.epoch)), Fetching(walk))
  }

  lemma GenerationStep(w: World, serial: bool)
    requires w.dev.pass.Idle? && (serial ==> w.dev.waiting == {} && w.dev.batch.None?)
    ensures MayHappen(w, GenerationRead, serial)
    ensures Next(w, GenerationRead)
         == At(w.(hist := w.hist.(passEpoch := w.hist.epoch)), Started(w.dev.pull.generation))
  {
  }

  lemma SettingsStep(w: World, generation: nat, serial: bool)
    requires w.dev.pass == Started(generation)
    ensures MayHappen(w, PullSettingsRead, serial)
    ensures Next(w, PullSettingsRead) == At(w, Configured(generation, w.dev.config))
  {
  }

  lemma WatermarkStep(w: World, generation: nat, sid: Sid, serial: bool)
    requires w.dev.pass == Configured(generation, sid)
    ensures MayHappen(w, WatermarkRead, serial)
    ensures Next(w, WatermarkRead) == At(w, Fetching(BeginWalk(generation, sid, w.dev.pull)))
  {
  }

  lemma PullBegins(w0: World, events: seq<Event>, w: World, serial: bool) returns (more: seq<Event>)
    requires RunFrom(w0, events, serial) == Some(w) && w.dev.pass.Idle?
    requires serial ==> w.dev.waiting == {} && w.dev.batch.None?
    ensures RunFrom(w0, more, serial) == Some(Begun(w))
    ensures more == events + [GenerationRead, PullSettingsRead, WatermarkRead]
  {
    var generation := w.dev.pull.generation;
    var begun := w.(hist := w.hist.(passEpoch := w.hist.epoch));
    GenerationStep(w, serial);
    Extend(w0, events, w, GenerationRead, serial);
    more := events + [GenerationRead];
    SettingsStep(At(begun, Started(generation)), generation, serial);
    Extend(w0, more, At(begun, Started(generation)), PullSettingsRead, serial);
    more := more + [PullSettingsRead];
    WatermarkStep(At(begun, Configured(generation, w.dev.config)), generation, w.dev.config, serial);
    Extend(w0, more, At(begun, Configured(generation, w.dev.config)), WatermarkRead, serial);
    more := more + [WatermarkRead];
  }

  /** The only row of the server fills the page. */
  lemma PageOfOne(w0: World, events: seq<Event>, w: World, row: Row, serial: bool) returns (more: seq<Event>)
    requires RunFrom(w0, events, serial) == Some(w)
    requires w.dev.pass.Fetching? && w.dev.pass.walk.cursor.None? && w.dev.pass.walk.newest.None?
    requires w.dev.pass.walk.sid in w.servers
    requires w.servers[w.dev.pass.walk.sid] == Server(map[row.key.id := row], row.key)
    ensures RunFrom(w0, more, serial) ==
            Some(At(w, Ingesting(w.dev.pass.walk.(newest := Some(row.key)), [row], 0, false, row.key, None)))
    ensures more == events + [PageArrived([row])]
  {
    var walk := w.dev.pass.walk;
    var rows := w.servers[walk.sid].rows;
    assert Below(rows, None) == {row.key.id};
    assert IsPage(rows, None, ClampLimit(walk.pageSize), [row]);
    Extend(w0, events, w, PageArrived([row]), serial);
    more := events + [PageArrived([row])];
  }
}
