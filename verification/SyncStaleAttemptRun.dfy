/**
 A run of the sync loop in which no other client writes, and still the user's last choice is lost: the request of an
 attempt whose reply was given up reaches the server after a newer attempt was acknowledged.
 */
module SyncStaleAttemptRun {
  import opened Options
  import opened ServerTable
  import opened SyncProtocol
  import opened SyncRuns
  import D = DeviceTable

  /** The attempt that carries the user's star; `PUSH` was copied before it. */
  const STARRING := Push(1, 1, 7, true, 2)

  const CHOICE := Choice(2, true)

  /** The user has starred the captured row. */
  ghost function Starred(servers: map<Sid, Server>, synced: bool, waiting: set<Push>, sent: set<Push>,
                         applied: set<Push>, batch: Option<Sid>, contents: map<Id, Hash>): World {
    World(servers, Device(map[1 := D.LocalRow(7, true, synced, 2)], 0, FRESH, None, Idle, waiting, batch, 2),
          NoPullYet(map[1 := CHOICE], sent, applied, contents))
  }

  const NOTHING := Server(map[], Key(0, 0))

  ghost function Toggling(waiting: set<Push>, sent: set<Push>): World {
    Starred(map[0 := NOTHING], false, waiting, sent, {}, Some(0), map[1 := 7])
  }

  ghost function Taken(row: Row, synced: bool, waiting: set<Push>, applied: set<Push>, batch: Option<Sid>): World {
    Starred(OneRow(row), synced, waiting, {PUSH, STARRING}, applied, batch, map[1 := 7, 2 := 7])
  }

  const NEW := Row(Key(1, 2), 7, true, Plain)
  const OLD := Row(Key(2, 2), 7, false, Plain)

  /** The older attempt was applied after the newer one was acknowledged. */
  ghost function Overwritten(): World {
    Taken(OLD, true, {}, {PUSH, STARRING}, None)
  }

  const SEEN := BeginWalk(0, 0, FRESH).(newest := Some(Key(2, 2)))

  ghost function AtEntry(known: Option<bool>): World {
    At(Overwritten(), Ingesting(SEEN, [OLD], 0, false, Key(2, 2), known))
  }

  /** The device has taken the older star over. */
  ghost function TakenOver(): World {
    var w := At(Overwritten(), Finishing(SEEN));
    w.(dev := w.dev.(rows := map[1 := D.LocalRow(7, false, true, 3)], clock := 3),
       hist := w.hist.(handled := {Visit(0, Key(2, 2))}))
  }

  lemma DropStep()
    ensures MayHappen(Unshared({PUSH}, Some(0)), PushDropped(PUSH), true)
    ensures var w := Unshared({PUSH}, Some(0));
            Next(w, PushDropped(PUSH)) == w.(dev := w.dev.(waiting := {}))
  {
    assert {PUSH} - {PUSH} == {};
  }

  lemma ToggleStep()
    ensures var w := Unshared({PUSH}, Some(0));
            var given := w.(dev := w.dev.(waiting := {}));
            MayHappen(given, Toggled(1, 2), true) && Next(given, Toggled(1, 2)) == Toggling({}, {PUSH})
  {
    var pending := D.LocalRow(7, false, false, 1);
    assert map[1 := pending][1 := D.LocalRow(7, true, false, 2)] == map[1 := D.LocalRow(7, true, false, 2)];
    assert map[1 := Choice(1, false)][1 := CHOICE] == map[1 := CHOICE];
  }

  lemma CopyStep()
    ensures MayHappen(Toggling({}, {PUSH}), Snapshot(1), true)
    ensures Next(Toggling({}, {PUSH}), Snapshot(1)) == Toggling({STARRING}, {PUSH, STARRING})
  {
    assert |{PUSH}| == 1;
    assert {} + {STARRING} == {STARRING} && {PUSH} + {STARRING} == {PUSH, STARRING};
  }

  lemma DeliverStep()
    ensures var w := Toggling({STARRING}, {PUSH, STARRING});
            var e := PushApplied(STARRING, 0, Plain, 2, 1);
            MayHappen(w, e, true) && Next(w, e) == Taken(NEW, false, {STARRING}, {STARRING}, Some(0))
  {
    assert Find(NOTHING.rows, 7) == None;
    assert map[][2 := NEW] == map[2 := NEW] && {} + {STARRING} == {STARRING};
    assert map[0 := NOTHING][0 := Server(map[2 := NEW], NEW.key)] == OneRow(NEW);
    assert map[1 := 7][2 := 7] == map[1 := 7, 2 := 7];
  }

  lemma AckStep()
    ensures var w := Taken(NEW, false, {STARRING}, {STARRING}, Some(0));
            && MayHappen(w, PushAcked(STARRING), true)
            && Next(w, PushAcked(STARRING)) == Taken(NEW, true, {}, {STARRING}, Some(0))
  {
    assert {STARRING} - {STARRING} == {};
    var pending, synced := D.LocalRow(7, true, false, 2), D.LocalRow(7, true, true, 2);
    assert map[1 := pending][1 := synced] == map[1 := synced];
  }

  /** Serial runs allow this: nobody awaits the reply any more. */
  lemma LateStep()
    ensures var w, e := Taken(NEW, true, {}, {STARRING}, None), PushApplied(PUSH, 0, Plain, 3, 2);
            MayHappen(w, e, true) && Next(w, e) == Overwritten()
  {
    var w := Taken(NEW, true, {}, {STARRING}, None);
    assert w.servers[0].rows[2].hash == 7 && Find(w.servers[0].rows, 7) == Some(2);
    assert map[2 := NEW][2 := OLD] == map[2 := OLD] && {STARRING} + {PUSH} == {PUSH, STARRING};
    assert OneRow(NEW)[0 := Server(map[2 := OLD], OLD.key)] == OneRow(OLD);
    assert map[1 := 7, 2 := 7][2 := 7] == map[1 := 7, 2 := 7];
  }

  lemma LookUpStep()
    ensures MayHappen(AtEntry(None), EntryLookedUp, true) && Next(AtEntry(None), EntryLookedUp) == AtEntry(Some(true))
  {
    assert AtEntry(None).dev.rows[1].hash == 7;
  }

  lemma TakeOverStep()
    ensures MayHappen(AtEntry(Some(true)), EntryIngested(D.Gone, 3), true)
    ensures Next(AtEntry(Some(true)), EntryIngested(D.Gone, 3)) == TakenOver()
  {
    var rows := AtEntry(None).dev.rows;
    assert rows[1].hash == 7 && D.Find(rows, 7) == Some(1);
    assert D.ApplyRemoteStar(rows, 7, false, 3) == map[1 := D.LocalRow(7, false, true, 3)];
    assert {} + {Visit(0, Key(2, 2))} == {Visit(0, Key(2, 2))};
  }

  /** No other client writes. */
  predicate OwnEvent(e: Event) {
    !e.RemoteCreate? && !e.RemoteStar? && !e.RemoteDelete?
  }

  predicate OwnEvents(events: seq<Event>) {
    forall i | 0 <= i < |events| :: OwnEvent(events[i])
  }

  /** One more event of this device. */
  lemma Then(events: seq<Event>, at: World, e: Event) returns (more: seq<Event>)
    requires RunFrom(Empty(), events, true) == Some(at) && MayHappen(at, e, true)
    requires OwnEvents(events) && OwnEvent(e)
    ensures RunFrom(Empty(), more, true) == Some(Next(at, e)) && OwnEvents(more)
  {
    Extend(Empty(), events, at, e, true);
    more := events + [e];
  }

  /** The first attempt's reply is given up. */
  lemma GivenUp() returns (events: seq<Event>)
    ensures RunFrom(Empty(), events, true) == Some(Toggling({}, {PUSH})) && OwnEvents(events)
  {
    CaptureStep();
    SnapshotStep();
    events := Then([], Empty(), Captured(7, 1, 1));
    events := Then(events, Unshared({}, None), Snapshot(1));
    events := Then(events, Unshared({PUSH}, None), PushSettingsRead);
    DropStep();
    events := Then(events, Unshared({PUSH}, Some(0)), PushDropped(PUSH));
    ToggleStep();
    var w := Unshared({PUSH}, Some(0));
    events := Then(events, w.(dev := w.dev.(waiting := {})), Toggled(1, 2));
  }

  lemma Delivered() returns (events: seq<Event>)
    ensures RunFrom(Empty(), events, true) == Some(Taken(NEW, true, {}, {STARRING}, Some(0))) && OwnEvents(events)
  {
    events := GivenUp();
    CopyStep();
    events := Then(events, Toggling({}, {PUSH}), Snapshot(1));
    DeliverStep();
    events := Then(events, Toggling({STARRING}, {PUSH, STARRING}), PushApplied(STARRING, 0, Plain, 2, 1));
    AckStep();
    events := Then(events, Taken(NEW, false, {STARRING}, {STARRING}, Some(0)), PushAcked(STARRING));
  }

  lemma AppliedLate() returns (events: seq<Event>)
    ensures RunFrom(Empty(), events, true) == Some(Overwritten()) && OwnEvents(events)
  {
    events := Delivered();
    events := Then(events, Taken(NEW, true, {}, {STARRING}, Some(0)), BatchEnded);
    LateStep();
    events := Then(events, Taken(NEW, true, {}, {STARRING}, None), PushApplied(PUSH, 0, Plain, 3, 2));
  }

  lemma OlderStarFetched() returns (events: seq<Event>)
    ensures RunFrom(Empty(), events, true) == Some(AtEntry(None)) && OwnEvents(events)
  {
    events := AppliedLate();
    events := PullBegins(Empty(), events, Overwritten(), true);
    events := PageOfOne(Empty(), events, Begun(Overwritten()), OLD, true);
  }

  lemma OlderStarTakenOver() returns (events: seq<Event>)
    ensures RunFrom(Empty(), events, true) == Some(TakenOver()) && OwnEvents(events)
  {
    events := OlderStarFetched();
    LookUpStep();
    events := Then(events, AtEntry(None), EntryLookedUp);
    TakeOverStep();
    events := Then(events, AtEntry(Some(true)), EntryIngested(D.Gone, 3));
  }

  /** Neither the server nor the device shows the user's last choice, and nothing is left to push. */
  lemma StaleAttemptWins() returns (w: World, events: seq<Event>)
    ensures RunFrom(Empty(), events, true) == Some(w) && OwnEvents(events)
    ensures 1 in w.hist.choices && w.hist.choices[1] == Choice(2, true)
    ensures w.dev.rows == map[1 := D.LocalRow(7, false, true, 3)] && w.dev.waiting == {}
    ensures w.dev.config == 0 && 0 in w.servers && w.servers[0].rows == map[2 := OLD]
  {
    w := TakenOver();
    events := OlderStarTakenOver();
  }
}
