/**
 Runs in which the process restarts from the watermark of the old server after the user changed servers: either
 clearing it failed, or the process died before the reset. It hides the entries of the new server.
 */
module SyncRestartRun {
  import opened Options
  import opened ServerTable
  import opened SyncProtocol
  import opened SyncRuns
  import D = DeviceTable

  const NEWER := Row(Key(2, 1), 7, false, Plain)
  const OLDER := Row(Key(1, 2), 8, false, Plain)

  ghost function Servers(): map<Sid, Server> {
    map[0 := Server(map[1 := NEWER], NEWER.key), 1 := Server(map[2 := OLDER], OLDER.key)]
  }

  /** A fresh device, configured for server 0. */
  ghost function Start(): World {
    World(Servers(), Device(map[], 0, FRESH, None, Idle, {}, None, 0), NoPullYet(map[], {}, {}, map[1 := 7, 2 := 8]))
  }

  const SEEN := BeginWalk(0, 0, FRESH).(newest := Some(Key(2, 1)))

  ghost function AtEntry(known: Option<bool>): World {
    At(Start(), Ingesting(SEEN, [NEWER], 0, false, Key(2, 1), known))
  }

  /** The entry of server 0 is stored. */
  ghost function Stored(): World {
    var w := At(Start(), Finishing(SEEN));
    w.(dev := w.dev.(rows := map[1 := D.LocalRow(7, false, true, 2)], clock := 3),
       hist := w.hist.(handled := {Visit(0, Key(2, 1))}))
  }

  /** The pull of server 0 saved its watermark. */
  ghost function Pulled(): World {
    var w := At(Stored(), Idle);
    w.(dev := w.dev.(pull := PullState(0, true, Some(Key(2, 1))), disk := Some(Key(2, 1))),
       hist := w.hist.(origin := Some(Origin(0, 0)), diskOrigin := Some(Origin(0, 0))))
  }

  ghost function Switched(): World {
    var w := Pulled();
    w.(dev := w.dev.(config := 1), hist := w.hist.(changing := true))
  }

  /** Server 1 is configured, the reset is done, and the old watermark is still stored. */
  ghost function Reset(): World {
    var w := Switched();
    w.(dev := w.dev.(pull := PullState(1, false, None)),
       hist := w.hist.(handled := {}, changing := false, epoch := 1, origin := None, uncleared := true))
  }

  /** The process starts again, from the old watermark: after the reset, or after it `died` without one. */
  ghost function Reopened(died: bool): World {
    var w := if died then Switched() else Reset();
    w.(dev := w.dev.(pull := PullState(0, true, Some(Key(2, 1)))),
       hist := w.hist.(origin := Some(Origin(0, 0)), restored := !died))
  }

  const PROBE := BeginWalk(0, 1, PullState(0, true, Some(Key(2, 1)))).(newest := Some(Key(1, 2)))

  /** A pull of server 1 is at the given point. */
  ghost function Probing(died: bool, pass: Pass): World {
    var w := Reopened(died);
    At(w.(hist := w.hist.(passEpoch := w.hist.epoch)), pass)
  }

  ghost function AtOlder(died: bool): World {
    Probing(died, Ingesting(PROBE, [OLDER], 0, false, Key(1, 2), None))
  }

  lemma LookUpStep()
    ensures MayHappen(AtEntry(None), EntryLookedUp, true) && Next(AtEntry(None), EntryLookedUp) == AtEntry(Some(false))
  {
  }

  lemma StoreStep()
    ensures MayHappen(AtEntry(Some(false)), EntryIngested(D.Gone, 3), true)
    ensures Next(AtEntry(Some(false)), EntryIngested(D.Gone, 3)) == Stored()
  {
    assert map[][1 := D.LocalRow(7, false, true, 2)] == map[1 := D.LocalRow(7, false, true, 2)];
    assert {} + {Visit(0, Key(2, 1))} == {Visit(0, Key(2, 1))};
  }

  lemma SaveWatermarkStep()
    ensures MayHappen(Stored(), PassFinished(true), true) && Next(Stored(), PassFinished(true)) == Pulled()
  {
  }

  lemma SwitchStep()
    ensures MayHappen(Pulled(), SettingsSaved(1), true) && Next(Pulled(), SettingsSaved(1)) == Switched()
  {
  }

  lemma ResetStep()
    ensures MayHappen(Switched(), CursorReset(false), true) && Next(Switched(), CursorReset(false)) == Reset()
  {
  }

  lemma RestartStep(died: bool)
    ensures var w := if died then Switched() else Reset();
            MayHappen(w, Restarted, true) && Next(w, Restarted) == Reopened(died)
  {
  }

  /** The entry of server 1 lies below the old watermark, so the pull stops at it. */
  lemma StopStep(died: bool)
    ensures MayHappen(AtOlder(died), EntryIngested(D.Gone, 4), true)
    ensures Next(AtOlder(died), EntryIngested(D.Gone, 4)) == Probing(died, Finishing(PROBE))
  {
  }

  lemma GiveUpStep(died: bool)
    ensures MayHappen(Probing(died, Finishing(PROBE)), PassFinished(true), true)
    ensures Next(Probing(died, Finishing(PROBE)), PassFinished(true)) == Probing(died, Idle)
  {
  }

  lemma EntryFetched() returns (events: seq<Event>)
    ensures RunFrom(Start(), events, true) == Some(AtEntry(None))
  {
    events := PullBegins(Start(), [], Start(), true);
    events := PageOfOne(Start(), events, Begun(Start()), NEWER, true);
  }

  lemma EntryStored() returns (events: seq<Event>)
    ensures RunFrom(Start(), events, true) == Some(Stored())
  {
    events := EntryFetched();
    LookUpStep();
    Extend(Start(), events, AtEntry(None), EntryLookedUp, true);
    events := events + [EntryLookedUp];
    StoreStep();
    Extend(Start(), events, AtEntry(Some(false)), EntryIngested(D.Gone, 3), true);
    events := events + [EntryIngested(D.Gone, 3)];
  }

  lemma ServersSwitched() returns (events: seq<Event>)
    ensures RunFrom(Start(), events, true) == Some(Switched())
  {
    events := EntryStored();
    SaveWatermarkStep();
    Extend(Start(), events, Stored(), PassFinished(true), true);
    events := events + [PassFinished(true)];
    SwitchStep();
    Extend(Start(), events, Pulled(), SettingsSaved(1), true);
    events := events + [SettingsSaved(1)];
  }

  lemma ProcessRestarted(died: bool) returns (events: seq<Event>)
    ensures RunFrom(Start(), events, true) == Some(Reopened(died))
  {
    events := ServersSwitched();
    if !died {
      ResetStep();
      Extend(Start(), events, Switched(), CursorReset(false), true);
      events := events + [CursorReset(false)];
    }
    RestartStep(died);
    Extend(Start(), events, if died then Switched() else Reset(), Restarted, true);
    events := events + [Restarted];
  }

  lemma OlderFetched(died: bool) returns (events: seq<Event>)
    ensures RunFrom(Start(), events, true) == Some(AtOlder(died))
  {
    events := ProcessRestarted(died);
    events := PullBegins(Start(), events, Reopened(died), true);
    events := PageOfOne(Start(), events, Begun(Reopened(died)), OLDER, true);
  }

  lemma PullOver(died: bool) returns (events: seq<Event>)
    ensures RunFrom(Start(), events, true) == Some(Probing(died, Idle))
  {
    events := OlderFetched(died);
    StopStep(died);
    Extend(Start(), events, AtOlder(died), EntryIngested(D.Gone, 4), true);
    events := events + [EntryIngested(D.Gone, 4)];
    GiveUpStep(died);
    Extend(Start(), events, Probing(died, Finishing(PROBE)), PassFinished(true), true);
    events := events + [PassFinished(true)];
  }

  lemma StartIsFresh()
    ensures Init(Start())
  {
    assert forall sid | sid in Servers() :: ServerOk(Servers()[sid], map[1 := 7, 2 := 8]);
  }

  /** Even a complete pull of server 1 does not bring its entry to the device. */
  lemma OldWatermarkHidesEntries(died: bool) returns (w: World, events: seq<Event>)
    ensures RunFrom(Start(), events, true) == Some(w) && Init(Start())
    ensures w.dev.config == 1 && w.hist.changing == died && w.dev.pass.Idle?
    ensures w.dev.pull.watermark == Some(Key(2, 1)) && OLDER.key.Lt(Key(2, 1))
    ensures w.servers == Servers() && w.servers[1].rows[2] == OLDER && Visit(1, OLDER.key) !in w.hist.handled
    ensures w.dev.rows == map[1 := D.LocalRow(7, false, true, 2)]
  {
    w := Probing(died, Idle);
    events := PullOver(died);
    StartIsFresh();
  }
}
