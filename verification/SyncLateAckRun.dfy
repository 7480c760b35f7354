/**
 Why star agreement needs pushes and pulls kept apart, whatever kind of entry a pull ingests: an acknowledgement
 that arrives after a pull has seen the server's newer star marks the row as synced with the older one.
 */
module SyncLateAckRun {
  import opened Options
  import opened ServerTable
  import opened SyncProtocol
  import opened SyncRuns
  import D = DeviceTable

  /** A server took the push, another client starred the entry, and the acknowledgement is still on its way. */
  ghost function Waiting(payload: Payload): World {
    Shared(ServerRow(payload, 2, true), false, {PUSH}, Some(0))
  }

  const SEEN := BeginWalk(0, 0, FRESH).(newest := Some(Key(2, 2)))

  ghost function AtEntry(payload: Payload, known: Option<bool>): World {
    At(Waiting(payload), Ingesting(SEEN, [ServerRow(payload, 2, true)], 0, false, Key(2, 2), known))
  }

  /** The pending row kept its own star; the entry counts as handled. */
  ghost function Handled(payload: Payload): World {
    var w := At(Waiting(payload), Finishing(SEEN));
    w.(dev := w.dev.(clock := 2), hist := w.hist.(handled := {Visit(0, Key(2, 2))}))
  }

  ghost function Acknowledged(payload: Payload): World {
    var w := FinishOn(Handled(payload), true);
    w.(dev := w.dev.(rows := map[1 := D.LocalRow(7, false, true, 1)], waiting := {}))
  }

  lemma LookUpStep(payload: Payload)
    requires !payload.ImageWithoutBlob?
    ensures MayHappen(AtEntry(payload, None), EntryLookedUp, false)
    ensures Next(AtEntry(payload, None), EntryLookedUp) == AtEntry(payload, Some(true))
  {
    assert AtEntry(payload, None).dev.rows[1].hash == 7;
  }

  lemma IngestStep(payload: Payload)
    requires !payload.ImageWithoutBlob?
    ensures MayHappen(AtEntry(payload, Some(true)), EntryIngested(D.Gone, 2), false)
    ensures Next(AtEntry(payload, Some(true)), EntryIngested(D.Gone, 2)) == Handled(payload)
  {
    var rows := AtEntry(payload, None).dev.rows;
    assert D.ApplyRemoteStar(rows, 7, true, 2) == rows;
    assert {} + {Visit(0, Key(2, 2))} == {Visit(0, Key(2, 2))};
  }

  lemma LateAckStep(payload: Payload)
    ensures MayHappen(FinishOn(Handled(payload), true), PushAcked(PUSH), false)
    ensures Next(FinishOn(Handled(payload), true), PushAcked(PUSH)) == Acknowledged(payload)
  {
    assert {PUSH} - {PUSH} == {};
    var pending, synced := D.LocalRow(7, false, false, 1), D.LocalRow(7, false, true, 1);
    assert map[1 := pending][1 := synced] == map[1 := synced];
  }

  lemma Starred(payload: Payload) returns (events: seq<Event>)
    ensures RunFrom(Empty(), events, false) == Some(Waiting(payload))
  {
    events := ContentIsShared(payload);
    SerialIsPossible(Empty(), events);
    StarStep(payload, false, {PUSH}, Some(0));
    var w := Shared(ServerRow(payload, 1, false), false, {PUSH}, Some(0));
    Extend(Empty(), events, w, RemoteStar(0, 2, true, 2), false);
    events := events + [RemoteStar(0, 2, true, 2)];
  }

  lemma Fetched(payload: Payload) returns (events: seq<Event>)
    ensures RunFrom(Empty(), events, false) == Some(AtEntry(payload, None))
  {
    events := Starred(payload);
    events := PullBegins(Empty(), events, Waiting(payload), false);
    events := PageOfOne(Empty(), events, Begun(Waiting(payload)), ServerRow(payload, 2, true), false);
  }

  lemma Ingested(payload: Payload) returns (events: seq<Event>)
    requires !payload.ImageWithoutBlob?
    ensures RunFrom(Empty(), events, false) == Some(Handled(payload))
  {
    events := Fetched(payload);
    LookUpStep(payload);
    Extend(Empty(), events, AtEntry(payload, None), EntryLookedUp, false);
    events := events + [EntryLookedUp];
    IngestStep(payload);
    Extend(Empty(), events, AtEntry(payload, Some(true)), EntryIngested(D.Gone, 2), false);
    events := events + [EntryIngested(D.Gone, 2)];
  }

  /** The row is synced and unstarred, its server entry is starred and at the watermark. */
  lemma LateAckDisagrees(payload: Payload) returns (w: World, events: seq<Event>)
    requires !payload.ImageWithoutBlob?
    ensures RunFrom(Empty(), events, false) == Some(w)
    ensures w.dev.config == 0 && w.servers == OneRow(ServerRow(payload, 2, true))
    ensures w.dev.rows == map[1 := D.LocalRow(7, false, true, 1)]
    ensures w.dev.pull.watermark == Some(Key(2, 2)) && !w.hist.changing && !w.hist.restored
  {
    w := Acknowledged(payload);
    events := Ingested(payload);
    Extend(Empty(), events, Handled(payload), PassFinished(true), false);
    events := events + [PassFinished(true)];
    LateAckStep(payload);
    Extend(Empty(), events, FinishOn(Handled(payload), true), PushAcked(PUSH), false);
    events := events + [PushAcked(PUSH)];
  }
}
