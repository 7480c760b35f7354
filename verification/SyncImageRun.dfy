/**
 A run of the sync loop after which the device and the server disagree about a star for good: an image reached
 the server without its blob, so pulling it skips it.
 */
module SyncImageRun {
  import opened Options
  import opened ServerTable
  import opened SyncProtocol
  import opened SyncRuns
  import D = DeviceTable

  const IMAGE := Row(Key(2, 2), 7, true, ImageWithoutBlob)

  /** Pushed, acknowledged, and starred by another client. */
  ghost function Pushed(row: Row): World {
    Shared(row, true, {}, None)
  }

  const SEEN := BeginWalk(0, 0, FRESH).(newest := Some(Key(2, 2)))

  ghost function Skipped(): World {
    var w := At(Pushed(IMAGE), Finishing(SEEN));
    w.(dev := w.dev.(clock := 2), hist := w.hist.(handled := {Visit(0, Key(2, 2))}))
  }

  lemma AckStep(row: Row)
    requires row == ServerRow(ImageWithoutBlob, 1, false)
    ensures MayHappen(Shared(row, false, {PUSH}, Some(0)), PushAcked(PUSH), true)
    ensures Next(Shared(row, false, {PUSH}, Some(0)), PushAcked(PUSH)) == Shared(row, true, {}, Some(0))
  {
    assert {PUSH} - {PUSH} == {};
    var pending, synced := D.LocalRow(7, false, false, 1), D.LocalRow(7, false, true, 1);
    assert map[1 := pending][1 := synced] == map[1 := synced];
  }

  lemma ImageShared() returns (events: seq<Event>)
    ensures RunFrom(Empty(), events, true) == Some(Pushed(IMAGE))
  {
    var row := ServerRow(ImageWithoutBlob, 1, false);
    events := ContentIsShared(ImageWithoutBlob);
    AckStep(row);
    Extend(Empty(), events, Shared(row, false, {PUSH}, Some(0)), PushAcked(PUSH), true);
    events := events + [PushAcked(PUSH)];
    Extend(Empty(), events, Shared(row, true, {}, Some(0)), BatchEnded, true);
    events := events + [BatchEnded];
    StarStep(ImageWithoutBlob, true, {}, None);
    Extend(Empty(), events, Pushed(row), RemoteStar(0, 2, true, 2), true);
    events := events + [RemoteStar(0, 2, true, 2)];
  }

  lemma SkipStep()
    ensures MayHappen(AtImage(), EntryIngested(D.Gone, 2), true)
    ensures Next(AtImage(), EntryIngested(D.Gone, 2)) == Skipped()
  {
    assert {} + {Visit(0, Key(2, 2))} == {Visit(0, Key(2, 2))};
  }

  ghost function AtImage(): World {
    At(Pushed(IMAGE), Ingesting(SEEN, [IMAGE], 0, false, Key(2, 2), None))
  }

  lemma ImageFetched() returns (events: seq<Event>)
    ensures RunFrom(Empty(), events, true) == Some(AtImage())
  {
    events := ImageShared();
    events := PullBegins(Empty(), events, Pushed(IMAGE), true);
    events := PageOfOne(Empty(), events, Begun(Pushed(IMAGE)), IMAGE, true);
  }

  /** The device captures and pushes the image, another client stars it, and a pull skips it and moves on. */
  lemma ImageSkipped() returns (w: World, events: seq<Event>)
    ensures RunFrom(Empty(), events, true) == Some(w)
    ensures w.dev.config == 0 && w.servers == OneRow(IMAGE) && w.dev.rows == map[1 := D.LocalRow(7, false, true, 1)]
    ensures w.dev.pull.watermark == Some(Key(2, 2)) && !w.hist.changing && !w.hist.restored
  {
    w := FinishOn(Skipped(), true);
    events := ImageFetched();
    SkipStep();
    Extend(Empty(), events, AtImage(), EntryIngested(D.Gone, 2), true);
    events := events + [EntryIngested(D.Gone, 2)];
    Extend(Empty(), events, Skipped(), PassFinished(true), true);
    events := events + [PassFinished(true)];
  }
}
