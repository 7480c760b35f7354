/** The guarantees of the synchronisation protocol, for every run from a fresh installation. */
module SyncSafety {
  import opened Options
  import opened ServerTable
  import opened SyncProtocol
  import opened SyncInvariants
  import opened SyncCoverage
  import opened SyncStars
  import opened SyncOutbox
  import opened SyncLastChoice
  import opened SyncRuns
  import ImageRun = SyncImageRun
  import LateAckRun = SyncLateAckRun
  import RestartRun = SyncRestartRun
  import StaleRun = SyncStaleAttemptRun
  import D = DeviceTable

  /** A state some run from a fresh installation ends in; `serial` runs keep pushes and pulls apart. */
  ghost predicate Reachable(w: World, serial: bool) {
    exists w0, events :: Init(w0) && Possible(w0, events, serial) && Run(w0, events, serial) == w
  }

  // ----- the watermark --------------------------------------------------------------------------

  /**
   The watermark, and every watermark it builds on, was written by a pull that began after the latest reset and
   the last of them read the configured server; every entry at or below it was handed to ingestion, at the key it
   has now, since that reset.
   */
  ghost predicate Accounts(w: World)
    requires w.dev.config in w.servers && w.dev.pull.watermark.Some?
  {
    && w.hist.origin == Some(Origin(w.hist.epoch, w.dev.config))
    && Covered(w.servers[w.dev.config].rows, w.dev.config, w.dev.pull.watermark.value, w.hist.handled)
  }

  /**
   While no change of servers is half done, the watermark in memory accounts for the configured server, exactly
   unless this process started from a stored watermark that outlived a reset. Server writes may fall anywhere in a
   pull, pulls may be abandoned anywhere, and saving a watermark may fail at any time.
   */
  lemma WatermarkMeansHandledExactly(w: World, serial: bool)
    requires Reachable(w, serial)
    ensures w.dev.config in w.servers
    ensures w.dev.pull.watermark.Some? && !w.hist.changing ==> (Accounts(w) <==> !w.hist.restored)
  {
    var w0, events :| Init(w0) && Possible(w0, events, serial) && Run(w0, events, serial) == w;
    InitiallyCovered(w0);
    CoverageOverRuns(w0, events, serial);
  }

  /**
   Across a restart the guarantee survives exactly when the stored watermark did not outlive the latest reset: its
   clearing succeeded, or a pull of a process that was reset has saved over it since.
   */
  lemma RestartKeepsTheAccountExactly(w: World, serial: bool)
    requires Reachable(w, serial) && !w.hist.changing && w.dev.disk.Some?
    ensures w.dev.config in w.servers
    ensures Accounts(Next(w, Restarted)) <==> !w.hist.uncleared
  {
    var w0, events :| Init(w0) && Possible(w0, events, serial) && Run(w0, events, serial) == w;
    InitiallyCovered(w0);
    CoverageOverRuns(w0, events, serial);
    CoverageKept(w, Restarted);
  }

  /** From a reset to the end of the process the watermark in memory is sound, whether or not clearing succeeded. */
  lemma {:induction false} SoundUntilRestart(w: World, events: seq<Event>, serial: bool)
    requires !w.hist.restored && Possible(w, events, serial) && forall e | e in events :: !e.Restarted?
    ensures !Run(w, events, serial).hist.restored
    decreases |events|
  {
    if events != [] {
      assert events[0] in events && forall e | e in events[1..] :: e in events;
      SoundUntilRestart(Next(w, events[0]), events[1..], serial);
    }
  }

  /** And it takes a failed clear to lose it at all. */
  lemma {:induction false} SoundWhileClearsSucceed(w: World, events: seq<Event>, serial: bool)
    requires !w.hist.restored && !w.hist.uncleared && Possible(w, events, serial)
    requires forall e | e in events && e.CursorReset? :: e.cleared
    ensures !Run(w, events, serial).hist.restored && !Run(w, events, serial).hist.uncleared
    decreases |events|
  {
    if events != [] {
      assert events[0] in events && forall e | e in events[1..] :: e in events;
      SoundWhileClearsSucceed(Next(w, events[0]), events[1..], serial);
    }
  }

  /** No pull is in flight, and an entry of the configured server at or below the watermark is not on the device. */
  ghost predicate HidesAnEntry(w: World) {
    && w.dev.config in w.servers && w.dev.pull.watermark.Some? && w.dev.pass.Idle?
    && exists id :: && id in w.servers[w.dev.config].rows
                    && w.servers[w.dev.config].rows[id].key.Le(w.dev.pull.watermark.value)
                    && !D.Knows(w.dev.rows, w.servers[w.dev.config].rows[id].hash)
                    && Visit(w.dev.config, w.servers[w.dev.config].rows[id].key) !in w.hist.handled
  }

  /**
   Both exceptions occur, and cost entries: the watermark outlived a reset whose clear failed, or the process died
   between the save of the new server and the reset (`died`), which leaves the change half done for good.
   */
  lemma OldWatermarkHidesEntries(died: bool)
    ensures exists w :: Reachable(w, true) && w.hist.changing == died && HidesAnEntry(w)
  {
    var w, events := RestartRun.OldWatermarkHidesEntries(died);
    RunFromIsARun(RestartRun.Start(), events, true);
    assert Reachable(w, true);
    assert 2 in w.servers[1].rows && w.servers[1].rows[2] == RestartRun.OLDER;
    assert HidesAnEntry(w);
  }

  /** A row is in the outbox, or some server took a push that carried the user's last choice about it. */
  lemma NothingLeavesTheOutboxUndelivered(w: World, serial: bool)
    requires Reachable(w, serial)
    ensures forall id | id in w.dev.rows && id in w.hist.choices ::
              if w.dev.rows[id].synced then
                Delivered(w.hist.applied, id, w.dev.rows[id].hash, w.hist.choices[id])
              else
                w.dev.rows[id].starred == w.hist.choices[id].starred
  {
    var w0, events :| Init(w0) && Possible(w0, events, serial) && Run(w0, events, serial) == w;
    InitiallyCovered(w0);
    OutboxOverRuns(w0, events, serial);
  }

  /**
   What the user chose stays. From the moment the configured server applies an attempt that carries the last choice
   about a pending row, both the server and the device show it, as long as no other client decides about the content,
   the user does not decide anew or change servers, and no attempt older than the choice is applied. A pull in flight
   must read that server; outside the loop body it must not have read an older state of the entry already.
   */
  lemma LastChoiceSurvives(w: World, e: Event, events: seq<Event>, serial: bool, s: Subject)
    requires Reachable(w, serial) && MayHappen(w, e, serial) && Delivers(w, e, s) && PullIsHarmless(w, s, serial)
    requires Possible(Next(w, e), events, serial) && CalmThroughout(Next(w, e), events, serial, s)
    ensures var after := Run(Next(w, e), events, serial);
            && s.id in after.dev.rows && after.dev.rows[s.id].starred == s.choice.starred
            && s.sid in after.servers && Shows(after.servers[s.sid].rows, s.hash, s.choice.starred)
  {
    ReachableIsSound(w, serial);
    DeliveryIsKept(w, e, s, serial);
    CoverageKept(w, e);
    OutboxKept(w, e);
    if serial {
      StarsKept(w, e);
    }
    ChoiceSurvivesCalm(Next(w, e), events, serial, s);
  }

  /**
   On the server exactly: once it shows the choice, it does so later if and only if the last attempt about the content
   that it has applied since, if any, carries that star.
   */
  lemma LastChoiceIsShownExactly(w: World, events: seq<Event>, serial: bool, sid: Sid, hash: Hash, starred: bool)
    requires Reachable(w, serial) && sid in w.servers && Shows(w.servers[sid].rows, hash, starred)
    requires Possible(w, events, serial) && LeftAloneThroughout(w, events, serial, sid, hash)
    ensures var after := Run(w, events, serial);
            && sid in after.servers
            && (Shows(after.servers[sid].rows, hash, starred) <==> LastApplied(events, sid, hash, starred) == starred)
  {
    ReachableIsTidy(w, serial);
    ServerShowsTheLastAttempt(w, events, serial, sid, hash, starred);
  }

  /** The condition about older attempts is needed, in the loop body too: without other clients a choice gets lost. */
  lemma StaleAttemptLosesTheChoice()
    ensures exists events, w :: && RunFrom(Empty(), events, true) == Some(w) && StaleRun.OwnEvents(events)
                                && Reachable(w, true) && LosesAChoice(w)
  {
    var w, events := StaleRun.StaleAttemptWins();
    RunFromIsARun(Empty(), events, true);
    assert Reachable(w, true);
    assert w.dev.rows[1].hash == w.servers[w.dev.config].rows[2].hash;
    assert LosesAChoice(w);
  }

  /** A row that is not in the outbox shows another star than the user chose last, and so does the server. */
  ghost predicate LosesAChoice(w: World) {
    && w.dev.config in w.servers
    && exists a, b :: && a in w.dev.rows && a in w.hist.choices && b in w.servers[w.dev.config].rows
                      && w.dev.rows[a].hash == w.servers[w.dev.config].rows[b].hash
                      && w.dev.rows[a].synced && w.dev.rows[a].starred != w.hist.choices[a].starred
                      && w.servers[w.dev.config].rows[b].starred != w.hist.choices[a].starred
  }

  lemma ReachableIsTidy(w: World, serial: bool)
    requires Reachable(w, serial)
    ensures CoverageInv(w) && OutboxInv(w)
  {
    var w0, events :| Init(w0) && Possible(w0, events, serial) && Run(w0, events, serial) == w;
    InitiallyCovered(w0);
    OutboxOverRuns(w0, events, serial);
  }

  lemma ReachableIsSound(w: World, serial: bool)
    requires Reachable(w, serial)
    ensures CoverageInv(w) && OutboxInv(w) && (serial ==> StarInv(w))
  {
    ReachableIsTidy(w, serial);
    if serial {
      var w0, events :| Init(w0) && Possible(w0, events, true) && Run(w0, events, true) == w;
      InitiallyCovered(w0);
      StarsOverRuns(w0, events);
    }
  }

  /** However often a push is retried, late or applied twice, a server holds one row per content. */
  lemma OneRowPerContent(w: World, serial: bool)
    requires Reachable(w, serial)
    ensures D.HashUnique(w.dev.rows)
    ensures forall sid | sid in w.servers :: HashUnique(w.servers[sid].rows)
  {
    var w0, events :| Init(w0) && Possible(w0, events, serial) && Run(w0, events, serial) == w;
    InitiallyCovered(w0);
    CoverageOverRuns(w0, events, serial);
  }

  // ----- stars ----------------------------------------------------------------------------------

  /**
   Synced rows whose server entry has this payload and lies at or below a watermark that accounts for the server
   have its star.
   */
  ghost predicate StarsAgree(w: World, payload: Payload) {
    w.dev.config in w.servers && !w.hist.changing && !w.hist.restored && w.dev.pull.watermark.Some? ==>
      var rows := w.servers[w.dev.config].rows;
      forall a, b | a in w.dev.rows && b in rows && w.dev.rows[a].synced && w.dev.rows[a].hash == rows[b].hash ::
        rows[b].payload == payload && rows[b].key.Le(w.dev.pull.watermark.value) ==>
          w.dev.rows[a].starred == rows[b].starred
  }

  lemma StarsAgreeInRuns(w: World, payload: Payload)
    requires Reachable(w, true) && !payload.ImageWithoutBlob?
    ensures StarsAgree(w, payload)
  {
    var w0, events :| Init(w0) && Possible(w0, events, true) && Run(w0, events, true) == w;
    InitiallyCovered(w0);
    StarsOverRuns(w0, events);
  }

  /** An image whose server row has no blob is skipped by ingestion even when the device has the image. */
  lemma SkippedImageDisagrees(serial: bool)
    ensures exists w :: Reachable(w, serial) && !StarsAgree(w, ImageWithoutBlob)
  {
    var w, events := ImageRun.ImageSkipped();
    SerialIsPossible(Empty(), events);
    RunFromIsARun(Empty(), events, serial);
    assert Reachable(w, serial);
    assert w.servers[0].rows[2] == ImageRun.IMAGE && w.dev.rows[1].hash == ImageRun.IMAGE.hash;
    assert !StarsAgree(w, ImageWithoutBlob);
  }

  /** Without keeping pushes and pulls apart it fails for every other kind: an acknowledgement may come too late. */
  lemma LateAcknowledgementDisagrees(payload: Payload)
    requires !payload.ImageWithoutBlob?
    ensures exists w :: Reachable(w, false) && !StarsAgree(w, payload)
  {
    var w, events := LateAckRun.LateAckDisagrees(payload);
    RunFromIsARun(Empty(), events, false);
    assert Reachable(w, false);
    assert w.servers[0].rows[2] == ServerRow(payload, 2, true) && w.dev.rows[1].hash == 7;
    assert !StarsAgree(w, payload);
  }

  /**
   Star agreement, exactly: it holds in every run that keeps pushes and pulls apart, for every kind of entry but
   images whose server row has no blob, and for no kind of entry in all runs.
   */
  lemma StarsAgreeExactly(payload: Payload, serial: bool)
    ensures (forall w | Reachable(w, serial) :: StarsAgree(w, payload)) <==> serial && !payload.ImageWithoutBlob?
  {
    if payload.ImageWithoutBlob? {
      SkippedImageDisagrees(serial);
    } else if !serial {
      LateAcknowledgementDisagrees(payload);
    } else {
      forall w | Reachable(w, true)
        ensures StarsAgree(w, payload)
      {
        StarsAgreeInRuns(w, payload);
      }
    }
  }
}
