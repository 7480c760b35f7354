/**
 Over every run of setups, logins, password changes, locks, restarts and crashes, `CryptoState` behaves like
 a box that remembers one password and one key.
 */
module CryptoSafety {
  import opened Options
  import opened Crypto

  /** `crash`: the process dies right after the file was replaced, and starts again from the file. */
  datatype Event =
    | SetupCall(password: Password, salt: Salt, nonce: Nonce, dek: Dek, written: bool, crash: bool)
    | VerifyCall(password: Password)
    | ChangeCall(oldPassword: Password, newPassword: Password, salt: Salt, nonce: Nonce, written: bool, crash: bool)
    | LockCall
    | Restart

  const FRESH := State(Missing, None, None, None)

  function Restarted(s: State): State {
    Load(s.file).GetOr(s)
  }

  function Next(s: State, e: Event): (State, Outcome) {
    match e
    case SetupCall(password, salt, nonce, dek, written, crash) =>
      var (after, outcome) := Setup(s, password, salt, nonce, dek, written);
      (if crash then Restarted(after) else after, outcome)
    case VerifyCall(password) => Verify(s, password)
    case ChangeCall(oldPassword, newPassword, salt, nonce, written, crash) =>
      var (after, outcome) := Change(s, oldPassword, newPassword, salt, nonce, written);
      (if crash then Restarted(after) else after, outcome)
    case LockCall => (Lock(s), Accepted)
    case Restart => (Restarted(s), Accepted)
  }

  // ----- the specification --------------------------------------------------------------------------

  /** `unlocked`: the key is at hand. */
  datatype Box = Empty | Holding(password: Password, dek: Dek, unlocked: bool)

  function Locked(b: Box): Box {
    if b.Holding? then b.(unlocked := false) else b
  }

  /**
   A setup and a login with the password unlock the box; so does a change that got past the old password, even if it
   then fails to write. A lock, a restart and a crash lock it.
   */
  function BoxNext(b: Box, e: Event): (Box, Outcome) {
    match e
    case SetupCall(password, _, _, dek, written, crash) =>
      if b.Empty? && written then
        (Holding(password, dek, !crash), Accepted)
      else
        (if crash then Locked(b) else b, Failed)
    case VerifyCall(password) =>
      if b.Empty? then (b, Failed)
      else if password == b.password then (b.(unlocked := true), Accepted)
      else (b, Refused)
    case ChangeCall(oldPassword, newPassword, _, _, written, crash) =>
      if b.Holding? && oldPassword == b.password then
        var after := b.(password := if written then newPassword else b.password, unlocked := !crash);
        (after, if written then Accepted else Failed)
      else
        (if crash then Locked(b) else b, Failed)
    case LockCall => (Locked(b), Accepted)
    case Restart => (Locked(b), Accepted)
  }

  /** The state after a run, with the outcome of every call. */
  function Run(s: State, events: seq<Event>): (State, seq<Outcome>) {
    if events == [] then
      (s, [])
    else
      var (before, outcomes) := Run(s, events[..|events| - 1]);
      var (after, outcome) := Next(before, events[|events| - 1]);
      (after, outcomes + [outcome])
  }

  function BoxRun(b: Box, events: seq<Event>): (Box, seq<Outcome>) {
    if events == [] then
      (b, [])
    else
      var (before, outcomes) := BoxRun(b, events[..|events| - 1]);
      var (after, outcome) := BoxNext(before, events[|events| - 1]);
      (after, outcomes + [outcome])
  }

  // ----- the refinement -------------------------------------------------------------------------------

  /** The file and memory agree, the stored keys are the password's, and key and digest are cached while unlocked. */
  ghost predicate Matches(s: State, b: Box) {
    match b
    case Empty => s == FRESH
    case Holding(password, dek, unlocked) =>
      && s.config.Some?
      && s.file == Stored(s.config.value)
      && s.config.value.salt.Some?
      && (exists nonce :: s.config.value == NewConfig(password, s.config.value.salt.value, nonce, dek))
      && s.dek == (if unlocked then Some(dek) else None)
      && s.cache == (if unlocked then Some(Sha256(password)) else None)
  }

  lemma StepMatches(s: State, b: Box, e: Event)
    requires Matches(s, b)
    ensures Matches(Next(s, e).0, BoxNext(b, e).0)
    ensures Next(s, e).1 == BoxNext(b, e).1
  {
    if e.SetupCall? {
      assert NewConfig(e.password, e.salt, e.nonce, e.dek) == NewConfig(e.password, e.salt, e.nonce, e.dek);
    } else if e.ChangeCall? && b.Holding? {
      assert NewConfig(e.newPassword, e.salt, e.nonce, b.dek) == NewConfig(e.newPassword, e.salt, e.nonce, b.dek);
    }
  }

  /** Every call of every run ends as the box says, and the box's key is the only one ever sealed or cached. */
  lemma {:induction false} CryptoRefinesBox(events: seq<Event>)
    ensures Run(FRESH, events).1 == BoxRun(Empty, events).1
    ensures Matches(Run(FRESH, events).0, BoxRun(Empty, events).0)
  {
    if events != [] {
      CryptoRefinesBox(events[..|events| - 1]);
      StepMatches(Run(FRESH, events[..|events| - 1]).0, BoxRun(Empty, events[..|events| - 1]).0, events[|events| - 1]);
    }
  }

  /** The key sealed in the file. */
  function SealedKey(s: State): Option<Dek> {
    if s.file.Stored? && s.file.config.box.Some? then Some(s.file.config.box.value.dek) else None
  }

  lemma {:induction false} BoxKeepsItsKey(b: Box, events: seq<Event>)
    requires b.Holding?
    ensures BoxRun(b, events).0.Holding? && BoxRun(b, events).0.dek == b.dek
  {
    if events != [] {
      BoxKeepsItsKey(b, events[..|events| - 1]);
    }
  }

  lemma {:induction false} BoxRunSplits(events: seq<Event>, more: seq<Event>)
    ensures BoxRun(Empty, events + more).0 == BoxRun(BoxRun(Empty, events).0, more).0
  {
    if more == [] {
      assert events + more == events;
    } else {
      BoxRunSplits(events, more[..|more| - 1]);
      assert (events + more)[..|events + more| - 1] == events + more[..|more| - 1];
    }
  }

  /** Once set up, the sealed key never changes, and whatever key is cached at any later time is that one. */
  lemma TheKeyNeverChanges(events: seq<Event>, more: seq<Event>)
    requires SealedKey(Run(FRESH, events).0).Some?
    ensures var later := Run(FRESH, events + more).0;
            && SealedKey(later) == SealedKey(Run(FRESH, events).0)
            && (later.dek.Some? ==> later.dek == SealedKey(later))
  {
    CryptoRefinesBox(events);
    CryptoRefinesBox(events + more);
    BoxRunSplits(events, more);
    BoxKeepsItsKey(BoxRun(Empty, events).0, more);
  }

  /** In every reachable state both paths accept exactly the current password, and leave the key unlocked. */
  lemma BothPathsAcceptExactlyThePassword(events: seq<Event>, password: Password)
    requires BoxRun(Empty, events).0.Holding?
    ensures var (s, box) := (Run(FRESH, events).0, BoxRun(Empty, events).0);
            && s.config.Some?
            && (s.cache.Some? ==> (FastPath(s, password) <==> password == box.password))
            && (SlowPath(s, s.config.value, password).1 == Accepted <==> password == box.password)
            && SlowPath(s, s.config.value, password).1 != Failed
            && (Verify(s, password).1 == Accepted <==> password == box.password)
            && (Verify(s, password).1 == Accepted ==> Verify(s, password).0.dek == Some(box.dek))
  {
    CryptoRefinesBox(events);
  }

  /** A change refused for a wrong old password leaves everything, the unlocked session included, as it was. */
  lemma WrongOldPasswordChangesNothing(events: seq<Event>, oldPassword: Password, newPassword: Password, salt: Salt,
                                       nonce: Nonce, written: bool)
    requires var box := BoxRun(Empty, events).0; box.Holding? ==> oldPassword != box.password
    ensures var s := Run(FRESH, events).0; Change(s, oldPassword, newPassword, salt, nonce, written) == (s, Failed)
  {
    CryptoRefinesBox(events);
  }

  /** The key is at hand exactly while the box is unlocked, and the cached digest with it. */
  lemma KeyIsAtHandExactly(events: seq<Event>)
    ensures var (s, box) := (Run(FRESH, events).0, BoxRun(Empty, events).0);
            (s.dek.Some? <==> box.Holding? && box.unlocked) && (s.cache.Some? <==> s.dek.Some?)
  {
    CryptoRefinesBox(events);
  }

  /** After a lock or a restart neither is, so no password takes the fast path. */
  lemma LockedKeyIsGone(events: seq<Event>, e: Event)
    requires e.LockCall? || e.Restart?
    ensures var s := Run(FRESH, events + [e]).0;
            s.dek == None && s.cache == None && forall password :: !FastPath(s, password)
  {
    CryptoRefinesBox(events);
    assert (events + [e])[..|events + [e]| - 1] == events;
    StepMatches(Run(FRESH, events).0, BoxRun(Empty, events).0, e);
  }

  // ----- a file that was edited ---------------------------------------------------------------------------

  predicate Opens(config: AuthConfig, password: Password) {
    && config.salt.Some? && config.authKey == Some(AuthKey(password, config.salt.value))
    && config.box.Some? && config.box.value.kek == Kek(password, config.salt.value)
  }

  /** What a start finds and makes of a stored file. */
  function Loaded(config: AuthConfig): State {
    State(Stored(config), Some(config), None, None)
  }

  /** A file is as good as one that was just set up exactly when some password opens it, and then only that one. */
  lemma OpensExactly(config: AuthConfig, password: Password)
    ensures Opens(config, password) <==>
            config.box.Some? && Matches(Loaded(config), Holding(password, config.box.value.dek, false))
    ensures Opens(config, password) <==> Verify(Loaded(config), password).1 == Accepted
    ensures forall other :: Opens(config, password) && Opens(config, other) ==> other == password
  {
    if Opens(config, password) {
      assert config == NewConfig(password, config.salt.value, config.box.value.nonce, config.box.value.dek);
    }
  }

  /** No call gets past a file that no password opens, and none of them overwrites it. */
  lemma {:induction false} UnopenableFileIsKept(config: AuthConfig, events: seq<Event>)
    requires forall password :: !Opens(config, password)
    ensures Run(Loaded(config), events).0 == Loaded(config)
    ensures |Run(Loaded(config), events).1| == |events|
    ensures forall i | 0 <= i < |events| && Run(Loaded(config), events).1[i].Accepted? ::
              events[i].LockCall? || events[i].Restart?
  {
    if events != [] {
      var last := events[|events| - 1];
      UnopenableFileIsKept(config, events[..|events| - 1]);
      if last.VerifyCall? {
        assert !Opens(config, last.password);
      } else if last.ChangeCall? {
        assert !Opens(config, last.oldPassword);
      }
    }
  }

  // ----- a file that cannot be read -----------------------------------------------------------------------

  /** A process that starts from this file and handles these calls: the file it leaves, and how the calls ended. */
  function StartAndRun(file: AuthFile, events: seq<Event>): (AuthFile, seq<Outcome>) {
    match Load(file)
    case None => (file, seq(|events|, _ => Failed))
    case Some(s) => (Run(s, events).0.file, Run(s, events).1)
  }

  /** Whatever is called, an unreadable file is not overwritten, and nothing is accepted. */
  lemma UnreadableFileIsKept(events: seq<Event>)
    ensures StartAndRun(Invalid, events).0 == Invalid
    ensures forall outcome | outcome in StartAndRun(Invalid, events).1 :: outcome == Failed
  {
  }

  predicate Writes(e: Event) {
    e.SetupCall? || e.ChangeCall?
  }

  /** What a process that started from a readable file has in memory is what the file holds. */
  predicate FileInStep(s: State) {
    s.file == if s.config.Some? then Stored(s.config.value) else Missing
  }

  lemma StepKeepsFile(s: State, e: Event)
    requires FileInStep(s)
    ensures FileInStep(Next(s, e).0)
    ensures !(Writes(e) && Next(s, e).1.Accepted?) ==> Next(s, e).0.file == s.file
  {
  }

  /** A readable file changes only by a setup or a change that is accepted. */
  lemma {:induction false} OnlyAcceptedCallsWrite(s: State, events: seq<Event>)
    requires FileInStep(s)
    ensures var (after, outcomes) := Run(s, events);
            && |outcomes| == |events| && FileInStep(after)
            && ((forall i | 0 <= i < |events| :: !(Writes(events[i]) && outcomes[i].Accepted?)) ==>
                  after.file == s.file)
  {
    if events != [] {
      var init := events[..|events| - 1];
      OnlyAcceptedCallsWrite(s, init);
      StepKeepsFile(Run(s, init).0, events[|events| - 1]);
      var outcomes := Run(s, events).1;
      assert forall i | 0 <= i < |init| :: outcomes[i] == Run(s, init).1[i] && events[i] == init[i];
    }
  }
}
