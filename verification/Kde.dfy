/**
 The KGlobalAccel session: which registrations must be cleaned up, and which signals fire an action. Every
 D-Bus reply, and every signal that arrives while a call waits for its reply, is a parameter.
 */
module Kde {
  import opened Options
  import opened Sequences

  type Name = string
  type Path = string

  datatype Action = Toggle | Starred | Plaintext

  const ALL := [Toggle, Starred, Plaintext]
  const COMPONENT := "copywraith"
  const PRESSED := "globalShortcutPressed"
  const RELEASED := "globalShortcutReleased"

  function ActionId(action: Action): string {
    match action
    case Toggle => "toggle"
    case Starred => "starred"
    case Plaintext => "paste-plaintext"
  }

  /** A received signal; `body` is absent when its arguments have other types. */
  datatype Message =
    Message(sender: Option<Name>, path: Option<Path>, body: Option<(string, string)>, member: Option<string>)

  type Registration = (Name, Action)

  // ----- what the outside sees ------------------------------------------------------------------------

  /** Calls that change the session's presence at the service. */
  datatype Call = Registering(who: Registration) | Cleaning(who: Registration, acknowledged: bool)

  function Settled(outstanding: set<Registration>, call: Call): set<Registration> {
    if call.Registering? then outstanding + {call.who}
    else if call.acknowledged then outstanding - {call.who}
    else outstanding
  }

  /** The registrations that were attempted, with no deactivation acknowledged since. */
  function Outstanding(calls: seq<Call>): set<Registration> {
    if calls == [] then {} else Settled(Outstanding(calls[..|calls| - 1]), calls[|calls| - 1])
  }

  datatype Step = Fired(action: Action) | Released(action: Action) | Cleared

  predicate Ends(step: Step, action: Action) {
    step == Cleared || step == Released(action)
  }

  /** The actions held after some steps: those that fired, with neither a release nor a clear since. */
  function HeldAfter(held: set<Action>, steps: seq<Step>): set<Action> {
    if steps == [] then
      held
    else
      var before := HeldAfter(held, steps[..|steps| - 1]);
      match steps[|steps| - 1]
      case Fired(action) => before + {action}
      case Released(action) => before - {action}
      case Cleared => {}
  }

  /** No action fires while it is held. */
  predicate FiresWhenFree(steps: seq<Step>) {
    steps == [] || (
      && FiresWhenFree(steps[..|steps| - 1])
      && var last := steps[|steps| - 1]; last.Fired? ==> last.action !in HeldAfter({}, steps[..|steps| - 1]))
  }

  lemma {:induction false} HeldUntilEnded(steps: seq<Step>, action: Action, i: nat)
    requires i < |steps| && steps[i] == Fired(action)
    requires forall k | i < k < |steps| :: !Ends(steps[k], action)
    ensures action in HeldAfter({}, steps)
  {
    if i < |steps| - 1 {
      HeldUntilEnded(steps[..|steps| - 1], action, i);
    }
  }

  /** Between two firings of one action there is a release or a clear. */
  lemma {:induction false} FiresOnceBetweenReleases(steps: seq<Step>, action: Action, i: nat, j: nat)
    requires FiresWhenFree(steps)
    requires i < j < |steps| && steps[i] == steps[j] == Fired(action)
    ensures exists k :: i < k < j && Ends(steps[k], action)
  {
    if j < |steps| - 1 {
      var init := steps[..|steps| - 1];
      FiresOnceBetweenReleases(init, action, i, j);
      var k :| i < k < j && Ends(init[k], action);
      assert Ends(steps[k], action);
    } else if forall k | i < k < j :: !Ends(steps[k], action) {
      HeldUntilEnded(steps[..j], action, i);
      assert false;
    }
  }

  // ----- signals --------------------------------------------------------------------------------------

  function FindAction(id: string, k: nat := 0): Option<Action>
    requires k <= |ALL|
    decreases |ALL| - k
  {
    if k == |ALL| then None else if ActionId(ALL[k]) == id then Some(ALL[k]) else FindAction(id, k + 1)
  }

  /** The action of a signal from this owner's component object, and of no other signal. */
  function Authenticated(owner: Name, path: Path, m: Message): Option<Action> {
    if m.sender != Some(owner) || m.path != Some(path) || m.body.None? || m.body.value.0 != COMPONENT then
      None
    else
      FindAction(m.body.value.1)
  }

  /** The steps a signal causes while `held` are the held actions. */
  function SignalSteps(owner: Name, path: Path, held: set<Action>, m: Message): seq<Step> {
    var action := Authenticated(owner, path, m);
    if action.None? then []
    else if m.member == Some(RELEASED) then [Released(action.value)]
    else if m.member == Some(PRESSED) && action.value !in held then [Fired(action.value)]
    else []
  }

  function Replay(owner: Name, path: Path, held: set<Action>, messages: seq<Message>): seq<Step> {
    if messages == [] then
      []
    else
      var before := Replay(owner, path, held, messages[..|messages| - 1]);
      before + SignalSteps(owner, path, HeldAfter(held, before), messages[|messages| - 1])
  }

  function FiredActions(steps: seq<Step>): seq<Action> {
    if steps == [] then
      []
    else
      FiredActions(steps[..|steps| - 1]) + match steps[|steps| - 1] { case Fired(action) => [action] case _ => [] }
  }

  function OnlyAuthenticated(owner: Name, path: Path, messages: seq<Message>): seq<Message> {
    if messages == [] then
      []
    else
      var last := messages[|messages| - 1];
      OnlyAuthenticated(owner, path, messages[..|messages| - 1])
        + (if Authenticated(owner, path, last).Some? then [last] else [])
  }

  /** Signals that are not authenticated might as well not have arrived, wherever they stand in the queue. */
  lemma {:induction false} UnauthenticatedSignalsChangeNothing(owner: Name, path: Path, held: set<Action>,
                                                               messages: seq<Message>)
    ensures Replay(owner, path, held, messages) == Replay(owner, path, held, OnlyAuthenticated(owner, path, messages))
  {
    if messages != [] {
      UnauthenticatedSignalsChangeNothing(owner, path, held, messages[..|messages| - 1]);
      var before, last := messages[..|messages| - 1], messages[|messages| - 1];
      var kept := OnlyAuthenticated(owner, path, before);
      if Authenticated(owner, path, last).Some? {
        assert (kept + [last])[..|kept + [last]| - 1] == kept;
      } else {
        assert kept + [] == kept;
        assert SignalSteps(owner, path, HeldAfter(held, Replay(owner, path, held, before)), last) == [];
      }
    }
  }

  /** Only the current owner's signals for the component can fire: each authenticates in all four respects. */
  lemma AuthenticSignal(owner: Name, path: Path, m: Message)
    ensures Authenticated(owner, path, m).Some? <==>
            && m.sender == Some(owner) && m.path == Some(path) && m.body.Some?
            && m.body.value.0 == COMPONENT && exists action :: m.body.value.1 == ActionId(action)
  {
    if m.body.Some? {
      FindsEachId(m.body.value.1);
    }
  }

  /** What a signal has to say to be about an action, from this owner's component object. */
  predicate IsAbout(owner: Name, path: Path, m: Message, action: Action) {
    && m.sender == Some(owner) && m.path == Some(path)
    && match action
       case Toggle => m.body == Some(("copywraith", "toggle"))
       case Starred => m.body == Some(("copywraith", "starred"))
       case Plaintext => m.body == Some(("copywraith", "paste-plaintext"))
  }

  predicate IsPress(m: Message) {
    m.member == Some("globalShortcutPressed")
  }

  predicate IsRelease(m: Message) {
    m.member == Some("globalShortcutReleased")
  }

  lemma PressIsNoRelease(m: Message)
    ensures !(IsPress(m) && IsRelease(m))
    ensures IsPress(m) <==> m.member == Some(PRESSED)
    ensures IsRelease(m) <==> m.member == Some(RELEASED)
  {
    assert "globalShortcutPressed"[14] == 'P' && "globalShortcutReleased"[14] == 'R';
  }

  lemma AboutOneAction(owner: Name, path: Path, m: Message)
    ensures forall action :: IsAbout(owner, path, m, action) <==> Authenticated(owner, path, m) == Some(action)
  {
    assert "toggle"[0] == 't' && "starred"[0] == 's' && "paste-plaintext"[0] == 'p';
    if m.body.Some? {
      FindsEachId(m.body.value.1);
    }
  }

  /** A press fires an action that is not held, a release lets it go, and nothing else has an effect. */
  lemma SignalsExactly(owner: Name, path: Path, held: set<Action>, m: Message)
    ensures forall action | IsAbout(owner, path, m, action) ::
              && (IsPress(m) ==> SignalSteps(owner, path, held, m) == if action in held then [] else [Fired(action)])
              && (IsRelease(m) ==> SignalSteps(owner, path, held, m) == [Released(action)])
    ensures (forall action :: !IsAbout(owner, path, m, action)) || !(IsPress(m) || IsRelease(m)) ==>
              SignalSteps(owner, path, held, m) == []
  {
    AboutOneAction(owner, path, m);
    PressIsNoRelease(m);
  }

  lemma FindsEachId(id: string)
    ensures FindAction(id).Some? <==> exists action :: id == ActionId(action)
    ensures forall action :: FindAction(ActionId(action)) == Some(action)
  {
    assert "toggle"[0] == 't' && "starred"[0] == 's' && "paste-plaintext"[0] == 'p';
    assert FindAction(id, 3) == None;
    assert FindAction(id, 2) == if "paste-plaintext" == id then Some(Plaintext) else None;
    assert FindAction(id, 1) == if "starred" == id then Some(Starred) else FindAction(id, 2);
    assert FindAction(id, 0) == if "toggle" == id then Some(Toggle) else FindAction(id, 1);
  }

  lemma SignalStepsFireWhenFree(steps: seq<Step>, owner: Name, path: Path, m: Message)
    requires FiresWhenFree(steps)
    ensures FiresWhenFree(steps + SignalSteps(owner, path, HeldAfter({}, steps), m))
  {
    var more := SignalSteps(owner, path, HeldAfter({}, steps), m);
    if more == [] {
      assert steps + more == steps;
    } else {
      assert (steps + more)[..|steps + more| - 1] == steps;
    }
  }

  lemma {:induction false} HeldAfterMore(held: set<Action>, steps: seq<Step>, more: seq<Step>)
    ensures HeldAfter(held, steps + more) == HeldAfter(HeldAfter(held, steps), more)
  {
    if more == [] {
      assert steps + more == steps;
    } else {
      assert (steps + more)[..|steps + more| - 1] == steps + more[..|more| - 1];
      HeldAfterMore(held, steps, more[..|more| - 1]);
    }
  }

  lemma {:induction false} FiredActionsMore(steps: seq<Step>, more: seq<Step>)
    ensures FiredActions(steps + more) == FiredActions(steps) + FiredActions(more)
  {
    if more == [] {
      assert steps + more == steps;
    } else {
      assert (steps + more)[..|steps + more| - 1] == steps + more[..|more| - 1];
      FiredActionsMore(steps, more[..|more| - 1]);
    }
  }

  /** One more signal: its steps follow those of the earlier ones. */
  lemma ReplayGoesOn(owner: Name, path: Path, held: set<Action>, messages: seq<Message>, i: nat, start: seq<Step>,
                     heldNow: set<Action>)
    requires i < |messages| && heldNow == HeldAfter(held, Replay(owner, path, held, messages[..i]))
    ensures var before := Replay(owner, path, held, messages[..i]);
            var after := Replay(owner, path, held, messages[..i + 1]);
            var more := SignalSteps(owner, path, heldNow, messages[i]);
            && start + before + more == start + after
            && HeldAfter(heldNow, more) == HeldAfter(held, after)
            && FiredActions(before) + FiredActions(more) == FiredActions(after)
  {
    var before := Replay(owner, path, held, messages[..i]);
    var more := SignalSteps(owner, path, heldNow, messages[i]);
    assert messages[..i + 1][..i] == messages[..i];
    HeldAfterMore(held, before, more);
    FiredActionsMore(before, more);
  }

  lemma ReplayStep(owner: Name, path: Path, held: set<Action>, messages: seq<Message>, m: Message)
    ensures var first := Replay(owner, path, held, messages);
            Replay(owner, path, held, messages + [m]) == first + SignalSteps(owner, path, HeldAfter(held, first), m)
  {
    assert (messages + [m])[..|messages + [m]| - 1] == messages;
  }

  lemma LastOf<T>(before: seq<T>, after: seq<T>)
    requires after != []
    ensures before + after == before + after[..|after| - 1] + [after[|after| - 1]]
  {
  }

  lemma Regroup<T>(a: seq<T>, b: seq<T>, c: seq<T>)
    ensures a + b + c == a + (b + c)
  {
  }

  lemma ClearedTwice(steps: seq<Step>)
    ensures steps + [Cleared] + [Cleared] == steps + [Cleared, Cleared]
  {
  }

  /** A replay handles the signals one after the other, whatever is queued behind. */
  lemma {:induction false} ReplayInTwo(owner: Name, path: Path, held: set<Action>, before: seq<Message>,
                                       after: seq<Message>, first: seq<Step>, heldThen: set<Action>)
    requires first == Replay(owner, path, held, before) && heldThen == HeldAfter(held, first)
    ensures Replay(owner, path, held, before + after) == first + Replay(owner, path, heldThen, after)
    decreases |after|
  {
    if after == [] {
      assert before + after == before;
      assert first + [] == first;
    } else {
      var init, last := after[..|after| - 1], after[|after| - 1];
      var more := Replay(owner, path, heldThen, init);
      ReplayInTwo(owner, path, held, before, init, first, heldThen);
      HeldAfterMore(held, first, more);
      LastOf(before, after);
      ReplayStep(owner, path, held, before + init, last);
      Regroup(first, more, SignalSteps(owner, path, HeldAfter(heldThen, more), last));
    }
  }

  /** In a queue every press of an action that is not held then fires it, in its turn. */
  lemma PressFires(owner: Name, path: Path, held: set<Action>, before: seq<Message>, m: Message, after: seq<Message>,
                   action: Action)
    requires IsAbout(owner, path, m, action) && IsPress(m)
    requires action !in HeldAfter(held, Replay(owner, path, held, before))
    ensures var heldThen := HeldAfter(held, Replay(owner, path, held, before)) + {action};
            FiredActions(Replay(owner, path, held, before + [m] + after))
            == FiredActions(Replay(owner, path, held, before)) + [action]
                 + FiredActions(Replay(owner, path, heldThen, after))
  {
    var first := Replay(owner, path, held, before);
    var more := first + [Fired(action)];
    SignalsExactly(owner, path, HeldAfter(held, first), m);
    ReplayStep(owner, path, held, before, m);
    assert more[..|more| - 1] == first;
    ReplayInTwo(owner, path, held, before + [m], after, more, HeldAfter(held, more));
    FiredActionsMore(more, Replay(owner, path, HeldAfter(held, more), after));
  }

  // ----- cleanup --------------------------------------------------------------------------------------

  /** The registrations whose deactivation was not acknowledged, in order. */
  function Retained(registered: seq<Registration>, acknowledges: Registration -> bool): seq<Registration> {
    if registered == [] then
      []
    else
      var last := registered[|registered| - 1];
      Retained(registered[..|registered| - 1], acknowledges) + (if acknowledges(last) then [] else [last])
  }

  function CleanupCalls(registered: seq<Registration>, acknowledges: Registration -> bool): seq<Call> {
    seq(|registered|, i requires 0 <= i < |registered| => Cleaning(registered[i], acknowledges(registered[i])))
  }

  lemma {:induction false} RetainedAreTheRefused(registered: seq<Registration>, acknowledges: Registration -> bool)
    requires Distinct(registered)
    ensures Distinct(Retained(registered, acknowledges))
    ensures forall who :: who in Retained(registered, acknowledges) <==> who in registered && !acknowledges(who)
  {
    if registered != [] {
      var init, last := registered[..|registered| - 1], registered[|registered| - 1];
      RetainedAreTheRefused(init, acknowledges);
      assert registered == init + [last];
      assert last !in init;
    }
  }

  function Elements(registered: seq<Registration>): set<Registration> {
    set who | who in registered
  }

  lemma ElementsAppend(registered: seq<Registration>, who: Registration)
    ensures Elements(registered + [who]) == Elements(registered) + {who}
  {
  }

  lemma {:induction false} CleanupSettles(calls: seq<Call>, registered: seq<Registration>,
                                          acknowledges: Registration -> bool)
    requires Distinct(registered) && Elements(registered) <= Outstanding(calls)
    ensures Outstanding(calls + CleanupCalls(registered, acknowledges))
         == Outstanding(calls) - Elements(registered) + Elements(Retained(registered, acknowledges))
    decreases |registered|, 1
  {
    if registered == [] {
      assert calls + CleanupCalls(registered, acknowledges) == calls;
    } else {
      CleanupSettlesLast(calls, registered, acknowledges);
    }
  }

  lemma OneMoreSettled(all: set<Registration>, done: set<Registration>, kept: set<Registration>, last: Registration,
                       acknowledged: bool)
    requires kept <= done && last !in done && last in all
    ensures Settled(all - done + kept, Cleaning(last, acknowledged))
         == all - (done + {last}) + (kept + if acknowledged then {} else {last})
  {
  }

  lemma ElementsOfRetained(registered: seq<Registration>, i: nat, acknowledges: Registration -> bool)
    requires i < |registered|
    ensures Elements(Retained(registered[..i + 1], acknowledges))
         == Elements(Retained(registered[..i], acknowledges))
              + if acknowledges(registered[i]) then {} else {registered[i]}
    ensures Elements(registered[..i + 1]) == Elements(registered[..i]) + {registered[i]}
  {
    CleanupGoesOn(registered, i, acknowledges);
    ElementsAppend(Retained(registered[..i], acknowledges), registered[i]);
    ElementsAppend(registered[..i], registered[i]);
    assert registered[..i + 1] == registered[..i] + [registered[i]];
  }

  lemma {:induction false} CleanupSettlesLast(calls: seq<Call>, registered: seq<Registration>,
                                              acknowledges: Registration -> bool)
    requires registered != [] && Distinct(registered) && Elements(registered) <= Outstanding(calls)
    ensures Outstanding(calls + CleanupCalls(registered, acknowledges))
         == Outstanding(calls) - Elements(registered) + Elements(Retained(registered, acknowledges))
    decreases |registered|, 0
  {
    var i := |registered| - 1;
    var init, last := registered[..i], registered[i];
    assert registered[..i + 1] == registered && last !in init;
    ElementsOfRetained(registered, i, acknowledges);
    CleanupSettles(calls, init, acknowledges);
    CleanupGoesOn(registered, i, acknowledges);
    var before := calls + CleanupCalls(init, acknowledges);
    assert calls + CleanupCalls(registered, acknowledges) == before + [Cleaning(last, acknowledges(last))];
    OutstandingAfter(before, Cleaning(last, acknowledges(last)));
    RetainedAreTheRefused(init, acknowledges);
    var retained := Elements(Retained(init, acknowledges));
    OneMoreSettled(Outstanding(calls), Elements(init), retained, last, acknowledges(last));
  }

  lemma OutstandingAfter(calls: seq<Call>, call: Call)
    ensures Outstanding(calls + [call]) == Settled(Outstanding(calls), call)
  {
    assert (calls + [call])[..|calls + [call]| - 1] == calls;
  }

  /** The registrations still to clean up, once each, given the calls made so far. */
  ghost predicate Listed(registered: seq<Registration>, calls: seq<Call>) {
    Distinct(registered) && Elements(registered) == Outstanding(calls)
  }

  lemma CleanupKeepsTheList(registered: seq<Registration>, calls: seq<Call>, acknowledges: Registration -> bool)
    requires Listed(registered, calls)
    ensures Listed(Retained(registered, acknowledges), calls + CleanupCalls(registered, acknowledges))
  {
    RetainedAreTheRefused(registered, acknowledges);
    CleanupSettles(calls, registered, acknowledges);
  }

  lemma CleanupGoesOn(registered: seq<Registration>, i: nat, acknowledges: Registration -> bool)
    requires i < |registered|
    ensures CleanupCalls(registered[..i + 1], acknowledges)
         == CleanupCalls(registered[..i], acknowledges) + [Cleaning(registered[i], acknowledges(registered[i]))]
    ensures Retained(registered[..i + 1], acknowledges)
         == Retained(registered[..i], acknowledges) + (if acknowledges(registered[i]) then [] else [registered[i]])
  {
    assert registered[..i + 1][..i] == registered[..i];
  }

  lemma RegisteringKeepsTheList(registered: seq<Registration>, calls: seq<Call>, who: Registration)
    requires Listed(registered, calls)
    ensures Listed(if who in registered then registered else registered + [who], calls + [Registering(who)])
  {
    var more := calls + [Registering(who)];
    assert more[..|more| - 1] == calls;
  }

  // ----- the session ----------------------------------------------------------------------------------

  /** Replies to the calls of `register`: how many calls succeed, and the component path at the end. */
  datatype RegisterReplies =
    RegisterReplies(registers: Action -> bool, assigns: Action -> bool, component: Option<Path>)

  datatype PollReplies = PollReplies(
    processed: bool,
    arrived: seq<Message>,
    owner: Option<Name>,
    acknowledges: Registration -> bool,
    registration: RegisterReplies,
    arrivedMeanwhile: seq<Message>)

  predicate Succeeds(replies: RegisterReplies, action: Action) {
    replies.registers(action) && replies.assigns(action)
  }

  /** The registrations attempted from the k-th action on: up to the first whose calls do not both succeed. */
  function Attempts(newOwner: Name, replies: RegisterReplies, k: nat := 0): seq<Call>
    requires k <= |ALL|
    decreases |ALL| - k
  {
    if k == |ALL| then []
    else
      [Registering((newOwner, ALL[k]))]
        + if Succeeds(replies, ALL[k]) then Attempts(newOwner, replies, k + 1) else []
  }

  lemma EveryAction()
    ensures ALL == [Toggle, Starred, Plaintext] && forall action :: action in ALL
  {
    assert ALL[0] == Toggle && ALL[1] == Starred && ALL[2] == Plaintext;
    forall action: Action
      ensures action in ALL
    {
      match action {
        case Toggle => assert ALL[0] == action;
        case Starred => assert ALL[1] == action;
        case Plaintext => assert ALL[2] == action;
      }
    }
  }

  /** The actions are attempted in their order, up to the first of which a call fails, that one included. */
  lemma AttemptsExactly(newOwner: Name, replies: RegisterReplies)
    ensures var toggled := replies.registers(Toggle) && replies.assigns(Toggle);
            var starred := replies.registers(Starred) && replies.assigns(Starred);
            Attempts(newOwner, replies)
            == [Registering((newOwner, Toggle))]
                 + (if toggled then [Registering((newOwner, Starred))] else [])
                 + (if toggled && starred then [Registering((newOwner, Plaintext))] else [])
  {
    assert Attempts(newOwner, replies, 3) == [];
    assert Attempts(newOwner, replies, 2) == [Registering((newOwner, Plaintext))];
    assert Attempts(newOwner, replies, 1)
        == [Registering((newOwner, Starred))]
           + if Succeeds(replies, Starred) then Attempts(newOwner, replies, 2) else [];
  }

  predicate RegistrationSucceeds(replies: RegisterReplies) {
    (forall action | action in ALL :: Succeeds(replies, action)) && replies.component.Some?
  }

  lemma RegistrationSucceedsExactly(replies: RegisterReplies)
    ensures RegistrationSucceeds(replies) <==>
            replies.component.Some? && forall action :: replies.registers(action) && replies.assigns(action)
  {
    EveryAction();
    if RegistrationSucceeds(replies) {
      forall action: Action
        ensures replies.registers(action) && replies.assigns(action)
      {
        assert action in ALL && Succeeds(replies, action);
      }
    }
  }

  class Session {
    var owner: Name
    var componentPath: Path
    var registered: seq<Registration>
    var held: set<Action>
    var pending: seq<Message>
    ghost var calls: seq<Call>
    ghost var steps: seq<Step>

    /**
     The cleanup list holds exactly the outstanding registrations, once each; the held actions are those that
     fired and were not let go; and nothing ever fired while it was held.
     */
    ghost predicate Valid()
      reads this`registered, this`calls, this`held, this`steps
    {
      && Listed(registered, calls)
      && held == HeldAfter({}, steps)
      && FiresWhenFree(steps)
    }

    constructor ()
      ensures Valid() && registered == [] && pending == []
    {
      owner, componentPath, registered, held, pending := "", "", [], {}, [];
      calls, steps := [], [];
    }

    method ClearHeld()
      requires Valid()
      modifies this`held, this`steps
      ensures Valid() && held == {} && steps == old(steps) + [Cleared]
    {
      held := {};
      steps := steps + [Cleared];
      assert steps[..|steps| - 1] == old(steps);
    }

    /** Call `setInactive` for every listed registration, even when one fails. */
    method TryCleanup(acknowledges: Registration -> bool) returns (kept: seq<Registration>)
      modifies this`calls
      ensures kept == Retained(registered, acknowledges)
      ensures calls == old(calls) + CleanupCalls(registered, acknowledges)
    {
      kept := [];
      var i := 0;
      while i < |registered|
        invariant 0 <= i <= |registered|
        invariant kept == Retained(registered[..i], acknowledges)
        invariant calls == old(calls) + CleanupCalls(registered[..i], acknowledges)
      {
        var who := registered[i];
        CleanupGoesOn(registered, i, acknowledges);
        calls := calls + [Cleaning(who, acknowledges(who))];
        if !acknowledges(who) {
          kept := kept + [who];
        }
        i := i + 1;
      }
      assert registered[..i] == registered;
    }

    /** What was acknowledged leaves the list; the failures stay on it. */
    method Deactivate(acknowledges: Registration -> bool, arrived: seq<Message>) returns (ok: bool)
      requires Valid()
      modifies this`held, this`steps, this`registered, this`calls, this`pending
      ensures Valid() && held == {} && steps == old(steps) + [Cleared]
      ensures registered == Retained(old(registered), acknowledges)
      ensures calls == old(calls) + CleanupCalls(old(registered), acknowledges)
      ensures pending == old(pending) + arrived
      ensures ok <==> registered == []
    {
      ClearHeld();
      CleanupKeepsTheList(registered, calls, acknowledges);
      registered := TryCleanup(acknowledges);
      pending := pending + arrived;
      ok := registered == [];
    }

    /** A registration is listed before its call is made, and stays listed whatever the reply. */
    method RegisterAction(newOwner: Name, action: Action)
      requires Valid()
      modifies this`registered, this`calls
      ensures Valid() && (newOwner, action) in registered
      ensures forall who :: who in registered <==> who in old(registered) || who == (newOwner, action)
      ensures calls == old(calls) + [Registering((newOwner, action))]
    {
      var who := (newOwner, action);
      RegisteringKeepsTheList(registered, calls, who);
      if who !in registered {
        registered := registered + [who];
      }
      calls := calls + [Registering(who)];
    }

    method Register(newOwner: Name, replies: RegisterReplies) returns (ok: bool)
      requires Valid()
      modifies this`registered, this`calls, this`componentPath
      ensures Valid()
      ensures calls == old(calls) + Attempts(newOwner, replies)
      ensures ok <==> RegistrationSucceeds(replies)
      ensures componentPath == if ok then replies.component.value else old(componentPath)
      ensures ok ==> forall action | action in ALL :: (newOwner, action) in registered
    {
      var i := 0;
      while i < |ALL|
        invariant 0 <= i <= |ALL| && Valid() && componentPath == old(componentPath)
        invariant forall k | 0 <= k < i :: Succeeds(replies, ALL[k]) && (newOwner, ALL[k]) in registered
        invariant calls + Attempts(newOwner, replies, i) == old(calls) + Attempts(newOwner, replies)
      {
        ghost var before := calls;
        RegisterAction(newOwner, ALL[i]);
        assert Attempts(newOwner, replies, i)
            == [Registering((newOwner, ALL[i]))]
                 + if Succeeds(replies, ALL[i]) then Attempts(newOwner, replies, i + 1) else [];
        assert calls == before + [Registering((newOwner, ALL[i]))];
        if !replies.registers(ALL[i]) || !replies.assigns(ALL[i]) {
          return false;
        }
        i := i + 1;
      }
      if replies.component.None? {
        return false;
      }
      componentPath := replies.component.value;
      ok := true;
    }

    method HandleSignal(m: Message) returns (fired: Option<Action>)
      requires Valid()
      modifies this`held, this`steps
      ensures Valid()
      ensures steps == old(steps) + SignalSteps(owner, componentPath, old(held), m)
      ensures held == HeldAfter(old(held), SignalSteps(owner, componentPath, old(held), m))
      ensures (if fired.Some? then [fired.value] else [])
           == FiredActions(SignalSteps(owner, componentPath, old(held), m))
      // a press fires what is not held and leaves it held, a release lets go, and nothing else has an effect
      ensures forall action | IsAbout(owner, componentPath, m, action) ::
                && (IsPress(m) ==> held == old(held) + {action})
                && (IsPress(m) ==> fired == if action in old(held) then None else Some(action))
                && (IsRelease(m) ==> held == old(held) - {action} && fired == None)
      ensures (forall action :: !IsAbout(owner, componentPath, m, action)) || !(IsPress(m) || IsRelease(m)) ==>
                held == old(held) && fired == None
    {
      AboutOneAction(owner, componentPath, m);
      PressIsNoRelease(m);
      ghost var more := SignalSteps(owner, componentPath, held, m);
      SignalStepsFireWhenFree(steps, owner, componentPath, m);
      HeldAfterMore({}, steps, more);
      assert more != [] ==> more[..0] == [];
      steps := steps + more;
      var action := Authenticated(owner, componentPath, m);
      if action.None? {
        return None;
      }
      if m.member == Some(RELEASED) {
        held := held - {action.value};
        return None;
      }
      if m.member == Some(PRESSED) && action.value !in held {
        held := held + {action.value};
        return action;
      }
      fired := None;
    }

    /** The state after the first `i` signals of a queue that was met with `held0` held and `start` behind. */
    ghost predicate Replayed(messages: seq<Message>, i: nat, held0: set<Action>, start: seq<Step>, fired: seq<Action>)
      requires i <= |messages|
      reads this
    {
      var caused := Replay(owner, componentPath, held0, messages[..i]);
      steps == start + caused && held == HeldAfter(held0, caused) && fired == FiredActions(caused)
    }

    method ReplayNext(messages: seq<Message>, i: nat, fired: seq<Action>, ghost held0: set<Action>,
                      ghost start: seq<Step>)
      returns (more: seq<Action>)
      requires Valid() && i < |messages| && Replayed(messages, i, held0, start, fired)
      modifies this`held, this`steps
      ensures Valid() && Replayed(messages, i + 1, held0, start, more)
    {
      ReplayGoesOn(owner, componentPath, held0, messages, i, start, held);
      var action := HandleSignal(messages[i]);
      more := fired + if action.Some? then [action.value] else [];
    }

    /** Replay the queued signals in order. */
    method Drain() returns (fired: seq<Action>)
      requires Valid()
      modifies this`held, this`steps, this`pending
      ensures Valid() && pending == []
      ensures steps == old(steps) + Replay(owner, componentPath, old(held), old(pending))
      ensures fired == FiredActions(Replay(owner, componentPath, old(held), old(pending)))
    {
      var messages := pending;
      pending := [];
      fired := [];
      var i := 0;
      while i < |messages|
        invariant 0 <= i <= |messages| && Valid() && pending == []
        invariant Replayed(messages, i, old(held), old(steps), fired)
      {
        fired := ReplayNext(messages, i, fired, old(held), old(steps));
        i := i + 1;
      }
      assert messages[..i] == messages;
    }

    /** Leave the old owner, dropping what it sent and what it held. */
    method LeaveOwner(acknowledges: Registration -> bool)
      requires Valid()
      modifies this
      ensures Valid() && held == {} && steps == old(steps) + [Cleared, Cleared]
      ensures owner == "" && pending == [] && componentPath == old(componentPath)
      ensures calls == old(calls) + CleanupCalls(old(registered), acknowledges)
    {
      var _ := Deactivate(acknowledges, []);
      owner := "";
      ClearHeld();
      ClearedTwice(old(steps));
      pending := [];
    }

    /** Leave the old owner and register with the new one. */
    method SwitchOwner(newOwner: Name, replies: PollReplies) returns (ok: bool)
      requires Valid()
      modifies this
      ensures Valid() && held == {} && steps == old(steps) + [Cleared, Cleared]
      ensures ok <==> RegistrationSucceeds(replies.registration)
      ensures owner == if ok then newOwner else ""
      ensures pending == replies.arrivedMeanwhile
      ensures calls == old(calls) + CleanupCalls(old(registered), replies.acknowledges)
                       + Attempts(newOwner, replies.registration)
      ensures componentPath == if ok then replies.registration.component.value else old(componentPath)
      ensures ok ==> forall action | action in ALL :: (newOwner, action) in registered
    {
      LeaveOwner(replies.acknowledges);
      ok := Register(newOwner, replies.registration);
      pending := replies.arrivedMeanwhile;
      if ok {
        owner := newOwner;
      }
    }

    /**
     One poll. A new owner is registered with before its signals count, and nothing received for the old one
     survives; without an error the queued signals are replayed.
     */
    method Poll(replies: PollReplies) returns (fired: Option<seq<Action>>)
      requires Valid()
      modifies this
      ensures Valid()
      // no owner known: only the queue has grown
      ensures !replies.processed || replies.owner.None? ==>
                && fired.None? && pending == old(pending) + replies.arrived
                && unchanged(`owner, `componentPath, `registered, `held, `calls, `steps)
      // the owner is still there: the queue is replayed
      ensures replies.processed && replies.owner == Some(old(owner)) ==>
                && pending == [] && unchanged(`owner, `componentPath, `registered, `calls)
                && var caused := Replay(owner, componentPath, old(held), old(pending) + replies.arrived);
                   fired == Some(FiredActions(caused)) && steps == old(steps) + caused
      // another owner: clean up, register, and replay only what was received since
      ensures replies.processed && replies.owner.Some? && replies.owner != Some(old(owner)) ==>
                && calls == old(calls) + CleanupCalls(old(registered), replies.acknowledges)
                            + Attempts(replies.owner.value, replies.registration)
                && (fired.Some? <==> RegistrationSucceeds(replies.registration))
                && (fired.None? ==>
                      && owner == "" && held == {} && componentPath == old(componentPath)
                      && pending == replies.arrivedMeanwhile && steps == old(steps) + [Cleared, Cleared])
                && (fired.Some? ==>
                      && owner == replies.owner.value && pending == []
                      && replies.registration.component == Some(componentPath)
                      && (forall action | action in ALL :: (owner, action) in registered)
                      && var caused := Replay(owner, componentPath, {}, replies.arrivedMeanwhile);
                         fired == Some(FiredActions(caused)) && steps == old(steps) + [Cleared, Cleared] + caused)
    {
      pending := pending + replies.arrived;
      if !replies.processed || replies.owner.None? {
        return None;
      }
      if replies.owner.value != owner {
        var ok := SwitchOwner(replies.owner.value, replies);
        if !ok {
          return None;
        }
      }
      var actions := Drain();
      fired := Some(actions);
    }
  }
}
