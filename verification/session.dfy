/** The launcher over time. Every state change a screen handler can make is
    an event. Runs of events start from the initial `AppState`. The module
    proves the invariant every reachable state keeps, and what follows from
    it about the verification hand-off, the screens and the process handles.
    The threads are not modelled: the verifier thread finishing is one event.

    The events are enabled whatever screen is shown, so the runs are a
    superset of the program's runs. The frame loop as written draws only the
    login screen (main.cpp:699). It never runs the loading screen's guard or
    the main screen's buttons; `LoopEvent` picks out the events it does
    produce. An invariant of the superset holds of every run of the program.
    Some runs of the superset are not runs of the program, for example a
    loading screen drawn before any key was accepted. */
module Session {
  import opened Wrappers
  import opened Verification
  import opened Toasts
  import opened App

  /** One state change. `VerifierDone` is the detached thread's locked write;
      all others run on the frame loop's thread. */
  datatype Event =
    | PastePressed(clipboard: Option<Bytes>)
    | SignInPressed
    | VerifierDone(transport: Transport)
    | Poll(now: real)
    | LoadingScreenDrawn(now: real)
    | BrowsePressed(picked: Option<string>)
    | LaunchPressed(outcome: LaunchOutcome, now: real)
    | InjectPressed(now: real)
    | ToastsDrawn(now: real)

  /** A successful launch hands over two distinct, non-null handles that no
      earlier launch handed over. */
  predicate FreshLaunch(s: AppState, info: ProcessInfo) {
    && info.hProcess != 0 && info.hThread != 0 && info.hProcess != info.hThread
    && info.hProcess !in s.ledger.issued && info.hThread !in s.ledger.issued
  }

  /** When an event can happen: a verifier finishes only if one runs, and the
      OS hands over fresh handles. Screen handlers are not gated on the screen
      shown (see the module comment). */
  predicate Enabled(s: AppState, e: Event) {
    match e
    case VerifierDone(_) => s.verifier.Some?
    case LaunchPressed(Launched(info), _) => FreshLaunch(s, info)
    case ToastsDrawn(_) => PositiveDurations(s.toasts)
    case _ => true
  }

  function Step(s: AppState, e: Event): AppState
    requires Enabled(s, e)
  {
    match e
    case PastePressed(clipboard) => Paste(s, clipboard)
    case SignInPressed => SignIn(s)
    case VerifierDone(t) => VerifierFinishes(s, t)
    case Poll(now) => PollVerification(s, now)
    case LoadingScreenDrawn(now) => LoadingFrame(s, now)
    case BrowsePressed(picked) => Browse(s, picked)
    case LaunchPressed(outcome, now) => Launch(s, outcome, now)
    case InjectPressed(now) => Inject(s, now)
    case ToastsDrawn(now) => ExpireStep(s, now)
  }

  predicate ValidRun(s: AppState, events: seq<Event>)
    decreases |events|
  {
    events == [] || (Enabled(s, events[0]) && ValidRun(Step(s, events[0]), events[1..]))
  }

  function Run(s: AppState, events: seq<Event>): AppState
    requires ValidRun(s, events)
    decreases |events|
  {
    if events == [] then s else Run(Step(s, events[0]), events[1..])
  }

  /** The handles a state still tracks. */
  function Tracked(s: AppState): set<Handle> {
    if s.hasProcess then {s.process.hProcess, s.process.hThread} else {}
  }

  /** At most one verification is in flight: `verifying` is set exactly
      while a verifier runs or its result waits unread, never both. */
  predicate VerificationInv(s: AppState) {
    && (s.verifying <==> s.verifier.Some? || s.slot.ready)
    && !(s.verifier.Some? && s.slot.ready)
  }

  /** Progress is 1 exactly while the target is still Login. */
  predicate ScreenInv(s: AppState) {
    && s.current == Login
    && (s.target == Login ==> s.transition == 1.0)
    && (s.target != Login ==> s.transition == 0.0)
    && 0.0 <= s.loadingProgress <= 1.0
  }

  /** No handle leaks: every handle ever handed over is closed or still
      tracked; only handed-over handles are closed; the two tracked handles
      differ. */
  predicate HandleInv(s: AppState) {
    && Tracked(s) <= s.ledger.issued
    && (s.hasProcess ==> s.process.hProcess != s.process.hThread)
    && (forall h :: h in s.ledger.closes ==> h in s.ledger.issued)
    && forall h :: h in s.ledger.issued ==> h in s.ledger.closes || h in Tracked(s)
  }

  predicate Inv(s: AppState) {
    && VerificationInv(s)
    && ScreenInv(s)
    && WellFormed(s.toasts)
    && |s.keyInput| <= KeyCapacity
    && HandleInv(s)
  }

  lemma InitInv()
    ensures Inv(Init)
  {
  }

  lemma PollKeepsInv(s: AppState, now: real)
    requires Inv(s)
    ensures Inv(PollVerification(s, now))
  {
    if s.slot.ready {
      var r := PollVerification(s, now);
      assert KeepsKeyAndProcess(s, r);
      match OutcomeOf(s.slot.result)
      case NetworkError(m) => AddToastWellFormed(s.toasts, m, Grey, now);
      case Accepted => AddToastWellFormed(s.toasts, KeyAccepted, AcceptGreen, now);
      case Declined => AddToastWellFormed(s.toasts, KeyDeclined, AlertRed, now);
    }
  }

  lemma ReleaseKeepsInv(s: AppState)
    requires Inv(s) && s.hasProcess
    ensures Inv(s.(ledger := Release(s.ledger, s.process)))
    ensures forall h :: h in Tracked(s) ==> h in Release(s.ledger, s.process).closes
  {
  }

  lemma TrackKeepsInv(s: AppState, info: ProcessInfo)
    requires Inv(s) && FreshLaunch(s, info)
    requires forall h :: h in Tracked(s) ==> h in s.ledger.closes
    ensures Inv(s.(process := info, hasProcess := true,
      ledger := s.ledger.(issued := s.ledger.issued + {info.hProcess, info.hThread})))
  {
    var r := s.(process := info, hasProcess := true,
      ledger := s.ledger.(issued := s.ledger.issued + {info.hProcess, info.hThread}));
    assert Tracked(r) == {info.hProcess, info.hThread};
  }

  lemma LaunchKeepsInv(s: AppState, outcome: LaunchOutcome, now: real)
    requires Inv(s)
    requires outcome.Launched? ==> FreshLaunch(s, outcome.info)
    ensures Inv(Launch(s, outcome, now))
  {
    if s.selectedPath != [] {
      var s1 := if s.hasProcess then s.(ledger := Release(s.ledger, s.process)) else s;
      if s.hasProcess {
        ReleaseKeepsInv(s);
      }
      match outcome
      case Launched(info) =>
        TrackKeepsInv(s1, info);
      case LaunchFailed =>
        AddToastWellFormed(s1.toasts, LaunchFailedText, AlertRed, now);
    }
  }

  /** Every event keeps the invariant. */
  lemma StepInv(s: AppState, e: Event)
    requires Inv(s) && Enabled(s, e)
    ensures Inv(Step(s, e))
  {
    match e
    case Poll(now) =>
      PollKeepsInv(s, now);
    case LaunchPressed(outcome, now) =>
      LaunchKeepsInv(s, outcome, now);
    case InjectPressed(now) =>
      AddToastWellFormed(s.toasts, InjectedText, InjectGreen, now);
    case ToastsDrawn(now) =>
      SurvivorsWellFormed(s.toasts, now);
    case PastePressed(clipboard) =>
    case SignInPressed =>
    case VerifierDone(t) =>
    case LoadingScreenDrawn(now) =>
    case BrowsePressed(picked) =>
  }

  /** Every state a run reaches keeps the invariant. */
  lemma {:induction false} RunInv(s: AppState, events: seq<Event>)
    requires Inv(s) && ValidRun(s, events)
    ensures Inv(Run(s, events))
    decreases |events|
  {
    if events != [] {
      StepInv(s, events[0]);
      RunInv(Step(s, events[0]), events[1..]);
    }
  }

  lemma {:induction false} RunAppend(s: AppState, a: seq<Event>, b: seq<Event>)
    requires ValidRun(s, a) && ValidRun(Run(s, a), b)
    ensures ValidRun(s, a + b) && Run(s, a + b) == Run(Run(s, a), b)
    decreases |a|
  {
    if a == [] {
      assert a + b == b;
    } else {
      assert (a + b)[0] == a[0] && (a + b)[1..] == a[1..] + b;
      RunAppend(Step(s, a[0]), a[1..], b);
    }
  }

  lemma RunSingle(s: AppState, e: Event)
    requires Enabled(s, e)
    ensures ValidRun(s, [e]) && Run(s, [e]) == Step(s, e)
  {
    assert [e][1..] == [];
  }

  /** Every reachable state shows the login screen: nothing ever assigns
      `current`. */
  lemma ReachableShowsLogin(events: seq<Event>)
    requires ValidRun(Init, events)
    ensures Run(Init, events).current == Login
  {
    InitInv();
    RunInv(Init, events);
  }

  /** Pressing Sign In while a verifier runs or its result waits unread
      changes nothing: no second verifier starts. */
  lemma SignInWhilePendingIsNoOp(s: AppState)
    requires Inv(s) && (s.verifier.Some? || s.slot.ready)
    ensures SignIn(s) == s
  {
  }

  /** A finishing verifier never overwrites a result still unread. */
  lemma DepositNeverOverwrites(s: AppState)
    requires Inv(s) && s.verifier.Some?
    ensures !s.slot.ready
  {
  }

  /** Before the verifier finishes, polling observes nothing; the first poll
      after it applies its outcome; a second poll observes nothing more. */
  lemma OutcomeObservedExactlyOnce(s: AppState, t: Transport, before: real, now: real, later: real)
    requires Inv(s) && s.verifier.Some?
    ensures PollVerification(s, before) == s
    ensures var p := PollVerification(VerifierFinishes(s, t), now);
      && !p.verifying && !p.slot.ready
      && PollVerification(p, later) == p
    ensures OutcomeOf(VerifyKeyOnline(t)) == Accepted ==>
      PollVerification(VerifierFinishes(s, t), now).statusText == KeyAccepted
    ensures OutcomeOf(VerifyKeyOnline(t)) == Declined ==>
      PollVerification(VerifierFinishes(s, t), now).statusText == KeyDeclined
    ensures !t.Responded? ==>
      PollVerification(VerifierFinishes(s, t), now).statusText == VerifyKeyOnline(t).statusMessage
  {
  }

  /** Only an accepted key moves the target to Loading. */
  lemma LoadingOnlyAfterAcceptance(s: AppState, e: Event)
    requires Inv(s) && Enabled(s, e)
    requires s.target != Loading && Step(s, e).target == Loading
    ensures e.Poll? && s.slot.ready && OutcomeOf(s.slot.result) == Accepted
  {
  }

  /** In the superset of runs, only the loading guard moves the target to
      Main, and only when the bar is full and the previous transition is
      complete. With the invariant, a complete transition means the target is
      still Login, so the step is a loading screen drawn before any key was
      accepted. The program never takes that step: its loop does not draw the
      loading screen (`LoopNeverTargetsMain`). */
  lemma MainOnlyThroughGuard(s: AppState, e: Event)
    requires Inv(s) && Enabled(s, e)
    requires s.target != Main && Step(s, e).target == Main
    ensures e.LoadingScreenDrawn?
    ensures Step(s, e).loadingProgress == 1.0 && s.transition >= 1.0
    ensures s.target == Login
  {
  }

  /** Once a key is accepted the target stays Loading forever: the transition
      it started is never advanced, so the loading guard never fires. */
  lemma {:induction false} LoadingIsFinal(s: AppState, events: seq<Event>)
    requires Inv(s) && s.target == Loading && ValidRun(s, events)
    ensures Run(s, events).target == Loading
    decreases |events|
  {
    if events != [] {
      StepInv(s, events[0]);
      LoadingIsFinal(Step(s, events[0]), events[1..]);
    }
  }

  /** What the frame loop does on its own thread: poll, then the login card
      (Paste, Sign In), then the toasts. The loop as written always draws the
      login screen (main.cpp:699), never the loading or main screens. */
  predicate LoopEvent(e: Event) {
    e.PastePressed? || e.SignInPressed? || e.VerifierDone? || e.Poll? || e.ToastsDrawn?
  }

  /** With the loop as written, no run ever targets Main. */
  lemma {:induction false} LoopNeverTargetsMain(s: AppState, events: seq<Event>)
    requires Inv(s) && s.target != Main && ValidRun(s, events)
    requires forall i :: 0 <= i < |events| ==> LoopEvent(events[i])
    ensures Run(s, events).target != Main
    decreases |events|
  {
    if events != [] {
      StepInv(s, events[0]);
      LoopNeverTargetsMain(Step(s, events[0]), events[1..]);
    }
  }

  /** The buttons of the login card during one frame. */
  datatype LoginInput = LoginInput(pastePressed: bool, clipboard: Option<Bytes>, signInPressed: bool)

  function FrameEvents(now: real, input: LoginInput): seq<Event> {
    [Poll(now)]
    + (if input.pastePressed then [PastePressed(input.clipboard)] else [])
    + (if input.signInPressed then [SignInPressed] else [])
    + [ToastsDrawn(now)]
  }

  /** The state after the poll and the login card's buttons. */
  function LoginCardState(s: AppState, now: real, input: LoginInput): AppState {
    var s1 := PollVerification(s, now);
    var s2 := if input.pastePressed then Paste(s1, input.clipboard) else s1;
    if input.signInPressed then SignIn(s2) else s2
  }

  /** The poll and the login card are the run of their events, and keep the
      invariant. */
  lemma LoginCardRun(s: AppState, now: real, input: LoginInput)
    requires Inv(s)
    ensures var events := FrameEvents(now, input)[..|FrameEvents(now, input)| - 1];
      ValidRun(s, events) && Run(s, events) == LoginCardState(s, now, input)
    ensures Inv(LoginCardState(s, now, input))
  {
    var s1 := PollVerification(s, now);
    StepInv(s, Poll(now));
    var s2 := if input.pastePressed then Paste(s1, input.clipboard) else s1;
    StepInv(s1, PastePressed(input.clipboard));
    StepInv(s2, SignInPressed);
    var e1: seq<Event> := [Poll(now)];
    var e2: seq<Event> := if input.pastePressed then [PastePressed(input.clipboard)] else [];
    var e3: seq<Event> := if input.signInPressed then [SignInPressed] else [];
    RunSingle(s, Poll(now));
    assert ValidRun(s1, e2) && Run(s1, e2) == s2 by {
      if input.pastePressed { RunSingle(s1, PastePressed(input.clipboard)); }
    }
    assert ValidRun(s2, e3) && Run(s2, e3) == LoginCardState(s, now, input) by {
      if input.signInPressed { RunSingle(s2, SignInPressed); }
    }
    RunAppend(s, e1, e2);
    RunAppend(s, e1 + e2, e3);
    assert FrameEvents(now, input)[..|FrameEvents(now, input)| - 1] == e1 + e2 + e3;
  }

  /** One iteration of the frame loop (main.cpp:650-702) as written, with
      one time `now` standing for every clock read of the frame. */
  function Frame(s: AppState, now: real, input: LoginInput): (r: AppState)
    requires Inv(s)
    ensures Inv(r)
    ensures ValidRun(s, FrameEvents(now, input)) && r == Run(s, FrameEvents(now, input))
    ensures s.target != Main ==> r.target != Main
    ensures r.hasProcess == s.hasProcess && r.ledger == s.ledger
  {
    LoginCardRun(s, now, input);
    var s3 := LoginCardState(s, now, input);
    var r := ExpireStep(s3, now);
    StepInv(s3, ToastsDrawn(now));
    RunSingle(s3, ToastsDrawn(now));
    var events := FrameEvents(now, input);
    assert events == events[..|events| - 1] + [ToastsDrawn(now)];
    RunAppend(s, events[..|events| - 1], [ToastsDrawn(now)]);
    r
  }

  /** Exit releases every handle ever handed over. */
  lemma ShutdownReleasesAll(s: AppState)
    requires Inv(s)
    ensures forall h :: h in s.ledger.issued ==> h in Shutdown(s).ledger.closes
  {
  }

  /** A successful relaunch closes the old handles before tracking the new
      ones. */
  lemma RelaunchReleasesOld(s: AppState, info: ProcessInfo, now: real)
    requires Inv(s) && s.hasProcess && s.selectedPath != [] && FreshLaunch(s, info)
    ensures var r := Launch(s, Launched(info), now);
      && s.process.hProcess in r.ledger.closes && s.process.hThread in r.ledger.closes
      && Tracked(r) == {info.hProcess, info.hThread}
      && HandleInv(r)
  {
    StepInv(s, LaunchPressed(Launched(info), now));
  }

  /** Key "abc" accepted by `{"success":true}` with status 200: the status
      reads "Key accepted" and the target becomes Loading, while the screen
      shown stays Login. */
  lemma AcceptedScenario(now: real)
    ensures var s := Init.(keyInput := "abc");
      var body: Bytes := "{\"success\":true}";
      var r := PollVerification(VerifierFinishes(SignIn(s), Responded(200, body)), now);
      && r.statusText == KeyAccepted && r.target == Loading && r.current == Login
      && r.toasts == [Toast(KeyAccepted, AcceptGreen, now, ToastDuration)]
  {
    var body: Bytes := "{\"success\":true}";
    assert body == "{" + SuccessMarker + "}";
    SuccessMarkerAccepted(200, "{", "}");
  }

  /** A failed connection: the message becomes the status and a toast; the
      screen stays Login. */
  lemma NetworkErrorScenario(s: AppState, now: real)
    requires Inv(s) && !s.verifying
    ensures var r := PollVerification(VerifierFinishes(SignIn(s), ConnectFailed), now);
      && r.statusText == "Network error: WinHttpConnect failed"
      && r.current == Login && r.target == s.target && !r.verifying
      && r.toasts[|r.toasts| - 1].message == "Network error: WinHttpConnect failed"
  {
  }

  /** `{"success":false}`: the status is exactly "Key declined", in red. */
  lemma DeclinedScenario(s: AppState, now: real)
    requires Inv(s) && !s.verifying
    ensures var r := PollVerification(VerifierFinishes(SignIn(s), Responded(200, "{\"success\":false}")), now);
      && r.statusText == KeyDeclined && StatusColor(r.statusText) == Some(AlertRed)
      && r.current == Login && r.target == s.target
  {
    DeclinedExample();
  }

  /** A network error message is never shown in the declined colour. */
  lemma NetworkErrorNotRed(t: Transport)
    requires !t.Responded?
    ensures StatusColor(VerifyKeyOnline(t).statusMessage) != Some(AlertRed)
  {
    assert |KeyDeclined| == 12;
  }

  /** As written, a failed relaunch leaves the closed handles tracked, so
      exit closes them a second time. */
  lemma FailedRelaunchDoubleCloses()
    ensures var s0 := Browse(Init, Some("C:\\game.exe"));
      var s1 := Launch(s0, Launched(ProcessInfo(1, 2, 100)), 0.0);
      var s2 := Launch(s1, LaunchFailed, 1.0);
      var s3 := Shutdown(s2);
      && s2.hasProcess && s2.ledger.closes[1] == 1
      && s3.ledger.closes[1] == 2 && s3.ledger.closes[2] == 2
  {
  }

  /** Handle discipline of the corrected launch: no leak, every handle closed
      at most once, and the tracked handles not yet closed. */
  predicate SingleCloseInv(s: AppState) {
    && HandleInv(s)
    && (forall h :: h in s.ledger.closes ==> s.ledger.closes[h] == 1)
    && (forall h :: h in Tracked(s) ==> h !in s.ledger.closes)
  }

  /** Closing the tracked handles and forgetting them keeps every handle
      closed at most once. */
  lemma ReleaseSingleClose(s: AppState)
    requires SingleCloseInv(s) && s.hasProcess
    ensures SingleCloseInv(s.(ledger := Release(s.ledger, s.process), hasProcess := false))
  {
    var r := s.(ledger := Release(s.ledger, s.process), hasProcess := false);
    assert s.process.hProcess !in s.ledger.closes && s.process.hThread !in s.ledger.closes;
    forall h | h in r.ledger.closes
      ensures r.ledger.closes[h] == 1
    {
      if h == s.process.hProcess || h == s.process.hThread {
        assert s.ledger.closes[h] == 0;
      } else {
        assert h in s.ledger.closes;
      }
    }
  }

  /** Tracking freshly handed-over handles keeps every handle closed at most
      once. */
  lemma TrackSingleClose(s: AppState, info: ProcessInfo)
    requires SingleCloseInv(s) && !s.hasProcess && FreshLaunch(s, info)
    ensures SingleCloseInv(s.(process := info, hasProcess := true,
      ledger := s.ledger.(issued := s.ledger.issued + {info.hProcess, info.hThread})))
  {
  }

  lemma LaunchCorrectedSingleClose(s: AppState, outcome: LaunchOutcome, now: real)
    requires SingleCloseInv(s)
    requires outcome.Launched? ==> FreshLaunch(s, outcome.info)
    ensures SingleCloseInv(LaunchCorrected(s, outcome, now))
  {
    if s.selectedPath != [] {
      var s1 := if s.hasProcess then s.(ledger := Release(s.ledger, s.process), hasProcess := false) else s;
      if s.hasProcess {
        ReleaseSingleClose(s);
      }
      assert SingleCloseInv(s1);
      if outcome.Launched? {
        TrackSingleClose(s1, outcome.info);
      } else {
        assert SingleCloseInv(s1.(toasts := AddToast(s1.toasts, LaunchFailedText, AlertRed, now)));
      }
    }
  }

  /** With the corrected launch, exit closes every handle exactly once. */
  lemma ShutdownAfterCorrectedSingleClose(s: AppState)
    requires SingleCloseInv(s)
    ensures forall h :: h in s.ledger.issued ==> Shutdown(s).ledger.closes[h] == 1
  {
  }
}
