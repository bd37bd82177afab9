/** The launcher's `AppState` (main.cpp:226-250) and the state logic of the
    screens and the frame loop, as state transformers. Time is the parameter
    `now` (the value `ImGui::GetTime()` would return); what the OS or the user
    decides (clipboard text, file picked, launch result, transport outcome) is
    a parameter too. */
module App {
  import opened Wrappers
  import opened Numeric
  import opened Strings
  import opened UrlEncoding
  import opened Verification
  import opened Toasts

  datatype Screen = Login | Loading | Main

  /** An OS handle, abstractly; 0 is the null handle. */
  type Handle = nat

  /** The part of `PROCESS_INFORMATION` the launcher keeps. */
  datatype ProcessInfo = ProcessInfo(hProcess: Handle, hThread: Handle, pid: nat)

  const NoProcess := ProcessInfo(0, 0, 0)

  /** A record of handle traffic kept beside the state: every handle a
      successful launch handed over, and every `CloseHandle` call (a multiset,
      so that closing a handle twice shows). */
  datatype Ledger = Ledger(issued: set<Handle>, closes: multiset<Handle>)

  /** `char key_input[128]` holds at most 127 bytes before its NUL. */
  const KeyCapacity: nat := 127

  /** Seconds the loading bar takes to fill (main.cpp:423). */
  const LoadingSeconds: real := 2.5

  /** `AppState`, without the mutex and the UI-only toggles `show_key` and
      `remember_me`. `verifier` is the detached verification thread while it
      runs, with the copy of the key it took. */
  datatype AppState = AppState(
    current: Screen,
    target: Screen,
    transition: real,
    transitionStart: real,
    loadingProgress: real,
    loadingStart: real,
    keyInput: Bytes,
    verifying: bool,
    statusText: Bytes,
    slot: Mailbox,
    verifier: Option<Bytes>,
    selectedPath: string,
    selectedName: string,
    process: ProcessInfo,
    hasProcess: bool,
    toasts: seq<Toast>,
    ledger: Ledger)

  /** The default member initialisers of `AppState`. */
  const Init := AppState(
    Login, Login, 1.0, 0.0, 0.0, 0.0, [], false, [], EmptyMailbox, None,
    [], [], NoProcess, false, [], Ledger({}, multiset{}))

  const VerifyingText: Bytes := "Verifying..."
  const KeyAccepted: Bytes := "Key accepted"
  const KeyDeclined: Bytes := "Key declined"
  const LaunchFailedText: Bytes := "Failed to launch target"
  const InjectedText: Bytes := "Injected!"

  const Grey := Color(0.7, 0.7, 0.7, 1.0)
  const AcceptGreen := Color(0.3, 0.9, 0.4, 1.0)
  const AlertRed := Color(0.9, 0.2, 0.2, 1.0)
  const InjectGreen := Color(0.2, 0.9, 0.3, 1.0)
  const StatusBlue := Color(0.7, 0.8, 0.9, 1.0)

  /** The key, the running verifier and the process bookkeeping are the
      same in both states. */
  predicate KeepsKeyAndProcess(s: AppState, r: AppState) {
    && r.keyInput == s.keyInput && r.verifier == s.verifier
    && r.selectedPath == s.selectedPath && r.selectedName == s.selectedName
    && r.process == s.process && r.hasProcess == s.hasProcess && r.ledger == s.ledger
  }

  /** `StartTransition` (main.cpp:252-256): a new target, progress reset to
      zero, the start time recorded; the screen shown is not changed. */
  function StartTransition(s: AppState, next: Screen, now: real): (r: AppState)
    ensures r.target == next && r.transition == 0.0 && r.transitionStart == now
    ensures r.current == s.current
    ensures r.(target := s.target, transition := s.transition, transitionStart := s.transitionStart) == s
  {
    s.(target := next, transition := 0.0, transitionStart := now)
  }

  /** The Paste button (main.cpp:378-382): the clipboard's C string, cut to
      the key buffer's capacity, replaces the key; no clipboard text, no
      change. */
  function Paste(s: AppState, clipboard: Option<Bytes>): (r: AppState)
    ensures clipboard.None? ==> r == s
    ensures clipboard.Some? ==> |r.keyInput| <= KeyCapacity
    ensures clipboard.Some? ==> r.keyInput == BoundedCopy(clipboard.value, KeyCapacity)
    ensures r.(keyInput := s.keyInput) == s
  {
    match clipboard
    case None => s
    case Some(text) => s.(keyInput := BoundedCopy(text, KeyCapacity))
  }

  /** The Sign In button (main.cpp:384-396): ignored while a verification is
      in flight; otherwise it marks one in flight, shows "Verifying..." and
      starts one verifier with a copy of the key. */
  function SignIn(s: AppState): (r: AppState)
    ensures s.verifying ==> r == s
    ensures !s.verifying ==> r.verifying && r.statusText == VerifyingText && r.verifier == Some(s.keyInput)
    ensures !s.verifying ==> r.(verifying := s.verifying, statusText := s.statusText, verifier := s.verifier) == s
  {
    if s.verifying then s
    else s.(verifying := true, statusText := VerifyingText, verifier := Some(s.keyInput))
  }

  /** The verifier thread's body (main.cpp:389-394): it asks the server about
      the key it copied and deposits the result in the slot. Only a running
      verifier can finish. */
  function VerifierFinishes(s: AppState, t: Transport): (r: AppState)
    requires s.verifier.Some?
    ensures r.slot.ready && r.slot.result == VerifyKeyOnline(t)
    ensures r.verifier.None?
    ensures r.(slot := s.slot, verifier := s.verifier) == s
  {
    s.(slot := Deposit(s.slot, VerifyKeyOnline(t)), verifier := None)
  }

  /** The request the running verifier sends: the fixed path prefix, then
      a query text from which the server reads back exactly the key the
      verifier copied. */
  function PendingRequest(s: AppState): (p: Option<Bytes>)
    ensures p.Some? <==> s.verifier.Some?
    ensures p.Some? ==>
      && |p.value| >= |VerifyPathPrefix|
      && p.value[..|VerifyPathPrefix|] == VerifyPathPrefix
      && Decode(p.value[|VerifyPathPrefix|..]) == s.verifier
  {
    match s.verifier
    case None => None
    case Some(key) => Some(RequestPath(key))
  }

  /** The frame loop's poll (main.cpp:650-667): nothing unless the slot is
      ready; then the slot is emptied, verification ends, and the outcome is
      applied, the network flag being tested before success. */
  function PollVerification(s: AppState, now: real): (r: AppState)
    ensures !s.slot.ready ==> r == s
    ensures s.slot.ready ==> !r.verifying && !r.slot.ready && r.slot.result == s.slot.result
    ensures s.slot.ready ==> r.current == s.current && KeepsKeyAndProcess(s, r)
    ensures s.slot.ready && OutcomeOf(s.slot.result).NetworkError? ==>
      var message := s.slot.result.statusMessage;
      && r.statusText == message
      && r.toasts == AddToast(s.toasts, message, Grey, now)
      && r.target == s.target && r.transition == s.transition && r.transitionStart == s.transitionStart
      && r.loadingStart == s.loadingStart && r.loadingProgress == s.loadingProgress
    ensures s.slot.ready && OutcomeOf(s.slot.result).Accepted? ==>
      && r.statusText == KeyAccepted
      && r.toasts == AddToast(s.toasts, KeyAccepted, AcceptGreen, now)
      && r.target == Loading && r.transition == 0.0 && r.transitionStart == now
      && r.loadingStart == now && r.loadingProgress == 0.0
    ensures s.slot.ready && OutcomeOf(s.slot.result).Declined? ==>
      && r.statusText == KeyDeclined
      && r.toasts == AddToast(s.toasts, KeyDeclined, AlertRed, now)
      && r.target == s.target && r.transition == s.transition && r.transitionStart == s.transitionStart
      && r.loadingStart == s.loadingStart && r.loadingProgress == s.loadingProgress
  {
    var (taken, slot) := Take(s.slot);
    match taken
    case None => s
    case Some(result) =>
      var s1 := s.(verifying := false, slot := slot);
      if result.networkError then
        s1.(statusText := result.statusMessage,
            toasts := AddToast(s1.toasts, result.statusMessage, Grey, now))
      else if result.success then
        var s2 := s1.(statusText := KeyAccepted, toasts := AddToast(s1.toasts, KeyAccepted, AcceptGreen, now));
        StartTransition(s2, Loading, now).(loadingStart := now, loadingProgress := 0.0)
      else
        s1.(statusText := KeyDeclined, toasts := AddToast(s1.toasts, KeyDeclined, AlertRed, now))
  }

  /** Colour of the status line under the login card (main.cpp:398-401):
      none when the status is empty, red exactly for "Key declined". */
  function StatusColor(status: Bytes): (c: Option<Color>)
    ensures c.None? <==> status == []
    ensures c == Some(AlertRed) <==> status == KeyDeclined
  {
    if status == [] then None
    else if status == KeyDeclined then Some(AlertRed)
    else Some(StatusBlue)
  }

  /** The state logic of `DrawLoadingScreen` (main.cpp:422-427): progress is
      elapsed time over 2.5 seconds, clamped to [0, 1]; a transition to Main
      starts only once the bar is full and the previous transition has
      completed. */
  function LoadingFrame(s: AppState, now: real): (r: AppState)
    ensures 0.0 <= r.loadingProgress <= 1.0
    ensures r.loadingProgress == 1.0 <==> now - s.loadingStart >= LoadingSeconds
    ensures now - s.loadingStart <= 0.0 ==> r.loadingProgress == 0.0
    ensures 0.0 <= now - s.loadingStart <= LoadingSeconds ==>
      r.loadingProgress == (now - s.loadingStart) / LoadingSeconds
    ensures now - s.loadingStart >= LoadingSeconds && s.transition >= 1.0 ==>
      r.target == Main && r.transition == 0.0 && r.transitionStart == now
    ensures !(now - s.loadingStart >= LoadingSeconds && s.transition >= 1.0) ==>
      r.target == s.target && r.transition == s.transition && r.transitionStart == s.transitionStart
    ensures r.current == s.current
    ensures r.(loadingProgress := s.loadingProgress, target := s.target,
               transition := s.transition, transitionStart := s.transitionStart) == s
  {
    var elapsed := now - s.loadingStart;
    var s1 := s.(loadingProgress := Clamp(elapsed / LoadingSeconds, 0.0, 1.0));
    if s1.loadingProgress >= 1.0 && s1.transition >= 1.0 then StartTransition(s1, Main, now)
    else s1
  }

  /** The Browse button (main.cpp:451-457): a picked file becomes the
      selected path, and its file name is what the card shows. */
  function Browse(s: AppState, picked: Option<string>): (r: AppState)
    ensures picked.None? ==> r == s
    ensures picked.Some? ==> r.selectedPath == picked.value
    ensures picked.Some? ==> r.selectedName == FileName(picked.value)
    ensures r.(selectedPath := s.selectedPath, selectedName := s.selectedName) == s
  {
    match picked
    case None => s
    case Some(path) => s.(selectedPath := path, selectedName := FileName(path))
  }

  /** What `CreateProcessW` came to. */
  datatype LaunchOutcome = Launched(info: ProcessInfo) | LaunchFailed

  /** `CloseHandle` on both handles of a process. */
  function Release(l: Ledger, p: ProcessInfo): (r: Ledger)
    ensures r.issued == l.issued
    ensures r.closes[p.hProcess] > l.closes[p.hProcess] && r.closes[p.hThread] > l.closes[p.hThread]
    ensures l.closes <= r.closes && |r.closes| == |l.closes| + 2
  {
    l.(closes := l.closes + multiset{p.hProcess, p.hThread})
  }

  /** The Launch Target button (main.cpp:459-473), as written: with a path
      selected, the tracked handles (if any) are closed first; a successful
      launch is then tracked, a failed one raises a toast and leaves
      `has_process` and the old (now closed) handles as they were. */
  function Launch(s: AppState, outcome: LaunchOutcome, now: real): (r: AppState)
    ensures s.selectedPath == [] ==> r == s
    ensures s.selectedPath != [] && s.hasProcess ==>
      r.ledger.closes == s.ledger.closes + multiset{s.process.hProcess, s.process.hThread}
    ensures s.selectedPath != [] && !s.hasProcess ==> r.ledger.closes == s.ledger.closes
    ensures s.selectedPath != [] && outcome.Launched? ==>
      && r.hasProcess && r.process == outcome.info && r.toasts == s.toasts
      && r.ledger.issued == s.ledger.issued + {outcome.info.hProcess, outcome.info.hThread}
    ensures s.selectedPath != [] && outcome.LaunchFailed? ==>
      && r.hasProcess == s.hasProcess && r.process == s.process
      && r.toasts == AddToast(s.toasts, LaunchFailedText, AlertRed, now)
      && r.ledger.issued == s.ledger.issued
    ensures r.(process := s.process, hasProcess := s.hasProcess, toasts := s.toasts, ledger := s.ledger) == s
  {
    if s.selectedPath == [] then s
    else
      var s1 := if s.hasProcess then s.(ledger := Release(s.ledger, s.process)) else s;
      match outcome
      case Launched(info) =>
        s1.(process := info, hasProcess := true,
            ledger := s1.ledger.(issued := s1.ledger.issued + {info.hProcess, info.hThread}))
      case LaunchFailed =>
        s1.(toasts := AddToast(s1.toasts, LaunchFailedText, AlertRed, now))
  }

  /** The Inject button (main.cpp:475-477): a toast and nothing else. */
  function Inject(s: AppState, now: real): (r: AppState)
    ensures r.toasts == AddToast(s.toasts, InjectedText, InjectGreen, now)
    ensures r.(toasts := s.toasts) == s
  {
    s.(toasts := AddToast(s.toasts, InjectedText, InjectGreen, now))
  }

  /** The expiry half of `DrawToasts` (main.cpp:702) applied to the state:
      the queue becomes the order-preserving filter `Survivors`, the one the
      erase loop `ExpireToasts` computes, so the oldest survivor stays at the
      front, where the next `AddToast` at capacity evicts it. */
  function ExpireStep(s: AppState, now: real): (r: AppState)
    requires PositiveDurations(s.toasts)
    ensures r.toasts == Survivors(s.toasts, now)
    ensures forall t :: t in r.toasts <==> t in s.toasts && !Expired(t, now)
    ensures r.(toasts := s.toasts) == s
  {
    forall t: Toast
      ensures t in Survivors(s.toasts, now) <==> t in s.toasts && !Expired(t, now)
    {
      SurvivorsMembership(s.toasts, now, t);
    }
    s.(toasts := Survivors(s.toasts, now))
  }

  /** Exit (main.cpp:713-716): the tracked handles, if any, are closed. */
  function Shutdown(s: AppState): (r: AppState)
    ensures s.hasProcess ==> r.ledger == Release(s.ledger, s.process)
    ensures !s.hasProcess ==> r == s
    ensures r.(ledger := s.ledger) == s
  {
    if s.hasProcess then s.(ledger := Release(s.ledger, s.process)) else s
  }

  /** Launch with the double close removed: once the old handles are
      closed, the process is no longer tracked, so a failed launch leaves
      nothing to close again. */
  function LaunchCorrected(s: AppState, outcome: LaunchOutcome, now: real): (r: AppState)
    ensures s.selectedPath == [] ==> r == s
    ensures s.selectedPath != [] && outcome.LaunchFailed? ==> !r.hasProcess
    ensures s.selectedPath != [] && outcome.Launched? ==> r.hasProcess && r.process == outcome.info
  {
    if s.selectedPath == [] then s
    else
      var s1 := if s.hasProcess then s.(ledger := Release(s.ledger, s.process), hasProcess := false) else s;
      match outcome
      case Launched(info) =>
        s1.(process := info, hasProcess := true,
            ledger := s1.ledger.(issued := s1.ledger.issued + {info.hProcess, info.hThread}))
      case LaunchFailed =>
        s1.(toasts := AddToast(s1.toasts, LaunchFailedText, AlertRed, now))
  }
}
