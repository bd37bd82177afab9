# Launcher app-state model

A Dafny model of the application-state core of a small Windows launcher
(`main.cpp`). The launcher checks a license key against a web endpoint,
moves through Login, Loading and Main screens, shows short-lived toast
notifications, and launches a chosen executable and keeps its handles.

The model is functional. `AppState` is an immutable record, and every
operation is a state transformer. Time, which the program reads from
`ImGui::GetTime()`, is a `real` parameter `now`, one per event and per frame
(see "## Left out"). Whatever the OS, the network
or the user decides is a parameter too: clipboard text, the file picked, the
launch result, the transport outcome.

Modules, leaf first:

- `Wrappers`: `Option`, and `Bytes`, which models a C++ `std::string` as its
  bytes. Wide-string paths are plain `string`.
- `Numeric`: `ClampFloat` over reals, and the `std::to_string` rendering of a
  status code, with a read-back round trip.
- `Strings`: `find` (first occurrence), `find_last_of` for the file name, and
  the bounded `strncpy_s` copy of a C string.
- `UrlEncoding`: `UrlEncode`, which is percent-encoding as in section 2.1 of
  RFC 3986 with the unreserved set of section 2.3. It has a decoder as its
  partner. The proofs cover the round trip, the output length, the position
  of each byte's encoding, and a bijection onto canonical encoded texts.
- `Verification`: the request path, the WinHTTP outcome as an abstract
  `Transport`, the classification of the reply into a `VerifyResult`, and the
  outcome order the frame loop applies (network error first, then success).
  It also holds the single-slot mailbox (`Deposit` and `Take`) shared by the
  verifier thread and the frame loop.
- `Toasts`: the bounded FIFO (`AddToast`) and the expiry-and-fade pass of
  `DrawToasts`. The pass is a reverse-index erase loop, proved equal to a
  filter. Rendering and layout are not modelled.
- `App`: `AppState` and the state logic of the screens. That covers
  `StartTransition`, the Paste and Sign In buttons, the verifier thread's body,
  the frame loop's poll, the loading guard, Browse, Launch, Inject, toast expiry
  and exit. It also has a corrected launch for the finding below.
- `Session`: every screen handler as an `Event`, runs of events from the
  initial state, and the invariant every reachable state keeps. The events
  are enabled whatever screen is shown, so the runs are a superset of the
  program's runs: its loop draws only the login screen (main.cpp:699). Each
  invariant proved over the superset therefore holds of the program. Some
  runs in the superset are not program runs. For example, drawing the loading
  screen right at start targets Main with no key accepted, and a later
  accepted poll moves the target back to Loading. `LoopEvent` picks out the
  events the loop as written produces. The invariant says:
  - at most one verification is in flight;
  - the screen shown is always Login, and the transition progress is 1 exactly
    while the target is Login;
  - the toast queue holds at most four toasts of three seconds each;
  - the key fits its buffer;
  - no process handle leaks.

  The verification hand-off, the screens and the handles follow from it.

The code as written has these behaviours, and the model keeps them:

- Nothing assigns `current`, and nothing advances `transition` after
  `StartTransition` zeroes it. The frame loop forces the crossfade off and
  always draws the login screen (main.cpp:674-699). So `current` stays Login
  (`ReachableShowsLogin`). Once a key is accepted, the target stays Loading
  forever (`LoadingIsFinal`), and the loop as written never targets Main
  (`LoopNeverTargetsMain`). The source's own comments say transitions are
  disabled "until UI is visible" (main.cpp:591-593, 674). No code advances
  the transition or assigns `current`, so the model has no such step.
- A verification outcome is applied whatever screen is targeted. Nothing
  cancels it.
- A result waits in the slot until the next poll. The slot's old result is
  not cleared after a poll; only the ready flag is.

## Model

| member | source | states |
|---|---|---|
| Numeric.Clamp | main.cpp:29-33 | the result lies in [lo, hi] when lo <= hi, equals v inside the range, and is otherwise the bound v fell outside of |
| Numeric.Decimal | main.cpp:215 | `std::to_string` of a status code is a non-empty digit string, with no leading zero unless the number is 0, one digit exactly below 10 |
| Numeric.DecimalRoundTrip | main.cpp:215 | reading the rendered digits back gives the status code |
| Numeric.DecimalInjective | main.cpp:215 | two different codes never give the same "HTTP n" text |
| UrlEncoding.HexDigitValue | main.cpp:52-61 | the hex table entry for n is an upper-case hex digit whose value is n |
| UrlEncoding.EncodeByte | main.cpp:55-62 | an unreserved byte (RFC 3986 section 2.3) is kept as itself; any other byte becomes '%' and two upper-case hex digits whose value is the byte |
| UrlEncoding.UrlEncode | main.cpp:51-65 | the loop's output is the byte-by-byte encoding of its input, its length is the sum of 1 per unreserved byte and 3 per other byte, and it decodes back to the input |
| UrlEncoding.EncodeAppend | main.cpp:54-63 | encoding works byte by byte: the encoding of a concatenation is the concatenation of the encodings |
| UrlEncoding.EncodeLength | main.cpp:54-63 | the encoded length is the sum of 1 or 3 per input byte |
| UrlEncoding.EncodePosition | main.cpp:54-63 | input byte i appears, encoded on its own, at the offset given by the widths of the bytes before it |
| UrlEncoding.DecodeEncode | main.cpp:51-65 | percent-decoding the encoding gives back the input |
| UrlEncoding.EncodeInjective | main.cpp:51-65 | different keys never produce the same query text |
| UrlEncoding.EncodeIsCanonical | main.cpp:55-61 | every output uses only unreserved bytes and upper-case %HH triplets for reserved bytes |
| UrlEncoding.CanonicalTriplet | main.cpp:59-61 | an upper-case `%HH` triplet naming a reserved byte is exactly what the encoder writes for that byte |
| UrlEncoding.CanonicalIsEncoding | main.cpp:51-65 | every canonical text is the encoding of what it decodes to, so encoding is a bijection onto canonical texts |
| Strings.Find | main.cpp:216-217 | `find` returns the first index at which the pattern occurs, and npos exactly when it occurs nowhere |
| Strings.FindDecidesContains | main.cpp:216-217 | `find(...) != npos` holds exactly when the pattern is a substring |
| Strings.ContainsExtends | main.cpp:216-217 | a marker stays found when text is added before or after it |
| Strings.LastSeparator | main.cpp:282 | `find_last_of(L"\\/")` gives the index of a separator with none after it, or npos exactly when the path has no separator |
| Strings.FileName | main.cpp:281-285 | the file name is a suffix of the path with no separator, and the path character before it, if any, is a separator |
| Strings.FileNameWithoutSeparator | main.cpp:283 | a path without separators is returned unchanged |
| Strings.FileNameIgnoresDirectory | main.cpp:282-284 | whatever precedes the last separator does not affect the file name |
| Strings.CString | main.cpp:380 | a C string is the prefix of its buffer before the first NUL |
| Strings.BoundedCopy | main.cpp:380 | the key copied from the clipboard is a NUL-free prefix of the clipboard's C string, at most 127 bytes, and all of it when it fits |
| Verification.RequestPath | main.cpp:131-136 | the request path is the fixed prefix followed by a canonical encoded text that decodes to exactly the key |
| Verification.Classify | main.cpp:215-222 | success holds exactly when the body contains `"valid":true` or `"success":true` or equals `true`; no network error; the status reads "HTTP " followed by the shortest decimal numeral of the code, without leading zeros, as `std::to_string` writes it |
| Verification.VerifyKeyOnline | main.cpp:133-224 | a network error is flagged exactly when a WinHTTP call failed, never together with success, with a "Network error: " message; a completed exchange is judged by its body alone |
| Verification.FailureMessagesDistinct | main.cpp:143-190 | each failing WinHTTP call has its own message |
| Verification.OutcomeOfTransport | main.cpp:654-666 | the frame loop sees a network error exactly for a failed transport, acceptance exactly for an accepting body, and a decline otherwise |
| Verification.SuccessMarkerAccepted | main.cpp:216-219 | a body with `"success":true` anywhere is accepted whatever the status code |
| Verification.DeclinedExample | main.cpp:216-222 | the body `{"success":false}` is declined |
| Verification.Deposit | main.cpp:391-393 | the verifier's locked write leaves the result in the slot with the ready flag set |
| Verification.Take | main.cpp:650-653 | a ready slot yields its result and is cleared; a slot not ready yields nothing and is unchanged |
| Verification.DeliveredExactlyOnce | main.cpp:650-653 | a deposited result is seen by the next take, and a second take sees nothing |
| Toasts.AddToast | main.cpp:74-84 | the queue grows by one below four entries and keeps its size from four up; the new toast, started now with duration 3, is last; the older toasts kept are the newest ones, in order |
| Toasts.AddToastWellFormed | main.cpp:74-84 | adding keeps at most four toasts of duration 3, and the size becomes min(old + 1, 4) |
| Toasts.AddToastAtCapacity | main.cpp:75-77 | at four toasts, the oldest is evicted: the result is the old queue without its head, followed by the new toast |
| Toasts.Survivors | main.cpp:91-97 | the expiry pass never grows the queue |
| Toasts.SurvivorsMembership | main.cpp:93-96 | a toast survives exactly when it was queued and its normalised age is below 1 |
| Toasts.SurvivorsAppend | main.cpp:91-97 | the pass filters piecewise, so survivors keep their relative order |
| Toasts.SurvivorsNoneExpired | main.cpp:93-96 | with no toast expired the queue is unchanged |
| Toasts.SurvivorsWellFormed | main.cpp:91-97 | the pass keeps the queue well formed |
| Toasts.FadeAlpha | main.cpp:98-104 | the fade alpha always lies in [0, 1] |
| Toasts.FadeEnvelope | main.cpp:98-104 | for an age t in [0, 1] the alpha is t/0.1 below 0.1, (1 - t)/0.15 above 0.85, and 1 in between |
| Toasts.FadeKeyPoints | main.cpp:98-104 | the alpha is 0 at birth and at the end of life, and 1 at 0.1 and 0.85 |
| Toasts.FadeMonotone | main.cpp:98-104 | the alpha never falls while fading in and never rises while fading out |
| Toasts.ExpireToasts | main.cpp:90-104 | the reverse-index erase loop keeps exactly the toasts whose age is below 1, in order, and gives each survivor its fade alpha in [0, 1] |
| App.StartTransition | main.cpp:252-256 | sets the target, zeroes the progress and records the start time, changing nothing else, not the screen shown |
| App.Paste | main.cpp:378-382 | with clipboard text the key becomes its bounded copy, at most 127 bytes; without, nothing changes |
| App.SignIn | main.cpp:384-396 | a no-op while verifying; otherwise verifying, status "Verifying...", and one verifier started with a copy of the key, and nothing else changes |
| App.VerifierFinishes | main.cpp:389-394 | the verifier's result for the transport outcome lands in the slot with the flag set, and the verifier is gone |
| App.PendingRequest | main.cpp:388-390 | a request exists exactly while a verifier runs; it is the fixed path prefix followed by a query text that decodes to exactly the key the verifier copied |
| App.PollVerification | main.cpp:650-667 | nothing when the slot is not ready; otherwise verification ends and the slot is cleared; a network error shows its message and a toast; acceptance shows "Key accepted", a toast, targets Loading with progress and loading reset at now; a decline shows exactly "Key declined" and a toast; the screen shown, the key and the process are untouched |
| App.StatusColor | main.cpp:398-401 | no status line for an empty status, red exactly for "Key declined" |
| App.LoadingFrame | main.cpp:422-427 | progress is elapsed/2.5 clamped to [0, 1]: 0 for no or negative elapsed time, elapsed/2.5 in between, full exactly after 2.5 s; a transition to Main starts exactly when the bar is full and the previous transition is complete; the screen shown is unchanged |
| App.Browse | main.cpp:451-457 | a picked file becomes the selected path, and the shown name is its file name; no pick changes nothing |
| App.Release | main.cpp:462-463 | closing both handles of a process adds one close to each |
| App.Launch | main.cpp:459-473 | with a path selected the tracked handles are closed first; success tracks the new handles; failure adds the toast "Failed to launch target" and leaves has_process and the old handles as they were; no path, no change |
| App.Inject | main.cpp:475-477 | adds the "Injected!" toast and changes nothing else |
| App.ExpireStep | main.cpp:702 | the frame's toast pass makes the queue the order-preserving filter `Survivors`: exactly the unexpired toasts, in their original order, with nothing else in the state changed |
| App.Shutdown | main.cpp:713-716 | exit closes both tracked handles when a process is tracked, and otherwise changes nothing |
| App.LaunchCorrected | main.cpp:459-473 | corrected launch: a failed launch after closing leaves no process tracked |
| Session.InitInv | main.cpp:226-250 | the initial state satisfies the invariant |
| Session.PollKeepsInv | main.cpp:650-667 | the poll keeps the invariant |
| Session.ReleaseKeepsInv | main.cpp:461-464 | closing the tracked handles keeps the invariant and closes them |
| Session.TrackKeepsInv | main.cpp:466-468 | tracking freshly handed-over handles, once the old ones are closed, keeps the invariant |
| Session.LaunchKeepsInv | main.cpp:459-473 | Launch keeps the invariant, so replacement never leaks a handle |
| Session.StepInv | main.cpp:640-702 | every event keeps the invariant |
| Session.RunInv | main.cpp:640-711 | every state a run of events reaches keeps the invariant |
| Session.ReachableShowsLogin | main.cpp:226-227 | every reachable state shows the login screen |
| Session.SignInWhilePendingIsNoOp | main.cpp:384-386 | Sign In while a verifier runs or its result is unread changes nothing |
| Session.DepositNeverOverwrites | main.cpp:389-394 | a finishing verifier never finds an unread result in the slot |
| Session.OutcomeObservedExactlyOnce | main.cpp:650-667 | polling before the verifier finishes sees nothing, the first poll after applies its outcome, and a second poll sees nothing |
| Session.LoadingOnlyAfterAcceptance | main.cpp:657-662 | only a poll of an accepted key moves the target to Loading |
| Session.MainOnlyThroughGuard | main.cpp:425-427 | in the superset of runs, only the loading guard moves the target to Main, with the bar full and the previous transition complete; the invariant then puts the target at Login, i.e. a loading screen drawn before any key was accepted, a step the program's loop never takes |
| Session.LoadingIsFinal | main.cpp:422-427 | once the target is Loading, no run of events changes it |
| Session.LoopNeverTargetsMain | main.cpp:696-702 | with the frame loop as written, no run targets Main |
| Session.LoginCardRun | main.cpp:650-699 | the poll and the login card's buttons are the run of their events and keep the invariant |
| Session.Frame | main.cpp:650-702 | one frame is the run of its poll, login-card and toast events, keeps the invariant, never targets Main and leaves the process untouched |
| Session.ShutdownReleasesAll | main.cpp:713-716 | exit closes every handle ever handed over |
| Session.RelaunchReleasesOld | main.cpp:461-468 | a successful relaunch closes the old handles and tracks only the new ones |
| Session.AcceptedScenario | main.cpp:657-662 | key "abc" accepted by `{"success":true}` shows "Key accepted", targets Loading and keeps Login shown |
| Session.NetworkErrorScenario | main.cpp:654-656 | a failed connection shows its message as status and as the newest toast, and the target stays |
| Session.DeclinedScenario | main.cpp:663-666 | `{"success":false}` shows exactly "Key declined", in red, and the target stays |
| Session.NetworkErrorNotRed | main.cpp:398-401 | no network error message is shown in the declined colour |
| Session.FailedRelaunchDoubleCloses | main.cpp:461-471 | after a launch then a failed relaunch, the closed handles are still tracked, and exit closes them a second time |
| Session.ReleaseSingleClose | main.cpp:461-464 | corrected: closing and forgetting the tracked handles keeps each handle closed at most once |
| Session.TrackSingleClose | main.cpp:466-468 | corrected: tracking fresh handles keeps each handle closed at most once |
| Session.LaunchCorrectedSingleClose | main.cpp:459-473 | the corrected launch keeps every handle closed at most once, with no leak |
| Session.ShutdownAfterCorrectedSingleClose | main.cpp:713-716 | with the corrected launch, exit closes every handed-over handle exactly once |

## Left out

- `Utf8ToWide` and `WideToUtf8` (main.cpp:35-49) wrap Win32 conversions whose code is not visible. Paths stay wide strings, and the selected name is not converted for display.
- The WinHTTP calls and the read loop of `VerifyKeyOnline` (main.cpp:139-213) are network I/O. They are the `Transport` input: which call failed, or the status code and the whole body.
- The endpoint host, port and TLS flag (main.cpp:128-130) are not modelled. They matter only to the connection, which is the `Transport` input.
- Each `ImGui::GetTime()` call (main.cpp:81, 90, 255, 661) is a separate read of a steady clock, so one accepted poll stamps its toast, `transition_start` and `loading_start` with slightly increasing times, and `DrawToasts` reads a later time again. The model uses one `now` per event and per frame, so these stamps are equal. No property here depends on the difference.
- Event times in a run are not required to be non-decreasing, although the program's steady clock is. A run may draw the loading screen at a time before `loading_start`. `App.LoadingFrame` then gives progress 0, as `ClampFloat` does, and the invariants hold whatever the times.
- The `std::thread`, `detach`, `std::mutex` and `std::atomic` (main.cpp:389-394, 650-653) are concurrency. Each locked section is one atomic step. The lifetime of the `&state` captured by the detached thread is not modelled.
- `OpenExeDialog`, `LaunchTarget` and `CreateProcessW`, and `IsProcessRunning` with `WaitForSingleObject` (main.cpp:275-313, 445-450) are OS calls. Their results are inputs, and the running/not-running display is not modelled.
- A launch is assumed to hand over two distinct handles never handed over before, because handle identity is abstract. OS reuse of handle values is not modelled.
- Typing into the key field (`InputText`, main.cpp:376) and the Show and Remember me checkboxes are toolkit widgets with no application logic.
- `DrawSpinner`, `DrawTitleBar`, `DrawBackgroundGradient`, `DrawDebugOverlay`, toast positioning and window sizes, and every ImGui call are rendering only.
- The D3D11 device and swap chain, `WndProc` and the message pump (main.cpp:483-648, 705-727) are graphics and window plumbing. Quitting is the caller's choice to stop applying events, followed by `Shutdown`.
- The stub UI toolkit and backends under `imgui/` are not part of this model.
- IEEE single-precision rounding is not modelled. Times, progress and alpha are exact reals, and a toast's duration is assumed positive, as every toast built by `AddToast` has duration 3.
- Toasts.Survivors: its own contract states only that the queue does not grow. Membership, order and well-formedness are stated by the lemmas that follow it.
- App.LaunchCorrected: its own contract states only whether a process is tracked. The handle discipline it restores is stated by `Session.LaunchCorrectedSingleClose`.

## Findings

| source | as written | input that shows it | evidently intended | confidence | as-written member | corrected member |
|---|---|---|---|---|---|---|
| main.cpp:459-473 | Launch closes the tracked handles, but when the new launch fails it leaves `has_process` true and keeps the closed handles | select a path, launch successfully with handles 1 and 2, launch again and fail, then exit: handles 1 and 2 are closed twice | once the old handles are closed, stop tracking them, so that a failed launch leaves nothing to close again | high, not executed | Session.FailedRelaunchDoubleCloses | Session.LaunchCorrectedSingleClose |

The correction closes the old handles first, as the code does, and then
stops tracking them, so a failed launch leaves no process tracked. Another
fix would launch first and close and replace the old handles only on
success. That one also avoids the double close, and it leaves the state
unchanged apart from the toast when the launch fails. The model takes the
first fix because it keeps the order of the code's calls and changes one
assignment.

The event model (`Session.Step`) keeps the launch as written, so that it
follows the code. `App.LaunchCorrected` is the corrected definition. Its
single-close discipline is proved by `Session.LaunchCorrectedSingleClose`
and `Session.ShutdownAfterCorrectedSingleClose`.
