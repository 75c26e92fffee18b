# Mock-interview session, countdown and results — a Dafny model

This project models the core of a single-user mock-interview web app. It has three parts.

- **Session controller** (`InterviewApp`). It holds:
  - the current question ordinal (0..9) and the answer log (ordinal to text);
  - the live speech transcript, the listening flag and the camera flag;
  - a two-minute countdown per question.

  Its handlers start and stop recording, toggle the camera and move to the next question. Expiry of the countdown runs the same next-question handler. On the last question that handler hands the answer log to the results page.
- **Countdown hook** (`useTimer`). Its state is `timeLeft` and `isRunning`, and its actions are start, stop, reset and a one-second tick that fires `onTimeUp` on the last second. The handler to call is kept in a mutable cell that always holds the most recently registered one. The hook also provides `formatTime`, which renders seconds as `m:ss`.
- **Results page** (`Results`). It computes the answered and skipped counts, where an answer counts only if its trimmed text is non-empty. It also builds the plain-text report offered for download.

Layout:

- `basics.dfy` (module `Basics`) holds the JavaScript built-ins the source calls: `repeat` (src/pages/Results.tsx:23, 29), and `padStart` and decimal `toString` (src/hooks/useTimer.ts:71). It also holds `ParseDecimal` and `IndexOf`, which the source never calls. They exist only for the model's own parser `ParseTime`, the inverse of `formatTime` used to prove the display round trip.
- `timer.dfy` (module `Timer`) holds the `Clock` value and its transitions, with lemmas over arbitrary event sequences. It also holds `FormatTime`, with a parser as its inverse, and the mutable `CountdownTimer` class. That class is proved to follow the `Clock` functions, and its `onTimeUp` field is the ref cell.
- `results.dfy` (module `Results`) holds ECMAScript `trim`, the counts, the report as a function, and the appending loop `BuildReport`, which is proved equal to that function.
- `interview.dfy` (module `Interview`) holds the controller state as a `Session` value with one function per handler, plus the invariant and the event-sequence lemmas. The `InterviewController` class owns a `CountdownTimer<Capture>`, and its methods are proved to follow the `Session` functions.

Wall-clock time is modelled as discrete one-second events. The speech recogniser is an outside event that replaces the transcript, and whether speech recognition is available is fixed when the controller is built. Enabling the camera succeeds or fails, and the caller says which.

Each handler in `InterviewApp` is a callback created from the values in its dependency list. The timer's ref-updating effect re-registers `handleNextQuestion` whenever one of those values changes. The model captures this as follows:

- `Capture` is the value a handler closes over.
- Every controller method ends by registering the capture of its new fields.
- `InterviewController.Valid` requires that the registered capture equals the current fields.
- `ElapseSecond` runs the capture that the timer returns.

So expiry always runs a handler built from the current state, and `StaleHandlerLosesLastWords` shows what would go wrong otherwise.

Four facts about the controller as written:

- Starting a recording has no "already started" guard.
- Starting a recording resumes the countdown from its current `timeLeft`; it does not restart it from the budget.
- After a timer expiry, capture is not restarted automatically.
- Advancing writes an entry for the question being left even when it is empty (`transcript || previous || ''`).

**Ordering of an expiry.** The last second's `timeLeft` updater (src/hooks/useTimer.ts:28-36) calls `onTimeUp` before it returns 0. That handler's `resetTimer` asks for `timeLeft = 120` (src/hooks/useTimer.ts:62). Which value wins depends on where React 18 runs the updater:

- On an ordinary countdown the previous tick's decrement has just re-rendered the component, which leaves a pending lane on the alternate fiber. So `setTimeLeft` does not run the updater eagerly; it runs during the next render. The `setTimeLeft(120)` issued inside it is then a render-phase update, applied after the updater's 0, so the next question gets 120 s.
- Only when both fibers have no pending lanes does React run the updater eagerly inside `setTimeLeft`. Then the reset is queued first and the updater's 0 last, so 0 wins. That requires a re-render during the last second that bailed out, for example a state update to the same value.

The main model follows the ordinary ordering: `AfterSecond` applies the updater's 0, then the handler's reset. The following all rest on it: `Step`, `Run`, `InterviewController.ElapseSecond`, `ExpiryAfterRemainingSeconds`, `SilentRound`, `SilentRounds`, `SilentSessionCompletes` and `LateSpeechIsKept`. The eager ordering is modelled separately as `AfterSecondEager` (see Findings). Under it, `SilentSessionCompletes` would not hold. The first expiry leaves question 1 with a countdown at 0. `StalledCountdownNeverExpires` shows that start plus any number of seconds then leaves the session on question 1.

## Model

| member | source | states |
|---|---|---|
| Basics.Repeat | src/pages/Results.tsx:23 | `ch.repeat(n)`: exactly n characters, all equal to ch |
| Basics.PadStart | src/hooks/useTimer.ts:71 | `padStart`: the result has length max(width, \|s\|), ends with s, and is filled with the pad character before it |
| Basics.NatToDecimal | src/hooks/useTimer.ts:71 | the decimal text of a number is non-empty, all digits, has no leading zero, and is one character exactly for numbers below 10 |
| Basics.DecimalRoundTrip | src/hooks/useTimer.ts:69-71 | reading the decimal text of n back gives n |
| Basics.DecimalInjective | src/hooks/useTimer.ts:69-71 | two different numbers never have the same decimal text |
| Timer.RunStaysInBudget | src/hooks/useTimer.ts:16-66 | under any sequence of start, stop, reset and tick, `timeLeft` stays within [0, initialTime] |
| Timer.AtMostOneExpiryPerStart | src/hooks/useTimer.ts:26-35 | without a new start, `onTimeUp` fires at most once, and never if the timer is not running at the outset |
| Timer.CountdownFiresOnLastTick | src/hooks/useTimer.ts:25-39 | a timer running with k seconds left fires exactly once, on the k-th tick, and ends stopped at 0; after k-1 ticks it is still running at 1 having fired nothing |
| Timer.TwoDigitSeconds | src/hooks/useTimer.ts:71 | the padded seconds field is always the tens digit followed by the units digit |
| Timer.FormatTimeShape | src/hooks/useTimer.ts:68-72 | `formatTime(s)` is the decimal of floor(s/60), a colon, then the two digits of s mod 60 |
| Timer.FormatTimeRoundTrip | src/hooks/useTimer.ts:68-72 | parsing `formatTime(s)` as minutes*60 + seconds gives back s, for every s >= 0 |
| Timer.FormatTimeInjective | src/hooks/useTimer.ts:68-72 | different second counts never display the same text |
| Timer.FormatTimeSamples | src/hooks/useTimer.ts:68-72 | 0 gives "0:00", 59 gives "0:59", 60 gives "1:00", 75 gives "1:15" and 125 gives "2:05" |
| Timer.CountdownTimer.constructor | src/hooks/useTimer.ts:16-19 | a new timer has the full budget, is not running, and holds the given handler |
| Timer.CountdownTimer.Register | src/hooks/useTimer.ts:21-23 | storing the newest handler changes neither `timeLeft` nor `isRunning` |
| Timer.CountdownTimer.Start | src/hooks/useTimer.ts:49-51 | start only sets running; `timeLeft` and the handler are unchanged |
| Timer.CountdownTimer.Stop | src/hooks/useTimer.ts:53-58 | stop clears running and keeps `timeLeft` |
| Timer.CountdownTimer.Reset | src/hooks/useTimer.ts:60-66 | reset clears running and restores `timeLeft` to the initial budget |
| Timer.CountdownTimer.Tick | src/hooks/useTimer.ts:25-39 | with no interval installed (not running, or no time left), nothing changes and nothing fires. With more than 1 second left, `timeLeft` drops by exactly 1 and the timer keeps running. Otherwise `timeLeft` becomes 0, running becomes false, and the handler stored last is returned as fired |
| Timer.LatestHandlerFires | src/hooks/useTimer.ts:19-23 | a handler registered after the countdown started is the one that expiry fires, not the one current at start |
| Results.TrimStartBlank | src/pages/Results.tsx:41 | trimming leading white space leaves nothing exactly when the text is blank, and otherwise leaves text starting with a non-white-space character |
| Results.TrimEndKeepsFirst | src/pages/Results.tsx:41 | trimming trailing white space cannot remove a leading non-white-space character |
| Results.TrimEmptyIffBlank | src/pages/Results.tsx:41 | `trim()` yields "" exactly when the text is made only of ECMAScript white space and line terminators |
| Results.AnsweredMeansNonBlank | src/pages/Results.tsx:41 | an ordinal counts as answered exactly when it has an entry holding a non-white-space character, so white-space-only answers are counted as skipped |
| Results.CountsWithinQuestions | src/pages/Results.tsx:41-66 | when every key is below n, answered <= n, skipped >= 0, and answered + skipped == n |
| Results.BuildReport | src/pages/Results.tsx:21-30 | the text built by appending question by question is exactly `Report`: the header, then one block per question in list order |
| Results.ReportOpening | src/pages/Results.tsx:22-23 | the report starts with the title and a line break, then 50 '=', then a blank line |
| Results.ReportAppendsBlock | src/pages/Results.tsx:25-30 | adding a question to the list appends exactly that question's block, numbered by its position, and leaves all earlier text unchanged |
| Results.BlockLineBreaks | src/pages/Results.tsx:26-29 | with single-line texts a block has five line breaks: the question line, the category line, the answer line, the '-' rule and the blank line |
| Results.HeaderLineBreaks | src/pages/Results.tsx:22-23 | the header has three line breaks |
| Results.BlocksLineBreaks | src/pages/Results.tsx:25-30 | the blocks of n questions have 5n line breaks |
| Results.ReportLineBreaks | src/pages/Results.tsx:22-30 | with single-line texts the report has 3 + 5n line breaks for n questions: one block per question and nothing else |
| Results.BlankAnswerSkippedButPrinted | src/pages/Results.tsx:28-41 | a white-space-only answer is not counted as answered, yet the report prints it verbatim and not the "No answer provided" fallback |
| Results.MissingStateShowsNothingAnswered | src/pages/Results.tsx:15-41 | with no navigation state, answered is 0, skipped is the question count, and every answer line shows the fallback |
| Interview.AdvanceRecordsAnswer | src/components/InterviewApp.tsx:52-56 | advancing writes the transcript if it is non-empty, else the earlier answer, else ""; the ordinal just left always has an entry; no other entry changes, appears or disappears |
| Interview.AdvanceMovesOn | src/components/InterviewApp.tsx:64-67 | from a question before the last, advancing sets the index to exactly old + 1, clears the transcript and listening, and resets the countdown to 120 s, not running |
| Interview.AdvanceCompletes | src/components/InterviewApp.tsx:73-76 | on the last question, advancing keeps the index, stops listening, turns the camera off, and hands off the updated log, which includes the last entry |
| Interview.StopRecordingSaves | src/components/InterviewApp.tsx:114-117 | stopping clears listening and stops the countdown where it stands. It writes the transcript under the current ordinal only when the transcript is non-empty; with an empty transcript the log is unchanged |
| Interview.StopRecordingIdempotent | src/components/InterviewApp.tsx:114-117 | stopping twice gives the same state as stopping once |
| Interview.StartRecordingArms | src/components/InterviewApp.tsx:94-106 | without speech support, starting changes nothing. With it, starting empties the transcript, sets listening and runs the countdown from its current `timeLeft` |
| Interview.CameraToggleOutcome | src/components/InterviewApp.tsx:125-141 | disabling always turns the camera off; enabling turns it on only if the device was acquired; nothing else changes |
| Interview.AdvancedKeepsInv | src/components/InterviewApp.tsx:50-83 | advancing keeps the controller invariant: the index is below 10, entries exist exactly up to the index, the countdown is in budget, and a hand-off carries the complete log |
| Interview.AfterSecondKeepsInv | src/components/InterviewApp.tsx:92 | a second of time, including an expiry that runs the next-question handler, keeps the invariant |
| Interview.StepKeepsInv | src/components/InterviewApp.tsx:41-141 | every event keeps the invariant, moves the index by 0 or exactly 1, and leaves the entries of earlier questions unchanged |
| Interview.RunKeepsInv | src/components/InterviewApp.tsx:64-65 | over any event sequence the index stays in [0, 9] and never decreases, and answers finalised for earlier questions never change |
| Interview.HandOffIsFinal | src/components/InterviewApp.tsx:74-76 | after the hand-off to the results page, no event changes anything. This follows from the modelling choice that `Step` ignores events once the view has unmounted (see Left out); it adds nothing about the source beyond that choice |
| Interview.HandOffCoversEveryQuestion | src/components/InterviewApp.tsx:52-76 | the handed-off log has an entry for exactly the ordinals 0..9, so the page's answered + skipped equals 10 and answered <= 10 |
| Interview.StaleHandlerLosesLastWords | src/components/InterviewApp.tsx:83 | words heard after a handler was created are kept by the handler created from the current values and lost by the stale one |
| Interview.ExpiryAfterRemainingSeconds | src/components/InterviewApp.tsx:92 | with the countdown running at k seconds and no other event, the k-th second advances exactly as the next-question handler does on the state at that moment |
| Interview.SilentRound | src/components/InterviewApp.tsx:50-92 | with nothing said, start plus 120 s moves to the next question with an empty entry, or on the last question hands off ten empty entries |
| Interview.SilentRounds | src/components/InterviewApp.tsx:50-92 | m silent rounds from question j lead to question j+m with empty entries for 0..j+m-1 |
| Interview.SilentSessionCompletes | src/components/InterviewApp.tsx:50-92 | ten silent rounds starting from mount end with the results page receiving exactly ten empty entries |
| Interview.ExpiryEagerStallsNextCountdown | src/hooks/useTimer.ts:28-36 | when React runs the updater eagerly (no pending lane on either fiber), an expiry before the last question moves on but leaves the next countdown at 0, so starting to record there does not arm it |
| Interview.StalledCountdownNeverExpires | src/hooks/useTimer.ts:26 | with the countdown at 0, starting to record and waiting any number of seconds leaves the session on the same question, because no interval is ever installed |
| Interview.ExpiryRestoresBudget | src/components/InterviewApp.tsx:64-67 | on the ordinary render-phase path of the same code, with the handler's reset applied after the updater's 0, the same expiry leaves the next question with the full 120 s, and starting to record arms it |
| Interview.InterviewController.constructor | src/components/InterviewApp.tsx:16-18 | a new controller is at question 0 with an empty log, not listening, camera off, and a stopped 120 s countdown |
| Interview.InterviewController.HandleNextQuestion | src/components/InterviewApp.tsx:50-83 | running a handler created from the captured values gives `AdvancedWith(state, capture)`: the answer is taken from the capture and the index update from the live state |
| Interview.InterviewController.NextQuestion | src/components/InterviewApp.tsx:50-83 | the button runs the handler of the current render, and the state becomes `Advanced` of the old state |
| Interview.InterviewController.StartRecording | src/components/InterviewApp.tsx:94-112 | the new state is `StartedRecording` of the old one, and the invariant and the current-handler registration are kept |
| Interview.InterviewController.StopRecording | src/components/InterviewApp.tsx:114-123 | the new state is `StoppedRecording` of the old one |
| Interview.InterviewController.ToggleCamera | src/components/InterviewApp.tsx:125-141 | the new state is `CameraToggled` of the old one |
| Interview.InterviewController.HearSpeech | src/components/InterviewApp.tsx:24-31 | a recogniser update replaces the transcript and re-registers the handler with it |
| Interview.InterviewController.ElapseSecond | src/hooks/useTimer.ts:25-39 | a tick runs the handler the timer returns; since the registered one is always built from the current fields, the new state is `AfterSecond` of the old one |
| Interview.LateSpeechIsKept | src/components/InterviewApp.tsx:83 | "hello world" heard 60 s into a 120 s countdown is answer 0 when the countdown expires, and the session is then on question 1 |

## Left out

- The camera hook (`getUserMedia`, media tracks, the video element and its 100 ms delay) is I/O. The camera is a flag, and whether an enable attempt succeeds is a parameter.
- The speech-recognition hook is not part of this model. The transcript is set by an outside event, and speech support is a constant of the controller.
- Toasts, routing and the Blob/URL download are left out; the hand-off to the results page is the `results` field. The toast decision in `handleToggleCamera`, which reads a possibly stale `cameraError`, is left out too.
- Presentation components and the question data are left out. Only the question count (10) is used, as a constant. The report is stated for any list of questions.
- Real time and asynchronous interleaving are left out. Every interval callback is a discrete one-second event that runs to completion before the next event.
- The button wiring is left out. `ActionButtons` (src/components/ActionButtons.tsx) reads `hasStarted` and `onStart` props and does not call the handlers that `InterviewApp` passes it (src/components/InterviewApp.tsx:172-181). The events `StartClicked`, `StopClicked`, `NextClicked` and `CameraClicked` call `InterviewApp`'s handlers directly.
- `Interview.Step`: after the hand-off the component unmounts, so the model ignores every later event.
- `Timer.CountdownTimer.Tick`: on expiry it returns the stored handler instead of calling it, and the controller then runs it. This is because a method cannot be stored in a field.

## Findings

| source | as written | input that shows it | evidently intended | confidence | as-written member | corrected member |
|---|---|---|---|---|---|---|
| src/hooks/useTimer.ts:28-36 | the `timeLeft` updater calls `onTimeUp`, whose `resetTimer` asks for `timeLeft = 120`, and only then returns 0. When React runs this updater eagerly inside `setTimeLeft`, the reset is queued before the updater's 0, so the 0 wins | a question before the last with the countdown at 1 s and running, where a re-render during that last second bailed out (for example, a state update to the same value), so that neither fiber has a pending lane when the interval fires. The next question then shows 0:00, and starting to record never arms the timer. On an ordinary countdown the previous tick's re-render leaves a lane pending, the updater runs during render, and the reset wins | the next question starts with the full 120 s whatever path React takes | not executed; low, since it depends on React 18's eager-state condition being met in the last second | Interview.ExpiryEagerStallsNextCountdown | Interview.ExpiryRestoresBudget |
