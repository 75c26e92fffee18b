/**
 * The interview session controller (src/components/InterviewApp.tsx).
 *
 * The controller owns the current question ordinal, the answer log, the live
 * transcript, the listening and camera flags, and a countdown timer; its
 * handlers start and stop recording, toggle the camera and move to the next
 * question, and the timer's expiry runs the next-question handler. Speech
 * recognition is an outside event that replaces the transcript; whether speech
 * recognition is available is fixed when the controller is built; a camera
 * enable attempt either succeeds or fails, and the caller says which.
 *
 * `Session` is the controller's state as a value, with one function per handler;
 * the class `InterviewController` keeps the same state in fields and is proved to
 * follow those functions. Once the answers are handed to the results page the
 * controller's view is gone, and no further event reaches it.
 */
module Interview {
  import opened Basics
  import opened Timer
  import Results

  /** Seconds allowed per question. */
  const QuestionTime: nat := 120

  /** The number of questions in the fixed interview. */
  const QuestionCount: nat := 10

  /**
   * The values `handleNextQuestion` closes over when it is created: the entries of
   * its dependency list that change between renders (the callbacks in it are stable).
   */
  datatype Capture = Capture(index: nat, answers: Results.Answers, transcript: string, listening: bool)

  /** The controller's whole state; `results` holds the answers once they are handed to the results page. */
  datatype Session = Session(
    speechSupported: bool,
    index: nat,
    answers: Results.Answers,
    transcript: string,
    listening: bool,
    cameraEnabled: bool,
    clock: Clock,
    results: Option<Results.Answers>)

  /** The state when the session view mounts. */
  function Initial(speechSupported: bool): Session {
    Session(speechSupported, 0, map[], "", false, false, Clock(QuestionTime, false), None)
  }

  function CaptureOf(s: Session): Capture {
    Capture(s.index, s.answers, s.transcript, s.listening)
  }

  /** `transcript || answers[index] || ''`: the text finalised for the question being left. */
  function FinalAnswer(answers: Results.Answers, index: nat, transcript: string): string {
    if transcript != "" then transcript
    else if index in answers && answers[index] != "" then answers[index]
    else ""
  }

  /** `saveCurrentAnswer`. */
  function WithAnswerSaved(s: Session): Session {
    if s.transcript != "" then s.(answers := s.answers[s.index := s.transcript]) else s
  }

  /** `handleStartRecording`. */
  function StartedRecording(s: Session): Session {
    if !s.speechSupported then s
    else s.(transcript := "", listening := true, clock := Started(s.clock))
  }

  /** `handleStopRecording`: stop listening, stop the timer, save the answer. */
  function StoppedRecording(s: Session): Session {
    WithAnswerSaved(s.(listening := false, clock := Stopped(s.clock)))
  }

  /**
   * `handleNextQuestion` as created from the captured values `c`, applied to the
   * live state `s` (the index update is a functional update on the live index).
   */
  function AdvancedWith(s: Session, c: Capture): Session {
    var updated := c.answers[c.index := FinalAnswer(c.answers, c.index, c.transcript)];
    var listening := if c.listening then false else s.listening;
    if c.index < QuestionCount - 1 then
      s.(answers := updated, listening := listening, index := s.index + 1,
         transcript := "", clock := Restored(QuestionTime))
    else
      s.(answers := updated, listening := listening, cameraEnabled := false, results := Some(updated))
  }

  /** `handleNextQuestion` created from the current values. */
  function Advanced(s: Session): Session {
    AdvancedWith(s, CaptureOf(s))
  }

  /** `handleToggleCamera`, where `acquired` says whether the camera could be opened. */
  function CameraToggled(s: Session, acquired: bool): Session {
    if s.cameraEnabled then s.(cameraEnabled := false) else s.(cameraEnabled := acquired)
  }

  /** The recogniser reports a new transcript. */
  function Heard(s: Session, transcript: string): Session {
    s.(transcript := transcript)
  }

  /**
   * One second of wall-clock time: the timer ticks and, when it expires, the
   * registered handler (the one created from the current values) runs. This is
   * the ordinary render-phase ordering: React runs the last second's updater
   * while rendering, so the handler's reset to the full budget is applied after
   * the updater's 0.
   */
  function AfterSecond(s: Session): Session {
    var t := TickOnce(s.clock);
    var ticked := s.(clock := t.clock);
    if t.expired then Advanced(ticked) else ticked
  }

  /**
   * One second when React runs the last second's updater eagerly (no pending lane
   * on either fiber): the updater stops the timer and calls the handler, whose
   * reset is queued first; the updater's 0 is queued after it and wins.
   */
  function AfterSecondEager(s: Session): Session {
    var t := TickOnce(s.clock);
    if t.expired then
      var handled := Advanced(s.(clock := Stopped(s.clock)));
      handled.(clock := handled.clock.(timeLeft := 0))
    else s.(clock := t.clock)
  }

  datatype Event =
    | StartClicked
    | StopClicked
    | NextClicked
    | CameraClicked(acquired: bool)
    | SpeechHeard(transcript: string)
    | SecondElapsed

  /** One event; after the hand-off to the results page the controller no longer receives any. */
  function Step(s: Session, e: Event): Session {
    if s.results.Some? then s
    else match e
      case StartClicked => StartedRecording(s)
      case StopClicked => StoppedRecording(s)
      case NextClicked => Advanced(s)
      case CameraClicked(acquired) => CameraToggled(s, acquired)
      case SpeechHeard(t) => Heard(s, t)
      case SecondElapsed => AfterSecond(s)
  }

  function Run(s: Session, events: seq<Event>): Session
    decreases |events|
  {
    if events == [] then s else Run(Step(s, events[0]), events[1..])
  }

  /**
   * The controller's invariant: the ordinal is a valid question, entries exist
   * for every ordinal already left and for none beyond the current one, the
   * countdown is within its budget, and the hand-off happens only on the last
   * question with the complete log.
   */
  ghost predicate Inv(s: Session) {
    && s.index < QuestionCount
    && (forall k :: k in s.answers ==> k <= s.index)
    && (forall k: nat :: k < s.index ==> k in s.answers)
    && InBudget(s.clock, QuestionTime)
    && (s.results.Some? ==> s.index == QuestionCount - 1 && s.index in s.answers && s.results.value == s.answers)
  }

  /**
   * Advancing records, for the question being left, the transcript if it is
   * non-empty, else the answer saved before, else the empty string; every other
   * entry is left exactly as it was.
   */
  lemma AdvanceRecordsAnswer(s: Session)
    ensures var a := Advanced(s).answers;
      && s.index in a
      && (s.transcript != "" ==> a[s.index] == s.transcript)
      && (s.transcript == "" && s.index in s.answers ==> a[s.index] == s.answers[s.index])
      && (s.transcript == "" && s.index !in s.answers ==> a[s.index] == "")
      && (forall k :: k != s.index ==> (k in a <==> k in s.answers))
      && (forall k :: k != s.index && k in a ==> a[k] == s.answers[k])
  {
  }

  /**
   * Advancing from a question before the last moves to the next ordinal, clears
   * the transcript and listening flag, and resets the countdown to the full
   * budget, not running; the camera is untouched and nothing is handed off.
   */
  lemma AdvanceMovesOn(s: Session)
    requires s.index < QuestionCount - 1
    ensures var n := Advanced(s);
      && n.index == s.index + 1 && n.transcript == "" && !n.listening
      && n.clock == Clock(QuestionTime, false)
      && n.cameraEnabled == s.cameraEnabled && n.results == s.results
  {
  }

  /**
   * Advancing on the last question keeps the ordinal, stops listening, turns the
   * camera off and hands the updated log, including the last entry, to the results page.
   */
  lemma AdvanceCompletes(s: Session)
    requires s.index >= QuestionCount - 1
    ensures var n := Advanced(s);
      && n.index == s.index && !n.listening && !n.cameraEnabled && n.clock == s.clock
      && n.results == Some(n.answers) && s.index in n.answers
  {
  }

  /**
   * Stopping clears the listening flag and stops the countdown where it stands;
   * the transcript is written under the current ordinal only when non-empty.
   */
  lemma StopRecordingSaves(s: Session)
    ensures var n := StoppedRecording(s);
      && !n.listening && n.clock == Clock(s.clock.timeLeft, false)
      && n.index == s.index && n.transcript == s.transcript && n.cameraEnabled == s.cameraEnabled
      && (s.transcript == "" ==> n.answers == s.answers)
      && (s.transcript != "" ==> n.answers == s.answers[s.index := s.transcript])
  {
  }

  /** Stopping twice is the same as stopping once. */
  lemma StopRecordingIdempotent(s: Session)
    ensures StoppedRecording(StoppedRecording(s)) == StoppedRecording(s)
  {
  }

  /**
   * Without speech support, starting changes nothing; with it, starting empties
   * the transcript, sets listening and sets the countdown running from where it stood.
   */
  lemma StartRecordingArms(s: Session)
    ensures !s.speechSupported ==> StartedRecording(s) == s
    ensures s.speechSupported ==>
      var n := StartedRecording(s);
      && n.transcript == "" && n.listening && n.clock == Clock(s.clock.timeLeft, true)
      && n.index == s.index && n.answers == s.answers && n.cameraEnabled == s.cameraEnabled
  {
  }

  /** Disabling always succeeds; enabling leaves the camera off when the device could not be opened. */
  lemma CameraToggleOutcome(s: Session, acquired: bool)
    ensures CameraToggled(s, acquired).cameraEnabled == (!s.cameraEnabled && acquired)
    ensures CameraToggled(s, acquired).(cameraEnabled := s.cameraEnabled) == s
  {
  }

  lemma AdvancedKeepsInv(s: Session)
    requires Inv(s) && s.results == None
    ensures Inv(Advanced(s))
  {
    var n := Advanced(s);
    AdvanceRecordsAnswer(s);
    if s.index < QuestionCount - 1 {
      forall k: nat | k < n.index ensures k in n.answers {
        if k != s.index { assert k < s.index; }
      }
    }
  }

  lemma AfterSecondKeepsInv(s: Session)
    requires Inv(s) && s.results == None
    ensures Inv(AfterSecond(s))
  {
    var t := TickOnce(s.clock);
    if t.expired {
      AdvancedKeepsInv(s.(clock := t.clock));
    }
  }

  /**
   * Every event keeps the invariant, moves the ordinal by zero or exactly one,
   * and leaves the entries of questions already left unchanged.
   */
  lemma StepKeepsInv(s: Session, e: Event)
    requires Inv(s)
    ensures var n := Step(s, e);
      && Inv(n)
      && (n.index == s.index || n.index == s.index + 1)
      && (forall k :: k in s.answers && k < s.index ==> k in n.answers && n.answers[k] == s.answers[k])
  {
    if s.results == None {
      match e
      case NextClicked => AdvancedKeepsInv(s); AdvanceRecordsAnswer(s);
      case SecondElapsed =>
        AfterSecondKeepsInv(s);
        var t := TickOnce(s.clock);
        if t.expired { AdvanceRecordsAnswer(s.(clock := t.clock)); }
      case _ =>
    }
  }

  /**
   * Over any sequence of events the invariant holds throughout, the ordinal never
   * decreases, and an answer finalised for a question already left never changes.
   */
  lemma {:induction false} RunKeepsInv(s: Session, events: seq<Event>)
    requires Inv(s)
    ensures var n := Run(s, events);
      && Inv(n)
      && s.index <= n.index
      && (forall k :: k in s.answers && k < s.index ==> k in n.answers && n.answers[k] == s.answers[k])
    decreases |events|
  {
    if events != [] {
      StepKeepsInv(s, events[0]);
      RunKeepsInv(Step(s, events[0]), events[1..]);
    }
  }

  /** After the hand-off, events change nothing. */
  lemma {:induction false} HandOffIsFinal(s: Session, events: seq<Event>)
    requires s.results.Some?
    ensures Run(s, events) == s
    decreases |events|
  {
    if events != [] {
      HandOffIsFinal(s, events[1..]);
    }
  }

  /**
   * The handed-off log has an entry for every question and no other, so the
   * results page's answered and skipped figures add up to the question count.
   */
  lemma HandOffCoversEveryQuestion(s: Session)
    requires Inv(s) && s.results.Some?
    ensures forall k: nat :: k in s.results.value <==> k < QuestionCount
    ensures Results.AnsweredCount(s.results.value) <= QuestionCount
    ensures Results.AnsweredCount(s.results.value) + Results.SkippedCount(s.results.value, QuestionCount)
            == QuestionCount
  {
    Results.CountsWithinQuestions(s.results.value, QuestionCount);
  }

  /**
   * Why expiry must run the handler created from the current values: one created
   * before the last words were heard finalises the answer without them.
   */
  lemma StaleHandlerLosesLastWords(s: Session, words: string)
    requires s.transcript == "" && s.index !in s.answers && words != ""
    ensures Advanced(Heard(s, words)).answers[s.index] == words
    ensures AdvancedWith(Heard(s, words), CaptureOf(s)).answers[s.index] == ""
  {
  }

  function Repeated(e: Event, n: nat): (r: seq<Event>)
    ensures |r| == n && forall j :: 0 <= j < n ==> r[j] == e
  {
    if n == 0 then [] else [e] + Repeated(e, n - 1)
  }

  lemma {:induction false} RunConcat(s: Session, a: seq<Event>, b: seq<Event>)
    ensures Run(s, a + b) == Run(Run(s, a), b)
    decreases |a|
  {
    if a != [] {
      assert (a + b)[1..] == a[1..] + b;
      RunConcat(Step(s, a[0]), a[1..], b);
    } else {
      assert a + b == b;
    }
  }

  /**
   * With the countdown running at k seconds and nothing else happening, the k-th
   * second expires it and advances on the state as it stands at that moment.
   */
  lemma {:induction false} ExpiryAfterRemainingSeconds(s: Session, k: nat)
    requires s.results == None && 0 < k && s.clock == Clock(k, true)
    ensures Run(s, Repeated(SecondElapsed, k)) == Advanced(s.(clock := Clock(0, false)))
    decreases k
  {
    var seconds := Repeated(SecondElapsed, k);
    assert seconds[1..] == Repeated(SecondElapsed, k - 1);
    if k == 1 {
      assert Run(s, seconds) == Step(s, SecondElapsed);
    } else {
      var next := s.(clock := Clock(k - 1, true));
      assert Step(s, SecondElapsed) == next;
      ExpiryAfterRemainingSeconds(next, k - 1);
    }
  }

  /** `k` entries 0 .. k-1, all empty. */
  function EmptyAnswers(k: nat): (r: Results.Answers)
    ensures forall j: nat :: j in r <==> j < k
    ensures forall j :: j in r ==> r[j] == ""
  {
    if k == 0 then map[] else EmptyAnswers(k - 1)[k - 1 := ""]
  }

  /** The state of a silent session (speech supported) on question `j`, before recording starts. */
  function SilentAt(j: nat): Session {
    Initial(true).(index := j, answers := EmptyAnswers(j))
  }

  /** One question where recording is started and a countdown of `budget` seconds runs out. */
  function Round(budget: nat): seq<Event> {
    [StartClicked] + Repeated(SecondElapsed, budget)
  }

  function Rounds(m: nat, budget: nat): seq<Event> {
    if m == 0 then [] else Round(budget) + Rounds(m - 1, budget)
  }

  /**
   * A silent question: recording starts, the full 120 s run out, and the session
   * moves on with an empty entry, or hands off ten empty entries on the last question.
   * (`budget` is the per-question time, passed as a parameter so that the
   * 120-second event sequence stays symbolic in the proof.)
   */
  lemma SilentRound(j: nat, budget: nat)
    requires j < QuestionCount && budget == QuestionTime
    ensures j < QuestionCount - 1 ==> Run(SilentAt(j), Round(budget)) == SilentAt(j + 1)
    ensures j == QuestionCount - 1 ==>
      Run(SilentAt(j), Round(budget)).results == Some(EmptyAnswers(QuestionCount))
  {
    var started := StartedRecording(SilentAt(j));
    assert Step(SilentAt(j), StartClicked) == started;
    assert Run(SilentAt(j), [StartClicked]) == started;
    RunConcat(SilentAt(j), [StartClicked], Repeated(SecondElapsed, budget));
    ExpiryAfterRemainingSeconds(started, budget);
    assert EmptyAnswers(j)[j := ""] == EmptyAnswers(j + 1);
  }

  lemma {:induction false} SilentRounds(j: nat, m: nat, budget: nat)
    requires j + m < QuestionCount && budget == QuestionTime
    ensures Run(SilentAt(j), Rounds(m, budget)) == SilentAt(j + m)
    decreases m
  {
    if m > 0 {
      SilentRound(j, budget);
      RunConcat(SilentAt(j), Round(budget), Rounds(m - 1, budget));
      SilentRounds(j + 1, m - 1, budget);
    }
  }

  /**
   * A ten-question session where recording is started each time and nothing is
   * ever said: after ten expiries the results page receives ten empty entries.
   */
  lemma SilentSessionCompletes(count: nat, budget: nat)
    requires count == QuestionCount && budget == QuestionTime
    ensures Run(Initial(true), Rounds(count, budget)).results == Some(EmptyAnswers(count))
  {
    var last := Round(budget);
    assert Initial(true) == SilentAt(0);
    RoundsSplitLast(count, budget);
    RunConcat(SilentAt(0), Rounds(count - 1, budget), last);
    SilentRounds(0, count - 1, budget);
    SilentRound(count - 1, budget);
  }

  lemma {:induction false} RoundsSplitLast(m: nat, budget: nat)
    requires m > 0
    ensures Rounds(m, budget) == Rounds(m - 1, budget) + Round(budget)
    decreases m
  {
    if m > 1 {
      RoundsSplitLast(m - 1, budget);
    }
  }

  /**
   * When React runs the updater eagerly (no pending lane on either fiber), an
   * expiry before the last question moves on but leaves the next question's
   * countdown at 0: starting to record there does not arm the timer.
   */
  lemma ExpiryEagerStallsNextCountdown(s: Session)
    requires s.results == None && s.index < QuestionCount - 1 && s.clock == Clock(1, true)
    ensures var n := AfterSecondEager(s);
      && n.index == s.index + 1 && n.clock == Clock(0, false)
      && !Armed(StartedRecording(n).clock)
  {
  }

  /**
   * On the ordinary render-phase path of the same code, with the handler's reset
   * applied after the updater's 0, the same expiry leaves the next question with
   * its full budget, and starting to record arms it.
   */
  lemma ExpiryRestoresBudget(s: Session)
    requires s.results == None && s.index < QuestionCount - 1 && s.clock == Clock(1, true)
    ensures var n := AfterSecond(s);
      && n.index == s.index + 1 && n.clock == Clock(QuestionTime, false)
      && (s.speechSupported ==> Armed(StartedRecording(n).clock))
  {
  }

  /**
   * A countdown left at 0 never expires: starting to record and then waiting any
   * number of seconds leaves the session on the same question. After the expiry
   * ordering of `AfterSecondEager` the session therefore stalls.
   */
  lemma StalledCountdownNeverExpires(s: Session, n: nat)
    requires s.results == None && s.clock.timeLeft == 0
    ensures Run(s, [StartClicked] + Repeated(SecondElapsed, n)).index == s.index
  {
    assert Run(s, [StartClicked]) == Step(s, StartClicked);
    RunConcat(s, [StartClicked], Repeated(SecondElapsed, n));
    IdleSeconds(Step(s, StartClicked), n);
  }

  /** Seconds pass without effect while no interval is installed. */
  lemma {:induction false} IdleSeconds(s: Session, n: nat)
    requires !Armed(s.clock)
    ensures Run(s, Repeated(SecondElapsed, n)) == s
    decreases n
  {
    if n > 0 {
      assert Repeated(SecondElapsed, n)[1..] == Repeated(SecondElapsed, n - 1);
      assert Step(s, SecondElapsed) == s;
      IdleSeconds(s, n - 1);
    }
  }

  /**
   * The controller as a mutable object. `timer` is the countdown hook; its
   * `onTimeUp` cell holds the `handleNextQuestion` of the latest render, which is
   * re-created (and re-registered) whenever a value in its dependency list changes.
   */
  class InterviewController {
    const speechSupported: bool
    var index: nat
    var answers: Results.Answers
    var transcript: string
    var listening: bool
    var cameraEnabled: bool
    var results: Option<Results.Answers>
    const timer: CountdownTimer<Capture>

    function Captured(): Capture
      reads this
    {
      Capture(index, answers, transcript, listening)
    }

    function State(): Session
      reads this, timer
    {
      Session(speechSupported, index, answers, transcript, listening, cameraEnabled, timer.State(), results)
    }

    /** The registered expiry handler is the one created from the current values. */
    ghost predicate Valid()
      reads this, timer
    {
      && timer.Valid()
      && timer.initialTime == QuestionTime
      && timer.onTimeUp == Captured()
      && Inv(State())
    }

    constructor (speechSupported: bool)
      ensures Valid() && fresh(timer)
      ensures State() == Initial(speechSupported)
    {
      this.speechSupported := speechSupported;
      index := 0;
      answers := map[];
      transcript := "";
      listening := false;
      cameraEnabled := false;
      results := None;
      timer := new CountdownTimer(QuestionTime, Capture(0, map[], "", false));
    }

    /** The body of `handleNextQuestion` created from the values `c`. */
    method HandleNextQuestion(c: Capture)
      requires timer.Valid() && timer.initialTime == QuestionTime
      modifies this, timer
      ensures timer.Valid() && timer.onTimeUp == old(timer.onTimeUp)
      ensures State() == AdvancedWith(old(State()), c)
    {
      var updated := c.answers[c.index := FinalAnswer(c.answers, c.index, c.transcript)];
      answers := updated;
      if c.listening {
        listening := false;
      }
      if c.index < QuestionCount - 1 {
        index := index + 1;
        transcript := "";
        timer.Reset();
      } else {
        cameraEnabled := false;
        results := Some(updated);
      }
    }

    /** The next-question button: the handler of the current render runs. */
    method NextQuestion()
      requires Valid() && results == None
      modifies this, timer
      ensures Valid() && State() == Advanced(old(State()))
    {
      HandleNextQuestion(Captured());
      AdvancedKeepsInv(old(State()));
      timer.Register(Captured());
    }

    /** `handleStartRecording`. */
    method StartRecording()
      requires Valid() && results == None
      modifies this, timer
      ensures Valid() && State() == StartedRecording(old(State()))
    {
      if !speechSupported {
        return;
      }
      transcript := "";
      listening := true;
      timer.Start();
      timer.Register(Captured());
    }

    /** `handleStopRecording`: stop listening, stop the timer, save a non-empty transcript. */
    method StopRecording()
      requires Valid() && results == None
      modifies this, timer
      ensures Valid() && State() == StoppedRecording(old(State()))
    {
      listening := false;
      timer.Stop();
      if transcript != "" {
        answers := answers[index := transcript];
      }
      timer.Register(Captured());
    }

    /** `handleToggleCamera`; `acquired` is whether the enable attempt obtained the camera. */
    method ToggleCamera(acquired: bool)
      requires Valid() && results == None
      modifies this
      ensures Valid() && State() == CameraToggled(old(State()), acquired)
    {
      if cameraEnabled {
        cameraEnabled := false;
      } else {
        cameraEnabled := acquired;
      }
    }

    /** The recogniser replaces the transcript. */
    method HearSpeech(t: string)
      requires Valid() && results == None
      modifies this, timer
      ensures Valid() && State() == Heard(old(State()), t)
    {
      transcript := t;
      timer.Register(Captured());
    }

    /**
     * One second of wall-clock time. If the timer expires, the handler it returns
     * is the one registered last, created from the current values.
     */
    method ElapseSecond()
      requires Valid() && results == None
      modifies this, timer
      ensures Valid() && State() == AfterSecond(old(State()))
    {
      var fired := timer.Tick();
      if fired.Some? {
        HandleNextQuestion(fired.value);
      }
      AfterSecondKeepsInv(old(State()));
      timer.Register(Captured());
    }
  }

  /**
   * Words heard halfway through the countdown are the ones finalised when it
   * expires: the session moves to question 1 with them as answer 0.
   */
  method LateSpeechIsKept() returns (saved: Option<string>, index: nat)
    ensures saved == Some("hello world") && index == 1
  {
    var app := new InterviewController(true);
    app.StartRecording();
    var i := 0;
    while i < 60
      invariant 0 <= i <= 60 && fresh(app.timer)
      invariant app.Valid() && app.results == None
      invariant app.State() == Initial(true).(listening := true, clock := Clock(QuestionTime - i, true))
    {
      app.ElapseSecond();
      i := i + 1;
    }
    app.HearSpeech("hello world");
    i := 0;
    while i < 59
      invariant 0 <= i <= 59 && fresh(app.timer)
      invariant app.Valid() && app.results == None
      invariant app.State()
        == Initial(true).(listening := true, transcript := "hello world", clock := Clock(60 - i, true))
    {
      app.ElapseSecond();
      i := i + 1;
    }
    app.ElapseSecond();
    saved := if 0 in app.answers then Some(app.answers[0]) else None;
    index := app.index;
  }
}
