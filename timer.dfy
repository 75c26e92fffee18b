/**
 * The countdown hook (src/hooks/useTimer.ts).
 *
 * Wall-clock time is a sequence of discrete one-second events. The hook's state
 * is `timeLeft` and `isRunning`; its `onTimeUpRef` is a mutable cell holding the
 * most recently registered expiry handler. The class `CountdownTimer` keeps that
 * state in fields; the pure `Clock` functions below describe each transition and
 * are what the lemmas about whole event sequences speak of.
 */
module Timer {
  import opened Basics

  /** The two state variables of the hook: `timeLeft` and `isRunning`. */
  datatype Clock = Clock(timeLeft: int, running: bool)

  /** The result of one second passing: the new clock and whether `onTimeUp` fired. */
  datatype Ticked = Ticked(clock: Clock, expired: bool)

  /** An interval is installed only while the timer runs with time left. */
  predicate Armed(c: Clock) {
    c.running && c.timeLeft > 0
  }

  /** `startTimer`: only sets the running flag; the countdown resumes where it stood. */
  function Started(c: Clock): Clock {
    c.(running := true)
  }

  /** `stopTimer`: clears the running flag and keeps the remaining time. */
  function Stopped(c: Clock): Clock {
    c.(running := false)
  }

  /** `resetTimer`: stops the timer and restores the initial budget. */
  function Restored(initialTime: nat): Clock {
    Clock(initialTime, false)
  }

  /**
   * One second of wall-clock time. Without an installed interval nothing happens;
   * otherwise the updater either counts down by one or, on its last second, stops
   * the timer at zero and fires `onTimeUp`.
   */
  function TickOnce(c: Clock): Ticked {
    if !Armed(c) then Ticked(c, false)
    else if c.timeLeft <= 1 then Ticked(Clock(0, false), true)
    else Ticked(c.(timeLeft := c.timeLeft - 1), false)
  }

  datatype TimerEvent = Start | Stop | Reset | Tick

  function ClockStep(c: Clock, initialTime: nat, e: TimerEvent): Ticked {
    match e
    case Start => Ticked(Started(c), false)
    case Stop => Ticked(Stopped(c), false)
    case Reset => Ticked(Restored(initialTime), false)
    case Tick => TickOnce(c)
  }

  /** The clock after a sequence of events, and how many times `onTimeUp` fired. */
  datatype Outcome = Outcome(clock: Clock, expiries: nat)

  function ClockRun(c: Clock, initialTime: nat, events: seq<TimerEvent>): Outcome
    decreases |events|
  {
    if events == [] then Outcome(c, 0)
    else
      var t := ClockStep(c, initialTime, events[0]);
      var rest := ClockRun(t.clock, initialTime, events[1..]);
      Outcome(rest.clock, rest.expiries + if t.expired then 1 else 0)
  }

  function Ticks(n: nat): (r: seq<TimerEvent>)
    ensures |r| == n && forall j :: 0 <= j < n ==> r[j] == Tick
  {
    if n == 0 then [] else [Tick] + Ticks(n - 1)
  }

  predicate InBudget(c: Clock, initialTime: nat) {
    0 <= c.timeLeft <= initialTime
  }

  /** Whatever start, stop, reset and tick events arrive, `timeLeft` stays in [0, initialTime]. */
  lemma {:induction false} RunStaysInBudget(c: Clock, initialTime: nat, events: seq<TimerEvent>)
    requires InBudget(c, initialTime)
    ensures InBudget(ClockRun(c, initialTime, events).clock, initialTime)
    decreases |events|
  {
    if events != [] {
      RunStaysInBudget(ClockStep(c, initialTime, events[0]).clock, initialTime, events[1..]);
    }
  }

  /**
   * Without a new start, the timer fires at most once, and not at all if it is
   * not running to begin with: expiry stops the timer, and so do stop and reset.
   */
  lemma {:induction false} AtMostOneExpiryPerStart(c: Clock, initialTime: nat, events: seq<TimerEvent>)
    requires forall j :: 0 <= j < |events| ==> events[j] != Start
    ensures ClockRun(c, initialTime, events).expiries <= if c.running then 1 else 0
    decreases |events|
  {
    if events != [] {
      var t := ClockStep(c, initialTime, events[0]);
      AtMostOneExpiryPerStart(t.clock, initialTime, events[1..]);
      assert t.expired ==> c.running && !t.clock.running;
      assert !c.running ==> !t.clock.running;
    }
  }

  /**
   * A timer running with `k` seconds left fires exactly once, on the k-th tick,
   * and ends stopped at zero; the first k-1 ticks fire nothing. Since starting does
   * not touch `timeLeft`, this is also how a stopped countdown resumes.
   */
  lemma {:induction false} CountdownFiresOnLastTick(k: nat, initialTime: nat)
    requires 0 < k
    ensures ClockRun(Clock(k, true), initialTime, Ticks(k)) == Outcome(Clock(0, false), 1)
    ensures ClockRun(Clock(k, true), initialTime, Ticks(k - 1)) == Outcome(Clock(1, true), 0)
  {
    if k > 1 {
      CountdownFiresOnLastTick(k - 1, initialTime);
      assert Ticks(k)[1..] == Ticks(k - 1);
      assert Ticks(k - 1)[1..] == Ticks(k - 2);
    } else {
      assert Ticks(1)[1..] == [];
    }
  }

  /** `formatTime`: whole minutes, a colon, then the seconds zero-padded to two digits. */
  function FormatTime(seconds: nat): string {
    NatToDecimal(seconds / 60) + ":" + PadStart(NatToDecimal(seconds % 60), 2, '0')
  }

  /** Reads "m:ss" text back into seconds; `None` for anything FormatTime cannot produce. */
  function ParseTime(text: string): Option<nat> {
    match IndexOf(text, ':')
    case None => None
    case Some(k) => ParseFields(text[..k], text[k + 1..])
  }

  /** The value of a minutes field and a two-digit seconds field below 60. */
  function ParseFields(mins: string, secs: string): Option<nat> {
    if |mins| >= 1 && |secs| == 2 && AllDigits(mins) && AllDigits(secs) && ParseDecimal(secs) < 60
    then Some(ParseDecimal(mins) * 60 + ParseDecimal(secs))
    else None
  }

  /** The seconds field is always exactly two digits: the tens digit (possibly 0), then the units. */
  lemma TwoDigitSeconds(x: nat)
    requires x < 60
    ensures PadStart(NatToDecimal(x), 2, '0') == [DigitChar(x / 10), DigitChar(x % 10)]
  {
    if x >= 10 {
      assert NatToDecimal(x / 10) == [DigitChar(x / 10)];
    }
  }

  /** FormatTime(s) is the minute count, ':', and the two seconds digits of s. */
  lemma FormatTimeShape(seconds: nat)
    ensures FormatTime(seconds)
      == NatToDecimal(seconds / 60) + ":" + [DigitChar(seconds % 60 / 10), DigitChar(seconds % 60 % 10)]
  {
    TwoDigitSeconds(seconds % 60);
  }

  /** Two digits read back as the number they were made from. */
  lemma ParseTwoDigits(x: nat)
    requires x < 100
    ensures ParseDecimal([DigitChar(x / 10), DigitChar(x % 10)]) == x
  {
    var secs := [DigitChar(x / 10), DigitChar(x % 10)];
    assert secs[..1] == [DigitChar(x / 10)];
    assert secs[..1][..0] == [];
    assert ParseDecimal(secs[..1]) == x / 10;
    assert ParseDecimal(secs) == (x / 10) * 10 + x % 10;
  }

  /** A colon after a run of digits is the first colon of the text. */
  lemma ColonAfterDigits(mins: string, secs: string)
    requires AllDigits(mins)
    ensures IndexOf(mins + ":" + secs, ':') == Some(|mins|)
  {
    var text := mins + ":" + secs;
    assert text[|mins|] == ':';
    assert forall j :: 0 <= j < |mins| ==> text[j] == mins[j];
  }

  /** Parsing "m:ss" splits at the colon and reads both digit runs. */
  lemma ParseTimeSplits(mins: string, secs: string)
    requires 1 <= |mins| && AllDigits(mins) && |secs| == 2 && AllDigits(secs) && ParseDecimal(secs) < 60
    ensures ParseTime(mins + ":" + secs) == Some(ParseDecimal(mins) * 60 + ParseDecimal(secs))
  {
    var text := mins + ":" + secs;
    ColonAfterDigits(mins, secs);
    SplitAtColon(mins, secs);
    assert ParseTime(text) == ParseFields(text[..|mins|], text[|mins| + 1..]);
    FieldsInRange(mins, secs);
  }

  lemma FieldsInRange(mins: string, secs: string)
    requires 1 <= |mins| && AllDigits(mins) && |secs| == 2 && AllDigits(secs) && ParseDecimal(secs) < 60
    ensures ParseFields(mins, secs) == Some(ParseDecimal(mins) * 60 + ParseDecimal(secs))
  {
  }

  /** Cutting "a:b" around the colon that follows `a` gives back `a` and `b`. */
  lemma SplitAtColon(mins: string, secs: string)
    ensures (mins + ":" + secs)[..|mins|] == mins
    ensures (mins + ":" + secs)[|mins| + 1..] == secs
  {
  }

  /** Minutes and a two-digit seconds field below 60 read back as the seconds they stand for. */
  lemma ReadBackFields(m: nat, x: nat)
    requires x < 60
    ensures ParseTime(NatToDecimal(m) + ":" + [DigitChar(x / 10), DigitChar(x % 10)]) == Some(m * 60 + x)
  {
    ParseTwoDigits(x);
    DecimalRoundTrip(m);
    ParseTimeSplits(NatToDecimal(m), [DigitChar(x / 10), DigitChar(x % 10)]);
  }

  /** The display text determines the number of seconds: parsing it back gives them. */
  lemma FormatTimeRoundTrip(seconds: nat)
    ensures ParseTime(FormatTime(seconds)) == Some(seconds)
  {
    FormatTimeShape(seconds);
    ReadBackFields(seconds / 60, seconds % 60);
  }

  /** Two different second counts never display the same text. */
  lemma FormatTimeInjective(a: nat, b: nat)
    requires FormatTime(a) == FormatTime(b)
    ensures a == b
  {
    FormatTimeRoundTrip(a);
    FormatTimeRoundTrip(b);
  }

  /** The display of a few sample values, including a full minute and a single-digit seconds field. */
  lemma FormatTimeSamples()
    ensures FormatTime(0) == "0:00"
    ensures FormatTime(59) == "0:59"
    ensures FormatTime(60) == "1:00"
    ensures FormatTime(75) == "1:15"
    ensures FormatTime(125) == "2:05"
  {
    FormatTimeShape(0);
    FormatTimeShape(59);
    FormatTimeShape(60);
    FormatTimeShape(75);
    FormatTimeShape(125);
  }

  /**
   * The hook's mutable state. `onTimeUp` is the ref cell `onTimeUpRef.current`:
   * the expiry handler last stored by `Register`, which is what an expiring tick calls.
   */
  class CountdownTimer<H> {
    const initialTime: nat
    var timeLeft: int
    var isRunning: bool
    var onTimeUp: H

    ghost predicate Valid()
      reads this
    {
      0 <= timeLeft <= initialTime
    }

    function State(): Clock
      reads this
    {
      Clock(timeLeft, isRunning)
    }

    /** `useTimer(initialTime, onTimeUp)`: full budget, not running. */
    constructor (initialTime: nat, onTimeUp: H)
      ensures Valid()
      ensures this.initialTime == initialTime && this.onTimeUp == onTimeUp
      ensures State() == Clock(initialTime, false)
    {
      this.initialTime := initialTime;
      this.onTimeUp := onTimeUp;
      timeLeft := initialTime;
      isRunning := false;
    }

    /** The effect that stores the newest `onTimeUp` in the ref; the countdown is untouched. */
    method Register(handler: H)
      modifies this
      ensures onTimeUp == handler
      ensures State() == old(State())
    {
      onTimeUp := handler;
    }

    /** `startTimer`: sets running, resuming from the current `timeLeft`. */
    method Start()
      requires Valid()
      modifies this
      ensures Valid() && onTimeUp == old(onTimeUp)
      ensures isRunning && timeLeft == old(timeLeft)
      ensures State() == Started(old(State()))
    {
      isRunning := true;
    }

    /** `stopTimer`: clears running and keeps `timeLeft`. */
    method Stop()
      requires Valid()
      modifies this
      ensures Valid() && onTimeUp == old(onTimeUp)
      ensures !isRunning && timeLeft == old(timeLeft)
      ensures State() == Stopped(old(State()))
    {
      isRunning := false;
    }

    /** `resetTimer`: clears running and restores the initial budget. */
    method Reset()
      requires Valid()
      modifies this
      ensures Valid() && onTimeUp == old(onTimeUp)
      ensures !isRunning && timeLeft == initialTime
      ensures State() == Restored(initialTime)
    {
      isRunning := false;
      timeLeft := initialTime;
    }

    /**
     * One second elapses. With no interval installed nothing happens; otherwise
     * the updater decrements `timeLeft`, or on the last second stops the timer at 0
     * and returns the handler currently in the ref (the one to invoke).
     */
    method Tick() returns (fired: Option<H>)
      requires Valid()
      modifies this
      ensures Valid() && onTimeUp == old(onTimeUp)
      ensures !Armed(old(State())) ==> State() == old(State()) && fired == None
      ensures Armed(old(State())) && old(timeLeft) > 1 ==>
                timeLeft == old(timeLeft) - 1 && isRunning && fired == None
      ensures Armed(old(State())) && old(timeLeft) <= 1 ==>
                timeLeft == 0 && !isRunning && fired == Some(onTimeUp)
      ensures State() == TickOnce(old(State())).clock
      ensures fired.Some? == TickOnce(old(State())).expired
    {
      fired := None;
      if isRunning && timeLeft > 0 {
        if timeLeft <= 1 {
          isRunning := false;
          fired := Some(onTimeUp);
          timeLeft := 0;
        } else {
          timeLeft := timeLeft - 1;
        }
      }
    }
  }

  /**
   * Expiry calls the handler registered last, not the one in place when the
   * countdown was started: a timer armed with `first` and re-registered with
   * `latest` before its last second hands back `latest`.
   */
  method LatestHandlerFires<H>(first: H, latest: H) returns (fired: Option<H>)
    ensures fired == Some(latest)
  {
    var timer := new CountdownTimer(2, first);
    timer.Start();
    fired := timer.Tick();
    timer.Register(latest);
    fired := timer.Tick();
  }
}
