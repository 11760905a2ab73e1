/** The focus timer: a total and a remaining time in seconds, running or
    paused. A tick takes a second off a running timer and stops it at 0;
    the handlers toggle, reset, or choose a new length from the presets or
    the slider. The one-second interval is the caller's: each call of
    `Tick` is one firing. */
module Pomodoro {
  import opened Text

  /** The timer's state. */
  datatype Timer = Timer(totalTime: int, timeLeft: int, isActive: bool)

  /** What every step keeps: the remaining time lies between 0 and the
      total, and a timer at 0 is not running. */
  predicate Valid(s: Timer) {
    0 <= s.timeLeft <= s.totalTime && (s.timeLeft == 0 ==> !s.isActive)
  }

  /** Sixty minutes, paused. */
  const Initial := Timer(60 * 60, 60 * 60, false)

  /** The preset lengths in minutes. */
  const Presets: seq<int> := [15, 25, 60, 120]

  /** A value the slider can deliver: 1 to 120 in steps of 5 from 1. */
  predicate SliderValue(minutes: int) {
    1 <= minutes <= 120 && (minutes - 1) % 5 == 0
  }

  /** The effect after each change: a timer at 0 stops. */
  function Settle(s: Timer): (r: Timer)
    ensures r.totalTime == s.totalTime && r.timeLeft == s.timeLeft
    ensures r.isActive <==> s.isActive && s.timeLeft != 0
  {
    if s.timeLeft == 0 then s.(isActive := false) else s
  }

  /** One firing of the interval, which runs only while the timer is
      active with time left. */
  function TickStep(s: Timer): (r: Timer)
    ensures Valid(s) ==> Valid(r)
    ensures r.totalTime == s.totalTime
    ensures s.isActive && s.timeLeft > 0 ==> r.timeLeft == s.timeLeft - 1
    ensures !(s.isActive && s.timeLeft > 0) ==> r.timeLeft == s.timeLeft
  {
    if s.isActive && s.timeLeft > 0 then Settle(s.(timeLeft := s.timeLeft - 1)) else Settle(s)
  }

  /** `toggleTimer`. */
  function ToggleStep(s: Timer): (r: Timer)
    ensures Valid(s) ==> Valid(r)
    ensures r.totalTime == s.totalTime && r.timeLeft == s.timeLeft
    ensures r.isActive <==> !s.isActive && s.timeLeft != 0
  {
    Settle(s.(isActive := !s.isActive))
  }

  /** `resetTimer`: paused with the whole total left. */
  function ResetStep(s: Timer): (r: Timer)
    ensures s.totalTime >= 0 ==> Valid(r)
    ensures r == Timer(s.totalTime, s.totalTime, false)
  {
    Settle(Timer(s.totalTime, s.totalTime, false))
  }

  /** `handleSelectTime` and `handleSliderChange`: a new length in minutes,
      paused and full. */
  function SelectStep(minutes: int): (r: Timer)
    ensures minutes >= 0 ==> Valid(r)
    ensures r == Timer(minutes * 60, minutes * 60, false)
  {
    Settle(Timer(minutes * 60, minutes * 60, false))
  }

  /** The reset button shows for a paused timer that is not full. */
  predicate ShowReset(s: Timer) {
    !s.isActive && s.timeLeft != s.totalTime
  }

  /** After a reset or a new length there is nothing to reset. */
  lemma ResetHidesButton(s: Timer, minutes: int)
    ensures !ShowReset(ResetStep(s)) && !ShowReset(SelectStep(minutes))
  {
  }

  /** `n` firings of the interval. */
  function Run(s: Timer, n: nat): Timer
    decreases n
  {
    if n == 0 then s else Run(TickStep(s), n - 1)
  }

  /** Running from a started, valid timer for at most its remaining time
      counts down one second per firing, keeps the total, and stops exactly
      when it reaches 0. */
  lemma {:induction false} Countdown(s: Timer, n: nat)
    requires Valid(s) && s.isActive && n <= s.timeLeft
    ensures Run(s, n).timeLeft == s.timeLeft - n && Run(s, n).totalTime == s.totalTime
    ensures Run(s, n).isActive <==> n < s.timeLeft
    ensures Valid(Run(s, n))
    decreases n
  {
    if n > 1 {
      Countdown(TickStep(s), n - 1);
    }
  }

  /** A stopped timer stays as it is however often the interval would
      fire. */
  lemma {:induction false} PausedStays(s: Timer, n: nat)
    requires Valid(s) && !s.isActive
    ensures Run(s, n) == s
    decreases n
  {
    if n > 0 {
      PausedStays(TickStep(s), n - 1);
    }
  }

  /** `formatTime`: `MM:SS` with both fields padded to two digits. */
  function FormatTime(seconds: int): string {
    Pad2(seconds / 60) + ":" + Pad2(seconds % 60)
  }

  /** For a non-negative count the text splits on `:` into minutes and
      seconds whose values give the count back, the seconds below 60; under
      100 minutes it is five characters long. */
  lemma FormatTimeRoundTrip(seconds: int)
    requires seconds >= 0
    ensures var parts := Split(FormatTime(seconds), ':');
            && |parts| == 2
            && ParseInt(parts[0]).Some? && ParseInt(parts[1]).Some?
            && 0 <= ParseInt(parts[1]).value < 60
            && ParseInt(parts[0]).value * 60 + ParseInt(parts[1]).value == seconds
    ensures seconds < 6000 ==> |FormatTime(seconds)| == 5
  {
    var m, sec := seconds / 60, seconds % 60;
    assert AllDigits(Pad2(m)) && AllDigits(Pad2(sec));
    SplitTwo(Pad2(m), ':', Pad2(sec));
    ParseIntPad2(m);
    ParseIntPad2(sec);
  }

  class PomodoroTimer {
    var totalTime: int
    var timeLeft: int
    var isActive: bool

    function State(): Timer
      reads this
    {
      Timer(totalTime, timeLeft, isActive)
    }

    constructor ()
      ensures State() == Initial && Valid(State())
    {
      totalTime := 60 * 60;
      timeLeft := 60 * 60;
      isActive := false;
    }

    /** One firing of the interval, then the effect. */
    method Tick()
      modifies this
      ensures State() == TickStep(old(State()))
    {
      if isActive && timeLeft > 0 {
        timeLeft := timeLeft - 1;
      }
      if timeLeft == 0 {
        isActive := false;
      }
    }

    method Toggle()
      modifies this
      ensures State() == ToggleStep(old(State()))
    {
      isActive := !isActive;
      if timeLeft == 0 {
        isActive := false;
      }
    }

    method Reset()
      modifies this
      ensures State() == ResetStep(old(State()))
    {
      isActive := false;
      timeLeft := totalTime;
    }

    /** A preset from the menu. */
    method SelectTime(minutes: int)
      requires minutes in Presets
      modifies this
      ensures State() == SelectStep(minutes) && Valid(State())
    {
      var seconds := minutes * 60;
      totalTime := seconds;
      timeLeft := seconds;
      isActive := false;
    }

    /** A slider position (the slider is disabled while running). */
    method SliderChange(minutes: int)
      requires SliderValue(minutes)
      modifies this
      ensures State() == SelectStep(minutes) && Valid(State())
    {
      var seconds := minutes * 60;
      totalTime := seconds;
      timeLeft := seconds;
      isActive := false;
    }
  }
}
