/** The exam countdown hook: a once-a-second interval while running, a phase
    derived from the thresholds, and the clock text. The interval is modelled as
    an explicit `Interval` step; the expiry callback as a flag on its outcome. */
module Timer {
  import opened Wrappers

  const DefaultWarning := 600
  const DefaultCritical := 300

  datatype Timer = Timer(
    initialSeconds: int,
    warningThreshold: int,
    criticalThreshold: int,
    timeRemaining: int,
    isRunning: bool)

  datatype Phase = Normal | Warning | Critical | Expired

  /** An option left out takes its default: 600 s, 300 s, not started. */
  function NewTimer(initialSeconds: int, warning: Option<int>, critical: Option<int>, autoStart: Option<bool>): (t: Timer)
    ensures t.timeRemaining == t.initialSeconds == initialSeconds
    ensures t.warningThreshold == (if warning.Some? then warning.value else DefaultWarning)
    ensures t.criticalThreshold == (if critical.Some? then critical.value else DefaultCritical)
    ensures t.isRunning <==> autoStart == Some(true)
  {
    Timer(initialSeconds, warning.GetOr(DefaultWarning), critical.GetOr(DefaultCritical),
          initialSeconds, autoStart.GetOr(false))
  }

  /** What one firing of the interval does, and whether it called the expiry callback. */
  datatype TickOutcome = TickOutcome(timer: Timer, expired: bool)

  /** One firing of the one-second interval. No interval exists while paused. */
  function Interval(t: Timer): (o: TickOutcome)
    ensures !t.isRunning ==> o == TickOutcome(t, false)
    ensures t.isRunning && t.timeRemaining > 1 ==>
      o == TickOutcome(t.(timeRemaining := t.timeRemaining - 1), false)
    ensures t.isRunning && t.timeRemaining <= 1 ==>
      o == TickOutcome(t.(timeRemaining := 0, isRunning := false), true)
  {
    if !t.isRunning then TickOutcome(t, false)
    else if t.timeRemaining <= 1 then TickOutcome(t.(timeRemaining := 0, isRunning := false), true)
    else TickOutcome(t.(timeRemaining := t.timeRemaining - 1), false)
  }

  /** `k` firings in a row, with the number of expiry callbacks they made. */
  function Run(t: Timer, k: nat): (Timer, nat)
    decreases k
  {
    if k == 0 then (t, 0)
    else
      var o := Interval(t);
      var (t', fired) := Run(o.timer, k - 1);
      (t', fired + if o.expired then 1 else 0)
  }

  /** A running timer with `T >= 1` seconds left counts down one per firing and
      calls the expiry callback exactly once, on firing `T`; then it stops. */
  lemma {:induction false} CountdownFiresOnce(t: Timer, k: nat)
    requires t.isRunning && t.timeRemaining >= 1
    decreases k
    ensures k < t.timeRemaining ==> Run(t, k) == (t.(timeRemaining := t.timeRemaining - k), 0)
    ensures k >= t.timeRemaining ==> Run(t, k) == (t.(timeRemaining := 0, isRunning := false), 1)
  {
    if k > 0 {
      var o := Interval(t);
      if t.timeRemaining > 1 {
        CountdownFiresOnce(o.timer, k - 1);
      } else {
        PausedStays(o.timer, k - 1);
      }
    }
  }

  lemma {:induction false} PausedStays(t: Timer, k: nat)
    requires !t.isRunning
    decreases k
    ensures Run(t, k) == (t, 0)
  {
    if k > 0 {
      PausedStays(t, k - 1);
    }
  }

  function Start(t: Timer): (r: Timer)
    ensures r.isRunning && r == t.(isRunning := true)
  {
    t.(isRunning := true)
  }

  function Pause(t: Timer): (r: Timer)
    ensures !r.isRunning && r == t.(isRunning := false)
  {
    t.(isRunning := false)
  }

  function Resume(t: Timer): (r: Timer)
    ensures r.isRunning && r == t.(isRunning := true)
  {
    t.(isRunning := true)
  }

  function Reset(t: Timer): (r: Timer)
    ensures !r.isRunning && r.timeRemaining == t.initialSeconds
    ensures r.(timeRemaining := t.timeRemaining, isRunning := t.isRunning) == t
  {
    t.(timeRemaining := t.initialSeconds, isRunning := false)
  }

  lemma ResumeUndoesPause(t: Timer)
    requires t.isRunning
    ensures Resume(Pause(t)) == t
  {
  }

  /** Starting an expired timer again is not refused: the next firing calls the
      expiry callback a second time. */
  lemma RestartAfterExpiryFiresAgain(t: Timer)
    requires t.isRunning && t.timeRemaining >= 1
    ensures var (stopped, fired) := Run(t, t.timeRemaining);
      fired == 1 && stopped.timeRemaining == 0 &&
      Interval(Start(stopped)).expired && Interval(Start(stopped)).timer == stopped
  {
    CountdownFiresOnce(t, t.timeRemaining);
  }

  /** The phase shown for the remaining time, checked from the most urgent down. */
  function PhaseOf(t: Timer): (p: Phase)
    ensures p == Expired <==> t.timeRemaining <= 0
    ensures p == Critical <==> 0 < t.timeRemaining <= t.criticalThreshold
    ensures p == Warning <==> t.criticalThreshold < t.timeRemaining && 0 < t.timeRemaining <= t.warningThreshold
    ensures p == Normal <==> t.timeRemaining > 0 && t.timeRemaining > t.criticalThreshold && t.timeRemaining > t.warningThreshold
  {
    if t.timeRemaining <= 0 then Expired
    else if t.timeRemaining <= t.criticalThreshold then Critical
    else if t.timeRemaining <= t.warningThreshold then Warning
    else Normal
  }

  function Urgency(p: Phase): nat
  {
    match p
    case Normal => 0
    case Warning => 1
    case Critical => 2
    case Expired => 3
  }

  /** Less time left is never a calmer phase, whatever the thresholds. */
  lemma PhaseMonotone(t: Timer, fewer: int)
    requires fewer <= t.timeRemaining
    ensures Urgency(PhaseOf(t.(timeRemaining := fewer))) >= Urgency(PhaseOf(t))
  {
  }

  /** Share of the starting time still left, in percent; 0 when the start was 0. */
  function PercentRemaining(t: Timer): (p: real)
    ensures t.initialSeconds <= 0 ==> p == 0.0
    ensures t.initialSeconds > 0 ==> p * (t.initialSeconds as real) == (t.timeRemaining as real) * 100.0
    ensures t.initialSeconds > 0 && 0 <= t.timeRemaining <= t.initialSeconds ==> 0.0 <= p <= 100.0
  {
    if t.initialSeconds > 0 then (t.timeRemaining as real) / (t.initialSeconds as real) * 100.0 else 0.0
  }
}
