/** The warning rate limiter of the paper: one boolean gate
    (`paper.options.warningTimer`) that drops every warning while it is set and is
    cleared by a timer 4 s after the warning that set it. The timer is an explicit
    event here; `clock` is the time of the latest event seen. */
module Notify {
  import opened Cells

  /** Milliseconds until the gate re-opens after a shown warning. */
  const Cooldown := 4000

  /** A warning handed to the notifier, with the time it was shown. */
  datatype Toast = Toast(at: int, warning: Warning)

  datatype GateState = GateState(warningTimer: bool, resetDue: Option<int>, clock: int, shown: seq<Toast>)

  /** Shown warnings are at least `Cooldown` apart. */
  ghost predicate Spaced(shown: seq<Toast>)
  {
    forall i :: 0 < i < |shown| ==> shown[i - 1].at + Cooldown <= shown[i].at
  }

  /** The gate is set exactly while its reset timer is pending, that timer is due
      `Cooldown` after the last shown warning, and time has not run past it. */
  ghost predicate GateValid(g: GateState)
  {
    && (g.warningTimer <==> g.resetDue.Some?)
    && (g.shown != [] ==> g.shown[|g.shown| - 1].at <= g.clock)
    && (g.resetDue.Some? ==>
          g.shown != [] && g.resetDue.value == g.shown[|g.shown| - 1].at + Cooldown && g.clock < g.resetDue.value)
    && (!g.warningTimer && g.shown != [] ==> g.shown[|g.shown| - 1].at + Cooldown <= g.clock)
    && Spaced(g.shown)
  }

  /** A warning may arrive at `now` once the clock has reached it and before a
      pending reset is due (a timer due earlier fires first). */
  predicate CanWarn(g: GateState, now: int)
  {
    g.clock <= now && (g.resetDue.None? || now < g.resetDue.value)
  }

  /** `warning(message)` at time `now`. */
  function Warned(g: GateState, now: int, w: Warning): GateState
  {
    if g.warningTimer then g.(clock := now)
    else GateState(true, Some(now + Cooldown), now, g.shown + [Toast(now, w)])
  }

  /** The reset timer fires. */
  function Reopened(g: GateState): GateState
    requires g.resetDue.Some?
  {
    GateState(false, None, g.resetDue.value, g.shown)
  }

  datatype GateEvent = WarnAt(now: int, w: Warning) | ResetFires

  ghost predicate Admissible(g: GateState, events: seq<GateEvent>)
    decreases |events|
  {
    if events == [] then true
    else match events[0]
      case WarnAt(now, w) => CanWarn(g, now) && Admissible(Warned(g, now, w), events[1..])
      case ResetFires => g.resetDue.Some? && Admissible(Reopened(g), events[1..])
  }

  ghost function Run(g: GateState, events: seq<GateEvent>): GateState
    requires Admissible(g, events)
    decreases |events|
  {
    if events == [] then g
    else match events[0]
      case WarnAt(now, w) => Run(Warned(g, now, w), events[1..])
      case ResetFires => Run(Reopened(g), events[1..])
  }

  /** One event keeps the gate consistent; a warning is shown exactly when the
      gate was open, and the list of shown warnings only grows. */
  lemma StepKeepsGate(g: GateState, e: GateEvent)
    requires GateValid(g)
    requires match e
      case WarnAt(now, _) => CanWarn(g, now)
      case ResetFires => g.resetDue.Some?
    ensures match e
      case WarnAt(now, w) =>
        GateValid(Warned(g, now, w))
        && Warned(g, now, w).shown == (if g.warningTimer then g.shown else g.shown + [Toast(now, w)])
      case ResetFires => GateValid(Reopened(g)) && Reopened(g).shown == g.shown
  {
    match e
    case WarnAt(now, w) =>
      if !g.warningTimer {
        var g' := Warned(g, now, w);
        forall i | 0 < i < |g'.shown| ensures g'.shown[i - 1].at + Cooldown <= g'.shown[i].at {
          if i < |g.shown| {
            assert g'.shown[i - 1] == g.shown[i - 1] && g'.shown[i] == g.shown[i];
          }
        }
      }
    case ResetFires =>
  }

  /** Over any admissible run, the warnings shown stay at least 4 s apart. */
  lemma {:induction false} RunKeepsWarningsSpaced(g: GateState, events: seq<GateEvent>)
    requires GateValid(g)
    requires Admissible(g, events)
    ensures GateValid(Run(g, events))
    ensures Spaced(Run(g, events).shown)
    ensures |Run(g, events).shown| >= |g.shown| && Run(g, events).shown[..|g.shown|] == g.shown
    decreases |events|
  {
    if events != [] {
      StepKeepsGate(g, events[0]);
      match events[0]
      case WarnAt(now, w) =>
        var g' := Warned(g, now, w);
        RunKeepsWarningsSpaced(g', events[1..]);
        assert Run(g', events[1..]).shown[..|g.shown|] == Run(g', events[1..]).shown[..|g'.shown|][..|g.shown|];
      case ResetFires =>
        RunKeepsWarningsSpaced(Reopened(g), events[1..]);
    }
  }

  /** The gate as the paper holds it. */
  class WarningGate {
    var warningTimer: bool
    var resetDue: Option<int>
    var clock: int
    var shown: seq<Toast>

    function State(): GateState
      reads this
    {
      GateState(warningTimer, resetDue, clock, shown)
    }

    ghost predicate Valid()
      reads this
    {
      GateValid(State())
    }

    /** `paper.options.warningTimer = false` when the paper is created. */
    constructor (now: int)
      ensures Valid()
      ensures !warningTimer && resetDue.None? && clock == now && shown == []
    {
      warningTimer, resetDue, clock, shown := false, None, now, [];
    }

    /** `warning(message)`: shown and the gate set when it was open, dropped
        otherwise. */
    method Warn(now: int, w: Warning) returns (displayed: bool)
      requires Valid() && CanWarn(State(), now)
      modifies this
      ensures Valid()
      ensures displayed == !old(warningTimer)
      ensures State() == Warned(old(State()), now, w)
      ensures shown == if displayed then old(shown) + [Toast(now, w)] else old(shown)
      ensures displayed ==> warningTimer && resetDue == Some(now + Cooldown)
    {
      StepKeepsGate(State(), WarnAt(now, w));
      displayed := !warningTimer;
      if displayed {
        warningTimer := true;
        shown := shown + [Toast(now, w)];
        resetDue := Some(now + Cooldown);
      }
      clock := now;
    }

    /** The 4 s timer clears the gate. */
    method ResetTimerFires()
      requires Valid() && resetDue.Some?
      modifies this
      ensures Valid()
      ensures State() == Reopened(old(State()))
      ensures !warningTimer && shown == old(shown)
    {
      StepKeepsGate(State(), ResetFires);
      clock := resetDue.value;
      warningTimer := false;
      resetDue := None;
    }
  }
}
