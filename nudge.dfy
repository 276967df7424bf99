/** Keyboard nudging: `stepLeft`, `stepUp`, `stepRight`, `stepDown` and
    `performStep`. A key press is honoured only while `allowStep` holds; it locks
    further presses for 200 ms, moves the selection, and groups the move into the
    current undo batch when the previous press was less than 500 ms ago, opening
    a new batch otherwise. Each batch is closed by a 500 ms timer that every
    grouped press restarts. Times are milliseconds; the two timers are explicit
    events, and `clock` is the time of the latest event seen. */
module Nudge {
  import opened Cells
  import opened Canvas

  const StepValue := 8
  const GroupingInterval := 500
  const AllowInterval := 200

  datatype Direction = LeftKey | UpKey | RightKey | DownKey

  /** The offset of one arrow-key step. */
  function Offset(d: Direction): (p: Point)
    ensures (p.x == 0) != (p.y == 0)
    ensures p.x * p.x + p.y * p.y == StepValue * StepValue
    ensures (d == LeftKey ==> p.x < 0) && (d == RightKey ==> p.x > 0)
    ensures (d == UpKey ==> p.y < 0) && (d == DownKey ==> p.y > 0)
  {
    match d
    case LeftKey => Point(-StepValue, 0)
    case UpKey => Point(0, -StepValue)
    case RightKey => Point(StepValue, 0)
    case DownKey => Point(0, StepValue)
  }

  /** What the graph's command history sees: `startBatch('change')`, a move of
      the selection at a given time, and `stopBatch('change')`. */
  datatype Mark = StartBatch | Nudged(at: int) | StopBatch

  /** `log` is a well-formed history ending with a batch open exactly when
      `open`: batches never nest, a stop closes an open batch, and every move
      happens inside one. */
  ghost predicate Bracketed(log: seq<Mark>, open: bool)
    decreases |log|
  {
    if log == [] then !open
    else match log[|log| - 1]
      case StartBatch => open && Bracketed(log[..|log| - 1], false)
      case StopBatch => !open && Bracketed(log[..|log| - 1], true)
      case Nudged(_) => open && Bracketed(log[..|log| - 1], true)
  }

  /** `allowStep`, `stepCounter`, the pending due times of the batch-closing and
      unlocking timers, the clock and the history. */
  datatype StepState = StepState(allowStep: bool, stepCounter: int, stopDue: Option<int>, allowDue: Option<int>,
                                 clock: int, log: seq<Mark>)

  /** Keys are locked exactly while the unlocking timer is pending; both timers
      are due after the clock, counted from the last honoured press; a batch is
      open exactly while its closing timer is pending, and when none is, the
      last press lies at least 500 ms back. */
  ghost predicate StepValid(g: StepState)
  {
    && (g.allowStep <==> g.allowDue.None?)
    && (g.allowDue.Some? ==> g.allowDue.value == g.stepCounter + AllowInterval && g.clock < g.allowDue.value)
    && (g.stopDue.Some? ==> g.stopDue.value == g.stepCounter + GroupingInterval && g.clock < g.stopDue.value)
    && (g.stopDue.None? ==> g.stepCounter + GroupingInterval <= g.clock)
    && Bracketed(g.log, g.stopDue.Some?)
  }

  /** A key press may arrive at `now` once the clock has reached it and before
      any pending timer is due (a timer due by then fires first). */
  predicate CanPress(g: StepState, now: int)
  {
    g.clock <= now && (g.stopDue.None? || now < g.stopDue.value) && (g.allowDue.None? || now < g.allowDue.value)
  }

  /** `performStep(offset)` at time `now`, for its effect on the timers and the
      history. */
  function Pressed(g: StepState, now: int): StepState
  {
    if !g.allowStep then g.(clock := now)
    else
      var opens := !(now - g.stepCounter < GroupingInterval);
      StepState(false, now, Some(now + GroupingInterval), Some(now + AllowInterval), now,
                g.log + (if opens then [StartBatch] else []) + [Nudged(now)])
  }

  /** The batch-closing timer fires. */
  function Stopped(g: StepState): StepState
    requires g.stopDue.Some?
  {
    g.(stopDue := None, clock := g.stopDue.value, log := g.log + [StopBatch])
  }

  /** The unlocking timer fires. */
  function Unlocked(g: StepState): StepState
    requires g.allowDue.Some?
  {
    g.(allowStep := true, allowDue := None, clock := g.allowDue.value)
  }

  datatype StepEvent = PressAt(now: int) | StopFires | AllowFires

  /** A timer fires only when it is the earliest pending one. */
  predicate CanFire(g: StepState, e: StepEvent)
  {
    match e
    case PressAt(now) => CanPress(g, now)
    case StopFires => g.stopDue.Some? && (g.allowDue.None? || g.stopDue.value <= g.allowDue.value)
    case AllowFires => g.allowDue.Some? && (g.stopDue.None? || g.allowDue.value <= g.stopDue.value)
  }

  function After(g: StepState, e: StepEvent): StepState
    requires CanFire(g, e)
  {
    match e
    case PressAt(now) => Pressed(g, now)
    case StopFires => Stopped(g)
    case AllowFires => Unlocked(g)
  }

  ghost predicate Admissible(g: StepState, events: seq<StepEvent>)
    decreases |events|
  {
    events == [] || (CanFire(g, events[0]) && Admissible(After(g, events[0]), events[1..]))
  }

  ghost function Run(g: StepState, events: seq<StepEvent>): StepState
    requires Admissible(g, events)
    decreases |events|
  {
    if events == [] then g else Run(After(g, events[0]), events[1..])
  }

  /** An honoured press opens a new batch exactly when none is open, so the
      500 ms test of the source never nests batches nor leaves a move outside
      one; a locked press changes nothing but the clock. */
  lemma PressOpensIffIdle(g: StepState, now: int)
    requires StepValid(g) && CanPress(g, now)
    ensures g.allowStep ==>
              Pressed(g, now).log == g.log + (if g.stopDue.None? then [StartBatch] else []) + [Nudged(now)]
    ensures !g.allowStep ==> Pressed(g, now) == g.(clock := now)
  {
  }

  /** One event keeps the state consistent and only appends to the history. */
  lemma EventKeepsValid(g: StepState, e: StepEvent)
    requires StepValid(g) && CanFire(g, e)
    ensures StepValid(After(g, e))
    ensures |After(g, e).log| >= |g.log| && After(g, e).log[..|g.log|] == g.log
  {
    var g' := After(g, e);
    match e
    case PressAt(now) =>
      if g.allowStep {
        if g.stopDue.None? {
          assert g'.log[..|g'.log| - 1] == g.log + [StartBatch];
          assert (g.log + [StartBatch])[..|g.log|] == g.log;
        } else {
          assert g'.log[..|g'.log| - 1] == g.log;
        }
      }
    case StopFires =>
      assert g'.log[..|g'.log| - 1] == g.log;
    case AllowFires =>
  }

  /** Over any admissible run the history stays well bracketed and only grows. */
  lemma {:induction false} RunKeepsBracketed(g: StepState, events: seq<StepEvent>)
    requires StepValid(g) && Admissible(g, events)
    ensures StepValid(Run(g, events))
    ensures Bracketed(Run(g, events).log, Run(g, events).stopDue.Some?)
    ensures |Run(g, events).log| >= |g.log| && Run(g, events).log[..|g.log|] == g.log
    decreases |events|
  {
    if events != [] {
      var g' := After(g, events[0]);
      EventKeepsValid(g, events[0]);
      RunKeepsBracketed(g', events[1..]);
      assert Run(g', events[1..]).log[..|g.log|] == Run(g', events[1..]).log[..|g'.log|][..|g.log|];
    }
  }

  /** A burst of presses at times `ts`, the keys unlocking between each two. */
  function Burst(ts: seq<int>): seq<StepEvent>
    decreases |ts|
  {
    if ts == [] then []
    else if |ts| == 1 then [PressAt(ts[0])]
    else [PressAt(ts[0]), AllowFires] + Burst(ts[1..])
  }

  /** The moves of presses at times `ts`, in order. */
  function Moves(ts: seq<int>): seq<Mark>
  {
    seq(|ts|, i requires 0 <= i < |ts| => Nudged(ts[i]))
  }

  /** A burst of honoured presses, each 200 to 500 ms after the one before, is
      one batch: it opens at most one batch, and only when none was open, and
      adds nothing else but its moves. */
  lemma {:induction false} BurstIsOneBatch(g: StepState, ts: seq<int>)
    requires StepValid(g) && g.allowStep && ts != [] && CanPress(g, ts[0])
    requires forall i :: 0 <= i < |ts| - 1 ==> ts[i] + AllowInterval <= ts[i + 1] < ts[i] + GroupingInterval
    ensures Admissible(g, Burst(ts))
    ensures Run(g, Burst(ts)).log == g.log + (if g.stopDue.None? then [StartBatch] else []) + Moves(ts)
    decreases |ts|
  {
    var g1 := Pressed(g, ts[0]);
    PressOpensIffIdle(g, ts[0]);
    if |ts| == 1 {
      assert Burst(ts)[1..] == [];
      assert Moves(ts) == [Nudged(ts[0])];
    } else {
      var g2 := Unlocked(g1);
      EventKeepsValid(g, PressAt(ts[0]));
      EventKeepsValid(g1, AllowFires);
      var rest := Burst(ts[1..]);
      BurstIsOneBatch(g2, ts[1..]);
      assert Burst(ts)[1..] == [AllowFires] + rest;
      assert ([AllowFires] + rest)[1..] == rest;
      assert Moves(ts) == [Nudged(ts[0])] + Moves(ts[1..]);
    }
  }

  /** The press handler's state, beside the canvas whose selection it moves. */
  class Nudger {
    var allowStep: bool
    var stepCounter: int
    var stopDue: Option<int>
    var allowDue: Option<int>
    var clock: int
    var log: seq<Mark>

    function State(): StepState
      reads this
    {
      StepState(allowStep, stepCounter, stopDue, allowDue, clock, log)
    }

    ghost predicate Valid()
      reads this
    {
      StepValid(State())
    }

    /** `stepCounter = 0` and `allowStep = true` when the service starts; `now`
        is wall-clock milliseconds, far beyond the 500 ms grouping window. */
    constructor (now: int)
      requires now >= GroupingInterval
      ensures Valid()
      ensures State() == StepState(true, 0, None, None, now, [])
    {
      allowStep, stepCounter, stopDue, allowDue, clock, log := true, 0, None, None, now, [];
    }

    /** `performStep(offset)` at time `now`: an honoured press moves the
        canvas's selection by `offset`, as `step` does. */
    method PerformStep(canvas: Canvas, now: int, offset: Point)
      requires Valid() && canvas.Valid() && CanPress(State(), now)
      modifies this, canvas
      ensures Valid() && canvas.Valid()
      ensures State() == Pressed(old(State()), now)
      ensures old(allowStep) ==>
                && canvas.blocks == Moved(old(canvas.blocks), Members(old(canvas.selection)), offset)
                && canvas.links == Dragged(old(canvas.links), Members(old(canvas.selection)), offset)
      ensures !old(allowStep) ==> canvas.blocks == old(canvas.blocks) && canvas.links == old(canvas.links)
      ensures canvas.selection == old(canvas.selection) && canvas.clipboard == old(canvas.clipboard)
    {
      EventKeepsValid(State(), PressAt(now));
      if allowStep {
        allowStep := false;
        if now - stepCounter < GroupingInterval {
          stopDue := None;
        } else {
          log := log + [StartBatch];
        }
        canvas.Step(offset);
        log := log + [Nudged(now)];
        stopDue := Some(now + GroupingInterval);
        stepCounter := now;
        allowDue := Some(now + AllowInterval);
      }
      clock := now;
    }

    /** An arrow key: `stepLeft`, `stepUp`, `stepRight` or `stepDown`. */
    method StepKey(canvas: Canvas, now: int, d: Direction)
      requires Valid() && canvas.Valid() && CanPress(State(), now)
      modifies this, canvas
      ensures Valid() && canvas.Valid()
      ensures State() == Pressed(old(State()), now)
      ensures old(allowStep) ==>
                && canvas.blocks == Moved(old(canvas.blocks), Members(old(canvas.selection)), Offset(d))
                && canvas.links == Dragged(old(canvas.links), Members(old(canvas.selection)), Offset(d))
      ensures !old(allowStep) ==> canvas.blocks == old(canvas.blocks) && canvas.links == old(canvas.links)
      ensures canvas.selection == old(canvas.selection) && canvas.clipboard == old(canvas.clipboard)
    {
      PerformStep(canvas, now, Offset(d));
    }

    /** The 500 ms timer: `stopBatch('change')`. */
    method StopTimerFires()
      requires Valid() && CanFire(State(), StopFires)
      modifies this
      ensures Valid()
      ensures State() == Stopped(old(State()))
    {
      EventKeepsValid(State(), StopFires);
      clock := stopDue.value;
      stopDue := None;
      log := log + [StopBatch];
    }

    /** The 200 ms timer: `allowStep = true`. */
    method AllowTimerFires()
      requires Valid() && CanFire(State(), AllowFires)
      modifies this
      ensures Valid()
      ensures State() == Unlocked(old(State()))
    {
      EventKeepsValid(State(), AllowFires);
      clock := allowDue.value;
      allowStep := true;
      allowDue := None;
    }
  }
}
