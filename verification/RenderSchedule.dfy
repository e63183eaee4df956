// Render coalescing (internal/tui/base.go on internal/tui/scheduler.go): ordinary
// requests wait for a throttle timer, input and forced frames overtake it, and a
// synchronous render settles everything. Threads interleave between the sections
// that hold the render lock; timers fire, and their callbacks reach the loop's
// queue, at any moment.

module RenderSchedule {
  import opened Options

  /** What can be queued on the loop. */
  datatype Callback = Schedule | Immediate | TimerFired(timer: nat)

  /** The fields the render lock protects. */
  datatype Locked = Locked(requested: bool, immediateScheduled: bool, timer: Option<nat>, stopped: bool)

  /** What a locked section does to the outside: cancel a timer, hand a callback to
      the loop, arm a timer, go on to paint a frame. */
  datatype Effect = Effect(cancel: Option<nat>, defer: Option<Callback>, arm: Option<nat>, render: bool)

  const NOTHING := Effect(None, None, None, false)

  // ---------------------------------------------------------------- locked sections

  function RequestSection(l: Locked): (Locked, Effect) {
    if l.requested then (l, NOTHING)
    else (l.(requested := true), NOTHING.(defer := Some(Schedule)))
  }

  function ImmediateSection(l: Locked): (Locked, Effect) {
    (l.(timer := None, requested := true, immediateScheduled := true),
     Effect(l.timer, if l.immediateScheduled then None else Some(Immediate), None, false))
  }

  function RenderNowSection(l: Locked): (Locked, Effect) {
    (l.(requested := false, timer := None), Effect(l.timer, None, None, true))
  }

  function ImmediateCallback(l: Locked): (Locked, Effect) {
    var cleared := l.(immediateScheduled := false);
    if l.stopped || !l.requested then (cleared, NOTHING)
    else (cleared.(timer := None, requested := false), Effect(l.timer, None, None, true))
  }

  /** Arms the throttle timer, unless one is already set. */
  function ScheduleSection(l: Locked, fresh_: nat): (Locked, Effect) {
    if l.stopped || l.timer.Some? || !l.requested then (l, NOTHING)
    else (l.(timer := Some(fresh_)), NOTHING.(arm := Some(fresh_)))
  }

  /** A fired timer's callback clears the timer field even if a newer one is set. */
  function TimerCallback(l: Locked): (Locked, Effect) {
    var cleared := l.(timer := None);
    if l.stopped || !l.requested then (cleared, NOTHING)
    else (cleared.(requested := false), NOTHING.(render := true))
  }

  function StopSection(l: Locked): (Locked, Effect) {
    (l.(stopped := true, timer := None), Effect(l.timer, None, None, false))
  }

  // ---------------------------------------------------------------- the world

  /** Where the loop goroutine is: between callbacks, about to paint with the lock
      released, or in the tail of a timer callback that has just painted. */
  datatype LoopAt = Idle | Painting(thenCheck: bool) | Painted | Rescheduling

  /** `version` counts content changes and `shown` is the version of the last frame;
      `handing` holds the callbacks of threads on their way to the queue, and `painters`
      counts the threads about to paint a synchronous render. */
  datatype World = World(
    locked: Locked, armed: set<nat>, handing: seq<Callback>, queue: seq<Callback>,
    loop: LoopAt, painters: nat, nextTimer: nat, version: nat, shown: nat)

  const START := World(Locked(false, false, None, false), {}, [], [], Idle, 0, 0, 0, 0)

  function Timers(armed: set<nat>, e: Effect): set<nat> {
    var kept := if e.cancel.Some? then armed - {e.cancel.value} else armed;
    if e.arm.Some? then kept + {e.arm.value} else kept
  }

  function Perform(w: World, next: Locked, e: Effect): World {
    w.(locked := next,
       armed := Timers(w.armed, e),
       nextTimer := if e.arm.Some? then w.nextTimer + 1 else w.nextTimer,
       handing := if e.defer.Some? then w.handing + [e.defer.value] else w.handing,
       painters := if e.render then w.painters + 1 else w.painters)
  }

  /** A section the loop runs: it is the loop that goes on to paint. */
  function PerformOnLoop(w: World, next: Locked, e: Effect, thenCheck: bool): World {
    Perform(w, next, e.(render := false)).(loop := if e.render then Painting(thenCheck) else Idle)
  }

  datatype Step =
    | Request              // content changes, then an ordinary request
    | RequestNow           // content changes, then an input or forced frame
    | RenderNow            // a synchronous render
    | Stop                 // the loop drops its queue
    | Hand(index: nat)     // a thread reaches the queue with its callback
    | Fire(timer: nat)     // an armed timer goes off
    | RunNext              // the loop takes the next callback
    | Paint                // the loop paints the content as it is by now
    | PaintApart           // a thread paints its synchronous render
    | CheckAgain           // after painting, the timer callback looks for a new request
    | Reschedule           // and schedules it

  function Changed(w: World): World { w.(version := w.version + 1) }

  predicate Enabled(w: World, step: Step) {
    match step
    case Hand(index) => index < |w.handing|
    case Fire(timer) => timer in w.armed
    case RunNext => w.loop == Idle && w.queue != []
    case Paint => w.loop.Painting?
    case PaintApart => w.painters > 0
    case CheckAgain => w.loop == Painted
    case Reschedule => w.loop == Rescheduling
    case _ => !w.locked.stopped
  }

  function Take(w: World): World
    requires w.queue != []
  {
    var rest := w.(queue := w.queue[1..]);
    match w.queue[0]
    case Schedule => var (l, e) := ScheduleSection(w.locked, w.nextTimer); PerformOnLoop(rest, l, e, false)
    case Immediate => var (l, e) := ImmediateCallback(w.locked); PerformOnLoop(rest, l, e, false)
    case TimerFired(_) => var (l, e) := TimerCallback(w.locked); PerformOnLoop(rest, l, e, true)
  }

  function Next(w: World, step: Step): World
    requires Enabled(w, step)
  {
    match step
    case Request => var (l, e) := RequestSection(w.locked); Perform(Changed(w), l, e)
    case RequestNow => var (l, e) := ImmediateSection(w.locked); Perform(Changed(w), l, e)
    case RenderNow => var (l, e) := RenderNowSection(w.locked); Perform(w, l, e)
    case Stop => var (l, e) := StopSection(w.locked); Perform(w, l, e).(queue := [])
    case Hand(index) =>
      w.(handing := w.handing[..index] + w.handing[index + 1..],
         queue := if w.locked.stopped then w.queue else w.queue + [w.handing[index]])
    case Fire(timer) => w.(armed := w.armed - {timer}, handing := w.handing + [TimerFired(timer)])
    case RunNext => Take(w)
    case Paint => w.(shown := w.version, loop := if w.loop.thenCheck then Painted else Idle)
    case PaintApart => w.(shown := w.version, painters := w.painters - 1)
    case CheckAgain => w.(loop := if w.locked.requested then Rescheduling else Idle)
    case Reschedule =>
      var (l, e) := ScheduleSection(w.locked, w.nextTimer);
      PerformOnLoop(w, l, e, false)
  }

  // ---------------------------------------------------------------- no request is lost

  predicate Waiting(w: World, callback: Callback) { callback in w.handing || callback in w.queue }

  /** A set timer is still to fire, or its callback is on the way. */
  predicate Live(w: World, timer: nat) { timer in w.armed || Waiting(w, TimerFired(timer)) }

  /** Something outstanding will look at the request. */
  predicate Outstanding(w: World) {
    || Waiting(w, Schedule)
    || (w.locked.timer.Some? && Live(w, w.locked.timer.value))
    || (w.locked.immediateScheduled && Waiting(w, Immediate))
  }

  /** Somebody has settled the request and is about to paint. */
  predicate InFlight(w: World) { w.loop.Painting? || w.painters > 0 }

  /** Until it is stopped, a request has something outstanding, every field that
      promises a callback has one, and without a request the screen is up to date or a
      frame is on its way. */
  predicate Safe(w: World) {
    && (!w.locked.requested ==> w.shown == w.version || InFlight(w))
    && (!w.locked.stopped ==>
         && (w.locked.requested ==> Outstanding(w))
         && (w.locked.timer.Some? ==> Live(w, w.locked.timer.value))
         && (w.locked.immediateScheduled ==> Waiting(w, Immediate)))
  }

  lemma StartIsSafe()
    ensures Safe(START)
  {
  }

  // What is waiting stays waiting while other callbacks come and go.
  lemma HandKeepsWaiting(w: World, index: nat, callback: Callback)
    requires index < |w.handing| && !w.locked.stopped
    ensures Waiting(w, callback) ==> Waiting(Next(w, Hand(index)), callback)
  {
    if callback in w.handing {
      var i :| 0 <= i < |w.handing| && w.handing[i] == callback;
      var next := Next(w, Hand(index));
      if i == index {
        assert next.queue[|w.queue|] == callback;
      } else {
        assert next.handing[if i < index then i else i - 1] == callback;
      }
    }
  }

  lemma TakeKeepsWaiting(w: World, callback: Callback)
    requires w.queue != []
    ensures Waiting(w, callback) && callback != w.queue[0] ==> Waiting(Take(w), callback)
  {
    if callback in w.queue && callback != w.queue[0] {
      var i :| 0 <= i < |w.queue| && w.queue[i] == callback;
      assert w.queue[1..][i - 1] == callback;
    }
  }

  lemma TakeStaysSafe(w: World)
    requires Safe(w) && w.queue != [] && w.loop == Idle
    ensures Safe(Take(w))
  {
    TakeKeepsWaiting(w, Schedule);
    TakeKeepsWaiting(w, Immediate);
    if w.locked.timer.Some? {
      TakeKeepsWaiting(w, TimerFired(w.locked.timer.value));
    }
  }

  /** No requested frame is lost: every step of every interleaving keeps the promise. */
  lemma StepStaysSafe(w: World, step: Step)
    requires Safe(w) && Enabled(w, step)
    ensures Safe(Next(w, step))
  {
    hide Take;
    match step
    case Hand(index) =>
      if !w.locked.stopped {
        HandKeepsWaiting(w, index, Schedule);
        HandKeepsWaiting(w, index, Immediate);
        if w.locked.timer.Some? {
          HandKeepsWaiting(w, index, TimerFired(w.locked.timer.value));
        }
      }
    case RunNext => TakeStaysSafe(w);
    case _ =>
  }

  ghost predicate CanRun(w: World, steps: seq<Step>)
    decreases |steps|
  {
    steps == [] || (Enabled(w, steps[0]) && CanRun(Next(w, steps[0]), steps[1..]))
  }

  function Final(w: World, steps: seq<Step>): World
    requires CanRun(w, steps)
    decreases |steps|
  {
    if steps == [] then w else Final(Next(w, steps[0]), steps[1..])
  }

  lemma {:induction false} RunStaysSafe(w: World, steps: seq<Step>)
    requires Safe(w) && CanRun(w, steps)
    ensures Safe(Final(w, steps))
    decreases |steps|
  {
    hide Safe, Next, Enabled;
    if steps != [] {
      StepStaysSafe(w, steps[0]);
      RunStaysSafe(Next(w, steps[0]), steps[1..]);
    }
  }

  /** From the start, after any interleaving of requests, timers and callbacks: unless
      stopped, a pending request has something outstanding that will look at it, and
      when none is pending the newest content is shown or about to be painted. */
  lemma NoRequestIsLost(steps: seq<Step>)
    requires CanRun(START, steps)
    ensures var w := Final(START, steps);
      && (w.locked.requested && !w.locked.stopped ==> Outstanding(w))
      && (!w.locked.requested ==> w.shown == w.version || InFlight(w))
  {
    hide Outstanding, CanRun, Final;
    StartIsSafe();
    RunStaysSafe(START, steps);
  }

  // ---------------------------------------------------------------- every request is shown

  /** Steps nobody has to ask for. */
  predicate Unprompted(step: Step) {
    step.Hand? || step.Fire? || step.RunNext? || step.Paint? || step.PaintApart? || step.CheckAgain? || step.Reschedule?
  }

  function Weight(callback: Callback): nat {
    match callback
    case Schedule => 4
    case _ => 1
  }

  function Weights(callbacks: seq<Callback>): nat {
    if callbacks == [] then 0 else Weight(callbacks[0]) + Weights(callbacks[1..])
  }

  function LoopWork(loop: LoopAt): nat {
    match loop
    case Idle => 0
    case Painting(thenCheck) => if thenCheck then 6 else 1
    case Painted => 5
    case Rescheduling => 4
  }

  /** How many unprompted steps there can be. */
  function Work(w: World): nat {
    Weights(w.queue) + Weights(w.handing) + |w.handing| + 3 * |w.armed| + w.painters + LoopWork(w.loop)
      + if w.locked.requested then 6 else 0
  }

  lemma {:induction false} WeightsAppend(a: seq<Callback>, b: seq<Callback>)
    ensures Weights(a + b) == Weights(a) + Weights(b)
  {
    if a == [] {
      assert a + b == b;
    } else {
      assert (a + b)[1..] == a[1..] + b;
      WeightsAppend(a[1..], b);
    }
  }

  lemma WeightsRemove(a: seq<Callback>, i: nat)
    requires i < |a|
    ensures Weights(a[..i] + a[i + 1..]) + Weight(a[i]) == Weights(a)
  {
    WeightsAppend(a[..i], a[i + 1..]);
    WeightsAppend(a[..i], a[i..]);
    assert a[..i] + a[i..] == a && a[i..][1..] == a[i + 1..];
  }

  // Weights apart, what a section on the loop leaves to do.
  lemma PerformWorks(w: World, l: Locked, e: Effect, thenCheck: bool)
    requires e.defer.None? && (e.cancel.None? || e.arm.None?)
    requires (l.requested ==> w.locked.requested) && (e.render ==> w.locked.requested && !l.requested)
    ensures var next := PerformOnLoop(w, l, e, thenCheck);
      && Work(next) + LoopWork(w.loop) <= Work(w) + (if e.arm.Some? then 3 else 0)
      && next.queue == w.queue
  {
    hide Weights;
    if e.arm.Some? {
      Arms(w.armed, e.arm.value);
    } else if e.cancel.Some? {
      Disarms(w.armed, e.cancel.value);
    }
  }

  lemma TakeWorks(w: World)
    requires w.queue != [] && w.loop == Idle
    ensures Work(Take(w)) < Work(w)
  {
    hide Weights, PerformOnLoop;
    FirstWeight(w.queue);
    var rest := w.(queue := w.queue[1..]);
    match w.queue[0]
    case Schedule => var (l, e) := ScheduleSection(w.locked, w.nextTimer); PerformWorks(rest, l, e, false);
    case Immediate => var (l, e) := ImmediateCallback(w.locked); PerformWorks(rest, l, e, false);
    case TimerFired(_) => var (l, e) := TimerCallback(w.locked); PerformWorks(rest, l, e, true);
  }

  lemma FirstWeight(callbacks: seq<Callback>)
    requires callbacks != []
    ensures Weights(callbacks) == Weight(callbacks[0]) + Weights(callbacks[1..])
  {
  }

  lemma Arms(armed: set<nat>, timer: nat)
    ensures |armed + {timer}| <= |armed| + 1
  {
  }

  lemma Disarms(armed: set<nat>, timer: nat)
    ensures |armed - {timer}| <= |armed|
    ensures timer in armed ==> |armed - {timer}| == |armed| - 1
  {
  }

  /** An unprompted step leaves less work, and requests nothing. */
  lemma UnpromptedWorks(w: World, step: Step)
    requires Enabled(w, step) && Unprompted(step)
    ensures var next := Next(w, step);
      && Work(next) < Work(w)
      && next.version == w.version && next.locked.stopped == w.locked.stopped
  {
    hide Weights, Take;
    match step
    case Hand(index) =>
      WeightsRemove(w.handing, index);
      WeightsAppend(w.queue, [w.handing[index]]);
      OneWeight(w.handing[index]);
    case Fire(timer) =>
      WeightsAppend(w.handing, [TimerFired(timer)]);
      OneWeight(TimerFired(timer));
      Disarms(w.armed, timer);
    case RunNext =>
      TakeWorks(w);
      TakeKeepsContent(w);
    case Reschedule => Arms(w.armed, w.nextTimer);
    case _ =>
  }

  lemma TakeKeepsContent(w: World)
    requires w.queue != []
    ensures Take(w).version == w.version && Take(w).locked.stopped == w.locked.stopped
  {
  }

  lemma OneWeight(callback: Callback)
    ensures Weights([callback]) == Weight(callback)
  {
  }

  /** While a request is pending or a frame is on its way, some unprompted step is
      possible. */
  lemma RequestKeepsMoving(w: World)
    requires Safe(w) && !w.locked.stopped && (w.locked.requested || InFlight(w))
    ensures exists step :: Unprompted(step) && Enabled(w, step)
  {
    if w.painters > 0 {
      assert Enabled(w, PaintApart) && Unprompted(PaintApart);
    } else if w.loop != Idle {
      var step := if w.loop.Painting? then Paint else if w.loop == Painted then CheckAgain else Reschedule;
      assert Enabled(w, step) && Unprompted(step);
    } else if w.handing != [] {
      assert Enabled(w, Hand(0)) && Unprompted(Hand(0));
    } else if w.locked.timer.Some? && w.locked.timer.value in w.armed {
      assert Enabled(w, Fire(w.locked.timer.value)) && Unprompted(Fire(w.locked.timer.value));
    } else {
      assert w.queue != [];
      assert Enabled(w, RunNext) && Unprompted(RunNext);
    }
  }

  ghost predicate RunsUnprompted(w: World, steps: seq<Step>) {
    CanRun(w, steps) && forall i :: 0 <= i < |steps| ==> Unprompted(steps[i])
  }

  ghost predicate Exhausted(w: World) { !(exists step :: Unprompted(step) && Enabled(w, step)) }

  /** Left alone, the program comes to rest: no run of unprompted steps is longer than
      the work at hand. At rest nothing is requested and the newest content is shown. */
  lemma {:induction false} EveryRequestIsShown(w: World, steps: seq<Step>)
    requires Safe(w) && !w.locked.stopped && RunsUnprompted(w, steps)
    ensures |steps| <= Work(w)
    ensures var end := Final(w, steps);
      && end.version == w.version
      && (Exhausted(end) || |steps| == Work(w) ==> !end.locked.requested && end.shown == end.version)
    decreases |steps|
  {
    hide Safe, Work, Next, Enabled;
    if steps != [] {
      StepStaysSafe(w, steps[0]);
      UnpromptedWorks(w, steps[0]);
      EveryRequestIsShown(Next(w, steps[0]), steps[1..]);
    } else {
      if Work(w) == 0 { NoWorkIsRest(w); }
      RestIsShown(w);
    }
  }

  lemma NoWorkIsRest(w: World)
    requires Work(w) == 0
    ensures Exhausted(w)
  {
    hide Work, Enabled;
    forall step | Unprompted(step) && Enabled(w, step) ensures false { UnpromptedWorks(w, step); }
  }

  lemma RestIsShown(w: World)
    requires Safe(w) && !w.locked.stopped
    ensures Exhausted(w) ==> !w.locked.requested && w.shown == w.version
  {
    hide Enabled, Outstanding, Live;
    if w.locked.requested || InFlight(w) { RequestKeepsMoving(w); }
  }

  /** So whatever happened since the start, the newest content ends up on the screen. */
  lemma NewestContentIsShown(before: seq<Step>, steps: seq<Step>)
    requires CanRun(START, before) && !Final(START, before).locked.stopped
    requires RunsUnprompted(Final(START, before), steps)
    ensures var w := Final(START, before);
      && |steps| <= Work(w)
      && (Exhausted(Final(w, steps)) || |steps| == Work(w) ==> Final(w, steps).shown == w.version)
  {
    hide Work, Enabled, CanRun, Final, Safe;
    StartIsSafe();
    RunStaysSafe(START, before);
    EveryRequestIsShown(Final(START, before), steps);
  }

  // ---------------------------------------------------------------- the locked sections in place

  /** A section run by a caller: wherever the fields are these, no request is lost. */
  ghost predicate CallKeepsSafe(l: Locked, next: Locked, e: Effect, changes: bool) {
    forall w: World :: Safe(w) && w.locked == l && !l.stopped ==> Safe(Perform(if changes then Changed(w) else w, next, e))
  }

  /** The same for the section the loop runs for the callback it takes. */
  ghost predicate CallbackKeepsSafe(l: Locked, next: Locked, e: Effect, callback: Callback, fresh_: Option<nat>) {
    forall w: World :: Safe(w) && w.locked == l && w.loop == Idle && w.queue != [] && w.queue[0] == callback
      && (fresh_.Some? ==> w.nextTimer == fresh_.value)
      ==> Safe(PerformOnLoop(w.(queue := w.queue[1..]), next, e, callback.TimerFired?))
  }

  lemma CallsKeepSafe(l: Locked)
    ensures var (next, e) := RequestSection(l); CallKeepsSafe(l, next, e, true)
    ensures var (next, e) := ImmediateSection(l); CallKeepsSafe(l, next, e, true)
    ensures var (next, e) := RenderNowSection(l); CallKeepsSafe(l, next, e, false)
  {
    hide Safe, Perform, RequestSection, ImmediateSection, RenderNowSection;
    forall w: World | Safe(w) && w.locked == l && !l.stopped
      ensures var (next, e) := RequestSection(l); Safe(Perform(Changed(w), next, e))
      ensures var (next, e) := ImmediateSection(l); Safe(Perform(Changed(w), next, e))
      ensures var (next, e) := RenderNowSection(l); Safe(Perform(w, next, e))
    {
      StepStaysSafe(w, Request);
      StepStaysSafe(w, RequestNow);
      StepStaysSafe(w, RenderNow);
    }
  }

  lemma ScheduleKeepsSafe(l: Locked, fresh_: nat)
    ensures var (next, e) := ScheduleSection(l, fresh_); CallbackKeepsSafe(l, next, e, Schedule, Some(fresh_))
  {
    hide Safe, PerformOnLoop, ScheduleSection;
    forall w: World | Safe(w) && w.locked == l && w.loop == Idle && w.queue != [] && w.queue[0] == Schedule && w.nextTimer == fresh_
      ensures var (next, e) := ScheduleSection(l, fresh_); Safe(PerformOnLoop(w.(queue := w.queue[1..]), next, e, false))
    {
      TakeStaysSafe(w);
    }
  }

  lemma CallbacksKeepSafe(l: Locked, timer: nat)
    ensures var (next, e) := ImmediateCallback(l); CallbackKeepsSafe(l, next, e, Immediate, None)
    ensures var (next, e) := TimerCallback(l); CallbackKeepsSafe(l, next, e, TimerFired(timer), None)
  {
    hide Safe, PerformOnLoop, ImmediateCallback, TimerCallback;
    forall w: World | Safe(w) && w.locked == l && w.loop == Idle && w.queue != []
      ensures w.queue[0] == Immediate ==> var (next, e) := ImmediateCallback(l); Safe(PerformOnLoop(w.(queue := w.queue[1..]), next, e, false))
      ensures w.queue[0] == TimerFired(timer) ==> var (next, e) := TimerCallback(l); Safe(PerformOnLoop(w.(queue := w.queue[1..]), next, e, true))
    {
      TakeStaysSafe(w);
    }
  }

  class RenderGate {
    var renderRequested: bool
    var immediateRenderScheduled: bool
    var renderTimer: Option<nat>
    var stopped: bool

    constructor ()
      ensures Fields() == START.locked
    {
      renderRequested, immediateRenderScheduled, renderTimer, stopped := false, false, None, false;
    }

    ghost function Fields(): Locked
      reads this
    {
      Locked(renderRequested, immediateRenderScheduled, renderTimer, stopped)
    }

    method CancelRenderTimer() returns (cancelled: Option<nat>)
      modifies this`renderTimer
      ensures cancelled == old(renderTimer) && renderTimer == None
    {
      cancelled := renderTimer;
      renderTimer := None;
    }

    method RequestRender() returns (effect: Effect)
      modifies this
      ensures (Fields(), effect) == RequestSection(old(Fields()))
      ensures CallKeepsSafe(old(Fields()), Fields(), effect, true)
    {
      hide CallKeepsSafe;
      CallsKeepSafe(Fields());
      if renderRequested {
        return NOTHING;
      }
      renderRequested := true;
      return NOTHING.(defer := Some(Schedule));
    }

    method RequestImmediateRender() returns (effect: Effect)
      modifies this
      ensures (Fields(), effect) == ImmediateSection(old(Fields()))
      ensures CallKeepsSafe(old(Fields()), Fields(), effect, true)
    {
      hide CallKeepsSafe;
      CallsKeepSafe(Fields());
      var cancelled := CancelRenderTimer();
      renderRequested := true;
      if immediateRenderScheduled {
        return NOTHING.(cancel := cancelled);
      }
      immediateRenderScheduled := true;
      return NOTHING.(cancel := cancelled, defer := Some(Immediate));
    }

    method RunImmediate() returns (effect: Effect)
      modifies this
      ensures (Fields(), effect) == ImmediateCallback(old(Fields()))
      ensures CallbackKeepsSafe(old(Fields()), Fields(), effect, Immediate, None)
    {
      hide CallbackKeepsSafe;
      CallbacksKeepSafe(Fields(), 0);
      immediateRenderScheduled := false;
      if stopped || !renderRequested {
        return NOTHING;
      }
      var cancelled := CancelRenderTimer();
      renderRequested := false;
      return NOTHING.(cancel := cancelled, render := true);
    }

    method ScheduleRender(timer: nat) returns (effect: Effect)
      modifies this
      ensures (Fields(), effect) == ScheduleSection(old(Fields()), timer)
      ensures CallbackKeepsSafe(old(Fields()), Fields(), effect, Schedule, Some(timer))
    {
      hide CallbackKeepsSafe;
      ScheduleKeepsSafe(Fields(), timer);
      if stopped || renderTimer.Some? || !renderRequested {
        return NOTHING;
      }
      renderTimer := Some(timer);
      return NOTHING.(arm := Some(timer));
    }

    method RunTimer(ghost fired: nat) returns (effect: Effect)
      modifies this
      ensures (Fields(), effect) == TimerCallback(old(Fields()))
      ensures CallbackKeepsSafe(old(Fields()), Fields(), effect, TimerFired(fired), None)
    {
      hide CallbackKeepsSafe;
      CallbacksKeepSafe(Fields(), fired);
      renderTimer := None;
      if stopped || !renderRequested {
        return NOTHING;
      }
      renderRequested := false;
      return NOTHING.(render := true);
    }

    method RenderSynchronously() returns (effect: Effect)
      modifies this
      ensures (Fields(), effect) == RenderNowSection(old(Fields()))
      ensures CallKeepsSafe(old(Fields()), Fields(), effect, false)
    {
      hide CallKeepsSafe;
      CallsKeepSafe(Fields());
      renderRequested := false;
      var cancelled := CancelRenderTimer();
      return NOTHING.(cancel := cancelled, render := true);
    }

    method Shutdown() returns (effect: Effect)
      modifies this
      ensures (Fields(), effect) == StopSection(old(Fields()))
    {
      stopped := true;
      var cancelled := CancelRenderTimer();
      return NOTHING.(cancel := cancelled);
    }
  }
}
