// How many frames are painted (internal/tui/base.go): requests made while one is
// pending are painted together, and nothing is painted that nobody asked for.

module RenderFrames {
  import opened Options
  import opened RenderSchedule

  predicate IsFrame(step: Step) { step.Paint? || step.PaintApart? }

  function Frames(steps: seq<Step>): nat {
    if steps == [] then 0 else (if IsFrame(steps[0]) then 1 else 0) + Frames(steps[1..])
  }

  /** Whether a step asks for a frame of its own: a synchronous render, or a request
      while none is pending. */
  predicate AsksAnew(w: World, step: Step) {
    step.RenderNow? || ((step.Request? || step.RequestNow?) && !w.locked.requested)
  }

  function Asked(w: World, steps: seq<Step>): nat
    requires CanRun(w, steps)
    decreases |steps|
  {
    if steps == [] then 0
    else (if AsksAnew(w, steps[0]) then 1 else 0) + Asked(Next(w, steps[0]), steps[1..])
  }

  /** Frames still to be painted for what was asked. */
  function Due(w: World): nat {
    w.painters + (if w.loop.Painting? then 1 else 0) + if w.locked.requested then 1 else 0
  }

  lemma StepIsAskedFor(w: World, step: Step)
    requires Enabled(w, step)
    ensures (if IsFrame(step) then 1 else 0) + Due(Next(w, step)) <= Due(w) + if AsksAnew(w, step) then 1 else 0
  {
  }

  lemma {:induction false} FramesAreAskedFor(w: World, steps: seq<Step>)
    requires CanRun(w, steps)
    ensures Frames(steps) + Due(Final(w, steps)) <= Due(w) + Asked(w, steps)
    decreases |steps|
  {
    hide Enabled, Next, Due, IsFrame, AsksAnew;
    if steps != [] {
      StepIsAskedFor(w, steps[0]);
      FramesAreAskedFor(Next(w, steps[0]), steps[1..]);
    }
  }

  /** Under any interleaving no more frames are painted than were asked for anew: any
      number of requests made while one is pending costs a single frame. */
  lemma RequestsAreCoalesced(steps: seq<Step>)
    requires CanRun(START, steps)
    ensures Frames(steps) <= Asked(START, steps)
  {
    hide Final;
    FramesAreAskedFor(START, steps);
  }
}
