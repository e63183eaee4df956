// What a goal's limits mean (internal/goal/goal.go and internal/goal/store.go): which
// limit is reported after any run, and when an operation is refused.

module GoalLimits {
  import opened Options
  import opened Spaces
  import opened Goals

  // ---------------------------------------------------------------- the limits in force

  /** The limits of the last creation that went through. */
  function LimitsGiven(run: seq<Timed>): Limits {
    if run == [] then Limits(0, 0, 0)
    else
      var last := run[|run| - 1];
      if last.op.Create? && Step(After(run[..|run| - 1]), last.op, last.now).1.Done? then last.op.limits
      else LimitsGiven(run[..|run| - 1])
  }

  ghost predicate LimitsHold(cell: Cell, limits: Limits) {
    cell.Some? ==>
      && cell.value.tokenBudget == limits.tokenBudget && cell.value.maxTurns == limits.maxTurns
      && limits.maxDuration >= 0 && cell.value.maxDurationMs == limits.maxDuration / MILLISECOND
  }

  lemma StepKeepsTheLimits(cell: Cell, op: Op, now: int, limits: Limits)
    requires LimitsHold(cell, limits)
    ensures var (after, outcome) := Step(cell, op, now);
      LimitsHold(after, if op.Create? && outcome.Done? then op.limits else limits)
  {
    if SameGoal(cell, op, now) {
      hide Step;
      StepKeepsLimits(cell, op, now);
    } else {
      hide Trim, UpdateStep;
    }
  }

  lemma {:induction false} RunKeepsTheLimits(run: seq<Timed>)
    ensures LimitsHold(After(run), LimitsGiven(run))
  {
    hide Step, LimitsHold;
    if run == [] {
      assert LimitsHold(None, Limits(0, 0, 0)) by { NoLimitsHold(); }
    } else {
      var last := run[|run| - 1];
      RunKeepsTheLimits(run[..|run| - 1]);
      StepKeepsTheLimits(After(run[..|run| - 1]), last.op, last.now, LimitsGiven(run[..|run| - 1]));
    }
  }

  lemma NoLimitsHold()
    ensures LimitsHold(None, Limits(0, 0, 0))
  {
  }

  /** The duration limit in force: whole milliseconds of the one asked for. */
  function WholeMilliseconds(duration: int): int { duration - duration % MILLISECOND }

  predicate TokensSpent(limits: Limits, ledger: Ledger) { 0 < limits.tokenBudget <= Tokens(ledger.log) }

  predicate TurnsSpent(limits: Limits, ledger: Ledger) { 0 < limits.maxTurns <= Turns(ledger.log) }

  /** Which limit is reported at a moment after a run, by what was asked for and what
      really happened: tokens before turns before time. Time is reported only when it
      is truly up, and at most a millisecond late for each freeze. */
  lemma LimitsAreReported(run: seq<Timed>, at: int)
    requires Forward(run) && run != [] && run[|run| - 1].now <= at && After(run).Some?
    ensures var (limits, ledger, reason) := (LimitsGiven(run), Accounted(run), After(run).value.LimitReached(at));
      && (reason == TokenLimit <==> TokensSpent(limits, ledger))
      && (reason == TurnLimit <==> !TokensSpent(limits, ledger) && TurnsSpent(limits, ledger))
      && (reason == DurationLimit ==>
            MILLISECOND <= limits.maxDuration && WholeMilliseconds(limits.maxDuration) <= TrueActive(run, at))
      && (reason == NoLimit && MILLISECOND <= limits.maxDuration ==>
            TrueActive(run, at) < WholeMilliseconds(limits.maxDuration) + ledger.freezes * (MILLISECOND - 1))
  {
    hide Accounted, After, LimitsGiven, TrueActive, Tokens, Turns;
    RunKeepsTheLimits(run);
    TotalsCountEveryTurn(run);
    ActiveTimeIsHonest(run, at);
    var limits := LimitsGiven(run);
    assert limits.maxDuration / MILLISECOND * MILLISECOND == WholeMilliseconds(limits.maxDuration);
  }

  // ---------------------------------------------------------------- refusals

  predicate NegativeLimit(limits: Limits) {
    limits.tokenBudget <= -1 || limits.maxTurns <= -1 || limits.maxDuration <= -1
  }

  predicate IsOpen(cell: Cell) { cell.Some? && cell.value.status in {Active, Paused} }

  /** A goal is created exactly for a text, limits that are not negative, and where no
      goal is open; an open one with the same text is handed out again. */
  lemma WhenCreated(cell: Cell, objective: string, limits: Limits, id: nat, now: int)
    ensures var (after, outcome) := CreateStep(cell, objective, limits, id, now);
      && (outcome.Done? <==> HasText(objective) && !NegativeLimit(limits) && !IsOpen(cell))
      && (outcome.Done? ==> after == Some(outcome.goal) && IsOpen(after) && outcome.goal.objective == Trim(objective))
      && (!outcome.Done? ==> after == cell)
      && (outcome == Failed(EmptyObjective) <==> !HasText(objective))
      && (outcome == Failed(NegativeLimits) <==> HasText(objective) && NegativeLimit(limits))
      && (outcome.Reused? ==> cell == Some(outcome.goal) && outcome.goal.objective == Trim(objective))
      && (outcome == Failed(Conflict) ==> IsOpen(cell) && cell.value.objective != Trim(objective))
  {
    hide Trim, Milliseconds;
    TrimCutsBlanks(objective);
  }

  // What an update asks for makes sense in itself.
  ghost predicate WellAsked(objective: Option<string>, wanted: Option<Wanted>, detail: string) {
    && (objective.Some? || wanted.Some?)
    && (objective.Some? ==> HasText(objective.value))
    && (wanted.Some? ==> wanted.value.To?)
    && (wanted in {Some(To(Complete)), Some(To(Blocked))} ==> HasText(detail))
  }

  /** An update goes through exactly when it asks for something sensible of an open
      goal: a text, or a known status with evidence or a blocker where it closes. */
  lemma WhenUpdated(cell: Cell, objective: Option<string>, wanted: Option<Wanted>, detail: string, now: int)
    ensures var (after, outcome) := UpdateStep(cell, objective, wanted, detail, now);
      && (outcome.Done? <==> WellAsked(objective, wanted, detail) && IsOpen(cell))
      && (!outcome.Done? ==> outcome.Failed? && after == cell)
      && (WellAsked(objective, wanted, detail) ==>
            (outcome == Failed(NoGoal) <==> cell.None?)
            && (outcome == Failed(AlreadyClosed) <==> cell.Some? && !IsOpen(cell)))
  {
    hide Trim, ChangeObjective, ChangeStatus, Stamp;
    TrimCutsBlanks(detail);
    if objective.Some? { TrimCutsBlanks(objective.value); }
  }

  /** A turn is recorded exactly for an active goal and tokens that are not negative. */
  lemma WhenTurned(cell: Cell, tokens: int, now: int, readAt: int)
    ensures var (after, outcome) := TurnStep(cell, tokens, now, readAt);
      && (outcome.Turned? <==> tokens > -1 && IsActive(cell))
      && (outcome.Turned? ==> after == Some(outcome.goal) && outcome.limit == outcome.goal.LimitReached(readAt))
      && (!outcome.Turned? ==> outcome.Failed? && after == cell)
  {
    hide Stamp, AddTurn;
  }
}
