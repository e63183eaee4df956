// The goal lifecycle and its accounting (internal/goal). The goal file is one
// memory cell; times and durations are whole nanoseconds.

module Goals {
  import opened Options
  import opened Spaces

  const MILLISECOND: int := 1000000
  const MAX_HISTORY: nat := 500

  datatype Status = Active | Paused | Complete | Blocked

  datatype Kind = Created | ObjectiveUpdated | StatusChanged(status: Status) | Turn

  datatype Event = Event(at: int, kind: Kind, detail: string, tokens: int, turns: int)

  datatype Limits = Limits(tokenBudget: int, maxTurns: int, maxDuration: int)

  datatype Goal = Goal(id: nat, objective: string, status: Status, createdAt: int, updatedAt: int,
                       activeSince: Option<int>, activeMs: int, tokenBudget: int, tokensUsed: int,
                       maxTurns: int, turnsUsed: int, maxDurationMs: int,
                       evidence: string, blocker: string, history: seq<Event>)
  {
    predicate Closed() { status == Complete || status == Blocked }

    function ActiveDuration(at: int): int {
      activeMs * MILLISECOND
      + if status == Active && activeSince.Some? && at > activeSince.value then at - activeSince.value else 0
    }

    function LimitReached(at: int): LimitReason {
      if tokenBudget > 0 && tokensUsed >= tokenBudget then TokenLimit
      else if maxTurns > 0 && turnsUsed >= maxTurns then TurnLimit
      else if maxDurationMs > 0 && ActiveDuration(at) >= maxDurationMs * MILLISECOND then DurationLimit
      else NoLimit
    }
  }

  datatype LimitReason = NoLimit | TokenLimit | TurnLimit | DurationLimit

  datatype Error =
    | EmptyObjective | NegativeLimits | Conflict | NoGoal | AlreadyClosed | NothingToUpdate
    | EvidenceRequired | BlockerRequired | InvalidStatus | NegativeTokens | NotActive(status: Status)

  datatype Outcome = Done(goal: Goal) | Reused(goal: Goal) | Turned(goal: Goal, limit: LimitReason) | Cleared | Failed(error: Error)

  /** A requested status; anything but the four known ones is invalid. */
  datatype Wanted = To(status: Status) | Unknown

  datatype Op =
    | Create(objective: string, limits: Limits, id: nat)
    | Update(newObjective: Option<string>, wanted: Option<Wanted>, detail: string)
    | RecordTurn(tokens: int, readAt: int)
    | Clear

  type Cell = Option<Goal>

  /** Truncating division of a duration, as Go's Milliseconds does. */
  function Milliseconds(ns: int): int {
    if ns >= 0 then ns / MILLISECOND else -((-ns) / MILLISECOND)
  }

  // ---------------------------------------------------------------- the operations

  function NewGoal(objective: string, limits: Limits, id: nat, now: int): Goal {
    Goal(id, objective, Active, now, now, Some(now), 0, limits.tokenBudget, 0, limits.maxTurns, 0,
         Milliseconds(limits.maxDuration), "", "", [Event(now, Created, "", 0, 0)])
  }

  function CreateStep(cell: Cell, objective: string, limits: Limits, id: nat, now: int): (Cell, Outcome) {
    var trimmed := Trim(objective);
    if trimmed == "" then (cell, Failed(EmptyObjective))
    else if limits.tokenBudget < 0 || limits.maxTurns < 0 || limits.maxDuration < 0 then (cell, Failed(NegativeLimits))
    else if cell.Some? && !cell.value.Closed() then
      (cell, if cell.value.objective == trimmed then Reused(cell.value) else Failed(Conflict))
    else
      var goal := NewGoal(trimmed, limits, id, now);
      (Some(goal), Done(goal))
  }

  function Freeze(g: Goal, now: int): Goal {
    if g.status == Active && g.activeSince.Some? then
      var since := g.activeSince.value;
      g.(activeMs := if now > since then g.activeMs + Milliseconds(now - since) else g.activeMs, activeSince := None)
    else g
  }

  function Log(g: Goal, e: Event): Goal { g.(history := g.history + [e]) }

  function TrimHistory(g: Goal): Goal {
    if |g.history| > MAX_HISTORY then g.(history := g.history[|g.history| - MAX_HISTORY..]) else g
  }

  // What every change ends with: the time of the update and the trimmed history.
  function Stamp(g: Goal, now: int): Goal { TrimHistory(g.(updatedAt := now)) }

  function DetailError(wanted: Option<Wanted>, detail: string): Option<Error> {
    if wanted.None? then None
    else if wanted.value.Unknown? then Some(InvalidStatus)
    else if wanted.value.status == Complete && detail == "" then Some(EvidenceRequired)
    else if wanted.value.status == Blocked && detail == "" then Some(BlockerRequired)
    else None
  }

  function ChangeObjective(g: Goal, objective: Option<string>, now: int): Goal {
    if objective.None? then g
    else
      var trimmed := Trim(objective.value);
      Log(g.(objective := trimmed), Event(now, ObjectiveUpdated, trimmed, 0, 0))
  }

  function ChangeStatus(g: Goal, status: Status, detail: string, now: int): Goal {
    var changed := match status
      case Active => g.(activeSince := if g.status == Paused then Some(now) else g.activeSince, blocker := "")
      case Paused => Freeze(g, now)
      case Complete => Freeze(g, now).(evidence := detail)
      case Blocked => Freeze(g, now).(blocker := detail);
    Log(changed.(status := status), Event(now, StatusChanged(status), detail, 0, 0))
  }

  function UpdateStep(cell: Cell, objective: Option<string>, wanted: Option<Wanted>, detail: string, now: int): (Cell, Outcome) {
    var trimmed := Trim(detail);
    var bad := DetailError(wanted, trimmed);
    if objective.None? && wanted.None? then (cell, Failed(NothingToUpdate))
    else if objective.Some? && Trim(objective.value) == "" then (cell, Failed(EmptyObjective))
    else if bad.Some? then (cell, Failed(bad.value))
    else if cell.None? then (cell, Failed(NoGoal))
    else if cell.value.Closed() then (cell, Failed(AlreadyClosed))
    else
      var renamed := ChangeObjective(cell.value, objective, now);
      var changed := if wanted.Some? && wanted.value.To? then ChangeStatus(renamed, wanted.value.status, trimmed, now) else renamed;
      var goal := Stamp(changed, now);
      (Some(goal), Done(goal))
  }

  function AddTurn(g: Goal, tokens: int, now: int): Goal {
    Log(g.(turnsUsed := g.turnsUsed + 1, tokensUsed := g.tokensUsed + tokens), Event(now, Turn, "", tokens, 1))
  }

  function TurnStep(cell: Cell, tokens: int, now: int, readAt: int): (Cell, Outcome) {
    if tokens < 0 then (cell, Failed(NegativeTokens))
    else if cell.None? then (cell, Failed(NoGoal))
    else if cell.value.status != Active then (cell, Failed(NotActive(cell.value.status)))
    else
      var goal := Stamp(AddTurn(cell.value, tokens, now), now);
      (Some(goal), Turned(goal, goal.LimitReached(readAt)))
  }

  function Step(cell: Cell, op: Op, now: int): (Cell, Outcome) {
    match op
    case Create(objective, limits, id) => CreateStep(cell, objective, limits, id, now)
    case Update(objective, wanted, detail) => UpdateStep(cell, objective, wanted, detail, now)
    case RecordTurn(tokens, readAt) => TurnStep(cell, tokens, now, readAt)
    case Clear => (None, Cleared)
  }

  // ---------------------------------------------------------------- runs and their true account

  datatype Timed = Timed(op: Op, now: int)

  /** What really happened since the current goal was created: every event ever
      logged, the time it was active, and how often active time was frozen. */
  datatype Ledger = Ledger(log: seq<Event>, elapsed: int, freezes: nat, clock: int)

  function EventsOf(before: Cell, op: Op, now: int): seq<Event> {
    match op
    case Create(_, _, _) => [Event(now, Created, "", 0, 0)]
    case Update(objective, wanted, detail) =>
      (if objective.Some? then [Event(now, ObjectiveUpdated, Trim(objective.value), 0, 0)] else [])
      + (if wanted.Some? && wanted.value.To? then [Event(now, StatusChanged(wanted.value.status), Trim(detail), 0, 0)] else [])
    case RecordTurn(tokens, _) => [Event(now, Turn, "", tokens, 1)]
    case Clear => []
  }

  predicate IsActive(cell: Cell) { cell.Some? && cell.value.status == Active }

  /** The account is kept from the outside: time counts while the stored goal is
      active, and a goal counts as new when a creation went through. */
  function Account(ledger: Ledger, before: Cell, op: Op, now: int): Ledger {
    var (after, outcome) := Step(before, op, now);
    var passed := if IsActive(before) then now - ledger.clock else 0;
    if op.Create? && outcome.Done? then Ledger(EventsOf(before, op, now), 0, 0, now)
    else
      var more := if outcome.Done? || outcome.Turned? then EventsOf(before, op, now) else [];
      var froze := if IsActive(before) && after.Some? && after.value.status != Active then 1 else 0;
      Ledger(ledger.log + more, ledger.elapsed + passed, ledger.freezes + froze, now)
  }

  function After(run: seq<Timed>): Cell {
    if run == [] then None
    else
      var last := run[|run| - 1];
      Step(After(run[..|run| - 1]), last.op, last.now).0
  }

  function Accounted(run: seq<Timed>): Ledger {
    if run == [] then Ledger([], 0, 0, 0)
    else
      var last := run[|run| - 1];
      Account(Accounted(run[..|run| - 1]), After(run[..|run| - 1]), last.op, last.now)
  }

  // ---------------------------------------------------------------- active means counting

  ghost predicate Coherent(cell: Cell) {
    cell.Some? ==> (cell.value.status == Active <==> cell.value.activeSince.Some?)
  }

  lemma StepStaysCoherent(cell: Cell, op: Op, now: int)
    requires Coherent(cell)
    ensures Coherent(Step(cell, op, now).0)
  {
    hide Trim, Milliseconds, EventsOf;
  }

  /** After any run a goal is active exactly when it has an active-since time. */
  lemma {:induction false} ActiveMeansSince(run: seq<Timed>)
    ensures Coherent(After(run))
  {
    hide Step;
    if run != [] {
      var last := run[|run| - 1];
      ActiveMeansSince(run[..|run| - 1]);
      StepStaysCoherent(After(run[..|run| - 1]), last.op, last.now);
    }
  }

  // ---------------------------------------------------------------- closed goals

  /** A closed goal is left exactly as it is by everything but clearing and
      creating. */
  lemma ClosedStays(cell: Cell, op: Op, now: int)
    requires cell.Some? && cell.value.Closed()
    ensures Step(cell, op, now).0 != cell ==> op.Clear? || (op.Create? && Step(cell, op, now).1.Done?)
  {
    hide Trim, Milliseconds;
  }

  ghost predicate Replaces(op: Op) { op.Clear? || op.Create? }

  function Run(cell: Cell, ops: seq<Timed>): Cell {
    if ops == [] then cell
    else
      var last := ops[|ops| - 1];
      Step(Run(cell, ops[..|ops| - 1]), last.op, last.now).0
  }

  lemma {:induction false} ClosedStaysOverRuns(cell: Cell, ops: seq<Timed>)
    requires cell.Some? && cell.value.Closed() && forall i :: 0 <= i < |ops| ==> !Replaces(ops[i].op)
    ensures Run(cell, ops) == cell
  {
    hide Step;
    if ops != [] {
      ClosedStaysOverRuns(cell, ops[..|ops| - 1]);
      ClosedStays(cell, ops[|ops| - 1].op, ops[|ops| - 1].now);
    }
  }

  // ---------------------------------------------------------------- totals

  function Tokens(log: seq<Event>): int {
    if log == [] then 0 else Tokens(log[..|log| - 1]) + log[|log| - 1].tokens
  }

  function Turns(log: seq<Event>): int {
    if log == [] then 0 else Turns(log[..|log| - 1]) + log[|log| - 1].turns
  }

  lemma {:induction false} TotalsAdd(a: seq<Event>, b: seq<Event>)
    ensures Tokens(a + b) == Tokens(a) + Tokens(b) && Turns(a + b) == Turns(a) + Turns(b)
    decreases |b|
  {
    if b == [] {
      assert a + b == a;
    } else {
      var n := |b| - 1;
      assert (a + b)[..|a + b| - 1] == a + b[..n] && (a + b)[|a + b| - 1] == b[n];
      TotalsAdd(a, b[..n]);
    }
  }

  function LastEvents(log: seq<Event>): seq<Event> {
    if |log| > MAX_HISTORY then log[|log| - MAX_HISTORY..] else log
  }

  ghost predicate TotalsHold(cell: Cell, ledger: Ledger) {
    cell.Some? ==>
      && cell.value.history == LastEvents(ledger.log)
      && cell.value.tokensUsed == Tokens(ledger.log)
      && cell.value.turnsUsed == Turns(ledger.log)
  }

  lemma LastEventsGrow(log: seq<Event>, more: seq<Event>)
    ensures LastEvents(LastEvents(log) + more) == LastEvents(log + more)
  {
  }

  lemma SingleTotals(e: Event)
    ensures Tokens([e]) == e.tokens && Turns([e]) == e.turns
  {
    assert [e][..0] == [];
  }

  lemma QuietEvents(before: Cell, op: Op, now: int)
    requires op.Update? || op.Create?
    ensures Tokens(EventsOf(before, op, now)) == 0 && Turns(EventsOf(before, op, now)) == 0
  {
    hide Trim;
    if op.Update? {
      var a := if op.newObjective.Some? then [Event(now, ObjectiveUpdated, Trim(op.newObjective.value), 0, 0)] else [];
      var b := if op.wanted.Some? && op.wanted.value.To? then [Event(now, StatusChanged(op.wanted.value.status), Trim(op.detail), 0, 0)] else [];
      if a != [] { SingleTotals(a[0]); }
      if b != [] { SingleTotals(b[0]); }
      TotalsAdd(a, b);
    } else {
      SingleTotals(Event(now, Created, "", 0, 0));
    }
  }

  // What a change never touches.
  ghost predicate SameAccount(g: Goal, h: Goal) {
    && h.id == g.id && h.createdAt == g.createdAt
    && h.tokenBudget == g.tokenBudget && h.maxTurns == g.maxTurns && h.maxDurationMs == g.maxDurationMs
    && h.tokensUsed == g.tokensUsed && h.turnsUsed == g.turnsUsed
  }

  ghost predicate SameTime(g: Goal, h: Goal) {
    h.status == g.status && h.activeSince == g.activeSince && h.activeMs == g.activeMs
  }

  lemma ObjectiveFields(g: Goal, objective: Option<string>, now: int)
    ensures var h := ChangeObjective(g, objective, now);
      SameAccount(g, h) && SameTime(g, h)
      && h.history == g.history + if objective.Some? then [Event(now, ObjectiveUpdated, Trim(objective.value), 0, 0)] else []
  {
    hide Trim;
    assert g.history + [] == g.history;
  }

  lemma StatusFields(g: Goal, status: Status, detail: string, now: int)
    ensures var h := ChangeStatus(g, status, detail, now);
      SameAccount(g, h) && h.history == g.history + [Event(now, StatusChanged(status), detail, 0, 0)]
  {
    hide Milliseconds;
  }

  lemma StampFields(g: Goal, now: int)
    ensures var h := Stamp(g, now); SameAccount(g, h) && SameTime(g, h) && h.history == LastEvents(g.history)
  {
  }

  // An update adds its events, trims, and leaves the totals.
  lemma UpdateHistory(cell: Cell, op: Op, now: int)
    requires op.Update? && Step(cell, op, now).1.Done?
    ensures cell.Some? && Step(cell, op, now).0.Some?
    ensures var g, h := cell.value, Step(cell, op, now).0.value;
      SameAccount(g, h) && h.history == LastEvents(g.history + EventsOf(cell, op, now))
  {
    hide Trim, Milliseconds, ChangeObjective, ChangeStatus, Stamp, LastEvents;
    var g := cell.value;
    var detail := Trim(op.detail);
    var renamed := ChangeObjective(g, op.newObjective, now);
    ObjectiveFields(g, op.newObjective, now);
    if op.wanted.Some? && op.wanted.value.To? {
      StatusFields(renamed, op.wanted.value.status, detail, now);
      StampFields(ChangeStatus(renamed, op.wanted.value.status, detail, now), now);
      var status := [Event(now, StatusChanged(op.wanted.value.status), detail, 0, 0)];
      assert EventsOf(cell, op, now) == (if op.newObjective.Some? then [Event(now, ObjectiveUpdated, Trim(op.newObjective.value), 0, 0)] else []) + status;
      assert renamed.history + status == g.history + EventsOf(cell, op, now);
    } else {
      StampFields(renamed, now);
      assert renamed.history == g.history + EventsOf(cell, op, now);
    }
  }

  lemma TurnFields(g: Goal, tokens: int, now: int)
    ensures var h := Stamp(AddTurn(g, tokens, now), now);
      && h.tokensUsed == g.tokensUsed + tokens && h.turnsUsed == g.turnsUsed + 1 && SameTime(g, h)
      && h.history == LastEvents(g.history + [Event(now, Turn, "", tokens, 1)])
      && h.id == g.id && h.createdAt == g.createdAt
      && h.tokenBudget == g.tokenBudget && h.maxTurns == g.maxTurns && h.maxDurationMs == g.maxDurationMs
  {
    hide LastEvents;
    StampFields(AddTurn(g, tokens, now), now);
  }

  lemma UpdateTotals(cell: Cell, ledger: Ledger, op: Op, now: int)
    requires TotalsHold(cell, ledger) && op.Update?
    ensures TotalsHold(Step(cell, op, now).0, Account(ledger, cell, op, now))
  {
    hide Trim, Milliseconds, EventsOf, LastEvents, Tokens, Turns;
    if Step(cell, op, now).1.Done? {
      hide UpdateStep;
      UpdateHistory(cell, op, now);
      QuietEvents(cell, op, now);
      TotalsAdd(ledger.log, EventsOf(cell, op, now));
      LastEventsGrow(ledger.log, EventsOf(cell, op, now));
    } else {
      assert ledger.log + [] == ledger.log;
    }
  }

  lemma TurnTotals(cell: Cell, ledger: Ledger, op: Op, now: int)
    requires TotalsHold(cell, ledger) && op.RecordTurn?
    ensures TotalsHold(Step(cell, op, now).0, Account(ledger, cell, op, now))
  {
    hide Tokens, Turns, Stamp, AddTurn, LastEvents;
    if Step(cell, op, now).1.Turned? {
      TurnFields(cell.value, op.tokens, now);
      var e := Event(now, Turn, "", op.tokens, 1);
      SingleTotals(e);
      TotalsAdd(ledger.log, [e]);
      LastEventsGrow(ledger.log, [e]);
    } else {
      assert ledger.log + [] == ledger.log;
    }
  }

  lemma CreateTotals(cell: Cell, ledger: Ledger, op: Op, now: int)
    requires TotalsHold(cell, ledger) && op.Create?
    ensures TotalsHold(Step(cell, op, now).0, Account(ledger, cell, op, now))
  {
    hide Trim, Milliseconds, Tokens, Turns;
    QuietEvents(cell, op, now);
    assert ledger.log + [] == ledger.log;
  }

  /** Whatever the history forgets, the totals are those of every turn ever recorded
      for the goal, and the history is the log's last 500 events. */
  lemma {:induction false} TotalsCountEveryTurn(run: seq<Timed>)
    ensures TotalsHold(After(run), Accounted(run))
  {
    hide Step, Account, TotalsHold;
    if run == [] {
      assert TotalsHold(None, Ledger([], 0, 0, 0)) by { NoTotals(); }
    } else {
      var before := run[..|run| - 1];
      var last := run[|run| - 1];
      TotalsCountEveryTurn(before);
      match last.op
      case Create(_, _, _) => CreateTotals(After(before), Accounted(before), last.op, last.now);
      case Update(_, _, _) => UpdateTotals(After(before), Accounted(before), last.op, last.now);
      case RecordTurn(_, _) => TurnTotals(After(before), Accounted(before), last.op, last.now);
      case Clear => ClearTotals(After(before), Accounted(before), last.now);
    }
  }

  lemma NoTotals()
    ensures TotalsHold(None, Ledger([], 0, 0, 0))
  {
  }

  lemma ClearTotals(cell: Cell, ledger: Ledger, now: int)
    ensures TotalsHold(Step(cell, Clear, now).0, Account(ledger, cell, Clear, now))
  {
  }

  /** What a successful update does, and nothing else: the objective and the status
      asked for, with the evidence or the blocker that closes a goal. */
  lemma UpdateTakesEffect(cell: Cell, objective: Option<string>, wanted: Option<Wanted>, detail: string, now: int)
    requires UpdateStep(cell, objective, wanted, detail, now).1.Done?
    ensures cell.Some? && !cell.value.Closed() && UpdateStep(cell, objective, wanted, detail, now).0.Some?
    ensures var g, h := cell.value, UpdateStep(cell, objective, wanted, detail, now).0.value;
      && SameAccount(g, h) && h.updatedAt == now
      && h.objective == (if objective.Some? then Trim(objective.value) else g.objective) && (objective.Some? ==> h.objective != "")
      && (wanted.Some? ==> wanted == Some(To(h.status))) && (wanted.None? ==> h.status == g.status)
      && (h.status == Complete ==> h.evidence == Trim(detail) != "")
      && (h.status == Blocked ==> h.blocker == Trim(detail) != "")
      && (wanted == Some(To(Active)) ==> h.blocker == "")
  {
    hide Trim, Milliseconds;
  }

  // ---------------------------------------------------------------- active time

  ghost predicate Forward(run: seq<Timed>) { forall i, j :: 0 <= i < j < |run| ==> run[i].now <= run[j].now }

  // Active time as recorded by the time of the last step.
  function Recorded(g: Goal, clock: int): int {
    g.activeMs * MILLISECOND + if g.activeSince.Some? then clock - g.activeSince.value else 0
  }

  ghost predicate TimeHolds(cell: Cell, ledger: Ledger) {
    && Coherent(cell)
    && (cell.Some? ==>
          && (cell.value.activeSince.Some? ==> cell.value.activeSince.value <= ledger.clock)
          && cell.value.activeMs >= 0
          && 0 <= ledger.elapsed - Recorded(cell.value, ledger.clock) <= ledger.freezes * (MILLISECOND - 1))
  }

  lemma MillisecondsLag(ns: int)
    requires ns >= 0
    ensures 0 <= ns - Milliseconds(ns) * MILLISECOND <= MILLISECOND - 1
  {
  }

  ghost predicate SameGoal(before: Cell, op: Op, now: int) {
    before.Some? && !op.Clear? && !(op.Create? && Step(before, op, now).1.Done?)
  }

  // A step leaves the stored time alone, resumes it, or freezes it.
  ghost predicate TimeMoves(g: Goal, h: Goal, now: int) {
    || SameTime(g, h)
    || (g.status == Paused && h.status == Active && h.activeSince == Some(now) && h.activeMs == g.activeMs)
    || (g.status == Active && h.status != Active && h.activeSince == None && h.activeMs == Freeze(g, now).activeMs)
    || (g.status == Paused && h.status != Active && h.activeSince == g.activeSince && h.activeMs == g.activeMs)
  }

  lemma StatusMovesTime(g: Goal, status: Status, detail: string, now: int)
    requires !g.Closed() && Coherent(Some(g))
    ensures TimeMoves(g, ChangeStatus(g, status, detail, now), now)
  {
    hide Milliseconds;
  }

  lemma TimeMovesAlong(g: Goal, g': Goal, h: Goal, h': Goal, now: int)
    requires SameTime(g, g') && TimeMoves(g', h, now) && SameTime(h, h')
    ensures TimeMoves(g, h', now)
  {
    hide Milliseconds;
  }

  lemma StepMovesTime(cell: Cell, op: Op, now: int)
    requires SameGoal(cell, op, now) && Coherent(cell)
    ensures Step(cell, op, now).0.Some? && TimeMoves(cell.value, Step(cell, op, now).0.value, now)
  {
    hide Trim, Stamp, AddTurn, ChangeObjective, ChangeStatus, TimeMoves;
    var g := cell.value;
    SameIsAMove(g, now);
    if op.Update? && Step(cell, op, now).1.Done? {
      var renamed := ChangeObjective(g, op.newObjective, now);
      ObjectiveFields(g, op.newObjective, now);
      if op.wanted.Some? && op.wanted.value.To? {
        var changed := ChangeStatus(renamed, op.wanted.value.status, Trim(op.detail), now);
        StatusMovesTime(renamed, op.wanted.value.status, Trim(op.detail), now);
        StampFields(changed, now);
        TimeMovesAlong(g, renamed, changed, Stamp(changed, now), now);
      } else {
        StampFields(renamed, now);
        SameIsAMove(renamed, now);
        TimeMovesAlong(g, renamed, renamed, Stamp(renamed, now), now);
      }
    }
    if op.RecordTurn? {
      TurnFields(g, op.tokens, now);
      TimeMovesAlong(g, g, g, Stamp(AddTurn(g, op.tokens, now), now), now);
    }
  }

  lemma SameIsAMove(g: Goal, now: int)
    ensures TimeMoves(g, g, now)
  {
  }

  // How one step changes what is recorded: a freeze rounds down, nothing else does.
  lemma StepRecords(cell: Cell, op: Op, now: int, clock: int)
    requires SameGoal(cell, op, now) && Coherent(cell) && clock <= now
    requires cell.value.activeSince.Some? ==> cell.value.activeSince.value <= clock
    ensures Step(cell, op, now).0.Some?
    ensures var g, h := cell.value, Step(cell, op, now).0.value;
      && (h.activeSince.Some? ==> h.activeSince.value <= now)
      && h.activeMs >= g.activeMs
      && var before := Recorded(g, clock) + (if IsActive(cell) then now - clock else 0);
        0 <= before - Recorded(h, now) <= (if IsActive(cell) && h.status != Active then MILLISECOND - 1 else 0)
  {
    hide Step, Milliseconds;
    StepMovesTime(cell, op, now);
    if IsActive(cell) {
      MillisecondsLag(now - cell.value.activeSince.value);
    }
  }

  lemma StepKeepsTime(cell: Cell, ledger: Ledger, op: Op, now: int)
    requires TimeHolds(cell, ledger) && (cell.Some? ==> ledger.clock <= now)
    ensures TimeHolds(Step(cell, op, now).0, Account(ledger, cell, op, now))
  {
    hide Trim, Milliseconds, EventsOf;
    StepStaysCoherent(cell, op, now);
    if cell.Some? && !(op.Create? && Step(cell, op, now).1.Done?) && !op.Clear? {
      StepRecords(cell, op, now, ledger.clock);
      hide Step;
      var f := ledger.freezes;
      assert (f + 1) * (MILLISECOND - 1) == f * (MILLISECOND - 1) + (MILLISECOND - 1);
    }
  }

  lemma {:induction false} RunKeepsTime(run: seq<Timed>)
    requires Forward(run)
    ensures TimeHolds(After(run), Accounted(run))
    ensures run != [] ==> Accounted(run).clock == run[|run| - 1].now
  {
    hide Step, TimeHolds;
    if run == [] {
      assert TimeHolds(None, Ledger([], 0, 0, 0)) by { NoTime(); }
    } else {
      var before := run[..|run| - 1];
      var last := run[|run| - 1];
      RunKeepsTime(before);
      StepKeepsTime(After(before), Accounted(before), last.op, last.now);
    }
  }

  lemma NoTime()
    ensures TimeHolds(None, Ledger([], 0, 0, 0))
  {
  }

  /** The time the goal has truly been active at a moment after the run. */
  function TrueActive(run: seq<Timed>, at: int): int {
    Accounted(run).elapsed + if IsActive(After(run)) then at - Accounted(run).clock else 0
  }

  /** With a clock that never runs back, the reported active time is never more than
      the true one, and less than a millisecond behind for each freeze. */
  lemma ActiveTimeIsHonest(run: seq<Timed>, at: int)
    requires Forward(run) && run != [] && run[|run| - 1].now <= at && After(run).Some?
    ensures var reported := After(run).value.ActiveDuration(at);
      reported <= TrueActive(run, at) <= reported + Accounted(run).freezes * (MILLISECOND - 1)
  {
    hide Accounted, After;
    RunKeepsTime(run);
  }

  // ---------------------------------------------------------------- limits

  lemma StepKeepsLimits(cell: Cell, op: Op, now: int)
    requires SameGoal(cell, op, now)
    ensures Step(cell, op, now).0.Some?
    ensures var g, h := cell.value, Step(cell, op, now).0.value;
      && h.id == g.id && h.createdAt == g.createdAt
      && h.tokenBudget == g.tokenBudget && h.maxTurns == g.maxTurns && h.maxDurationMs == g.maxDurationMs
      && h.tokensUsed >= g.tokensUsed && h.turnsUsed >= g.turnsUsed
  {
    hide Trim, Milliseconds, Stamp, AddTurn, ChangeObjective, ChangeStatus, LastEvents;
    if op.Update? && Step(cell, op, now).1.Done? { UpdateHistory(cell, op, now); }
    if op.RecordTurn? { TurnFields(cell.value, op.tokens, now); }
  }

  // A duration limit is a whole number of milliseconds, so rounding down at a freeze
  // cannot lose it.
  lemma DurationStays(cell: Cell, op: Op, now: int, at: int, later: int, limitMs: int)
    requires SameGoal(cell, op, now) && Coherent(cell) && at <= now <= later
    requires cell.value.ActiveDuration(at) >= limitMs * MILLISECOND
    ensures Step(cell, op, now).0.Some? && Step(cell, op, now).0.value.ActiveDuration(later) >= limitMs * MILLISECOND
  {
    hide Step, Milliseconds;
    StepMovesTime(cell, op, now);
    var g := cell.value;
    if IsActive(cell) && now > g.activeSince.value {
      MillisecondsFloor(now - g.activeSince.value, limitMs - g.activeMs);
    }
  }

  lemma MillisecondsFloor(ns: int, ms: int)
    requires ns >= 0
    ensures ns >= ms * MILLISECOND ==> Milliseconds(ns) >= ms
  {
    var q := ns / MILLISECOND;
    if q < ms {
      assert (q + 1) * MILLISECOND <= ms * MILLISECOND;
    }
  }

  lemma LimitStaysReached(cell: Cell, op: Op, now: int, at: int, later: int)
    requires SameGoal(cell, op, now) && Coherent(cell) && at <= now <= later
    requires cell.value.LimitReached(at) != NoLimit
    ensures Step(cell, op, now).0.Some? && Step(cell, op, now).0.value.LimitReached(later) != NoLimit
  {
    hide Step;
    StepKeepsLimits(cell, op, now);
    var g := cell.value;
    if g.maxDurationMs > 0 && g.ActiveDuration(at) >= g.maxDurationMs * MILLISECOND {
      DurationStays(cell, op, now, at, later, g.maxDurationMs);
    }
  }

  ghost predicate KeepsGoal(cell: Cell, ops: seq<Timed>) {
    forall k :: 0 <= k < |ops| ==> SameGoal(Run(cell, ops[..k]), ops[k].op, ops[k].now)
  }

  /** Once a limit is reported it stays reported, whatever is done to the goal and
      whenever it is asked again. */
  lemma {:induction false} LimitStaysReachedOverRuns(cell: Cell, ops: seq<Timed>, at: int, later: int)
    requires cell.Some? && Coherent(cell) && KeepsGoal(cell, ops) && Forward(ops) && at <= later
    requires ops != [] ==> at <= ops[0].now && ops[|ops| - 1].now <= later
    requires cell.value.LimitReached(at) != NoLimit
    ensures Coherent(Run(cell, ops))
    ensures Run(cell, ops).Some? && Run(cell, ops).value.LimitReached(later) != NoLimit
    decreases |ops|
  {
    hide Step, Coherent, SameGoal;
    if ops == [] {
      LimitStaysWithTime(cell.value, at, later);
    } else {
      var n := |ops| - 1;
      var before, last := ops[..n], ops[n];
      forall k | 0 <= k < n ensures SameGoal(Run(cell, before[..k]), before[k].op, before[k].now) {
        assert before[..k] == ops[..k];
      }
      LimitStaysReachedOverRuns(cell, before, at, last.now);
      StepStaysCoherent(Run(cell, before), last.op, last.now);
      LimitStaysReached(Run(cell, before), last.op, last.now, last.now, later);
    }
  }

  lemma LimitStaysWithTime(g: Goal, at: int, later: int)
    requires g.LimitReached(at) != NoLimit && at <= later
    ensures g.LimitReached(later) != NoLimit
  {
  }

  /** A duration limit takes effect exactly from one whole millisecond up; a shorter
      one is stored as no limit. */
  lemma ShortLimitsVanish(objective: string, limits: Limits, id: nat, now: int)
    requires limits.maxDuration >= 0
    ensures NewGoal(objective, limits, id, now).maxDurationMs > 0 <==> limits.maxDuration >= MILLISECOND
  {
  }

  // ---------------------------------------------------------------- the store

  /** The store; its file holds at most one goal. */
  class Store {
    var cell: Cell

    constructor ()
      ensures cell == None && Coherent(cell)
    {
      cell := None;
    }

    method CreateGoal(objective: string, limits: Limits, id: nat, now: int) returns (outcome: Outcome)
      modifies this
      ensures (cell, outcome) == Step(old(cell), Create(objective, limits, id), now)
      ensures old(Coherent(cell)) ==> Coherent(cell)
    {
      hide Trim, Milliseconds, Coherent;
      if Coherent(cell) { StepStaysCoherent(cell, Create(objective, limits, id), now); }
      var trimmed := Trim(objective);
      if trimmed == "" { return Failed(EmptyObjective); }
      if limits.tokenBudget < 0 || limits.maxTurns < 0 || limits.maxDuration < 0 { return Failed(NegativeLimits); }
      if cell.Some? && !cell.value.Closed() {
        if cell.value.objective == trimmed { return Reused(cell.value); }
        return Failed(Conflict);
      }
      var goal := NewGoal(trimmed, limits, id, now);
      cell := Some(goal);
      outcome := Done(goal);
    }

    method Get() returns (outcome: Outcome)
      ensures outcome == if cell.None? then Failed(NoGoal) else Done(cell.value)
    {
      if cell.None? { return Failed(NoGoal); }
      return Done(cell.value);
    }

    method UpdateGoal(objective: Option<string>, wanted: Option<Wanted>, detail: string, now: int) returns (outcome: Outcome)
      modifies this
      ensures (cell, outcome) == Step(old(cell), Update(objective, wanted, detail), now)
      ensures old(Coherent(cell)) ==> Coherent(cell)
    {
      hide Trim, Milliseconds, ChangeObjective, ChangeStatus, Stamp, Coherent;
      if Coherent(cell) { StepStaysCoherent(cell, Update(objective, wanted, detail), now); }
      var trimmed := Trim(detail);
      if objective.None? && wanted.None? { return Failed(NothingToUpdate); }
      if objective.Some? && Trim(objective.value) == "" { return Failed(EmptyObjective); }
      var bad := DetailError(wanted, trimmed);
      if bad.Some? { return Failed(bad.value); }
      if cell.None? { return Failed(NoGoal); }
      if cell.value.Closed() { return Failed(AlreadyClosed); }
      var goal := ChangeObjective(cell.value, objective, now);
      if wanted.Some? {
        goal := ChangeStatus(goal, wanted.value.status, trimmed, now);
      }
      goal := Stamp(goal, now);
      cell := Some(goal);
      outcome := Done(goal);
    }

    method Record(tokens: int, now: int, readAt: int) returns (outcome: Outcome)
      modifies this
      ensures (cell, outcome) == Step(old(cell), RecordTurn(tokens, readAt), now)
      ensures old(Coherent(cell)) ==> Coherent(cell)
    {
      hide Stamp, Coherent;
      if Coherent(cell) { StepStaysCoherent(cell, RecordTurn(tokens, readAt), now); }
      if tokens < 0 { return Failed(NegativeTokens); }
      if cell.None? { return Failed(NoGoal); }
      if cell.value.status != Active { return Failed(NotActive(cell.value.status)); }
      var goal := cell.value;
      goal := goal.(turnsUsed := goal.turnsUsed + 1);
      goal := goal.(tokensUsed := goal.tokensUsed + tokens);
      goal := goal.(history := goal.history + [Event(now, Turn, "", tokens, 1)]);
      goal := Stamp(goal, now);
      cell := Some(goal);
      outcome := Turned(goal, goal.LimitReached(readAt));
    }

    method Remove() returns (outcome: Outcome)
      modifies this
      ensures (cell, outcome) == Step(old(cell), Clear, 0)
      ensures old(Coherent(cell)) ==> Coherent(cell)
    {
      hide Coherent;
      if Coherent(cell) { StepStaysCoherent(cell, Clear, 0); }
      cell := None;
      outcome := Cleared;
    }
  }
}
