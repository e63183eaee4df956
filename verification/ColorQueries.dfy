// Background-color queries (internal/tui/base.go). A reply carries no id, so the
// queue order matches it to a query; a query that timed out stays queued as a
// placeholder for its late reply, up to a bound.

module ColorQueries {
  import opened Options

  const MAX_PENDING := 128

  datatype Answer = Color(value: nat) | NoAnswer

  /** How far the asking thread has come. */
  datatype Phase = Asking | Arming | Registered

  /** The timeout: not yet set, running, its callback on the way, or over. */
  datatype Timer = Unset | Armed | Ringing | Over

  /** `sending` is the result a thread has decided on but not yet delivered. */
  datatype Query = Query(
    phase: Phase, timer: Timer, settled: bool, hasCancel: bool,
    sending: Option<Answer>, sent: seq<Answer>)

  /** All queries ever asked, in order; the queue holds indexes into them. */
  datatype World = World(
    queries: seq<Query>, queue: seq<nat>, replies: int, answered: nat, pruned: nat)

  const START := World([], [], 0, 0, 0)

  function Cancelled(q: Query): Query {
    q.(timer := if q.timer == Armed then Over else q.timer)
  }

  // ---------------------------------------------------------------- locked sections

  /** Drops the oldest placeholders while the queue is over its bound. */
  function Prune(w: World): World
    requires forall i :: 0 <= i < |w.queue| ==> w.queue[i] < |w.queries|
    decreases |w.queue|
  {
    if |w.queue| <= MAX_PENDING || !w.queries[w.queue[0]].settled then w
    else Prune(w.(queue := w.queue[1..], replies := w.replies - 1, pruned := w.pruned + 1))
  }

  function Settle(w: World, id: nat, answer: Answer): World
    requires id < |w.queries|
  {
    w.(queries := w.queries[id := w.queries[id].(settled := true, hasCancel := false, sending := Some(answer))])
  }

  datatype Step =
    | Ask
    | Arm(id: nat)
    | Register(id: nat)
    | Ring(id: nat)
    | Timeout(id: nat)
    | Reply(color: nat)
    | Send(id: nat)

  predicate Enabled(w: World, step: Step) {
    match step
    case Arm(id) => id < |w.queries| && w.queries[id].phase == Asking
    case Register(id) => id < |w.queries| && w.queries[id].phase == Arming
    case Ring(id) => id < |w.queries| && w.queries[id].timer == Armed
    case Timeout(id) => id < |w.queries| && w.queries[id].timer == Ringing
    case Send(id) => id < |w.queries| && w.queries[id].sending.Some?
    case _ => true
  }

  predicate Indexed(w: World) {
    forall i :: 0 <= i < |w.queue| ==> w.queue[i] < |w.queries|
  }

  function ReplySection(w: World, color: nat): World
    requires Indexed(w)
  {
    if w.replies <= 0 then w
    else
      var counted := w.(replies := w.replies - 1, answered := w.answered + 1);
      if w.queue == [] then counted
      else
        var id := w.queue[0];
        var popped := counted.(queue := w.queue[1..]);
        var q := w.queries[id];
        if q.settled then popped
        else
          var cancelled := if q.hasCancel then Cancelled(q) else q;
          Settle(popped.(queries := w.queries[id := cancelled]), id, Color(color))
  }

  function TimeoutSection(w: World, id: nat): World
    requires Indexed(w) && id < |w.queries|
  {
    var over := w.(queries := w.queries[id := w.queries[id].(timer := Over)]);
    if w.queries[id].settled then over else Prune(Settle(over, id, NoAnswer))
  }

  function Next(w: World, step: Step): World
    requires Indexed(w) && Enabled(w, step)
  {
    match step
    case Ask =>
      w.(queries := w.queries + [Query(Asking, Unset, false, false, None, [])],
         queue := w.queue + [|w.queries|], replies := w.replies + 1)
    case Arm(id) => w.(queries := w.queries[id := w.queries[id].(phase := Arming, timer := Armed)])
    case Register(id) =>
      var q := w.queries[id].(phase := Registered);
      w.(queries := w.queries[id := if q.settled then Cancelled(q) else q.(hasCancel := true)])
    case Ring(id) => w.(queries := w.queries[id := w.queries[id].(timer := Ringing)])
    case Timeout(id) => TimeoutSection(w, id)
    case Reply(color) => ReplySection(w, color)
    case Send(id) =>
      var q := w.queries[id];
      w.(queries := w.queries[id := q.(sending := None, sent := q.sent + [q.sending.value])])
  }

  // ---------------------------------------------------------------- the invariant

  /** A query has exactly one result, sent or on its way, once it is settled and
      none before; until then its timeout is still to come, and afterwards none runs
      once the asking thread has registered it. */
  predicate QueryOk(q: Query) {
    && |q.sent| + (if q.sending.Some? then 1 else 0) == (if q.settled then 1 else 0)
    && (!q.settled ==> q.phase == Asking || q.timer in {Armed, Ringing})
    && (q.phase == Asking ==> q.timer == Unset)
    && (q.hasCancel <==> q.phase == Registered && !q.settled)
    && (q.timer == Unset ==> q.phase == Asking)
    && (q.settled && q.phase == Registered ==> q.timer != Armed)
  }

  /** The queue is the queries asked last, in order, one outstanding reply for each;
      every query that has left it is settled. */
  ghost predicate Consistent(w: World) {
    && w.replies == |w.queue|
    && w.answered + w.pruned + |w.queue| == |w.queries|
    && (forall i :: 0 <= i < |w.queue| ==> w.queue[i] == w.answered + w.pruned + i)
    && (forall id :: 0 <= id < |w.queries| ==> QueryOk(w.queries[id]))
    && (forall id :: 0 <= id < w.answered + w.pruned ==> w.queries[id].settled)
  }

  lemma {:induction false} PruneKeepsConsistent(w: World)
    requires Consistent(w)
    ensures Consistent(Prune(w)) && Prune(w).queries == w.queries && Prune(w).answered == w.answered
    ensures var p := Prune(w); |p.queue| <= 128 || !p.queries[p.queue[0]].settled
    ensures Min(|w.queue|, 128) <= |Prune(w).queue| <= |w.queue|
    decreases |w.queue|
  {
    hide QueryOk;
    if |w.queue| > MAX_PENDING && w.queries[w.queue[0]].settled {
      PruneKeepsConsistent(w.(queue := w.queue[1..], replies := w.replies - 1, pruned := w.pruned + 1));
    }
  }

  // Updating one query in place, without unsettling it, keeps everything.
  lemma UpdateKeepsConsistent(w: World, id: nat, q: Query)
    requires Consistent(w) && id < |w.queries| && QueryOk(q) && (w.queries[id].settled ==> q.settled)
    ensures Consistent(w.(queries := w.queries[id := q]))
  {
    hide QueryOk;
  }

  lemma ReplyKeepsConsistent(w: World, color: nat)
    requires Consistent(w)
    ensures Consistent(ReplySection(w, color))
  {
    if w.replies > 0 {
      var id := w.queue[0];
      var q := w.queries[id];
      var settled := (if q.hasCancel then Cancelled(q) else q).(settled := true, hasCancel := false, sending := Some(Color(color)));
      assert QueryOk(q);
      if !q.settled {
        UpdateKeepsConsistent(w, id, settled);
      }
    }
  }

  /** Every step of every interleaving keeps the queue and the queries in step. */
  lemma StepKeepsConsistent(w: World, step: Step)
    requires Consistent(w) && Enabled(w, step)
    ensures Consistent(Next(w, step))
  {
    hide Prune;
    match step
    case Ask =>
    case Arm(id) => UpdateKeepsConsistent(w, id, w.queries[id].(phase := Arming, timer := Armed));
    case Register(id) =>
      var q := w.queries[id].(phase := Registered);
      UpdateKeepsConsistent(w, id, if q.settled then Cancelled(q) else q.(hasCancel := true));
    case Ring(id) => UpdateKeepsConsistent(w, id, w.queries[id].(timer := Ringing));
    case Timeout(id) =>
      var q := w.queries[id].(timer := Over);
      var over := w.(queries := w.queries[id := q]);
      if q.settled {
        UpdateKeepsConsistent(w, id, q);
      } else {
        var settled := q.(settled := true, hasCancel := false, sending := Some(NoAnswer));
        UpdateKeepsConsistent(w, id, settled);
        assert Settle(over, id, NoAnswer) == w.(queries := w.queries[id := settled]);
        PruneKeepsConsistent(Settle(over, id, NoAnswer));
      }
    case Reply(color) => ReplyKeepsConsistent(w, color);
    case Send(id) =>
      var q := w.queries[id];
      UpdateKeepsConsistent(w, id, q.(sending := None, sent := q.sent + [q.sending.value]));
  }

  // ---------------------------------------------------------------- which query a reply goes to

  /** The reply after k answered ones takes the query k places after the dropped
      ones from the queue: the k-th query exactly when nothing has been dropped. */
  lemma RepliesGoInOrder(w: World, color: nat)
    requires Consistent(w) && w.replies > 0
    ensures var next := ReplySection(w, color);
      var id := w.answered + w.pruned;
      && w.queue[0] == id && next.answered == w.answered + 1
      && next.queue == w.queue[1..] && |next.queries| == |w.queries|
      && (id == w.answered <==> w.pruned == 0)
      && (forall j :: 0 <= j < |w.queries| && j != id ==> next.queries[j] == w.queries[j])
      && (w.queries[id].settled ==> next.queries[id] == w.queries[id])
      && (!w.queries[id].settled ==> next.queries[id].sending == Some(Color(color)))
  {
  }

  /** A terminal that never answers cannot grow the queue of placeholders, and none is
      dropped while 128 of them wait. */
  lemma PlaceholdersAreBounded(w: World, id: nat)
    requires Consistent(w) && Enabled(w, Timeout(id)) && !w.queries[id].settled
    ensures var next := Next(w, Timeout(id));
      && Indexed(next) && (|next.queue| <= 128 || !next.queries[next.queue[0]].settled)
      && Min(|w.queue|, 128) <= |next.queue| <= |w.queue|
  {
    hide Prune;
    var q := w.queries[id].(timer := Over);
    var settled := q.(settled := true, hasCancel := false, sending := Some(NoAnswer));
    UpdateKeepsConsistent(w, id, settled);
    var over := w.(queries := w.queries[id := q]);
    assert Settle(over, id, NoAnswer) == w.(queries := w.queries[id := settled]);
    PruneKeepsConsistent(Settle(over, id, NoAnswer));
  }

  // ---------------------------------------------------------------- whole runs

  ghost predicate IsRun(worlds: seq<World>, steps: seq<Step>) {
    && |worlds| == |steps| + 1
    && worlds[0] == START
    && forall i :: 0 <= i < |steps| ==>
         Indexed(worlds[i]) && Enabled(worlds[i], steps[i]) && worlds[i + 1] == Next(worlds[i], steps[i])
  }

  lemma {:induction false} RunsStayConsistent(worlds: seq<World>, steps: seq<Step>, k: nat)
    requires IsRun(worlds, steps) && k <= |steps|
    ensures Consistent(worlds[k])
  {
    hide Next, Enabled;
    if k == 0 {
      StartIsConsistent();
    } else {
      RunsStayConsistent(worlds, steps, k - 1);
      StepKeepsConsistent(worlds[k - 1], steps[k - 1]);
    }
  }

  lemma StartIsConsistent()
    ensures Consistent(START)
  {
  }

  /** Nothing is left to do but for the terminal to answer. */
  ghost predicate Quiet(w: World) {
    forall step :: Enabled(w, step) ==> step.Ask? || step.Reply?
  }

  /** Queries settle exactly once: at every moment of every run each query has at
      most one result, and once timeouts have run and results are delivered, each
      has exactly one. */
  lemma {:induction false} QueriesSettleOnce(worlds: seq<World>, steps: seq<Step>, k: nat, id: nat)
    requires IsRun(worlds, steps) && k <= |steps| && id < |worlds[k].queries|
    ensures |worlds[k].queries[id].sent| <= 1
    ensures Quiet(worlds[k]) ==> |worlds[k].queries[id].sent| == 1
  {
    RunsStayConsistent(worlds, steps, k);
    var w := worlds[k];
    assert QueryOk(w.queries[id]);
    assert Quiet(w) ==> !Enabled(w, Arm(id)) && !Enabled(w, Ring(id)) && !Enabled(w, Timeout(id)) && !Enabled(w, Send(id));
  }

  /** No timer outlives its query: once a query is settled and its timer registered,
      the timer is not running, whichever of the two came first. */
  lemma TimersAreCancelled(worlds: seq<World>, steps: seq<Step>, k: nat, id: nat)
    requires IsRun(worlds, steps) && k <= |steps| && id < |worlds[k].queries|
    ensures var q := worlds[k].queries[id]; q.phase == Registered ==> (q.settled <==> q.timer != Armed && !q.hasCancel)
  {
    RunsStayConsistent(worlds, steps, k);
    assert QueryOk(worlds[k].queries[id]);
  }

  // ---------------------------------------------------------------- in place

  class QueryQueue {
    var queries: seq<Query>
    var pendingQueries: seq<nat>
    var pendingReplies: int
    ghost var answered: nat
    ghost var pruned: nat

    constructor ()
      ensures Contents() == START && Consistent(Contents())
    {
      queries, pendingQueries, pendingReplies := [], [], 0;
      answered, pruned := 0, 0;
    }

    ghost function Contents(): World
      reads this
    {
      World(queries, pendingQueries, pendingReplies, answered, pruned)
    }

    method QueryBackgroundColor() returns (id: nat)
      requires Indexed(Contents())
      modifies this
      ensures id == |old(queries)| && Contents() == Next(old(Contents()), Ask)
      ensures old(Consistent(Contents())) ==> Consistent(Contents())
    {
      hide Consistent;
      if Consistent(Contents()) { StepKeepsConsistent(Contents(), Ask); }
      id := |queries|;
      queries := queries + [Query(Asking, Unset, false, false, None, [])];
      pendingQueries := pendingQueries + [id];
      pendingReplies := pendingReplies + 1;
    }

    /** Whether the reply was ours; the oldest outstanding query takes it. */
    method ConsumeReply(color: nat) returns (consumed: bool)
      requires Indexed(Contents())
      modifies this
      ensures Contents() == ReplySection(old(Contents()), color) && consumed == (old(pendingReplies) > 0)
      ensures old(Consistent(Contents())) ==> Consistent(Contents())
    {
      hide Consistent;
      if Consistent(Contents()) { StepKeepsConsistent(Contents(), Reply(color)); }
      if pendingReplies <= 0 {
        return false;
      }
      pendingReplies := pendingReplies - 1;
      answered := answered + 1;
      if |pendingQueries| > 0 {
        var id := pendingQueries[0];
        pendingQueries := pendingQueries[1..];
        var query := queries[id];
        if !query.settled {
          if query.hasCancel {
            query := Cancelled(query);
          }
          queries := queries[id := query.(settled := true, hasCancel := false, sending := Some(Color(color)))];
        }
      }
      return true;
    }

    method PrunePlaceholders()
      requires Indexed(Contents())
      modifies this`pendingQueries, this`pendingReplies, this`pruned
      ensures Contents() == Prune(old(Contents()))
      ensures old(Consistent(Contents())) ==> Consistent(Contents())
    {
      hide Consistent;
      if Consistent(Contents()) { PruneKeepsConsistent(Contents()); }
      while |pendingQueries| > MAX_PENDING
        invariant Indexed(Contents())
        invariant Prune(Contents()) == Prune(old(Contents()))
        decreases |pendingQueries|
      {
        if !queries[pendingQueries[0]].settled {
          return;
        }
        pendingQueries := pendingQueries[1..];
        pendingReplies := pendingReplies - 1;
        pruned := pruned + 1;
      }
    }

    method RunTimeout(id: nat)
      requires Indexed(Contents()) && id < |queries|
      modifies this
      ensures Contents() == TimeoutSection(old(Contents()), id)
      ensures old(Consistent(Contents()) && queries[id].timer == Ringing) ==> Consistent(Contents())
    {
      hide Consistent;
      if Consistent(Contents()) && queries[id].timer == Ringing { StepKeepsConsistent(Contents(), Timeout(id)); }
      var query := queries[id].(timer := Over);
      queries := queries[id := query];
      if query.settled {
        return;
      }
      queries := queries[id := query.(settled := true, hasCancel := false, sending := Some(NoAnswer))];
      PrunePlaceholders();
    }

    /** Records the timer, or cancels it if the answer came first. */
    method RegisterTimer(id: nat)
      requires Indexed(Contents()) && Enabled(Contents(), Register(id))
      modifies this`queries
      ensures Contents() == Next(old(Contents()), Register(id))
      ensures old(Consistent(Contents())) ==> Consistent(Contents())
    {
      hide Consistent;
      if Consistent(Contents()) { StepKeepsConsistent(Contents(), Register(id)); }
      var query := queries[id].(phase := Registered);
      queries := queries[id := if query.settled then Cancelled(query) else query.(hasCancel := true)];
    }
  }
}
