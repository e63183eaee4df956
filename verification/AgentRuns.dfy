// What an agent run streams (pkg/agent/loop.go), and so what of its attempts a run
// with failover lets through.

module AgentRuns {
  import opened Options
  import opened Spaces
  import opened Rotation
  import opened Failover

  /** An assistant message: whether it has no content, and whether it stopped on an
      error or an abort. */
  datatype Reply = Reply(empty: bool, broken: bool, payload: nat)

  /** What a provider streams before a reply is complete; either may come without a
      snapshot of the reply so far. */
  datatype Chunk = Begun(snapshot: Option<Reply>) | Grown(snapshot: Option<Reply>)

  datatype ToolStep = Starts(payload: nat) | Updates(payload: nat) | Ends(payload: nat)

  /** One turn: the chunks streamed, the reply they end in, and, unless it is broken, the
      steps and results of its tools and the messages steered in. A provider that is
      missing or refuses streams no chunks and gives a broken reply. */
  datatype Turn = Turn(chunks: seq<Chunk>, reply: Reply, tools: seq<ToolStep>, results: seq<nat>, steers: seq<nat>)

  datatype Script = Script(prompts: seq<nat>, turns: seq<Turn>)

  // ---------------------------------------------------------------- the events of a run

  function Whole(kind: Kind, reply: Reply): Event { Event(kind, Assistant(reply.empty, reply.broken, false), reply.payload) }

  function Snapshot(kind: Kind, reply: Reply): Event { Event(kind, Assistant(reply.empty, reply.broken, true), reply.payload) }

  function Bare(kind: Kind): Event { Event(kind, NoMessage, 0) }

  function ChunkEvent(c: Chunk): seq<Event> {
    if c.snapshot.None? then [] else [Snapshot(if c.Begun? then MessageStart else MessageUpdate, c.snapshot.value)]
  }

  function ChunkEvents(chunks: seq<Chunk>): seq<Event> {
    if chunks == [] then [] else ChunkEvents(chunks[..|chunks| - 1]) + ChunkEvent(chunks[|chunks| - 1])
  }

  /** The reply is announced while it is still being streamed. */
  predicate Announced(chunks: seq<Chunk>) { exists i :: 0 <= i < |chunks| && chunks[i].Begun? && chunks[i].snapshot.Some? }

  function ReplyEvents(chunks: seq<Chunk>, reply: Reply): seq<Event> {
    ChunkEvents(chunks) + (if Announced(chunks) then [] else [Whole(MessageStart, reply)]) + [Whole(MessageEnd, reply)]
  }

  function ToolEvent(step: ToolStep): Event {
    Event(match step case Starts(_) => ToolStart case Updates(_) => ToolUpdate case Ends(_) => ToolEnd, NoMessage, step.payload)
  }

  function ToolEvents(steps: seq<ToolStep>): seq<Event> {
    if steps == [] then [] else ToolEvents(steps[..|steps| - 1]) + [ToolEvent(steps[|steps| - 1])]
  }

  /** Messages that are whole from the start. */
  function Messages(message: Message, payloads: seq<nat>): seq<Event> {
    if payloads == [] then []
    else
      var n := |payloads| - 1;
      Messages(message, payloads[..n])
        + [Event(MessageStart, message, payloads[n]), Event(MessageEnd, message, payloads[n])]
  }

  function AfterReply(t: Turn): seq<Event> {
    if t.reply.broken then [Whole(TurnEnd, t.reply)]
    else ToolEvents(t.tools) + Messages(ToolResult, t.results) + [Whole(TurnEnd, t.reply)] + Messages(User, t.steers)
  }

  /** A broken reply ends the run. */
  function TurnEvents(turns: seq<Turn>): seq<Event>
    requires turns != []
    decreases |turns|
  {
    var t := turns[0];
    ReplyEvents(t.chunks, t.reply) + AfterReply(t)
      + (if t.reply.broken || |turns| == 1 then [] else [Bare(TurnStart)] + TurnEvents(turns[1..]))
  }

  function Opening(prompts: seq<nat>): seq<Event> { [Bare(AgentStart), Bare(TurnStart)] + Messages(User, prompts) }

  function Events(script: Script): seq<Event>
    requires script.turns != []
  {
    Opening(script.prompts) + TurnEvents(script.turns)
  }

  /** Passes a reply's snapshots on while it is streamed, then the reply itself. */
  method StreamAssistant(chunks: seq<Chunk>, reply: Reply) returns (events: seq<Event>)
    ensures events == ReplyEvents(chunks, reply)
  {
    hide Announced;
    events := [];
    var started := false;
    NoChunks();
    for index := 0 to |chunks|
      invariant events == ChunkEvents(chunks[..index])
      invariant started == Announced(chunks[..index])
    {
      var chunk := chunks[index];
      assert chunks[..index + 1] == chunks[..index] + [chunk];
      AnnouncedSnoc(chunks[..index], chunk);
      if chunk.snapshot.None? {
        continue;
      }
      if chunk.Begun? {
        started := true;
        events := events + [Snapshot(MessageStart, chunk.snapshot.value)];
      } else {
        events := events + [Snapshot(MessageUpdate, chunk.snapshot.value)];
      }
    }
    assert chunks[..|chunks|] == chunks;
    if !started {
      events := events + [Whole(MessageStart, reply)];
    }
    events := events + [Whole(MessageEnd, reply)];
  }

  /** The turns of a run, until one is broken or nothing is left to do. */
  method Run(script: Script) returns (events: seq<Event>)
    requires script.turns != []
    ensures events == Events(script)
  {
    hide ReplyEvents, AfterReply, Opening;
    events := Opening(script.prompts);
    var turns := script.turns;
    while true
      invariant turns != []
      invariant events + TurnEvents(turns) == Events(script)
      decreases |turns|
    {
      var turn := turns[0];
      var streamed := StreamAssistant(turn.chunks, turn.reply);
      TurnUnfolds(events, turns);
      events := events + streamed + AfterReply(turn);
      if turn.reply.broken || |turns| == 1 {
        return;
      }
      events := events + [Bare(TurnStart)];
      turns := turns[1..];
    }
  }

  lemma TurnUnfolds(before: seq<Event>, turns: seq<Turn>)
    requires turns != []
    ensures var t := turns[0];
      before + TurnEvents(turns) ==
        if t.reply.broken || |turns| == 1 then before + ReplyEvents(t.chunks, t.reply) + AfterReply(t)
        else before + ReplyEvents(t.chunks, t.reply) + AfterReply(t) + [Bare(TurnStart)] + TurnEvents(turns[1..])
  {
    hide ReplyEvents, AfterReply;
    var t := turns[0];
    Joins(before, ReplyEvents(t.chunks, t.reply), AfterReply(t), []);
    if !t.reply.broken && |turns| > 1 {
      Joins(before, ReplyEvents(t.chunks, t.reply), AfterReply(t), [Bare(TurnStart)] + TurnEvents(turns[1..]));
      hide TurnEvents;
      JoinsLast(before + ReplyEvents(t.chunks, t.reply) + AfterReply(t), [Bare(TurnStart)], TurnEvents(turns[1..]));
    }
  }

  lemma Joins(a: seq<Event>, b: seq<Event>, c: seq<Event>, d: seq<Event>)
    ensures a + (b + c + d) == a + b + c + d
    ensures a + b + c + [] == a + b + c
  {
  }

  lemma JoinsLast(a: seq<Event>, b: seq<Event>, c: seq<Event>)
    ensures a + (b + c) == a + b + c
  {
  }

  // ---------------------------------------------------------------- what they hold

  ghost predicate LetsThrough(events: seq<Event>) { exists e :: e in events && IsUnguarded(e) }

  lemma OneLetsThrough(a: seq<Event>, b: seq<Event>)
    ensures LetsThrough(a + b) <==> LetsThrough(a) || LetsThrough(b)
  {
    hide IsUnguarded;
    if e :| e in a && IsUnguarded(e) { assert e in a + b; }
    if e :| e in b && IsUnguarded(e) { assert e in a + b; }
  }

  lemma ChunkIsSnapshot(c: Chunk)
    ensures forall e :: e in ChunkEvent(c) ==> !IsFailureCandidate(e)
    ensures LetsThrough(ChunkEvent(c)) <==> c.Begun? && c.snapshot.Some?
  {
    if c.Begun? && c.snapshot.Some? { assert Snapshot(MessageStart, c.snapshot.value) in ChunkEvent(c); }
  }

  lemma AnnouncedSnoc(chunks: seq<Chunk>, c: Chunk)
    ensures Announced(chunks + [c]) <==> Announced(chunks) || (c.Begun? && c.snapshot.Some?)
  {
    var all := chunks + [c];
    assert all[|chunks|] == c;
    assert forall i :: 0 <= i < |chunks| ==> all[i] == chunks[i];
  }

  lemma {:induction false} ChunksAreSnapshots(chunks: seq<Chunk>)
    ensures forall e :: e in ChunkEvents(chunks) ==> !IsFailureCandidate(e)
    ensures LetsThrough(ChunkEvents(chunks)) <==> Announced(chunks)
  {
    hide LetsThrough, IsFailureCandidate, ChunkEvent, Announced;
    if chunks == [] {
      NoChunks();
    } else {
      var n := |chunks| - 1;
      assert chunks == chunks[..n] + [chunks[n]];
      ChunksAreSnapshots(chunks[..n]);
      ChunkIsSnapshot(chunks[n]);
      AnnouncedSnoc(chunks[..n], chunks[n]);
      OneLetsThrough(ChunkEvents(chunks[..n]), ChunkEvent(chunks[n]));
    }
  }

  lemma NoChunks()
    ensures !Announced([]) && ChunkEvents([]) == [] && !LetsThrough([])
  {
  }

  lemma {:induction false} UserMessagesOpen(payloads: seq<nat>)
    ensures forall e :: e in Messages(User, payloads) ==> IsAttemptPrefix(e)
  {
    if payloads != [] { UserMessagesOpen(payloads[..|payloads| - 1]); }
  }

  // The run up to the end of its first reply, and beyond.
  function Before(script: Script): seq<Event>
    requires script.turns != []
  {
    Opening(script.prompts) + ChunkEvents(script.turns[0].chunks)
  }

  function Closing(t: Turn): seq<Event> {
    (if Announced(t.chunks) then [] else [Whole(MessageStart, t.reply)]) + [Whole(MessageEnd, t.reply)]
      + (if t.reply.broken then [Whole(TurnEnd, t.reply)] else [])
  }

  function Beyond(script: Script): seq<Event>
    requires script.turns != []
  {
    var t, turns := script.turns[0], script.turns;
    if t.reply.broken then []
    else AfterReply(t) + (if |turns| == 1 then [] else [Bare(TurnStart)] + TurnEvents(turns[1..]))
  }

  lemma RunInParts(script: Script)
    requires script.turns != []
    ensures Events(script) == Before(script) + Closing(script.turns[0]) + Beyond(script)
  {
    hide ChunkEvents, Opening, Announced, ToolEvents, Messages;
  }

  lemma OpeningHolds(prompts: seq<nat>)
    ensures forall e :: e in Opening(prompts) ==> !IsFailureCandidate(e) && !IsUnguarded(e)
  {
    hide Messages;
    UserMessagesOpen(prompts);
    forall e | e in Opening(prompts) ensures !IsFailureCandidate(e) && !IsUnguarded(e) {
      assert IsAttemptPrefix(e);
    }
  }

  lemma BeforeHolds(script: Script)
    requires script.turns != []
    ensures forall e :: e in Before(script) ==> !IsFailureCandidate(e)
    ensures LetsThrough(Before(script)) <==> Announced(script.turns[0].chunks)
  {
    hide ChunkEvents, Messages, Announced, Opening, IsFailureCandidate, IsUnguarded;
    ChunksAreSnapshots(script.turns[0].chunks);
    OpeningHolds(script.prompts);
    OneLetsThrough(Opening(script.prompts), ChunkEvents(script.turns[0].chunks));
  }

  lemma ClosingHolds(t: Turn)
    ensures forall e :: e in Closing(t) ==> !IsUnguarded(e)
    ensures !t.reply.broken ==> !Idle(Closing(t))
  {
    hide Announced;
    var i := if Announced(t.chunks) then 0 else 1;
    assert Closing(t)[i] == Whole(MessageEnd, t.reply);
    assert !t.reply.broken ==> IsMeaningful(Closing(t)[i]);
  }

  lemma IdleParts(a: seq<Event>, b: seq<Event>)
    ensures Idle(a + b) <==> Idle(a) && Idle(b)
  {
    hide IsMeaningful;
    forall k | 0 <= k < |b| ensures (a + b)[|a| + k] == b[k] { }
    forall k | 0 <= k < |a| ensures (a + b)[k] == a[k] { }
  }

  lemma Placed(before: seq<Event>, closing: seq<Event>, beyond: seq<Event>, i: nat, j: nat)
    requires i < j < |before| + |closing| + |beyond|
    ensures var all := before + closing + beyond;
      && (i < |before| ==> all[i] in before)
      && (|before| <= j < |before| + |closing| ==> all[j] in closing)
      && (j >= |before| + |closing| && Idle(all[..j]) ==> Idle(closing))
  {
    hide Idle;
    var all, n := before + closing + beyond, |before| + |closing|;
    if j >= n {
      assert all[..j] == before + closing + beyond[..j - n];
      IdleParts(before + closing, beyond[..j - n]);
      IdleParts(before, closing);
    } else if j >= |before| {
      assert all[j] == closing[j - |before|];
    }
  }

  lemma NoOvertaking(before: seq<Event>, closing: seq<Event>, beyond: seq<Event>)
    requires forall e :: e in before ==> !IsFailureCandidate(e)
    requires forall e :: e in closing ==> !IsUnguarded(e)
    requires beyond == [] || !Idle(closing)
    ensures !Overtakes(before + closing + beyond)
  {
    hide Idle, IsFailureCandidate, IsUnguarded;
    var all := before + closing + beyond;
    forall i, j ensures !Overtaken(all, i, j) {
      if 0 <= i < j < |all| { Placed(before, closing, beyond, i, j); }
    }
  }

  /** In an agent run nothing overtakes an event held back, and while nothing meaningful
      happens only a streamed start is let through. */
  lemma AgentRunsAreGuarded(script: Script)
    requires script.turns != []
    ensures !Overtakes(Events(script))
    ensures Idle(Events(script)) ==>
      (LetsThrough(Events(script)) <==> Announced(script.turns[0].chunks))
  {
    hide Before, Closing, Beyond, Events, Announced, Overtakes, Idle, IsUnguarded, IsFailureCandidate;
    var t := script.turns[0];
    RunInParts(script);
    BeforeHolds(script);
    ClosingHolds(t);
    BrokenEnds(script);
    NoOvertaking(Before(script), Closing(t), Beyond(script));
    IdleParts(Before(script) + Closing(t), Beyond(script));
    IdleParts(Before(script), Closing(t));
    OneLetsThrough(Before(script) + Closing(t), Beyond(script));
    OneLetsThrough(Before(script), Closing(t));
  }

  lemma BrokenEnds(script: Script)
    requires script.turns != []
    ensures script.turns[0].reply.broken ==> Beyond(script) == []
  {
  }

  // ---------------------------------------------------------------- failing over between agent runs

  /** Every attempt is a run of the agent. */
  ghost predicate Runs(w: World, scripts: seq<Model> -> Script) {
    forall models :: scripts(models).turns != [] && w.attempt(models).events == Events(scripts(models))
  }

  predicate AnnouncedAt(scripts: seq<Model> -> Script, models: seq<Model>) {
    var turns := scripts(models).turns;
    turns != [] && Announced(turns[0].chunks)
  }

  /** No attempt given up, from the n-th on, had begun to stream a reply. */
  ghost predicate NoneAnnounced(scripts: seq<Model> -> Script, all: seq<Model>, n: nat) {
    forall k :: n <= k < |all| ==> !AnnouncedAt(scripts, all[..k])
  }

  lemma HoldsMeans(a: Attempt)
    ensures HoldsUnguarded(a) <==> LetsThrough(a.events)
  {
    hide IsUnguarded;
    if e :| e in a.events && IsUnguarded(e) {
      var i :| 0 <= i < |a.events| && a.events[i] == e;
    }
  }

  lemma UnguardedMeansAnnounced(w: World, scripts: seq<Model> -> Script, attempted: seq<Model>)
    requires attempted != [] && Runs(w, scripts)
    ensures var all := RunFrom(w, attempted).attempted;
      NoneUnguarded(w, all, |attempted|) <==> NoneAnnounced(scripts, all, |attempted|)
  {
    hide RunFrom, HoldsUnguarded, LetsThrough, Events, Announced, Idle;
    var all := RunFrom(w, attempted).attempted;
    forall k | |attempted| <= k < |all|
      ensures HoldsUnguarded(AttemptAt(w, all, k)) <==> AnnouncedAt(scripts, all[..k])
    {
      GivenUpIsIdle(w, attempted, k);
      HoldsMeans(AttemptAt(w, all, k));
      AgentRunsAreGuarded(scripts(all[..k]));
    }
  }

  /** When every attempt is an agent run: nothing leaks from the attempts given up if and
      only if none of them had begun to stream a reply; and then, in a run that ends
      normally, the content seen is that of the last attempt, once each and in order. */
  lemma OnlyStreamedStartsLeak(w: World, scripts: seq<Model> -> Script, attempted: seq<Model>)
    requires attempted != [] && Runs(w, scripts)
    ensures var r := RunFrom(w, attempted);
      var last := w.attempt(r.attempted);
      && (Select(r.delivered, CONTENT) == Select(Deliver(ScanAll(last.events, |r.attempted| == 1), last.end), CONTENT)
          <==> NoneAnnounced(scripts, r.attempted, |attempted|))
      && (last.end.AgentEnd? ==>
            (Select(r.delivered, CONTENT) == Filter(last.events, CONTENT) <==> NoneAnnounced(scripts, r.attempted, |attempted|)))
  {
    hide RunFrom, ScanAll, Select, Filter, Deliver, Overtakes, NoneUnguarded, NoneAnnounced, Events;
    var all := RunFrom(w, attempted).attempted;
    NothingLeaks(w, attempted);
    OnlyTheLastAttemptIsSeen(w, attempted);
    UnguardedMeansAnnounced(w, scripts, attempted);
    assert w.attempt(all).events == Events(scripts(all));
    AgentRunsAreGuarded(scripts(all));
  }

  // ---------------------------------------------------------------- a start that leaks

  // Two models of one provider: the first is overloaded just after it began to stream.
  const OVERLOADED := Model("p", "a", "", false, 0, [])
  const SPARE := Model("p", "b", "", false, 0, [])
  const BEGUN := Reply(true, false, 1)
  const LOST := Reply(true, true, 2)
  const ANSWER := Reply(false, false, 3)
  const CUT_SHORT := Script([], [Turn([Begun(Some(BEGUN))], LOST, [], [], [])])
  const ANSWERED := Script([], [Turn([], ANSWER, [], [], [])])

  const TWO_MODELS := World(
    (models: seq<Model>) => if |models| == 1 then Attempt(Events(CUT_SHORT), AgentEnd(Some(Failure(true, false))), true)
                            else Attempt(Events(ANSWERED), AgentEnd(None), true),
    [SPARE], (_: seq<Model>) => Settings(true, true), (_: seq<Model>, _: Model) => true, true)

  lemma OnlySpareIsLeft()
    ensures Candidates(OVERLOADED, [OVERLOADED], [SPARE], Settings(true, true), false) == [SPARE]
  {
    var ordered := Ordered([SPARE], OVERLOADED);
    assert Ordered([], OVERLOADED) == [] && [SPARE][..0] == [];
    assert ordered == [SPARE];
    assert Keys([OVERLOADED]) == {Key(OVERLOADED)};
    assert Key(SPARE)[2] != Key(OVERLOADED)[2];
    assert !IsSpace(SPARE.id[0]) && !IsSpace(SPARE.provider[0]);
    assert Compatible(SPARE, [OVERLOADED]);
    assert SameProvider(ordered, 0, OVERLOADED, [OVERLOADED]) == [];
    assert SameProvider(ordered, 1, OVERLOADED, [OVERLOADED]) == [SPARE];
    hide Compatible, Key;
    assert OtherProviders(ordered, 0, OVERLOADED, [OVERLOADED], [SPARE]) == [SPARE];
  }

  lemma ScanSnoc(events: seq<Event>, e: Event, first: bool)
    ensures ScanAll(events + [e], first) == ScanEvent(ScanAll(events, first), e, first)
  {
    assert (events + [e])[..|events|] == events;
  }

  lemma OneChunk(c: Chunk)
    ensures ChunkEvents([c]) == ChunkEvent(c)
    ensures c.Begun? && c.snapshot.Some? ==> Announced([c])
  {
    assert [c][..0] == [] && ChunkEvents([]) == [] && [c][0] == c;
  }

  lemma BrokenTurn(t: Turn)
    requires t.reply.broken && Announced(t.chunks)
    ensures TurnEvents([t]) == ChunkEvents(t.chunks) + [Whole(MessageEnd, t.reply)] + [Whole(TurnEnd, t.reply)]
  {
    hide Announced, ChunkEvents;
  }

  lemma CutShortEvents()
    ensures Events(CUT_SHORT) == [Bare(AgentStart)] + [Bare(TurnStart)] + [Snapshot(MessageStart, BEGUN)]
                                   + [Whole(MessageEnd, LOST)] + [Whole(TurnEnd, LOST)]
  {
    hide Announced, ChunkEvents, TurnEvents;
    OneChunk(Begun(Some(BEGUN)));
    BrokenTurn(CUT_SHORT.turns[0]);
    assert CUT_SHORT.turns == [CUT_SHORT.turns[0]];
  }

  lemma CutShortShows()
    ensures ScanAll(Events(CUT_SHORT), true)
      == Scan([Bare(AgentStart), Bare(TurnStart), Snapshot(MessageStart, BEGUN)], [Whole(MessageEnd, LOST), Whole(TurnEnd, LOST)], false)
  {
    CutShortEvents();
    hide ScanAll, Events;
    var start := [Bare(AgentStart)] + [Bare(TurnStart)];
    var begun := start + [Snapshot(MessageStart, BEGUN)];
    ScanNothing(true);
    assert [] + [Bare(AgentStart)] == [Bare(AgentStart)];
    ScanSnoc([], Bare(AgentStart), true);
    ScanSnoc([Bare(AgentStart)], Bare(TurnStart), true);
    ScanSnoc(start, Snapshot(MessageStart, BEGUN), true);
    ScanSnoc(begun, Whole(MessageEnd, LOST), true);
    ScanSnoc(begun + [Whole(MessageEnd, LOST)], Whole(TurnEnd, LOST), true);
  }

  lemma ScanNothing(first: bool)
    ensures ScanAll([], first) == Scan([], [], false)
  {
  }

  lemma AnsweredEvents()
    ensures Events(ANSWERED) == [Bare(AgentStart), Bare(TurnStart), Whole(MessageStart, ANSWER), Whole(MessageEnd, ANSWER), Whole(TurnEnd, ANSWER)]
  {
    assert ChunkEvents([]) == [] && !Announced([]);
    assert ToolEvents([]) == [] && Messages(ToolResult, []) == [] && Messages(User, []) == [];
    assert TurnEvents(ANSWERED.turns) == [Whole(MessageStart, ANSWER), Whole(MessageEnd, ANSWER), Whole(TurnEnd, ANSWER)];
  }

  lemma ShownIsShown(events: seq<Event>, i: nat)
    requires i < |events|
    ensures Shown(events[i]) in ShowAll(events)
  {
    if i > 0 {
      assert events[1..][i - 1] == events[i];
      ShownIsShown(events[1..], i - 1);
    } else {
      assert ShowAll(events)[0] == Shown(events[0]);
    }
  }

  lemma FailsOverToSpare()
    ensures var a := TWO_MODELS.attempt([OVERLOADED]);
      NextModel(TWO_MODELS, a, false, [OVERLOADED]) == Some(SPARE)
  {
    hide Candidates, Events;
    OnlySpareIsLeft();
  }

  lemma SpareAnswers()
    ensures RunFrom(TWO_MODELS, [OVERLOADED, SPARE]).attempted == [OVERLOADED, SPARE]
  {
    hide ScanAll, Events, Deliver;
  }

  lemma FirstIsCutShort()
    ensures TWO_MODELS.attempt([OVERLOADED]).events == Events(CUT_SHORT)
    ensures TWO_MODELS.attempt([OVERLOADED, SPARE]).events == Events(ANSWERED)
  {
    hide Events;
  }

  // After failing over once, the run goes on from the second model.
  lemma GivenUpFirst(w: World, first: Model, second: Model)
    requires var scan := ScanAll(w.attempt([first]).events, true); NextModel(w, w.attempt([first]), scan.meaningful, [first]) == Some(second)
    ensures var scan, rest := ScanAll(w.attempt([first]).events, true), RunFrom(w, [first, second]);
      RunFrom(w, [first]) == Result(ShowAll(scan.shown) + rest.delivered, rest.attempted)
  {
    hide ScanAll, NextModel, ShowAll;
    assert [first] + [second] == [first, second];
  }

  /** A provider that sends its start and then an overload: the run fails over and the
      reader has been shown the start of a reply that never comes. */
  lemma StreamedStartLeaks()
    ensures var r := RunFrom(TWO_MODELS, [OVERLOADED]);
      && r.attempted == [OVERLOADED, SPARE]
      && Shown(Snapshot(MessageStart, BEGUN)) in r.delivered
      && Snapshot(MessageStart, BEGUN) !in TWO_MODELS.attempt(r.attempted).events
  {
    hide ScanAll, Events, NextModel, ShowAll, RunFrom, TWO_MODELS;
    CutShortShows();
    FailsOverToSpare();
    SpareAnswers();
    AnsweredEvents();
    FirstIsCutShort();
    ShownIsShown([Bare(AgentStart), Bare(TurnStart), Snapshot(MessageStart, BEGUN)], 2);
    GivenUpFirst(TWO_MODELS, OVERLOADED, SPARE);
  }
}
