// Running a prompt with failover (internal/chat/chat.go): an attempt that fails
// before it produced anything is replaced by one with another model, and nothing
// of it reaches the reader.

module Failover {
  import opened Options
  import opened Rotation

  datatype Kind =
    | AgentStart | TurnStart | TurnEnd | MessageStart | MessageUpdate | MessageEnd
    | Notice | Compaction | ToolStart | ToolUpdate | ToolEnd

  /** The message an event carries. An assistant message may be empty so far, and may
      have stopped on an error or an abort; a partial one is a snapshot of a reply that
      is still being streamed, which the program passes by pointer and does not
      recognise as an assistant message. */
  datatype Message = NoMessage | User | ToolResult | Assistant(empty: bool, broken: bool, partial: bool)
  {
    predicate Recognised() { Assistant? && !partial }
  }

  datatype Event = Event(kind: Kind, message: Message, payload: nat)

  /** Why a run ended: whether the provider was unavailable, and whether it refused
      the credentials. */
  datatype Failure = Failure(unavailable: bool, authentication: bool)

  /** How an attempt's stream ends: with the agent's end event, with a stream
      error, or by closing. */
  datatype End = AgentEnd(failure: Option<Failure>) | StreamError | Closed

  /** One run of the agent; `live` is whether the caller still wanted the run when
      it ended. */
  datatype Attempt = Attempt(events: seq<Event>, end: End, live: bool)

  datatype Delivered = Shown(event: Event) | Finished(end: End)

  /** The attempts that the models tried so far lead to, and the choices offered
      for failing over: settings are read and providers checked anew each time. */
  datatype World = World(
    attempt: seq<Model> -> Attempt,
    catalog: seq<Model>,
    settings: seq<Model> -> Settings,
    configured: (seq<Model>, Model) -> bool,
    failsOver: bool)

  // ---------------------------------------------------------------- one attempt

  predicate IsAttemptPrefix(e: Event) {
    || e.kind in {AgentStart, TurnStart}
    || (e.kind in {MessageStart, MessageEnd} && e.message.User?)
  }

  predicate IsMeaningful(e: Event) {
    match e.kind
    case MessageStart => e.message.Recognised() && !e.message.empty
    case MessageEnd => e.message.Recognised() && !e.message.broken
    case MessageUpdate => true
    case ToolStart => true
    case ToolUpdate => true
    case ToolEnd => true
    case _ => false
  }

  predicate IsFailureCandidate(e: Event) {
    e.kind in {MessageStart, MessageEnd, TurnEnd} && e.message.Recognised()
  }

  /** What the assistant says and what its tools do, but for streamed starts. */
  predicate IsTalk(e: Event) {
    || e.kind in {MessageUpdate, ToolStart, ToolUpdate, ToolEnd}
    || (e.kind in {MessageStart, MessageEnd, TurnEnd} && e.message.Recognised())
  }

  /** A streamed start, or a message with the result of a tool: content that is shown
      at once without counting as something meaningful. */
  predicate IsUnguarded(e: Event) {
    e.kind in {MessageStart, MessageEnd, TurnEnd}
    && (e.message.ToolResult? || (e.message.Assistant? && e.message.partial))
  }

  predicate IsContent(e: Event) { IsTalk(e) || IsUnguarded(e) }

  datatype Scan = Scan(shown: seq<Event>, buffered: seq<Event>, meaningful: bool)

  function ScanEvent(s: Scan, e: Event, first: bool): Scan {
    if !first && IsAttemptPrefix(e) then s
    else if IsMeaningful(e) then Scan(s.shown + s.buffered + [e], [], true)
    else if s.meaningful || !IsFailureCandidate(e) then s.(shown := s.shown + [e])
    else s.(buffered := s.buffered + [e])
  }

  function ScanAll(events: seq<Event>, first: bool): Scan {
    if events == [] then Scan([], [], false)
    else ScanEvent(ScanAll(events[..|events| - 1], first), events[|events| - 1], first)
  }

  // ---------------------------------------------------------------- the run

  function SelectNext(w: World, failed: Model, failure: Failure, attempted: seq<Model>): Option<Model> {
    if !failure.unavailable then None
    else FirstConfigured(Candidates(failed, attempted, w.catalog, w.settings(attempted), failure.authentication),
                         m => w.configured(attempted, m))
  }

  /** The model to fail over to after an attempt, if there is to be another one. */
  function NextModel(w: World, a: Attempt, meaningful: bool, attempted: seq<Model>): Option<Model>
    requires attempted != []
  {
    if a.end.AgentEnd? && a.end.failure.Some? && !meaningful && w.failsOver && a.live
    then SelectNext(w, attempted[|attempted| - 1], a.end.failure.value, attempted)
    else None
  }

  function ShowAll(events: seq<Event>): seq<Delivered> {
    if events == [] then [] else [Shown(events[0])] + ShowAll(events[1..])
  }

  function Deliver(scan: Scan, end: End): seq<Delivered> {
    match end
    case AgentEnd(_) => ShowAll(scan.shown + scan.buffered) + [Finished(end)]
    case StreamError => ShowAll(scan.shown) + [Finished(StreamError)]
    case Closed => ShowAll(scan.shown)
  }

  datatype Result = Result(delivered: seq<Delivered>, attempted: seq<Model>)

  /** A model chosen to fail over to is from the catalog and was not tried. */
  lemma NextModelIsFresh(w: World, a: Attempt, meaningful: bool, attempted: seq<Model>)
    requires attempted != []
    ensures var next := NextModel(w, a, meaningful, attempted);
      next.Some? ==> Key(next.value) in Keys(w.catalog) && Key(next.value) !in Keys(attempted)
  {
    hide Candidates, FirstConfigured;
    var next := NextModel(w, a, meaningful, attempted);
    if next.Some? {
      var failed, failure := attempted[|attempted| - 1], a.end.failure.value;
      var cs := Candidates(failed, attempted, w.catalog, w.settings(attempted), failure.authentication);
      FirstConfiguredIsCandidate(cs, m => w.configured(attempted, m));
      CandidatesAreSound(failed, attempted, w.catalog, w.settings(attempted), failure.authentication);
    }
  }

  lemma KeysAppend(models: seq<Model>, m: Model)
    ensures Keys(models + [m]) == Keys(models) + {Key(m)}
  {
    hide Key;
    forall k | k in Keys(models) + {Key(m)} ensures k in Keys(models + [m]) {
      var x :| (x in models || x == m) && Key(x) == k;
      assert x in models + [m];
    }
  }

  function RunFrom(w: World, attempted: seq<Model>): Result
    requires attempted != []
    decreases Keys(w.catalog) - Keys(attempted)
  {
    var a := w.attempt(attempted);
    var scan := ScanAll(a.events, |attempted| == 1);
    var next := NextModel(w, a, scan.meaningful, attempted);
    if next.None? then Result(Deliver(scan, a.end), attempted)
    else
      NextModelIsFresh(w, a, scan.meaningful, attempted);
      KeysAppend(attempted, next.value);
      var rest := RunFrom(w, attempted + [next.value]);
      Result(ShowAll(scan.shown) + rest.delivered, rest.attempted)
  }

  // ---------------------------------------------------------------- nothing leaks

  function Select(delivered: seq<Delivered>, keep: Event -> bool): seq<Event> {
    if delivered == [] then []
    else
      var d := delivered[0];
      (if d.Shown? && keep(d.event) then [d.event] else []) + Select(delivered[1..], keep)
  }

  function Filter(events: seq<Event>, keep: Event -> bool): seq<Event> {
    if events == [] then []
    else Filter(events[..|events| - 1], keep)
         + (if keep(events[|events| - 1]) then [events[|events| - 1]] else [])
  }

  lemma {:induction false} FilterAppends(a: seq<Event>, b: seq<Event>, keep: Event -> bool)
    ensures Filter(a + b, keep) == Filter(a, keep) + Filter(b, keep)
  {
    if b == [] {
      assert a + b == a;
    } else {
      var n := |b| - 1;
      assert (a + b)[..|a| + n] == a + b[..n] && (a + b)[|a| + n] == b[n];
      FilterAppends(a, b[..n], keep);
    }
  }

  lemma FilterOne(e: Event, keep: Event -> bool)
    ensures Filter([e], keep) == if keep(e) then [e] else []
  {
    assert [e][..0] == [];
  }

  lemma {:induction false} SelectAppends(a: seq<Delivered>, b: seq<Delivered>, keep: Event -> bool)
    ensures Select(a + b, keep) == Select(a, keep) + Select(b, keep)
  {
    if a == [] {
      assert a + b == b;
    } else {
      assert (a + b)[1..] == a[1..] + b && (a + b)[0] == a[0];
      SelectAppends(a[1..], b, keep);
      var head := if a[0].Shown? && keep(a[0].event) then [a[0].event] else [];
      assert head + (Select(a[1..], keep) + Select(b, keep)) == (head + Select(a[1..], keep)) + Select(b, keep);
    }
  }

  lemma {:induction false} SelectShown(events: seq<Event>, keep: Event -> bool)
    ensures Select(ShowAll(events), keep) == Filter(events, keep)
  {
    if events != [] {
      SelectShown(events[1..], keep);
      assert ShowAll(events)[1..] == ShowAll(events[1..]);
      FilterAppends([events[0]], events[1..], keep);
      FilterOne(events[0], keep);
      assert [events[0]] + events[1..] == events;
    }
  }

  lemma {:induction false} SelectDelivered(scan: Scan, end: End, keep: Event -> bool)
    ensures Select(Deliver(scan, end), keep)
         == if end.AgentEnd? then Filter(scan.shown, keep) + Filter(scan.buffered, keep) else Filter(scan.shown, keep)
  {
    SelectShown(scan.shown, keep);
    SelectShown(scan.shown + scan.buffered, keep);
    FilterAppends(scan.shown, scan.buffered, keep);
    SelectAppends(ShowAll(scan.shown + scan.buffered), [Finished(end)], keep);
    SelectAppends(ShowAll(scan.shown), [Finished(end)], keep);
    assert Select([Finished(end)], keep) == [];
  }

  const TALK: Event -> bool := e => IsTalk(e)
  const UNGUARDED: Event -> bool := e => IsUnguarded(e)
  const CONTENT: Event -> bool := e => IsContent(e)
  const PREFIX: Event -> bool := e => IsAttemptPrefix(e)

  lemma NothingToFilter(keep: Event -> bool)
    ensures Filter([], keep) == []
  {
  }

  lemma FilterSnoc(a: seq<Event>, e: Event, keep: Event -> bool)
    ensures Filter(a + [e], keep) == Filter(a, keep) + (if keep(e) then [e] else [])
  {
    hide Filter;
    FilterAppends(a, [e], keep);
    FilterOne(e, keep);
  }

  lemma Classified(e: Event)
    ensures IsTalk(e) <==> IsMeaningful(e) || IsFailureCandidate(e)
    ensures IsAttemptPrefix(e) ==> !IsContent(e)
    ensures IsUnguarded(e) ==> !IsTalk(e)
    ensures IsContent(e) <==> IsTalk(e) || IsUnguarded(e)
  {
  }

  // Once something meaningful happened nothing is held back.
  lemma {:induction false} BufferedOnlyWithout(events: seq<Event>, first: bool)
    ensures var s := ScanAll(events, first); s.meaningful ==> s.buffered == []
  {
    hide IsMeaningful, IsFailureCandidate, IsAttemptPrefix;
    if events != [] {
      BufferedOnlyWithout(events[..|events| - 1], first);
    }
  }

  /** While an attempt is read, what the assistant and its tools do is shown or
      buffered, once and in order; none is shown before something meaningful happened. */
  lemma {:induction false} ScanKeepsTalk(events: seq<Event>, first: bool)
    ensures var s := ScanAll(events, first);
      && Filter(s.shown, TALK) + Filter(s.buffered, TALK) == Filter(events, TALK)
      && (!s.meaningful ==> Filter(s.shown, TALK) == [])
  {
    hide IsTalk, IsMeaningful, IsFailureCandidate, IsAttemptPrefix, IsUnguarded, IsContent, Filter;
    NothingToFilter(TALK);
    if events != [] {
      var n := |events| - 1;
      var e := events[n];
      ScanKeepsTalk(events[..n], first);
      var s := ScanAll(events[..n], first);
      assert events == events[..n] + [e];
      Classified(e);
      FilterSnoc(events[..n], e, TALK);
      FilterAppends(s.shown, s.buffered, TALK);
      FilterSnoc(s.shown + s.buffered, e, TALK);
      FilterSnoc(s.shown, e, TALK);
      FilterSnoc(s.buffered, e, TALK);
      BufferedOnlyWithout(events[..n], first);
    }
  }

  /** Streamed starts and tool results are never held back. */
  lemma {:induction false} ScanShowsUnguarded(events: seq<Event>, first: bool)
    ensures var s := ScanAll(events, first);
      && Filter(s.shown, UNGUARDED) == Filter(events, UNGUARDED) && Filter(s.buffered, UNGUARDED) == []
      && (!s.meaningful ==> Filter(s.shown, CONTENT) == Filter(events, UNGUARDED))
  {
    hide IsTalk, IsMeaningful, IsFailureCandidate, IsAttemptPrefix, IsUnguarded, IsContent, Filter;
    NothingToFilter(UNGUARDED);
    NothingToFilter(CONTENT);
    if events != [] {
      var n := |events| - 1;
      var e := events[n];
      ScanShowsUnguarded(events[..n], first);
      var s := ScanAll(events[..n], first);
      assert events == events[..n] + [e];
      Classified(e);
      FilterSnoc(events[..n], e, UNGUARDED);
      FilterAppends(s.shown, s.buffered, UNGUARDED);
      FilterSnoc(s.shown + s.buffered, e, UNGUARDED);
      FilterSnoc(s.shown, e, UNGUARDED);
      FilterSnoc(s.buffered, e, UNGUARDED);
      FilterSnoc(s.shown, e, CONTENT);
    }
  }

  /** A streamed start or a tool result that comes before anything meaningful, but after
      an event that is held back for it. */
  ghost predicate Overtaken(events: seq<Event>, i: int, j: int) {
    && 0 <= i < j < |events| && IsFailureCandidate(events[i]) && IsUnguarded(events[j])
    && Idle(events[..j])
  }

  ghost predicate Idle(events: seq<Event>) { forall k :: 0 <= k < |events| ==> !IsMeaningful(events[k]) }

  ghost predicate Overtakes(events: seq<Event>) { exists i, j :: Overtaken(events, i, j) }

  lemma OvertakesSnoc(events: seq<Event>, e: Event)
    ensures Overtakes(events + [e]) <==>
      Overtakes(events) || (IsUnguarded(e) && Idle(events) && exists i :: 0 <= i < |events| && IsFailureCandidate(events[i]))
  {
    hide IsUnguarded, IsFailureCandidate, Idle;
    var all, n := events + [e], |events|;
    forall j | 0 <= j <= n ensures all[..j] == events[..j] { }
    assert events[..n] == events;
    if i, j :| Overtaken(events, i, j) { assert Overtaken(all, i, j); }
    if i, j :| Overtaken(all, i, j) {
      assert j < n ==> Overtaken(events, i, j);
      assert j == n ==> IsFailureCandidate(events[i]);
    }
    if i :| 0 <= i < |events| && IsFailureCandidate(events[i]) {
      assert IsUnguarded(e) && Idle(events) ==> Overtaken(all, i, n);
    }
  }

  // What is held back: the failure candidates of an attempt that was idle so far.
  lemma {:induction false} HeldBack(events: seq<Event>, first: bool)
    ensures var s := ScanAll(events, first);
      && (s.meaningful <==> !Idle(events))
      && (!s.meaningful ==> (s.buffered != [] <==> exists i :: 0 <= i < |events| && IsFailureCandidate(events[i])))
      && (s.buffered != [] ==> IsFailureCandidate(s.buffered[|s.buffered| - 1]))
  {
    hide IsMeaningful, IsFailureCandidate, IsAttemptPrefix;
    if events != [] {
      var n := |events| - 1;
      HeldBack(events[..n], first);
      IdleSnoc(events[..n], events[n]);
      assert events == events[..n] + [events[n]];
      PrefixIsNeither(events[n]);
      CandidateSnoc(events[..n], events[n]);
    }
  }

  lemma IdleSnoc(events: seq<Event>, e: Event)
    ensures Idle(events + [e]) <==> Idle(events) && !IsMeaningful(e)
  {
    hide IsMeaningful;
    assert (events + [e])[|events|] == e;
    assert forall k :: 0 <= k < |events| ==> (events + [e])[k] == events[k];
  }

  lemma CandidateSnoc(events: seq<Event>, e: Event)
    ensures (exists i :: 0 <= i < |events + [e]| && IsFailureCandidate((events + [e])[i]))
      <==> IsFailureCandidate(e) || exists i :: 0 <= i < |events| && IsFailureCandidate(events[i])
  {
    hide IsFailureCandidate;
    assert (events + [e])[|events|] == e;
    assert forall k :: 0 <= k < |events| ==> (events + [e])[k] == events[k];
  }

  lemma PrefixIsNeither(e: Event)
    ensures IsAttemptPrefix(e) ==> !IsMeaningful(e) && !IsFailureCandidate(e)
  {
  }

  ghost predicate InOrder(s: Scan, events: seq<Event>) {
    Filter(s.shown, CONTENT) + Filter(s.buffered, CONTENT) == Filter(events, CONTENT)
  }

  /** An attempt's content is passed on in the order it came exactly when no streamed
      start or tool result overtakes an event held back; none of it is lost either way. */
  lemma {:induction false} ScanKeepsOrder(events: seq<Event>, first: bool)
    ensures var s := ScanAll(events, first);
      && (InOrder(s, events) <==> !Overtakes(events))
      && |Filter(s.shown, CONTENT)| + |Filter(s.buffered, CONTENT)| == |Filter(events, CONTENT)|
  {
    hide IsTalk, IsMeaningful, IsFailureCandidate, IsAttemptPrefix, IsUnguarded, IsContent, Filter, Idle, Overtakes;
    if events == [] {
      NothingToFilter(CONTENT);
      NothingOvertakes();
    } else {
      var n := |events| - 1;
      var e := events[n];
      ScanKeepsOrder(events[..n], first);
      HeldBack(events[..n], first);
      BufferedOnlyWithout(events[..n], first);
      assert events == events[..n] + [e];
      OvertakesSnoc(events[..n], e);
      OrderStep(ScanAll(events[..n], first), events[..n], e, first);
    }
  }

  lemma NothingOvertakes()
    ensures !Overtakes([])
  {
  }

  lemma OrderStep(s: Scan, events: seq<Event>, e: Event, first: bool)
    requires s.buffered != [] ==> !s.meaningful && IsFailureCandidate(s.buffered[|s.buffered| - 1])
    requires |Filter(s.shown, CONTENT)| + |Filter(s.buffered, CONTENT)| == |Filter(events, CONTENT)|
    ensures var s' := ScanEvent(s, e, first);
      && (InOrder(s', events + [e]) <==> InOrder(s, events) && !(IsUnguarded(e) && s.buffered != []))
      && |Filter(s'.shown, CONTENT)| + |Filter(s'.buffered, CONTENT)| == |Filter(events + [e], CONTENT)|
  {
    hide IsTalk, IsMeaningful, IsFailureCandidate, IsAttemptPrefix, IsUnguarded, IsContent, Filter;
    Classified(e);
    NothingToFilter(CONTENT);
    FilterSnoc(events, e, CONTENT);
    FilterSnoc(s.shown, e, CONTENT);
    FilterSnoc(s.buffered, e, CONTENT);
    FilterAppends(s.shown, s.buffered, CONTENT);
    FilterSnoc(s.shown + s.buffered, e, CONTENT);
    var a, b, c := Filter(s.shown, CONTENT), Filter(s.buffered, CONTENT), Filter(events, CONTENT);
    SnocCancels(a + b, c, e);
    if s.buffered != [] {
      var k := |s.buffered| - 1;
      var held := s.buffered[k];
      Classified(held);
      assert s.buffered == s.buffered[..k] + [held];
      FilterSnoc(s.buffered[..k], held, CONTENT);
      if IsUnguarded(e) { OtherLast(a + [e], b, c, e); }
    }
    assert (a + b) + [e] == a + (b + [e]);
    assert a + [] == a && (a + b) + [e] + [] == (a + b) + [e] && a + [e] + [] == a + [e];
  }

  lemma SnocCancels(a: seq<Event>, b: seq<Event>, e: Event)
    ensures a + [e] == b + [e] <==> a == b
  {
    assert (a + [e])[..|a|] == a && (b + [e])[..|b|] == b;
  }

  lemma OtherLast(a: seq<Event>, b: seq<Event>, c: seq<Event>, e: Event)
    requires b != [] && b[|b| - 1] != e
    ensures a + b != c + [e]
  {
    assert (a + b)[|a + b| - 1] == b[|b| - 1] && (c + [e])[|c + [e]| - 1] == e;
  }

  // ---------------------------------------------------------------- what the reader gets

  ghost predicate IsPrefix(a: seq<Event>, b: seq<Event>) { a <= b }

  /** But for streamed starts a failed attempt never says anything: what the assistant
      and its tools do over a whole run is what they do in the last attempt, once each
      and in order; all of it if the run ends normally, and a first part otherwise. */
  lemma {:induction false} OnlyTheLastAttemptTalks(w: World, attempted: seq<Model>)
    requires attempted != []
    ensures var r := RunFrom(w, attempted);
      var last := w.attempt(r.attempted);
      var seen := Select(r.delivered, TALK);
      && IsPrefix(seen, Filter(last.events, TALK))
      && (last.end.AgentEnd? ==> seen == Filter(last.events, TALK))
    decreases Keys(w.catalog) - Keys(attempted)
  {
    hide ScanAll, Select, Filter, NextModel, Deliver, Keys, Key;
    var a := w.attempt(attempted);
    var scan := ScanAll(a.events, |attempted| == 1);
    var next := NextModel(w, a, scan.meaningful, attempted);
    ScanKeepsTalk(a.events, |attempted| == 1);
    if next.None? {
      SelectDelivered(scan, a.end, TALK);
    } else {
      NextModelIsFresh(w, a, scan.meaningful, attempted);
      KeysAppend(attempted, next.value);
      OnlyTheLastAttemptTalks(w, attempted + [next.value]);
      var rest := RunFrom(w, attempted + [next.value]);
      SelectAppends(ShowAll(scan.shown), rest.delivered, TALK);
      SelectShown(scan.shown, TALK);
      FailsOverInSilence(w, a, scan.meaningful, attempted);
      assert [] + Select(rest.delivered, TALK) == Select(rest.delivered, TALK);
    }
  }

  function AttemptAt(w: World, all: seq<Model>, k: nat): Attempt
    requires k <= |all|
  {
    w.attempt(all[..k])
  }

  /** What the attempts given up have let through, from the n-th on. */
  ghost function Leaked(w: World, all: seq<Model>, n: nat): seq<Event>
    decreases |all| - n
  {
    if n >= |all| then [] else Filter(AttemptAt(w, all, n).events, UNGUARDED) + Leaked(w, all, n + 1)
  }

  ghost predicate HoldsUnguarded(a: Attempt) { exists i :: 0 <= i < |a.events| && IsUnguarded(a.events[i]) }

  ghost predicate NoneUnguarded(w: World, all: seq<Model>, n: nat) {
    forall k :: n <= k < |all| ==> !HoldsUnguarded(AttemptAt(w, all, k))
  }

  lemma {:induction false} LeakedMeans(w: World, all: seq<Model>, n: nat)
    ensures Leaked(w, all, n) == [] <==> NoneUnguarded(w, all, n)
    decreases |all| - n
  {
    hide Filter, HoldsUnguarded, AttemptAt;
    if n < |all| {
      LeakedMeans(w, all, n + 1);
      UnguardedMeans(AttemptAt(w, all, n));
    }
  }

  lemma UnguardedMeans(a: Attempt)
    ensures Filter(a.events, UNGUARDED) == [] <==> !HoldsUnguarded(a)
  {
    FilterEmpty(a.events, UNGUARDED);
  }

  lemma {:induction false} FilterEmpty(events: seq<Event>, keep: Event -> bool)
    ensures Filter(events, keep) == [] <==> forall i :: 0 <= i < |events| ==> !keep(events[i])
  {
    if events != [] { FilterEmpty(events[..|events| - 1], keep); }
  }

  /** All that reaches the reader: the streamed starts and tool results of the attempts
      given up, then what the last attempt alone delivers. */
  lemma {:induction false} WhatIsSeen(w: World, attempted: seq<Model>)
    requires attempted != []
    ensures var r := RunFrom(w, attempted);
      var last := w.attempt(r.attempted);
      && attempted <= r.attempted
      && Select(r.delivered, CONTENT) == Leaked(w, r.attempted, |attempted|)
           + Select(Deliver(ScanAll(last.events, |r.attempted| == 1), last.end), CONTENT)
    decreases Keys(w.catalog) - Keys(attempted)
  {
    hide ScanAll, Select, Filter, NextModel, Deliver, Keys, Key;
    var a := w.attempt(attempted);
    var scan := ScanAll(a.events, |attempted| == 1);
    var next := NextModel(w, a, scan.meaningful, attempted);
    if next.Some? {
      NextModelIsFresh(w, a, scan.meaningful, attempted);
      KeysAppend(attempted, next.value);
      WhatIsSeen(w, attempted + [next.value]);
      var rest := RunFrom(w, attempted + [next.value]);
      assert rest.attempted[..|attempted|] == attempted;
      SelectAppends(ShowAll(scan.shown), rest.delivered, CONTENT);
      SelectShown(scan.shown, CONTENT);
      FailsOverInSilence(w, a, scan.meaningful, attempted);
      ScanShowsUnguarded(a.events, |attempted| == 1);
    }
  }

  /** An attempt is only given up if nothing meaningful happened in it. */
  lemma {:induction false} GivenUpIsIdle(w: World, attempted: seq<Model>, k: nat)
    requires attempted != [] && |attempted| <= k < |RunFrom(w, attempted).attempted|
    ensures attempted <= RunFrom(w, attempted).attempted
    ensures Idle(AttemptAt(w, RunFrom(w, attempted).attempted, k).events)
    decreases Keys(w.catalog) - Keys(attempted)
  {
    hide ScanAll, NextModel, Deliver, Keys, Key, Idle;
    var a := w.attempt(attempted);
    var scan := ScanAll(a.events, |attempted| == 1);
    var next := NextModel(w, a, scan.meaningful, attempted);
    if next.Some? {
      NextModelIsFresh(w, a, scan.meaningful, attempted);
      KeysAppend(attempted, next.value);
      WhatIsSeen(w, attempted + [next.value]);
      assert RunFrom(w, attempted).attempted[..|attempted|] == attempted;
      FailsOverInSilence(w, a, scan.meaningful, attempted);
      HeldBack(a.events, |attempted| == 1);
      if k > |attempted| { GivenUpIsIdle(w, attempted + [next.value], k); }
    }
  }

  /** Of the content, exactly the last attempt's is seen in a run that ends normally,
      once each and in order, if and only if no attempt given up held a streamed start or
      a tool result and in the last one none overtakes an event held back. */
  lemma OnlyTheLastAttemptIsSeen(w: World, attempted: seq<Model>)
    requires attempted != []
    ensures var r := RunFrom(w, attempted);
      var last := w.attempt(r.attempted);
      last.end.AgentEnd? ==>
        (Select(r.delivered, CONTENT) == Filter(last.events, CONTENT)
         <==> NoneUnguarded(w, r.attempted, |attempted|) && !Overtakes(last.events))
  {
    hide RunFrom, ScanAll, Select, Filter, Deliver, Overtakes, NoneUnguarded, Leaked;
    var r := RunFrom(w, attempted);
    var last := w.attempt(r.attempted);
    var scan := ScanAll(last.events, |r.attempted| == 1);
    WhatIsSeen(w, attempted);
    SelectDelivered(scan, last.end, CONTENT);
    ScanKeepsOrder(last.events, |r.attempted| == 1);
    LeakedMeans(w, r.attempted, |attempted|);
  }

  /** However the run ends, nothing but what the last attempt alone would deliver is
      seen exactly when no attempt given up held a streamed start or a tool result. */
  lemma NothingLeaks(w: World, attempted: seq<Model>)
    requires attempted != []
    ensures var r := RunFrom(w, attempted);
      var last := w.attempt(r.attempted);
      Select(r.delivered, CONTENT) == Select(Deliver(ScanAll(last.events, |r.attempted| == 1), last.end), CONTENT)
      <==> NoneUnguarded(w, r.attempted, |attempted|)
  {
    hide RunFrom, ScanAll, Select, Filter, Deliver, NoneUnguarded, Leaked;
    WhatIsSeen(w, attempted);
    LeakedMeans(w, RunFrom(w, attempted).attempted, |attempted|);
  }

  lemma FailsOverInSilence(w: World, a: Attempt, meaningful: bool, attempted: seq<Model>)
    requires attempted != []
    ensures NextModel(w, a, meaningful, attempted).Some? ==> !meaningful
  {
  }

  // Prefix events are never buffered, and are shown by the first attempt only.
  lemma {:induction false} ScanKeepsPrefix(events: seq<Event>, first: bool)
    ensures var s := ScanAll(events, first);
      && Filter(s.buffered, PREFIX) == []
      && Filter(s.shown, PREFIX) == if first then Filter(events, PREFIX) else []
  {
    hide IsContent, IsMeaningful, IsFailureCandidate, IsAttemptPrefix, Filter;
    if events == [] {
      NothingToFilter(PREFIX);
    } else {
      var n := |events| - 1;
      var e := events[n];
      ScanKeepsPrefix(events[..n], first);
      var s := ScanAll(events[..n], first);
      assert events == events[..n] + [e];
      FilterAppends(events[..n], [e], PREFIX);
      FilterOne(e, PREFIX);
      Classified(e);
      FilterAppends(s.shown, s.buffered, PREFIX);
      FilterAppends(s.shown + s.buffered, [e], PREFIX);
      FilterAppends(s.shown, [e], PREFIX);
      FilterAppends(s.buffered, [e], PREFIX);
      NothingToFilter(PREFIX);
    }
  }

  /** Agent starts, turn starts and user messages are shown by the first attempt alone,
      however many follow: the opening is not repeated, but after a failover every later
      turn start and every message steered in is dropped as well. */
  lemma {:induction false} OpeningIsSeenOnce(w: World, attempted: seq<Model>)
    requires attempted != []
    ensures Select(RunFrom(w, attempted).delivered, PREFIX)
         == if |attempted| == 1 then Filter(w.attempt(attempted).events, PREFIX) else []
    decreases Keys(w.catalog) - Keys(attempted)
  {
    hide ScanAll, Select, Filter, NextModel, Deliver, Keys, Key;
    var a := w.attempt(attempted);
    var scan := ScanAll(a.events, |attempted| == 1);
    var next := NextModel(w, a, scan.meaningful, attempted);
    ScanKeepsPrefix(a.events, |attempted| == 1);
    if next.None? {
      SelectDelivered(scan, a.end, PREFIX);
    } else {
      NextModelIsFresh(w, a, scan.meaningful, attempted);
      KeysAppend(attempted, next.value);
      OpeningIsSeenOnce(w, attempted + [next.value]);
      var rest := RunFrom(w, attempted + [next.value]);
      SelectAppends(ShowAll(scan.shown), rest.delivered, PREFIX);
      SelectShown(scan.shown, PREFIX);
    }
  }

  // ---------------------------------------------------------------- it ends

  ghost predicate DistinctKeys(models: seq<Model>) {
    forall i, j :: 0 <= i < j < |models| ==> Key(models[i]) != Key(models[j])
  }

  lemma {:induction false} AttemptsAreDistinct(w: World, attempted: seq<Model>)
    requires attempted != [] && DistinctKeys(attempted)
    requires forall i :: 1 <= i < |attempted| ==> Key(attempted[i]) in Keys(w.catalog)
    ensures var all := RunFrom(w, attempted).attempted;
      && attempted <= all && DistinctKeys(all)
      && forall i :: 1 <= i < |all| ==> Key(all[i]) in Keys(w.catalog)
    decreases Keys(w.catalog) - Keys(attempted)
  {
    hide ScanAll, NextModel, Deliver, Key;
    var a := w.attempt(attempted);
    var scan := ScanAll(a.events, |attempted| == 1);
    var next := NextModel(w, a, scan.meaningful, attempted);
    if next.Some? {
      NextModelIsFresh(w, a, scan.meaningful, attempted);
      KeysAppend(attempted, next.value);
      forall i | 0 <= i < |attempted| ensures Key(attempted[i]) in Keys(attempted) {
      }
      AttemptsAreDistinct(w, attempted + [next.value]);
    }
  }

  lemma {:induction false} KeysAtMost(models: seq<Model>)
    ensures |Keys(models)| <= |models|
  {
    hide Key;
    if models != [] {
      var n := |models| - 1;
      KeysAtMost(models[..n]);
      KeysAppend(models[..n], models[n]);
      assert models[..n] + [models[n]] == models;
    }
  }

  lemma {:induction false} DistinctKeysCount(models: seq<Model>)
    requires DistinctKeys(models)
    ensures |Keys(models)| == |models|
  {
    hide Key;
    if models != [] {
      var n := |models| - 1;
      DistinctKeysCount(models[..n]);
      KeysAppend(models[..n], models[n]);
      assert models[..n] + [models[n]] == models;
      assert Key(models[n]) !in Keys(models[..n]);
    }
  }

  lemma SubsetCount(a: set<string>, b: set<string>)
    requires a <= b
    ensures |a| <= |b|
  {
    var rest := b - a;
    assert a + rest == b;
  }

  /** Failover ends: with a catalog of n models a run makes at most n + 1 attempts,
      each with another model, and at most n if it starts with one of the catalog's. */
  lemma AttemptsAreBounded(w: World, start: Model)
    ensures var all := RunFrom(w, [start]).attempted;
      && DistinctKeys(all)
      && |all| <= |w.catalog| + 1
      && (Key(start) in Keys(w.catalog) ==> |all| <= |w.catalog|)
  {
    hide RunFrom, Key, Keys;
    AttemptsAreDistinct(w, [start]);
    var all := RunFrom(w, [start]).attempted;
    DistinctKeysCount(all);
    KeysAtMost(w.catalog);
    AllFromCatalog(w, all);
    SubsetCount(Keys(all), Keys(w.catalog) + {Key(start)});
    if Key(start) in Keys(w.catalog) {
      assert Keys(w.catalog) + {Key(start)} == Keys(w.catalog);
    }
  }

  lemma AllFromCatalog(w: World, all: seq<Model>)
    requires all != [] && forall i :: 1 <= i < |all| ==> Key(all[i]) in Keys(w.catalog)
    ensures Keys(all) <= Keys(w.catalog) + {Key(all[0])}
  {
    hide Key;
    forall k | k in Keys(all) ensures k in Keys(w.catalog) + {Key(all[0])} {
      var m :| m in all && Key(m) == k;
      var i :| 0 <= i < |all| && all[i] == m;
    }
  }

  // ---------------------------------------------------------------- the loop

  /** Reads attempts until one is kept; the order of pushes is the order delivered. */
  method Forward(w: World, start: Model) returns (delivered: seq<Delivered>, attempted: seq<Model>)
    ensures Result(delivered, attempted) == RunFrom(w, [start])
  {
    hide NextModel, ScanEvent, Key, Keys;
    delivered, attempted := [], [start];
    while true
      invariant attempted != []
      invariant RunFrom(w, [start])
        == Result(delivered + RunFrom(w, attempted).delivered, RunFrom(w, attempted).attempted)
      decreases Keys(w.catalog) - Keys(attempted)
    {
      var a := w.attempt(attempted);
      var scan := Scan([], [], false);
      for k := 0 to |a.events|
        invariant scan == ScanAll(a.events[..k], |attempted| == 1)
      {
        assert a.events[..k + 1][..k] == a.events[..k];
        scan := ScanEvent(scan, a.events[k], |attempted| == 1);
      }
      assert a.events[..|a.events|] == a.events;
      var next := NextModel(w, a, scan.meaningful, attempted);
      if next.None? {
        delivered := delivered + Deliver(scan, a.end);
        return;
      }
      NextModelIsFresh(w, a, scan.meaningful, attempted);
      KeysAppend(attempted, next.value);
      ghost var rest := RunFrom(w, attempted + [next.value]);
      assert delivered + (ShowAll(scan.shown) + rest.delivered) == (delivered + ShowAll(scan.shown)) + rest.delivered;
      delivered := delivered + ShowAll(scan.shown);
      attempted := attempted + [next.value];
    }
  }
}
