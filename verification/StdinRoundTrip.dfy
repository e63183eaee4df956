// Keys and pastes survive being printed, cut into reads and read again
// (internal/tui/stdin_buffer.go), exactly when the cuts are fair.

module StdinRoundTrip {
  import opened Options
  import opened Utf8
  import opened ByteSearch
  import opened InputSequences
  import opened KeyLists
  import opened StdinBuffer
  import opened StdinSessions

  // ---------------------------------------------------------------- a read of keys

  // Places within the next keys, seen from the keys that are left.
  lemma ClashLeft(keys: seq<Bytes>, m: nat, p: int)
    requires Typable(keys) && m <= |keys| && p > Offset(keys, m)
    ensures ClashPlace(keys, p) <==> ClashPlace(keys[m..], p - Offset(keys, m))
  {
    hide Typable, Offset;
    if i :| Clash(keys, i) && p == Offset(keys, i) { ClashMoves(keys, m, i); }
    if i :| Clash(keys[m..], i) && p - Offset(keys, m) == Offset(keys[m..], i) { ClashMovesBack(keys, m, i); }
  }

  lemma ClashMoves(keys: seq<Bytes>, m: nat, i: int)
    requires Typable(keys) && m <= |keys| && Clash(keys, i)
    ensures 0 < i < |keys|
    ensures Offset(keys, i) > Offset(keys, m) ==>
      i > m && Clash(keys[m..], i - m) && Offset(keys, i) == Offset(keys, m) + Offset(keys[m..], i - m)
  {
    hide Typable, Offset;
    if i <= m {
      OffsetsGrow(keys, i, m);
    } else {
      SuffixClash(keys, m, i);
      OffsetSplits(keys, m, i);
    }
  }

  lemma ClashMovesBack(keys: seq<Bytes>, m: nat, i: int)
    requires m <= |keys| && Clash(keys[m..], i)
    ensures 0 < i < |keys| - m && Clash(keys, m + i) && Offset(keys, m + i) == Offset(keys, m) + Offset(keys[m..], i)
  {
    hide Offset;
    SuffixClash(keys, m, m + i);
    OffsetSplits(keys, m, m + i);
  }

  // The follower of a lone escape lies behind the read unless it is left as well.
  lemma EscapeLeft(keys: seq<Bytes>, m: nat, held: nat, p: int)
    requires Typable(keys) && m <= |keys| && (m > 0 && keys[m - 1] == [ESC] ==> held > 1)
    requires p > Offset(keys, m) + held
    ensures EscapePlace(keys, p) <==> EscapePlace(keys[m..], p - Offset(keys, m))
  {
    hide Typable, Offset;
    if i :| LoneEscape(keys, i) && p == Offset(keys, i + 1) + 1 { EscapeMoves(keys, m, held, i); }
    if i :| LoneEscape(keys[m..], i) && p - Offset(keys, m) == Offset(keys[m..], i + 1) + 1 { EscapeMovesBack(keys, m, i); }
  }

  lemma EscapeMoves(keys: seq<Bytes>, m: nat, held: nat, i: int)
    requires Typable(keys) && m <= |keys| && (m > 0 && keys[m - 1] == [ESC] ==> held > 1) && LoneEscape(keys, i)
    ensures 0 <= i < |keys| - 1
    ensures Offset(keys, i + 1) + 1 > Offset(keys, m) + held ==>
      i >= m && LoneEscape(keys[m..], i - m) && Offset(keys, i + 1) == Offset(keys, m) + Offset(keys[m..], i + 1 - m)
  {
    hide Typable, Offset;
    if i < m {
      OffsetsGrow(keys, i + 1, m);
    } else {
      SuffixClash(keys, m, i);
      OffsetSplits(keys, m, i + 1);
    }
  }

  lemma EscapeMovesBack(keys: seq<Bytes>, m: nat, i: int)
    requires m <= |keys| && LoneEscape(keys[m..], i)
    ensures 0 <= i < |keys| - m - 1 && LoneEscape(keys, m + i) && Offset(keys, m + i + 1) == Offset(keys, m) + Offset(keys[m..], i + 1)
  {
    hide Offset;
    SuffixClash(keys, m, m + i);
    OffsetSplits(keys, m, m + i + 1);
  }

  lemma PlacesLeft(keys: seq<Bytes>, first: Extracted, u: Bytes, m: nat, n: nat, p: int)
    requires Typable(keys) && Gives(keys, first, u, m) && n == Offset(keys, m) + |first.rest| && p > n
    ensures ClashPlace(keys, p) <==> ClashPlace(keys[m..], p - Offset(keys, m))
    ensures EscapePlace(keys, p) <==> EscapePlace(keys[m..], p - Offset(keys, m))
  {
    hide Typable, ClashPlace, EscapePlace, Concat, Offset;
    ClashLeft(keys, m, p);
    EscapeLeft(keys, m, |first.rest|, p);
  }

  // No place to cut at has been passed by what is held back.
  lemma NonePassed(keys: seq<Bytes>, first: Extracted, u: Bytes, m: nat, p: int)
    requires Typable(keys) && Gives(keys, first, u, m) && ClashPlace(keys[m..], p)
    ensures p > |first.rest|
  {
    hide Typable;
    SuffixIsTypable(keys, m);
    var i :| Clash(keys[m..], i) && p == Offset(keys[m..], i);
    OffsetsGrow(keys[m..], 1, i);
    OffsetSplits(keys[m..], 0, 1);
    assert keys[m..][0] == keys[m] && Offset(keys[m..], 1) == |keys[m]|;
  }

  lemma TypedCarries(x: Session, keys: seq<Bytes>, first: Extracted, u: Bytes, m: nat, n: nat)
    requires SessionOk(x) && keys == NextTyped(x) && Gives(keys, first, u, m)
    requires n == Offset(keys, m) + |first.rest| && n <= |Concat(keys)|
    ensures Carries(x, n, Retyped(x, keys[m..]), |first.rest|)
  {
    hide Gives, SessionOk, MustCut, MustNotCut, Typable, TypedOk, ClashPlace, EscapePlace;
    NextIsTypable(x);
    GivenIsShort(keys, first, u, m);
    var y, d := Retyped(x, keys[m..]), Offset(keys, m);
    RetypedParts(x, keys[m..]);
    ConcatSplits(keys, m);
    forall p | p > n ensures MustCut(x, p) <==> MustCut(y, p - d) {
      PlacesLeft(keys, first, u, m, n, p);
      PlacesUnfold(x, p);
      PlacesUnfold(y, p - d);
    }
    forall p | p > n ensures MustNotCut(x, p) <==> MustNotCut(y, p - d) {
      PlacesLeft(keys, first, u, m, n, p);
      PlacesUnfold(x, p);
      PlacesUnfold(y, p - d);
    }
    forall p | MustCut(y, p) ensures p > |first.rest| {
      PlacesUnfold(y, p);
      if ClashPlace(keys[m..], p) {
        NonePassed(keys, first, u, m, p);
      } else {
        RestPlaceIsPositive(x, p - BurstSize(y));
      }
    }
  }

  lemma GivenIsShort(keys: seq<Bytes>, first: Extracted, u: Bytes, m: nat)
    requires Gives(keys, first, u, m)
    ensures m <= |keys| && |first.rest| <= |Concat(keys[m..])|
  {
  }

  lemma PlacesUnfold(x: Session, p: int)
    ensures MustCut(x, p) <==> ClashPlace(NextTyped(x), p) || (x.bursts != [] && MustCut(Rest(x), p - BurstSize(x)))
    ensures MustNotCut(x, p) <==> EscapePlace(NextTyped(x), p) || (x.bursts != [] && MustNotCut(Rest(x), p - BurstSize(x)))
  {
    hide ClashPlace, EscapePlace;
  }

  lemma RestPlaceIsPositive(x: Session, p: int)
    requires SessionOk(x) && x.bursts != [] && MustCut(Rest(x), p)
    ensures p > 0
  {
    hide SessionOk, MustCut;
    NextIsTypable(x);
    PlacesAreInside(Rest(x), p);
  }

  // Before the next paste's end a read goes well when its keys do.
  lemma WellWithinBurst(x: Session, n: int)
    requires x.bursts != [] ==> n < BurstSize(x)
    ensures GoesWell(x, n) <==> ReadsWell(NextTyped(x), n)
  {
    hide ReadsWell;
  }

  // The text between the cut and the end of the keys.
  lemma CutOfKeys(typed: Bytes, after: Bytes, b: Bytes, coming: Bytes)
    requires typed + after == b + coming && |b| <= |typed|
    ensures typed == b + typed[|b|..] && coming == typed[|b|..] + after
  {
    assert (b + coming)[..|typed|] == typed;
    assert (typed + after)[|b|..] == typed[|b|..] + after && (b + coming)[|b|..] == coming;
    assert typed[..|b|] == (typed + after)[..|b|] == (b + coming)[..|b|] == b;
  }

  lemma DrainsToKeys(st: State)
    requires !st.pasteMode && st.pasteBuffer == [] && IndexOf(st.buffer, PASTE_START) < 0
    ensures var first, keys := Extract(st.buffer), Emit(st.pending, Extract(st.buffer).sequences);
      Drain(st) == Output(keys.events, State(first.rest, false, [], keys.pending))
  {
    hide Extract, Emit, IndexOf;
  }

  /** Keys only: the read ends before the next paste marker begins. */
  lemma DrainTyped(st: State, x: Session, coming: Bytes) returns (rest: Session)
    requires !st.pasteMode && st.pasteBuffer == [] && SessionOk(x) && PendingOk(st.pending)
    requires Printed(x) == st.buffer + coming
    requires |st.buffer| <= |Concat(NextTyped(x))| && IndexOf(st.buffer, PASTE_START) < 0
    ensures Outcome(Drain(st), Events(st.pending, x), x, |st.buffer|, rest, coming)
  {
    hide Extract, Emit, IndexOf, Printed, Events, Drain, SessionOk, GoesWell, Accounts, Carries, Strays, Gives, Misreads, ReadsWell, Typable, TypedOk, Concat, EventsAfterTyped, AfterTyped, PendingOk;
    var b, keys := st.buffer, NextTyped(x);
    NextIsTypable(x);
    PrintedParts(x);
    CutOfKeys(Concat(keys), AfterTyped(x), b, coming);
    var u := Concat(keys)[|b|..];
    WellWithinBurst(x, |b|);
    var m := PartRead(keys, b, u);
    if ReadsWell(keys, |b|) {
      rest := TypedWell(st, x, coming, u, m);
    } else {
      TypedAstray(st, x, m);
      rest := x;
    }
  }

  lemma TypedAstray(st: State, x: Session, m: nat)
    requires !st.pasteMode && st.pasteBuffer == [] && PendingOk(st.pending) && IndexOf(st.buffer, PASTE_START) < 0
    requires Misreads(Extract(st.buffer).sequences, NextTyped(x), m)
    ensures Strays(Drain(st).events, Events(st.pending, x))
  {
    hide Extract, Emit, IndexOf, Events, Drain, Strays, Misreads, EventsAfterTyped, PendingOk;
    DrainsToKeys(st);
    EventsParts(x, st.pending);
    MisreadShows(st.pending, Extract(st.buffer).sequences, NextTyped(x), m);
    var e := Emit(st.pending, Extract(st.buffer).sequences).events;
    StraysExtends(e, Emit(st.pending, NextTyped(x)).events, [], EventsAfterTyped(x));
    assert e + [] == e;
  }

  lemma TypedWell(st: State, x: Session, coming: Bytes, u: Bytes, m: nat) returns (rest: Session)
    requires !st.pasteMode && st.pasteBuffer == [] && SessionOk(x) && PendingOk(st.pending)
    requires Concat(NextTyped(x)) == st.buffer + u && coming == u + AfterTyped(x) && IndexOf(st.buffer, PASTE_START) < 0
    requires Gives(NextTyped(x), Extract(st.buffer), u, m)
    ensures Accounts(Drain(st), Events(st.pending, x), rest, coming)
    ensures Carries(x, |st.buffer|, rest, Held(Drain(st).state))
  {
    hide Extract, Emit, IndexOf, Printed, Events, Drain, SessionOk, Carries, Typable, TypedOk, Concat, EventsAfterTyped, AfterTyped, PendingOk;
    var b, keys, first := st.buffer, NextTyped(x), Extract(st.buffer);
    DrainsToKeys(st);
    rest := Retyped(x, keys[m..]);
    GivenSize(keys, first, b, u, m);
    TypedCarries(x, keys, first, u, m, |b|);
    KeysLeft(x, keys, m);
    RetypedParts(x, keys[m..]);
    PrintedParts(rest);
    JoinAssociates(first.rest, u, AfterTyped(x));
    HeldHasNoMarker(b);
    RestIsStuck(b);
    PendingStaysOk(st.pending, first.sequences);
    KeysEmitted(st.pending, x, m);
    NonePassedIn(x, |b|, rest, |first.rest|);
  }

  lemma NonePassedIn(x: Session, n: int, y: Session, held: int)
    requires Carries(x, n, y, held)
    ensures forall p :: MustCut(y, p) ==> p > held
  {
    hide MustCut, MustNotCut;
  }

  lemma GivenSize(keys: seq<Bytes>, first: Extracted, b: Bytes, u: Bytes, m: nat)
    requires Gives(keys, first, u, m) && Concat(keys) == b + u
    ensures m <= |keys| && |b| == Offset(keys, m) + |first.rest| && |b| <= |Concat(keys)|
  {
    hide Concat;
    ConcatSplits(keys, m);
  }

  // Keys still to be read are keys of a session.
  lemma KeysLeft(x: Session, keys: seq<Bytes>, m: nat)
    requires SessionOk(x) && keys == NextTyped(x) && m <= |keys|
    ensures TypedOk(keys[m..])
  {
    hide Typable, IndexOf, SessionOk, Concat;
    NextIsTypable(x);
    SuffixIsTypable(keys, m);
    ConcatSplits(keys, m);
    SuffixHasNoMarker(Concat(keys), PASTE_START, Offset(keys, m));
    assert Concat(keys)[Offset(keys, m)..] == Concat(keys[m..]);
  }

  lemma HeldHasNoMarker(b: Bytes)
    requires IndexOf(b, PASTE_START) < 0
    ensures IndexOf(Extract(b).rest, PASTE_START) < 0
  {
    hide IndexOf, Extract;
    RestIsSuffix(b);
    SuffixHasNoMarker(b, PASTE_START, |b| - |Extract(b).rest|);
  }

  lemma KeysEmitted(pending: Option<int>, x: Session, m: nat)
    requires m <= |NextTyped(x)|
    ensures var keys := NextTyped(x);
      var first := Emit(pending, keys[..m]);
      first.events + Events(first.pending, Retyped(x, keys[m..])) == Events(pending, x)
  {
    hide Emit, Events, EventsAfterTyped;
    var keys := NextTyped(x);
    var first := Emit(pending, keys[..m]);
    assert keys[..m] + keys[m..] == keys;
    EmitInTwoParts(pending, keys[..m], keys[m..]);
    EventsParts(x, pending);
    RetypedParts(x, keys[m..]);
    EventsParts(Retyped(x, keys[m..]), first.pending);
    var later := Emit(first.pending, keys[m..]).events;
    assert first.events + (later + EventsAfterTyped(x)) == (first.events + later) + EventsAfterTyped(x);
  }

  // ---------------------------------------------------------------- a read into the marker

  // All keys of a run have come: they are read right or one of them is misread.
  lemma WholeRunRead(x: Session, n: int) returns (m: nat)
    requires SessionOk(x) && n >= |Concat(NextTyped(x))|
    ensures var keys := NextTyped(x);
      if ReadsWell(keys, n) then Extract(Concat(keys)) == Extracted(keys, []) else Misreads(Extract(Concat(keys)).sequences, keys, m)
  {
    hide Extract, SessionOk, Gives, Misreads, ReadsWell, Typable, TypedOk, Concat, NoClash;
    var keys := NextTyped(x);
    NextIsTypable(x);
    WholeReadGoesWell(keys, n);
    WholeReadGoesWell(keys, |Concat(keys)|);
    assert Concat(keys) + [] == Concat(keys);
    m := PartRead(keys, Concat(keys), []);
    if ReadsWell(keys, n) { AllAreGiven(keys, Extract(Concat(keys)), m); }
  }

  // Past the keys all places are in the rest of the session.
  lemma UntypedPlaces(x: Session, n: int)
    requires SessionOk(x) && x.bursts != [] && n >= |Concat(NextTyped(x))|
    ensures var d := |Concat(NextTyped(x))|;
      forall p :: p > n ==> (MustCut(x, p) <==> MustCut(Retyped(x, []), p - d)) && (MustNotCut(x, p) <==> MustNotCut(Retyped(x, []), p - d))
  {
    hide SessionOk, MustCut, MustNotCut, Typable, TypedOk, ClashPlace, EscapePlace, Concat;
    NextIsTypable(x);
    var y, d := Retyped(x, []), |Concat(NextTyped(x))|;
    RetypedParts(x, []);
    NothingTyped();
    NoPlaces();
    forall p | p > n ensures (MustCut(x, p) <==> MustCut(y, p - d)) && (MustNotCut(x, p) <==> MustNotCut(y, p - d)) {
      PlacesOfRun(NextTyped(x), p);
      PlacesUnfold(x, p);
      PlacesUnfold(y, p - d);
    }
  }

  lemma UntypedCarries(x: Session, n: int, held: int)
    requires SessionOk(x) && x.bursts != [] && n >= |Concat(NextTyped(x))| && held == n - |Concat(NextTyped(x))|
    requires held < |x.bursts[0].pasted| + 12
    ensures Carries(x, n, Retyped(x, []), held)
  {
    hide SessionOk, MustCut, MustNotCut, ClashPlace, EscapePlace, Concat;
    UntypedPlaces(x, n);
    var y := Retyped(x, []);
    RetypedParts(x, []);
    NothingTyped();
    NoPlaces();
    forall p | MustCut(y, p) ensures p > held {
      PlacesUnfold(y, p);
      RestPlaceIsPositive(x, p - BurstSize(y));
    }
  }

  lemma NoPlaces()
    ensures forall p :: !ClashPlace([], p) && !EscapePlace([], p)
  {
  }

  // The read so far as part of the marker.
  lemma CutOfMarker(typed: Bytes, marker: Bytes, after: Bytes, b: Bytes, coming: Bytes)
    requires |marker| == 6 && typed + (marker + after) == b + coming && |typed| < |b| < |typed| + 6
    ensures var v := marker[..|b| - |typed|]; b == typed + v && b[|typed|..] == v && v + coming == marker + after
  {
    var k := |b| - |typed|;
    var whole := typed + (marker + after);
    assert whole[..|b|] == typed + marker[..k] && (b + coming)[..|b|] == b;
    assert whole[|typed|..] == marker + after && (b + coming)[|typed|..] == b[|typed|..] + coming;
  }

  /** The read ends inside the next paste marker. */
  lemma DrainMarker(st: State, x: Session, coming: Bytes) returns (rest: Session)
    requires !st.pasteMode && st.pasteBuffer == [] && SessionOk(x) && PendingOk(st.pending)
    requires Printed(x) == st.buffer + coming
    requires x.bursts != [] && |Concat(NextTyped(x))| < |st.buffer| < |Concat(NextTyped(x))| + 6
    requires IndexOf(st.buffer, PASTE_START) < 0
    ensures Outcome(Drain(st), Events(st.pending, x), x, |st.buffer|, rest, coming)
  {
    hide Extract, Emit, IndexOf, Printed, Events, Drain, SessionOk, GoesWell, Accounts, Carries, Strays, Misreads, ReadsWell, Typable, TypedOk, Concat, PendingOk, EventsAfterTyped;
    var b, keys := st.buffer, NextTyped(x);
    PrintedParts(x);
    CutOfMarker(Concat(keys), PASTE_START, x.bursts[0].pasted + PASTE_END + Printed(Rest(x)), b, coming);
    var v := PASTE_START[..|b| - |Concat(keys)|];
    WellWithinBurst(x, |b|);
    var m := WholeRunRead(x, |b|);
    KeysThenMarker(Concat(keys), |v|);
    if ReadsWell(keys, |b|) {
      rest := MarkerWell(st, x, coming, v);
    } else {
      MisreadsExtends(Extract(Concat(keys)).sequences, Extract(Extract(Concat(keys)).rest + v).sequences, keys, m);
      TypedAstray(st, x, m);
      rest := x;
    }
  }

  // An escape never introduces anything, so a marker splits no key before it.
  lemma KeysThenMarker(typed: Bytes, j: nat)
    requires 0 < j < 6
    ensures var v := PASTE_START[..j];
      Extract(typed + v) == Combine(Extract(typed), Extract(Extract(typed).rest + v)) && Extract(v) == Extracted([], v)
  {
    hide Extract;
    ExtractInTwoParts(typed, PASTE_START[..j]);
    PartialMarkerWaits(j);
  }

  lemma MarkerWell(st: State, x: Session, coming: Bytes, v: Bytes) returns (rest: Session)
    requires !st.pasteMode && st.pasteBuffer == [] && SessionOk(x) && PendingOk(st.pending) && x.bursts != []
    requires var typed := Concat(NextTyped(x));
      && st.buffer == typed + v && st.buffer[|typed|..] == v && 0 < |v| < 6 && IndexOf(st.buffer, PASTE_START) < 0
      && v + coming == AfterTyped(x) && Extract(typed) == Extracted(NextTyped(x), []) && Extract(v) == Extracted([], v)
      && Extract(st.buffer) == Combine(Extract(typed), Extract(Extract(typed).rest + v))
    ensures Accounts(Drain(st), Events(st.pending, x), rest, coming)
    ensures Carries(x, |st.buffer|, rest, Held(Drain(st).state))
  {
    hide Extract, Emit, IndexOf, Printed, Events, Drain, SessionOk, Carries, Typable, TypedOk, Concat, PendingOk, EventsAfterTyped;
    var keys := NextTyped(x);
    assert [] + v == v && keys + [] == keys;
    DrainsToKeys(st);
    SuffixHasNoMarker(st.buffer, PASTE_START, |Concat(keys)|);
    rest := Retyped(x, []);
    UntypedCarries(x, |st.buffer|, |v|);
    NonePassedIn(x, |st.buffer|, rest, |v|);
    NothingTyped();
    RetypedParts(x, []);
    var pending := Emit(st.pending, keys).pending;
    NothingHappens(pending, rest);
    EventsParts(x, st.pending);
    PendingStaysOk(st.pending, keys);
  }

  // ---------------------------------------------------------------- pastes

  lemma BurstsWell(x: Session, n: int)
    requires SessionOk(x) && x.bursts != [] && n >= |Concat(NextTyped(x))|
    ensures GoesWell(x, n) <==> ReadsWell(NextTyped(x), n) && GoesWell(Retyped(x, []), n - |Concat(NextTyped(x))|)
  {
    hide ReadsWell, Concat, SessionOk, GoesWell;
    RetypedParts(x, []);
    NothingTyped();
    GoesWellUnfolds(x, n);
    GoesWellUnfolds(Retyped(x, []), n - |Concat(NextTyped(x))|);
    NoKeysReadWell(n - |Concat(NextTyped(x))|);
  }

  lemma NoKeysReadWell(n: int)
    ensures ReadsWell([], n)
  {
  }

  lemma NothingReadGoesWell(x: Session)
    ensures GoesWell(x, 0)
  {
  }

  // Two ways of reading the same bytes, of which one goes past the marker.
  lemma SplitAtMarker(text: Bytes, marker: Bytes, after: Bytes, b: Bytes, coming: Bytes)
    requires |marker| == 6 && |b| >= |text| + 6
    requires text + (marker + after) == b + coming
    ensures var b2 := b[|text| + 6..]; b == text + marker + b2 && after == b2 + coming && b[..|text|] == text
  {
    assert (text + (marker + after))[..|text| + 6] == text + marker;
    assert (b + coming)[..|text| + 6] == b[..|text| + 6];
    assert (text + (marker + after))[|text| + 6..] == after;
    assert (b + coming)[|text| + 6..] == b[|text| + 6..] + coming;
    assert (text + marker)[..|text|] == text;
  }

  lemma DrainsThroughMarker(st: State, typed: Bytes, b2: Bytes)
    requires !st.pasteMode && st.buffer == typed + PASTE_START + b2 && IndexOf(st.buffer, PASTE_START) == |typed|
    ensures Drain(st) == Prepend(Emit(st.pending, Extract(typed).sequences).events, Drain(State([], true, b2, None)))
  {
    hide Extract, Emit, IndexOf;
    assert st.buffer[..|typed|] == typed && st.buffer[|typed| + 6..] == b2;
  }

  /** The read reaches past the next paste marker. */
  lemma DrainThroughMarker(st: State, x: Session, coming: Bytes) returns (rest: Session)
    requires !st.pasteMode && st.pasteBuffer == [] && SessionOk(x) && PendingOk(st.pending)
    requires Printed(x) == st.buffer + coming
    requires x.bursts != [] && |st.buffer| >= |Concat(NextTyped(x))| + 6
    ensures Outcome(Drain(st), Events(st.pending, x), x, |st.buffer|, rest, coming)
    decreases |st.buffer| + |st.pasteBuffer|, 2
  {
    hide Extract, Emit, IndexOf, Printed, Events, Drain, SessionOk, GoesWell, Outcome, Strays, Misreads, ReadsWell, Typable, TypedOk, Concat, PendingOk, EventsAfterTyped;
    var b, keys := st.buffer, NextTyped(x);
    var typed := Concat(keys);
    var b2 := b[|typed| + 6..];
    PrintedParts(x);
    NextIsTypable(x);
    SplitAtMarker(typed, PASTE_START, x.bursts[0].pasted + PASTE_END + Printed(Rest(x)), b, coming);
    RunHasNoMarker(x);
    MarkerEndsText(typed, PASTE_START, b2);
    DrainsThroughMarker(st, typed, b2);
    EventsParts(x, st.pending);
    var m := WholeRunRead(x, |b|);
    BurstsWell(x, |b|);
    if ReadsWell(keys, |b|) {
      rest := ThroughWell(st, x, coming, b2);
    } else {
      MisreadShows(st.pending, Extract(typed).sequences, keys, m);
      StraysExtends(Emit(st.pending, Extract(typed).sequences).events, Emit(st.pending, keys).events,
                    Drain(State([], true, b2, None)).events, EventsAfterTyped(x));
      rest := x;
      Astray(Drain(st), Events(st.pending, x), x, |b|, rest, coming);
    }
  }

  lemma Astray(output: Output, expected: seq<Event>, x: Session, n: nat, rest: Session, coming: Bytes)
    requires !GoesWell(x, n) && Strays(output.events, expected)
    ensures Outcome(output, expected, x, n, rest, coming)
  {
    hide GoesWell, Strays, Accounts, Carries;
  }

  lemma RunHasNoMarker(x: Session)
    requires SessionOk(x)
    ensures IndexOf(Concat(NextTyped(x)), PASTE_START) < 0
  {
    hide IndexOf, SessionOk, Typable, Concat;
    NextIsTypable(x);
  }

  lemma ThroughWell(st: State, x: Session, coming: Bytes, b2: Bytes) returns (rest: Session)
    requires !st.pasteMode && SessionOk(x) && x.bursts != []
    requires var typed := Concat(NextTyped(x));
      && |st.buffer| == |typed| + 6 + |b2| && Extract(typed) == Extracted(NextTyped(x), [])
      && x.bursts[0].pasted + PASTE_END + Printed(Rest(x)) == b2 + coming
      && Drain(st) == Prepend(Emit(st.pending, Extract(typed).sequences).events, Drain(State([], true, b2, None)))
      && (GoesWell(x, |st.buffer|) <==> GoesWell(Retyped(x, []), 6 + |b2|))
    ensures Outcome(Drain(st), Events(st.pending, x), x, |st.buffer|, rest, coming)
    decreases |b2| + 6, 1
  {
    hide Extract, Emit, IndexOf, Printed, Events, Drain, SessionOk, GoesWell, Outcome, Typable, TypedOk, Concat, EventsAfterTyped, MustCut, MustNotCut;
    var next, y := State([], true, b2, None), Retyped(x, []);
    var keys := Emit(st.pending, NextTyped(x)).events;
    RetypedParts(x, []);
    NothingTyped();
    assert b2 + [] == b2;
    rest := DrainPaste(next, y, coming);
    NothingHappens(None, y);
    EventsParts(x, st.pending);
    OutcomePrepends(keys, Drain(next), EventsAfterTyped(x), y, 6 + |b2|, rest, coming);
    UntypedPlaces(x, |st.buffer|);
    OutcomeShifts(Drain(st), Events(st.pending, x), x, |st.buffer|, y, 6 + |b2|, rest, coming);
  }

  // Places agree beyond the read, so what carries on from one session does from the
  // other.
  lemma OutcomeShifts(output: Output, expected: seq<Event>, x: Session, n: nat, y: Session, m: nat, rest: Session, coming: Bytes)
    requires Outcome(output, expected, y, m, rest, coming) && (GoesWell(x, n) <==> GoesWell(y, m))
    requires forall p :: p > n ==> (MustCut(x, p) <==> MustCut(y, p - (n - m))) && (MustNotCut(x, p) <==> MustNotCut(y, p - (n - m)))
    ensures Outcome(output, expected, x, n, rest, coming)
  {
    hide GoesWell, Accounts, Strays, MustCut, MustNotCut;
    if GoesWell(x, n) {
      var held := Held(output.state);
      forall p | p > n ensures (MustCut(x, p) <==> MustCut(rest, p - (n - held))) && (MustNotCut(x, p) <==> MustNotCut(rest, p - (n - held))) {
        var q := p - (n - m);
        assert MustCut(y, q) <==> MustCut(rest, q - (m - held));
        assert MustNotCut(y, q) <==> MustNotCut(rest, q - (m - held));
      }
    }
  }

  /** A read that starts inside a paste. */
  lemma DrainPaste(st: State, x: Session, coming: Bytes) returns (rest: Session)
    requires st.pasteMode && SessionOk(x) && PendingOk(st.pending) && x.bursts != [] && x.bursts[0].typed == []
    requires x.bursts[0].pasted + PASTE_END + Printed(Rest(x)) == st.pasteBuffer + st.buffer + coming
    ensures Outcome(Drain(st), Events(st.pending, x), x, 6 + |st.pasteBuffer + st.buffer|, rest, coming)
    decreases |st.buffer| + |st.pasteBuffer| + 6, 0
  {
    hide Extract, Emit, IndexOf, Printed, Events, Drain, SessionOk, GoesWell, Outcome, Typable, TypedOk, Concat, EventsAfterTyped, MustCut, MustNotCut;
    var pasted, data := x.bursts[0].pasted, st.pasteBuffer + st.buffer;
    PasteHasNoEnd(x);
    MarkerEndsText(pasted, PASTE_END, Printed(Rest(x)));
    if |data| < |pasted| + 6 {
      rest := x;
      PasteGoesOn(st, x, coming);
    } else {
      var b2 := data[|pasted| + 6..];
      JoinAssociates(pasted, PASTE_END, Printed(Rest(x)));
      SplitAtMarker(pasted, PASTE_END, Printed(Rest(x)), data, coming);
      MarkerEndsText(pasted, PASTE_END, b2);
      PasteEnds(x, 6 + |data|);
      NextIsTypable(x);
      NothingHappens(st.pending, x);
      DrainsPaste(st, pasted, b2);
      var next := State(b2, false, [], None);
      if b2 == [] {
        rest := Rest(x);
        PasteJustEnds(next, x, coming);
      } else {
        rest := DrainKeys(next, Rest(x), coming);
        OutcomePrepends([Paste(pasted)], Drain(next), Events(None, Rest(x)), Rest(x), |b2|, rest, coming);
      }
      AfterTypedIs(x);
      OutcomeShifts(Drain(st), Events(st.pending, x), x, 6 + |data|, Rest(x), |b2|, rest, coming);
    }
  }

  lemma AfterTypedIs(x: Session)
    requires x.bursts != []
    ensures EventsAfterTyped(x) == [Paste(x.bursts[0].pasted)] + Events(None, Rest(x))
  {
    hide Events;
  }

  lemma PasteHasNoEnd(x: Session)
    requires SessionOk(x) && x.bursts != []
    ensures IndexOf(x.bursts[0].pasted, PASTE_END) < 0
  {
    hide IndexOf, TypedOk;
    assert x.bursts[0] in x.bursts;
  }

  lemma DrainsPaste(st: State, pasted: Bytes, b2: Bytes)
    requires st.pasteMode && st.pasteBuffer + st.buffer == pasted + PASTE_END + b2
    requires IndexOf(st.pasteBuffer + st.buffer, PASTE_END) == |pasted|
    ensures Drain(st) ==
      if b2 == [] then Output([Paste(pasted)], State([], false, [], None))
      else Prepend([Paste(pasted)], Drain(State(b2, false, [], None)))
  {
    hide IndexOf, Extract, Emit;
    var data := st.pasteBuffer + st.buffer;
    assert data[..|pasted|] == pasted && data[|pasted| + 6..] == b2;
  }

  // Past the end marker only the rest of the session matters.
  lemma PasteEnds(x: Session, n: nat)
    requires SessionOk(x) && x.bursts != [] && x.bursts[0].typed == [] && n >= |x.bursts[0].pasted| + 12
    ensures BurstSize(x) == |x.bursts[0].pasted| + 12
    ensures GoesWell(x, n) <==> GoesWell(Rest(x), n - BurstSize(x))
    ensures forall p :: p > n ==>
      (MustCut(x, p) <==> MustCut(Rest(x), p - BurstSize(x))) && (MustNotCut(x, p) <==> MustNotCut(Rest(x), p - BurstSize(x)))
  {
    hide GoesWell, MustCut, MustNotCut, SessionOk, Concat, ReadsWell, ClashPlace, EscapePlace;
    NothingTyped();
    GoesWellUnfolds(x, n);
    NoKeysReadWell(n);
    NoPlaces();
    forall p | p > n ensures
      (MustCut(x, p) <==> MustCut(Rest(x), p - BurstSize(x))) && (MustNotCut(x, p) <==> MustNotCut(Rest(x), p - BurstSize(x)))
    {
      PlacesUnfold(x, p);
    }
  }

  lemma PasteGoesOn(st: State, x: Session, coming: Bytes)
    requires st.pasteMode && SessionOk(x) && PendingOk(st.pending) && x.bursts != [] && x.bursts[0].typed == []
    requires var data, pasted := st.pasteBuffer + st.buffer, x.bursts[0].pasted;
      && pasted + PASTE_END + Printed(Rest(x)) == data + coming && |data| < |pasted| + 6
      && IndexOf(pasted + PASTE_END + Printed(Rest(x)), PASTE_END) == |pasted|
    ensures Outcome(Drain(st), Events(st.pending, x), x, 6 + |st.pasteBuffer + st.buffer|, x, coming)
  {
    hide IndexOf, Printed, Events, SessionOk, GoesWell, MustCut, MustNotCut, Extract, Emit, Concat, ReadsWell;
    var data := st.pasteBuffer + st.buffer;
    PrefixHasNoMarker(data + coming, PASTE_END, |data|);
    assert (data + coming)[..|data|] == data && data + [] == data;
    assert [] + Events(st.pending, x) == Events(st.pending, x);
    NothingTyped();
    WellWithinBurst(x, 6 + |data|);
    NoKeysReadWell(6 + |data|);
    NoPlaces();
    forall p | MustCut(x, p) ensures p > 6 + |data| {
      PlacesUnfold(x, p);
      RestPlaceIsPositive(x, p - BurstSize(x));
    }
  }

  lemma PasteJustEnds(next: State, x: Session, coming: Bytes)
    requires SessionOk(x) && x.bursts != [] && next == State([], false, [], None) && Printed(Rest(x)) == [] + coming
    ensures Outcome(Output([Paste(x.bursts[0].pasted)], next), [Paste(x.bursts[0].pasted)] + Events(None, Rest(x)), Rest(x), 0, Rest(x), coming)
  {
    hide IndexOf, Printed, Events, SessionOk, MustCut, MustNotCut, Concat, GoesWell;
    NextIsTypable(x);
    NothingReadGoesWell(Rest(x));
    NothingTyped();
    NoMarkerInNothing();
    forall p | MustCut(Rest(x), p) ensures p > 0 { RestPlaceIsPositive(x, p); }
  }

  lemma NoMarkerInNothing()
    ensures IndexOf([], PASTE_START) < 0
  {
  }

  /** A read outside a paste. */
  lemma DrainKeys(st: State, x: Session, coming: Bytes) returns (rest: Session)
    requires !st.pasteMode && st.pasteBuffer == [] && SessionOk(x) && PendingOk(st.pending)
    requires Printed(x) == st.buffer + coming
    ensures Outcome(Drain(st), Events(st.pending, x), x, |st.buffer|, rest, coming)
    decreases |st.buffer| + |st.pasteBuffer|, 3
  {
    hide Extract, Emit, IndexOf, Printed, Events, Drain, SessionOk, GoesWell, Outcome, Concat, PendingOk;
    var b, typed := st.buffer, Concat(NextTyped(x));
    PrintedParts(x);
    RunHasNoMarker(x);
    assert (b + coming)[..|b|] == b;
    if x.bursts == [] {
      assert typed + [] == typed;
      PrefixHasNoMarker(typed, PASTE_START, |b|);
      rest := DrainTyped(st, x, coming);
    } else {
      var after := x.bursts[0].pasted + PASTE_END + Printed(Rest(x));
      JoinAssociates(typed, PASTE_START, after);
      MarkerEndsText(typed, PASTE_START, after);
      if |b| < |typed| + 6 {
        PrefixHasNoMarker(Printed(x), PASTE_START, |b|);
        if |b| <= |typed| {
          rest := DrainTyped(st, x, coming);
        } else {
          rest := DrainMarker(st, x, coming);
        }
      } else {
        rest := DrainThroughMarker(st, x, coming);
      }
    }
  }

  /** One read accounts for its bytes exactly when it goes well. */
  lemma ReadAccounts(st: State, x: Session, data: Bytes, coming: Bytes) returns (rest: Session)
    requires Awaits(st, x, data + coming) && data != []
    ensures Outcome(Process(st, data), Events(st.pending, x), x, Held(st) + |data|, rest, coming)
  {
    hide Extract, Emit, IndexOf, Events, Outcome, Printed, Drain, SessionOk, MustCut, PendingOk;
    var next := st.(buffer := st.buffer + data);
    JoinAssociates(st.buffer, data, coming);
    if st.pasteMode {
      assert st.buffer + data == data;
      JoinAssociates(st.pasteBuffer, data, coming);
      rest := DrainPaste(next, x, coming);
    } else {
      rest := DrainKeys(next, x, coming);
    }
  }

  // ---------------------------------------------------------------- whole sessions

  // A session of which every byte has arrived has nothing left.
  lemma NothingAwaited(st: State, x: Session)
    requires Awaits(st, x, [])
    ensures !st.pasteMode && st.buffer == [] && x.bursts == [] && x.last == []
  {
    hide Extract, Emit, Events, IndexOf, Printed, SessionOk, MustCut, PendingOk, Concat;
    if st.pasteMode {
      var pasted := x.bursts[0].pasted;
      assert st.pasteBuffer + [] == st.pasteBuffer;
      PasteHasNoEnd(x);
      MarkerEndsText(pasted, PASTE_END, Printed(Rest(x)));
    } else {
      PrintedParts(x);
      assert st.buffer + [] == st.buffer;
      if x.bursts != [] {
        var after := x.bursts[0].pasted + PASTE_END + Printed(Rest(x));
        JoinAssociates(Concat(x.bursts[0].typed), PASTE_START, after);
        RunHasNoMarker(x);
        MarkerEndsText(Concat(NextTyped(x)), PASTE_START, after);
      } else {
        assert Concat(x.last) + [] == Concat(x.last);
        NoKeysLeft(st, x);
      }
    }
  }

  lemma NoKeysLeft(st: State, x: Session)
    requires SessionOk(x) && x.bursts == [] && Extract(Concat(x.last)) == Extracted([], st.buffer)
    ensures x.last == [] && st.buffer == []
  {
    hide Extract, IndexOf, Typable, ReadsWell, Concat;
    var m := WholeRunRead(x, |Concat(x.last)|);
    NothingTyped();
  }

  lemma NothingIsFair(x: Session, held: int)
    requires x.bursts == [] && x.last == []
    ensures CutsFairly(x, held, [])
  {
  }

  lemma FairStart(x: Session)
    requires SessionOk(x)
    ensures Awaits(EMPTY, x, Printed(x))
  {
    hide SessionOk, MustCut, IndexOf, Printed, Extract;
    NothingTyped();
    NoMarkerInNothing();
    assert [] + Printed(x) == Printed(x);
    forall p | MustCut(x, p) ensures p > 0 { PlacesAreInside(x, p); }
  }

  lemma {:induction false} ReadsReport(st: State, x: Session, chunks: seq<Bytes>)
    requires Awaits(st, x, Concat(chunks)) && AllRead(chunks)
    ensures ProcessAll(st, chunks).events == Events(st.pending, x) <==> CutsFairly(x, Held(st), chunks)
    ensures CutsFairly(x, Held(st), chunks) ==> ProcessAll(st, chunks).state.buffer == [] && !ProcessAll(st, chunks).state.pasteMode
    decreases |chunks|
  {
    hide Process, Events, CutsFairly, Awaits, Strays, GoesWell, Carries;
    if chunks == [] {
      NothingAwaited(st, x);
      NothingIsFair(x, Held(st));
      NoEvents(st.pending, x);
    } else {
      var first, rest := Process(st, chunks[0]), chunks[1..];
      var y := ReadAccounts(st, x, chunks[0], Concat(rest));
      AwaitsMeans(st, x, Concat(chunks));
      assert AllRead(rest);
      CutsStep(x, Held(st), chunks, y, Held(first.state));
      if GoesWell(x, Held(st) + |chunks[0]|) {
        ReadsReport(first.state, y, rest);
        SameTails(first.events, ProcessAll(first.state, rest).events, Events(first.state.pending, y));
      } else {
        StraysDiffers(first.events, Events(st.pending, x), ProcessAll(first.state, rest).events);
      }
    }
  }

  lemma AwaitsMeans(st: State, x: Session, coming: Bytes)
    requires Awaits(st, x, coming)
    ensures SessionOk(x) && forall p :: MustCut(x, p) ==> p > Held(st)
  {
    hide SessionOk, MustCut, IndexOf, Extract, Printed;
  }

  lemma NoEvents(pending: Option<int>, x: Session)
    requires x.bursts == [] && x.last == []
    ensures Events(pending, x) == []
  {
  }

  lemma SameTails(a: seq<Event>, b: seq<Event>, c: seq<Event>)
    ensures a + b == a + c <==> b == c
  {
    assert (a + b)[|a|..] == b && (a + c)[|a|..] == c;
  }

  /** However a session's bytes are cut into reads, exactly its events are reported if
      and only if the cuts are fair: a read ends behind every doubled escape the next
      key would take apart, and none ends between a lone escape's follower's first two
      bytes. Nothing stays buffered then. */
  lemma ChunkingReportsTheSession(x: Session, chunks: seq<Bytes>)
    requires SessionOk(x) && AllRead(chunks) && Concat(chunks) == Printed(x)
    ensures ProcessAll(EMPTY, chunks).events == Events(None, x) <==> CutsFairly(x, 0, chunks)
    ensures CutsFairly(x, 0, chunks) ==> ProcessAll(EMPTY, chunks).state.buffer == [] && !ProcessAll(EMPTY, chunks).state.pasteMode
  {
    hide ProcessAll, Events, CutsFairly, Awaits;
    FairStart(x);
    ReadsReport(EMPTY, x, chunks);
  }

  // ---------------------------------------------------------------- no duplicates

  function Keys(keys: seq<Bytes>): seq<Event> {
    if keys == [] then [] else [Key(keys[0])] + Keys(keys[1..])
  }

  /** Every key and paste of the session, in order, as typed. */
  function Original(x: Session): seq<Event>
    decreases |x.bursts|
  {
    if x.bursts == [] then Keys(x.last) else Keys(x.bursts[0].typed) + [Paste(x.bursts[0].pasted)] + Original(Rest(x))
  }

  /** No key is the character that the Kitty report just before it stands for. */
  predicate NoRepeats(pending: Option<int>, keys: seq<Bytes>)
    decreases |keys|
  {
    keys == [] || (!Repeats(pending, keys[0]) && NoRepeats(KittyPrintable(keys[0]), keys[1..]))
  }

  predicate NothingRepeats(x: Session)
    decreases |x.bursts|
  {
    NoRepeats(None, NextTyped(x)) && (x.bursts != [] ==> NothingRepeats(Rest(x)))
  }

  lemma {:induction false} EmitsEveryKey(pending: Option<int>, keys: seq<Bytes>)
    ensures |Keys(keys)| == |keys| && |Emit(pending, keys).events| <= |keys|
    ensures NoRepeats(pending, keys) ==> Emit(pending, keys).events == Keys(keys)
    ensures !NoRepeats(pending, keys) ==> |Emit(pending, keys).events| < |keys|
    decreases |keys|
  {
    hide Repeats, KittyPrintable;
    if keys != [] {
      EmitsEveryKey(if Repeats(pending, keys[0]) then None else KittyPrintable(keys[0]), keys[1..]);
    }
  }

  lemma {:induction false} EventsAreTheOriginals(x: Session)
    ensures |Events(None, x)| <= |Original(x)|
    ensures NothingRepeats(x) ==> Events(None, x) == Original(x)
    ensures !NothingRepeats(x) ==> |Events(None, x)| < |Original(x)|
    decreases |x.bursts|
  {
    hide Emit, NoRepeats;
    EmitsEveryKey(None, NextTyped(x));
    if x.bursts != [] {
      EventsAreTheOriginals(Rest(x));
    }
  }

  /** Keys and pastes survive: with fair cuts what is reported is what was typed, key
      for key and paste for paste, if and only if no key repeats a Kitty report; and
      without such repeats if and only if the cuts are fair. */
  lemma SessionRoundTrips(x: Session, chunks: seq<Bytes>)
    requires SessionOk(x) && AllRead(chunks) && Concat(chunks) == Printed(x)
    ensures CutsFairly(x, 0, chunks) ==> (ProcessAll(EMPTY, chunks).events == Original(x) <==> NothingRepeats(x))
    ensures NothingRepeats(x) ==> (ProcessAll(EMPTY, chunks).events == Original(x) <==> CutsFairly(x, 0, chunks))
  {
    hide ProcessAll, Events, CutsFairly, Original, NothingRepeats, SessionOk;
    ChunkingReportsTheSession(x, chunks);
    EventsAreTheOriginals(x);
  }

  // Complete keys of which none clashes with the next.
  ghost predicate Unambiguous(keys: seq<Bytes>) {
    NoClash(keys) && forall i :: 0 <= i < |keys| ==> keys[i] != [ESC]
  }

  ghost predicate AllUnambiguous(x: Session)
    decreases |x.bursts|
  {
    Unambiguous(NextTyped(x)) && (x.bursts != [] ==> AllUnambiguous(Rest(x)))
  }

  /** A session without lone escapes and clashes comes back under every chunking. */
  lemma {:induction false} UnambiguousSessionsAreFair(x: Session, chunks: seq<Bytes>)
    requires AllUnambiguous(x)
    ensures CutsFairly(x, 0, chunks)
  {
    hide MustCut, MustNotCut, CutAt;
    forall p ensures !MustCut(x, p) && !MustNotCut(x, p) { NoPlacesAt(x, p); }
  }

  lemma {:induction false} NoPlacesAt(x: Session, p: int)
    requires AllUnambiguous(x)
    ensures !MustCut(x, p) && !MustNotCut(x, p)
    decreases |x.bursts|
  {
    hide MustCut, MustNotCut;
    PlacesUnfold(x, p);
    if x.bursts != [] { NoPlacesAt(Rest(x), p - BurstSize(x)); }
  }

  /** What comes right before a paste without being a complete key, such as a lone
      escape, is dropped: exactly the complete keys and the paste are reported. */
  lemma PasteDropsPartialKey(typed: Bytes, pasted: Bytes)
    requires IndexOf(typed, PASTE_START) < 0 && IndexOf(pasted, PASTE_END) < 0
    ensures Process(EMPTY, typed + PASTE_START + pasted + PASTE_END)
      == Output(Emit(None, Extract(typed).sequences).events + [Paste(pasted)], EMPTY)
    ensures Concat(Extract(typed).sequences) == typed <==> Extract(typed).rest == []
  {
    hide IndexOf, Emit, Extract, Drain;
    var data := typed + PASTE_START + pasted + PASTE_END;
    var coming := pasted + PASTE_END;
    assert data == typed + PASTE_START + coming && [] + data == data;
    MarkerEndsText(typed, PASTE_START, coming);
    assert data[..|typed|] == typed && data[|typed| + |PASTE_START|..] == coming;
    DrainsPasteStart(State(data, false, [], None), typed, coming);
    assert coming + [] == coming;
    MarkerEndsText(pasted, PASTE_END, []);
    assert coming[..|pasted|] == pasted && coming[|pasted| + |PASTE_END|..] == [];
    DrainsWholePaste(State([], true, coming, None), pasted);
    ExtractLosesNothing(typed);
  }

  lemma DrainsPasteStart(st: State, typed: Bytes, coming: Bytes)
    requires !st.pasteMode && IndexOf(st.buffer, PASTE_START) == |typed|
    requires st.buffer[..|typed|] == typed && st.buffer[|typed| + |PASTE_START|..] == coming
    ensures Drain(st) == Prepend(Emit(st.pending, Extract(typed).sequences).events, Drain(State([], true, coming, None)))
  {
    hide IndexOf, Emit, Extract;
  }

  lemma DrainsWholePaste(st: State, pasted: Bytes)
    requires st.pasteMode && st.buffer == [] && IndexOf(st.pasteBuffer, PASTE_END) == |pasted|
    requires st.pasteBuffer[..|pasted|] == pasted && st.pasteBuffer[|pasted| + |PASTE_END|..] == []
    ensures Drain(st) == Output([Paste(pasted)], EMPTY)
  {
    hide IndexOf, Emit, Extract;
    assert st.pasteBuffer + [] == st.pasteBuffer;
  }
}
