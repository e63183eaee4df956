// What a user types and pastes, and what the reader of
// internal/tui/stdin_buffer.go reports of it, however the bytes are cut into reads.

module StdinSessions {
  import opened Options
  import opened Utf8
  import opened ByteSearch
  import opened InputSequences
  import opened KeyGrammar
  import opened KeyLists
  import opened StdinBuffer

  /** Keys followed by one bracketed paste. */
  datatype Burst = Burst(typed: seq<Bytes>, pasted: Bytes)

  /** A whole session: bursts, then keys. */
  datatype Session = Session(bursts: seq<Burst>, last: seq<Bytes>)

  // Keys that can be told apart, none of which overlaps a paste marker.
  ghost predicate TypedOk(typed: seq<Bytes>) { Typable(typed) && IndexOf(Concat(typed), PASTE_START) < 0 }

  ghost predicate SessionOk(x: Session) {
    && TypedOk(x.last)
    && forall b :: b in x.bursts ==> TypedOk(b.typed) && IndexOf(b.pasted, PASTE_END) < 0
  }

  /** The bytes the terminal sends. */
  function Printed(x: Session): Bytes
    decreases |x.bursts|
  {
    if x.bursts == [] then Concat(x.last)
    else
      var b := x.bursts[0];
      Concat(b.typed) + PASTE_START + b.pasted + PASTE_END + Printed(Rest(x))
  }

  /** The events the session stands for, repeated printables dropped. */
  function Events(pending: Option<int>, x: Session): seq<Event>
    decreases |x.bursts|
  {
    if x.bursts == [] then Emit(pending, x.last).events
    else
      var b := x.bursts[0];
      Emit(pending, b.typed).events + [Paste(b.pasted)] + Events(None, Rest(x))
  }

  function Rest(x: Session): Session
    requires x.bursts != []
  {
    Session(x.bursts[1..], x.last)
  }

  function NextTyped(x: Session): seq<Bytes> { if x.bursts == [] then x.last else x.bursts[0].typed }

  // Bytes of the first burst, its paste and both markers included.
  function BurstSize(x: Session): nat
    requires x.bursts != []
  {
    |Concat(x.bursts[0].typed)| + |x.bursts[0].pasted| + 12
  }

  // ---------------------------------------------------------------- where reads may and may not end

  ghost predicate ClashPlace(keys: seq<Bytes>, p: int) { exists i :: Clash(keys, i) && p == Offset(keys, i) }

  ghost predicate EscapePlace(keys: seq<Bytes>, p: int) { exists i :: LoneEscape(keys, i) && p == Offset(keys, i + 1) + 1 }

  /** A read has to end here, behind a doubled escape that would otherwise take the
      next key's first byte for its own. */
  ghost predicate MustCut(x: Session, p: int)
    decreases |x.bursts|
  {
    ClashPlace(NextTyped(x), p) || (x.bursts != [] && MustCut(Rest(x), p - BurstSize(x)))
  }

  /** A read may not end here, behind a lone escape and the first byte of the longer
      sequence that tells it apart. */
  ghost predicate MustNotCut(x: Session, p: int)
    decreases |x.bursts|
  {
    EscapePlace(NextTyped(x), p) || (x.bursts != [] && MustNotCut(Rest(x), p - BurstSize(x)))
  }

  /** A read ends at this position; `held` bytes had come before the first one. */
  ghost predicate CutAt(held: int, chunks: seq<Bytes>, p: int) {
    exists k :: 0 < k <= |chunks| && p == held + |Concat(chunks[..k])|
  }

  // Reads bring something.
  predicate AllRead(chunks: seq<Bytes>) { forall i :: 0 <= i < |chunks| ==> chunks[i] != [] }

  ghost predicate CutsFairly(x: Session, held: int, chunks: seq<Bytes>) {
    && (forall p :: MustCut(x, p) ==> CutAt(held, chunks, p))
    && (forall p :: MustNotCut(x, p) ==> !CutAt(held, chunks, p))
  }

  /** A read up to this position goes well. */
  ghost predicate GoesWell(x: Session, n: int)
    decreases |x.bursts|
  {
    ReadsWell(NextTyped(x), n) && (x.bursts != [] && n >= BurstSize(x) ==> GoesWell(Rest(x), n - BurstSize(x)))
  }

  lemma {:induction false} PlacesAreInside(x: Session, p: int)
    requires SessionOk(x) && (MustCut(x, p) || MustNotCut(x, p))
    ensures p > 0
    decreases |x.bursts|
  {
    hide TypedOk, ClashPlace, EscapePlace;
    NextIsTypable(x);
    PlacesOfRun(NextTyped(x), p);
    if !ClashPlace(NextTyped(x), p) && !EscapePlace(NextTyped(x), p) {
      PlacesAreInside(Rest(x), p - BurstSize(x));
    }
  }

  lemma NextIsTypable(x: Session)
    requires SessionOk(x)
    ensures Typable(NextTyped(x)) && TypedOk(NextTyped(x)) && (x.bursts != [] ==> SessionOk(Rest(x)))
  {
    hide Typable, IndexOf;
    if x.bursts != [] { assert x.bursts[0] in x.bursts; }
  }

  // Places of a run lie within its bytes.
  lemma PlacesOfRun(keys: seq<Bytes>, p: int)
    requires Typable(keys)
    ensures ClashPlace(keys, p) || EscapePlace(keys, p) ==> 0 < p < |Concat(keys)|
  {
    hide Typable;
    ConcatSplits(keys, |keys|);
    assert keys[..|keys|] == keys && keys[|keys|..] == [];
    if i :| Clash(keys, i) && p == Offset(keys, i) {
      OffsetsGrow(keys, 0, i);
      OffsetsGrow(keys, i, |keys|);
    }
    if i :| LoneEscape(keys, i) && p == Offset(keys, i + 1) + 1 {
      OffsetSplits(keys, i + 1, i + 2);
      assert keys[i + 1..][0] == keys[i + 1];
      OffsetsGrow(keys, i + 2, |keys|);
    }
  }

  ghost predicate NoCutBefore(x: Session, n: int) { forall p :: MustCut(x, p) ==> p >= n }

  ghost predicate NoClashBefore(keys: seq<Bytes>, n: int) { forall p :: ClashPlace(keys, p) ==> p >= n }

  /** A read goes well exactly when it reaches past no place to cut at and ends at
      none where it may not. */
  lemma {:induction false} GoingWellMeans(x: Session, n: int)
    requires SessionOk(x)
    ensures GoesWell(x, n) <==> NoCutBefore(x, n) && !MustNotCut(x, n)
    decreases |x.bursts|
  {
    hide TypedOk, Typable, SessionOk, ReadsWell, NoCutBefore, NoClashBefore, EscapePlace, MustNotCut, GoesWell;
    NextIsTypable(x);
    var keys := NextTyped(x);
    RunGoesWell(keys, n);
    if x.bursts == [] {
      OnlyRun(x, n);
    } else {
      GoingWellMeans(Rest(x), n - BurstSize(x));
      RestIsPositive(x, n - BurstSize(x));
      RestOfPlaces(x, n);
      PlaceUnfolds(x, n);
      GoesWellUnfolds(x, n);
      EscapeInside(x, n);
    }
  }

  lemma EscapeInside(x: Session, n: int)
    requires SessionOk(x) && x.bursts != []
    ensures EscapePlace(NextTyped(x), n) ==> n < BurstSize(x)
  {
    hide TypedOk, Typable, SessionOk, EscapePlace;
    NextIsTypable(x);
    PlacesOfRun(NextTyped(x), n);
  }

  lemma RestIsPositive(x: Session, q: int)
    requires SessionOk(x) && x.bursts != []
    ensures q <= 0 ==> NoCutBefore(Rest(x), q) && !MustNotCut(Rest(x), q)
  {
    hide SessionOk, MustCut, MustNotCut;
    NextIsTypable(x);
    forall p | MustCut(Rest(x), p) ensures p > 0 { PlacesAreInside(Rest(x), p); }
    if MustNotCut(Rest(x), q) { PlacesAreInside(Rest(x), q); }
  }

  lemma OnlyRun(x: Session, n: int)
    requires x.bursts == []
    ensures GoesWell(x, n) <==> ReadsWell(NextTyped(x), n)
    ensures NoCutBefore(x, n) <==> NoClashBefore(NextTyped(x), n)
    ensures MustNotCut(x, n) <==> EscapePlace(NextTyped(x), n)
  {
    hide ReadsWell, ClashPlace, EscapePlace;
    forall p ensures MustCut(x, p) <==> ClashPlace(NextTyped(x), p) {}
  }

  lemma GoesWellUnfolds(x: Session, n: int)
    requires x.bursts != []
    ensures GoesWell(x, n) <==> ReadsWell(NextTyped(x), n) && (n >= BurstSize(x) ==> GoesWell(Rest(x), n - BurstSize(x)))
  {
    hide ReadsWell;
  }

  lemma PlaceUnfolds(x: Session, p: int)
    requires x.bursts != []
    ensures MustCut(x, p) <==> ClashPlace(NextTyped(x), p) || MustCut(Rest(x), p - BurstSize(x))
    ensures MustNotCut(x, p) <==> EscapePlace(NextTyped(x), p) || MustNotCut(Rest(x), p - BurstSize(x))
  {
    hide ClashPlace, EscapePlace;
  }

  lemma RestOfPlaces(x: Session, n: int)
    requires x.bursts != []
    ensures NoCutBefore(x, n) <==> NoClashBefore(NextTyped(x), n) && NoCutBefore(Rest(x), n - BurstSize(x))
  {
    hide ClashPlace, MustCut;
    var size := BurstSize(x);
    if NoCutBefore(x, n) {
      forall p | ClashPlace(NextTyped(x), p) ensures p >= n { PlaceUnfolds(x, p); }
      forall p | MustCut(Rest(x), p) ensures p >= n - size { PlaceUnfolds(x, p + size); }
    } else {
      var p :| MustCut(x, p) && p < n;
      PlaceUnfolds(x, p);
    }
  }

  lemma RunGoesWell(keys: seq<Bytes>, n: int)
    ensures ReadsWell(keys, n) <==> NoClashBefore(keys, n) && !EscapePlace(keys, n)
  {
    if NoClashBefore(keys, n) {
      forall i | Clash(keys, i) ensures Offset(keys, i) >= n { assert ClashPlace(keys, Offset(keys, i)); }
    }
  }

  // ---------------------------------------------------------------- what is left after a read

  /** The places of one session beyond a read of n bytes are those of what is left,
      of which `held` bytes have come; and none of these was passed. */
  ghost predicate Carries(x: Session, n: int, y: Session, held: int) {
    && (forall p :: p > n ==> (MustCut(x, p) <==> MustCut(y, p - (n - held))))
    && (forall p :: p > n ==> (MustNotCut(x, p) <==> MustNotCut(y, p - (n - held))))
    && (forall p :: MustCut(y, p) ==> p > held)
  }

  // One more read: it has to go well, and what is left has to be cut fairly.
  lemma CutsStep(x: Session, held: int, chunks: seq<Bytes>, y: Session, left: int)
    requires SessionOk(x) && chunks != [] && AllRead(chunks)
    requires forall p :: MustCut(x, p) ==> p > held
    requires GoesWell(x, held + |chunks[0]|) ==> Carries(x, held + |chunks[0]|, y, left)
    ensures CutsFairly(x, held, chunks) ==> GoesWell(x, held + |chunks[0]|)
    ensures GoesWell(x, held + |chunks[0]|) ==> (CutsFairly(x, held, chunks) <==> CutsFairly(y, left, chunks[1..]))
  {
    hide MustCut, MustNotCut, GoesWell, SessionOk, CutAt;
    var n := held + |chunks[0]|;
    GoingWellMeans(x, n);
    FirstCut(held, chunks);
    forall p ensures CutAt(held, chunks, p) ==> p >= n { CutsAreLater(held, chunks, p); }
    if GoesWell(x, n) {
      forall p ensures p > n ==> (CutAt(held, chunks, p) <==> CutAt(left, chunks[1..], p - (n - left))) {
        if p > n { LaterCut(held, chunks, left, p); }
      }
      assert AllRead(chunks[1..]);
      forall q ensures CutAt(left, chunks[1..], q) ==> q > left { CutsAreLate(left, chunks[1..], q); }
      if CutsFairly(x, held, chunks) { FairRest(x, held, chunks, y, left, n); }
      if CutsFairly(y, left, chunks[1..]) { FairWhole(x, held, chunks, y, left, n); }
    }
  }

  lemma FirstCut(held: int, chunks: seq<Bytes>)
    requires chunks != []
    ensures CutAt(held, chunks, held + |chunks[0]|)
  {
    assert chunks[..1] == [chunks[0]];
    assert Concat([chunks[0]]) == chunks[0] + Concat([]);
    assert held + |chunks[0]| == held + |Concat(chunks[..1])|;
  }

  lemma ConcatOfPrefix(chunks: seq<Bytes>, k: nat)
    requires 0 < k <= |chunks|
    ensures |Concat(chunks[..k])| == |chunks[0]| + |Concat(chunks[1..][..k - 1])|
  {
    assert chunks[..k][1..] == chunks[1..][..k - 1];
  }

  lemma CutsAreLater(held: int, chunks: seq<Bytes>, p: int)
    requires chunks != []
    ensures CutAt(held, chunks, p) ==> p >= held + |chunks[0]|
  {
    if k :| 0 < k <= |chunks| && p == held + |Concat(chunks[..k])| {
      ConcatOfPrefix(chunks, k);
    }
  }

  lemma CutsAreLate(held: int, chunks: seq<Bytes>, p: int)
    requires AllRead(chunks)
    ensures CutAt(held, chunks, p) ==> p > held
  {
    if chunks != [] { CutsAreLater(held, chunks, p); }
  }

  lemma FairRest(x: Session, held: int, chunks: seq<Bytes>, y: Session, left: int, n: int)
    requires chunks != [] && Carries(x, n, y, left) && CutsFairly(x, held, chunks)
    requires forall p :: p > n ==> (CutAt(held, chunks, p) <==> CutAt(left, chunks[1..], p - (n - left)))
    requires forall q :: CutAt(left, chunks[1..], q) ==> q > left
    ensures CutsFairly(y, left, chunks[1..])
  {
    hide MustCut, MustNotCut, CutAt;
    forall q | MustCut(y, q) ensures CutAt(left, chunks[1..], q) {
      var p := q + (n - left);
      assert MustCut(x, p) <==> MustCut(y, p - (n - left));
      assert CutAt(held, chunks, p) <==> CutAt(left, chunks[1..], p - (n - left));
    }
    forall q | MustNotCut(y, q) ensures !CutAt(left, chunks[1..], q) {
      var p := q + (n - left);
      assert p > n ==> (MustNotCut(x, p) <==> MustNotCut(y, p - (n - left)));
      assert p > n ==> (CutAt(held, chunks, p) <==> CutAt(left, chunks[1..], p - (n - left)));
    }
  }

  lemma FairWhole(x: Session, held: int, chunks: seq<Bytes>, y: Session, left: int, n: int)
    requires chunks != [] && Carries(x, n, y, left) && CutsFairly(y, left, chunks[1..])
    requires forall p :: p > n ==> (CutAt(held, chunks, p) <==> CutAt(left, chunks[1..], p - (n - left)))
    requires CutAt(held, chunks, n) && forall p :: CutAt(held, chunks, p) ==> p >= n
    requires NoCutBefore(x, n) && !MustNotCut(x, n)
    ensures CutsFairly(x, held, chunks)
  {
    hide MustCut, MustNotCut, CutAt;
    forall p | MustCut(x, p) ensures CutAt(held, chunks, p) {
      assert p > n ==> (MustCut(x, p) <==> MustCut(y, p - (n - left)));
    }
    forall p | MustNotCut(x, p) ensures !CutAt(held, chunks, p) {
      assert p > n ==> (MustNotCut(x, p) <==> MustNotCut(y, p - (n - left)));
    }
  }

  lemma LaterCut(held: int, chunks: seq<Bytes>, left: int, p: int)
    requires chunks != [] && p > held + |chunks[0]|
    ensures CutAt(held, chunks, p) <==> CutAt(left, chunks[1..], p - (held + |chunks[0]| - left))
  {
    var n, rest := held + |chunks[0]|, chunks[1..];
    assert Concat(rest[..0]) == [];
    if k :| 0 < k <= |chunks| && p == held + |Concat(chunks[..k])| {
      ConcatOfPrefix(chunks, k);
      assert p - (n - left) == left + |Concat(rest[..k - 1])|;
    }
    if k :| 0 < k <= |rest| && p - (n - left) == left + |Concat(rest[..k])| {
      ConcatOfPrefix(chunks, k + 1);
    }
  }

  // ---------------------------------------------------------------- markers

  // A marker that begins with an escape and has no other cannot overlap itself.
  predicate IsMarker(marker: Bytes) {
    |marker| == 6 && marker[0] == ESC && forall i :: 0 < i < 6 ==> marker[i] != ESC
  }

  lemma MarkerCannotStraddle(text: Bytes, marker: Bytes, rest: Bytes, i: nat)
    requires IsMarker(marker) && i < |text| < i + 6
    ensures (text + marker + rest)[i..i + 6] != marker
  {
    assert (text + marker + rest)[i..i + 6][|text| - i] == marker[0];
  }

  /** A text free of the marker, followed by the marker: its first occurrence is
      where the text ends. */
  lemma {:induction false} MarkerEndsText(text: Bytes, marker: Bytes, rest: Bytes)
    requires IsMarker(marker) && IndexOf(text, marker) < 0
    ensures IndexOf(text + marker + rest, marker) == |text|
  {
    hide IndexOf;
    var s := text + marker + rest;
    assert s[|text|..|text| + 6] == marker;
    IndexOfIsFirst(s, marker, |text|);
    var i := IndexOf(s, marker);
    if i + 6 <= |text| {
      assert text[i..i + 6] == s[i..i + 6];
      IndexOfIsFirst(text, marker, i);
    } else if i < |text| {
      MarkerCannotStraddle(text, marker, rest, i);
    }
  }

  lemma PrefixHasNoMarker(s: Bytes, marker: Bytes, k: nat)
    requires marker != [] && k <= |s|
    requires IndexOf(s, marker) < 0 || k < IndexOf(s, marker) + |marker|
    ensures IndexOf(s[..k], marker) < 0
  {
    hide IndexOf, OccursAt;
    var i := IndexOf(s[..k], marker);
    FoundOccurs(s[..k], marker);
    if i >= 0 {
      OccursInPrefix(s, k, marker, i);
      OccursNoEarlier(s, marker, i);
      OccursNoEarlier(s[..k], marker, i);
    }
  }

  lemma SuffixHasNoMarker(s: Bytes, marker: Bytes, k: nat)
    requires marker != [] && k <= |s| && IndexOf(s, marker) < 0
    ensures IndexOf(s[k..], marker) < 0
  {
    hide IndexOf, OccursAt;
    var i := IndexOf(s[k..], marker);
    FoundOccurs(s[k..], marker);
    if i >= 0 {
      OccursInSuffix(s, k, marker, k + i);
      OccursNoEarlier(s, marker, k + i);
    }
  }

  // Every proper prefix of a paste marker waits for the rest of it.
  lemma PartialMarkerWaits(j: nat)
    requires 0 < j < 6
    ensures Extract(PASTE_START[..j]) == Extracted([], PASTE_START[..j])
  {
    var s := PASTE_START[..j];
    forall k | 1 <= k <= j ensures StatusOf(s[..k]) == Incomplete {
      assert s[..k] == PASTE_START[..k];
    }
    NeverComplete(s, 1);
    hide FirstComplete, StatusOf;
    StuckExtractsNothing(s);
  }

  lemma {:induction false} RestIsSuffix(s: Bytes)
    ensures var rest := Extract(s).rest; |rest| <= |s| && rest == s[|s| - |rest|..]
    decreases |s|
  {
    hide NextLength;
    if s != [] && NextLength(s) != 0 {
      RestIsSuffix(s[NextLength(s)..]);
    }
  }

  lemma RestIsStuck(s: Bytes)
    ensures Extract(Extract(s).rest) == Extracted([], Extract(s).rest)
  {
    hide NextLength, Extract;
    RestIsIncomplete(s);
    StuckExtractsNothing(Extract(s).rest);
    if Extract(s).rest == [] { StuckExtractsNothing([]); }
  }

  // ---------------------------------------------------------------- events that differ

  ghost predicate Strays(a: seq<Event>, b: seq<Event>) {
    exists j :: 0 <= j < |a| && j < |b| && a[..j] == b[..j] && a[j] != b[j]
  }

  lemma StraysPrepends(c: seq<Event>, a: seq<Event>, b: seq<Event>)
    requires Strays(a, b)
    ensures Strays(c + a, c + b)
  {
    var j :| 0 <= j < |a| && j < |b| && a[..j] == b[..j] && a[j] != b[j];
    var k := |c| + j;
    assert (c + a)[..k] == c + a[..j] && (c + b)[..k] == c + b[..j];
    assert (c + a)[k] == a[j] && (c + b)[k] == b[j];
  }

  lemma StraysExtends(a: seq<Event>, b: seq<Event>, c: seq<Event>, d: seq<Event>)
    requires Strays(a, b)
    ensures Strays(a + c, b + d)
  {
    var j :| 0 <= j < |a| && j < |b| && a[..j] == b[..j] && a[j] != b[j];
    assert (a + c)[..j] == a[..j] && (b + d)[..j] == b[..j];
    assert (a + c)[j] == a[j] && (b + d)[j] == b[j];
  }

  lemma StraysDiffers(a: seq<Event>, b: seq<Event>, c: seq<Event>)
    requires Strays(a, b)
    ensures a + c != b
  {
    var j :| 0 <= j < |a| && j < |b| && a[..j] == b[..j] && a[j] != b[j];
    assert (a + c)[j] == a[j];
  }

  // A pending printable is no control character.
  predicate PendingOk(pending: Option<int>) { pending.Some? ==> pending.value >= 32 }

  lemma {:induction false} PendingStaysOk(pending: Option<int>, sequences: seq<Bytes>)
    requires PendingOk(pending)
    ensures PendingOk(Emit(pending, sequences).pending)
    decreases |sequences|
  {
    hide Repeats, KittyPrintable;
    if sequences != [] {
      KittyIsPrintable(sequences[0]);
      PendingStaysOk(if Repeats(pending, sequences[0]) then None else KittyPrintable(sequences[0]), sequences[1..]);
    }
  }

  lemma KittyIsPrintable(s: Bytes)
    ensures PendingOk(KittyPrintable(s))
  {
    hide DigitCount, DecimalValue, IsKittySuffix;
  }

  lemma EscapesAreNoRepeats(pending: Option<int>)
    requires PendingOk(pending)
    ensures !Repeats(pending, [ESC]) && !Repeats(pending, DOUBLE_ESCAPE)
  {
  }

  lemma EmitFirst(pending: Option<int>, sequences: seq<Bytes>)
    requires sequences != []
    ensures Emit(pending, sequences).events ==
      if Repeats(pending, sequences[0]) then Emit(None, sequences[1..]).events
      else [Key(sequences[0])] + Emit(KittyPrintable(sequences[0]), sequences[1..]).events
  {
  }

  /** A misread key shows in the events. */
  lemma {:induction false} MisreadShows(pending: Option<int>, sequences: seq<Bytes>, keys: seq<Bytes>, j: nat)
    requires PendingOk(pending) && Misreads(sequences, keys, j)
    ensures Strays(Emit(pending, sequences).events, Emit(pending, keys).events)
    decreases j
  {
    hide Emit, Repeats, KittyPrintable, Strays;
    EmitFirst(pending, sequences);
    EmitFirst(pending, keys);
    if j == 0 {
      EscapesAreNoRepeats(pending);
      FirstDiffers(Key(sequences[0]), Key(keys[0]), Emit(KittyPrintable(sequences[0]), sequences[1..]).events,
                   Emit(KittyPrintable(keys[0]), keys[1..]).events);
    } else {
      SameFirst(sequences, keys, j);
      KittyIsPrintable(keys[0]);
      var next := if Repeats(pending, keys[0]) then None else KittyPrintable(keys[0]);
      MisreadShows(next, sequences[1..], keys[1..], j - 1);
      StraysPrepends([Key(keys[0])], Emit(next, sequences[1..]).events, Emit(next, keys[1..]).events);
    }
  }

  lemma FirstDiffers(a: Event, b: Event, c: seq<Event>, d: seq<Event>)
    requires a != b
    ensures Strays([a] + c, [b] + d)
  {
    assert ([a] + c)[..0] == ([b] + d)[..0] && ([a] + c)[0] == a && ([b] + d)[0] == b;
  }

  lemma SameFirst(sequences: seq<Bytes>, keys: seq<Bytes>, j: nat)
    requires Misreads(sequences, keys, j) && j > 0
    ensures sequences[0] == keys[0] && Misreads(sequences[1..], keys[1..], j - 1)
  {
    assert sequences[..j][0] == keys[..j][0];
    assert sequences[1..][..j - 1] == sequences[..j][1..] && keys[1..][..j - 1] == keys[..j][1..];
  }

  lemma MisreadsExtends(sequences: seq<Bytes>, more: seq<Bytes>, keys: seq<Bytes>, j: nat)
    requires Misreads(sequences, keys, j)
    ensures Misreads(sequences + more, keys, j)
  {
    assert (sequences + more)[..j] == sequences[..j];
  }

  lemma {:induction false} EmitInTwoParts(pending: Option<int>, a: seq<Bytes>, b: seq<Bytes>)
    ensures var (first, whole) := (Emit(pending, a), Emit(pending, a + b));
      var second := Emit(first.pending, b);
      whole == Emitted(first.events + second.events, second.pending)
    decreases |a|
  {
    hide Repeats, KittyPrintable;
    if a == [] {
      assert a + b == b;
    } else {
      assert (a + b)[1..] == a[1..] + b;
      EmitInTwoParts(if Repeats(pending, a[0]) then None else KittyPrintable(a[0]), a[1..], b);
    }
  }

  // ---------------------------------------------------------------- parts of a session

  // The session with its next keys replaced.
  function Retyped(x: Session, typed: seq<Bytes>): Session {
    if x.bursts == [] then Session([], typed)
    else Session([Burst(typed, x.bursts[0].pasted)] + x.bursts[1..], x.last)
  }

  // What follows the next keys, as bytes and as events.
  function AfterTyped(x: Session): Bytes {
    if x.bursts == [] then []
    else PASTE_START + (x.bursts[0].pasted + PASTE_END + Printed(Rest(x)))
  }

  function EventsAfterTyped(x: Session): seq<Event> {
    if x.bursts == [] then [] else [Paste(x.bursts[0].pasted)] + Events(None, Rest(x))
  }

  lemma PrintedParts(x: Session)
    ensures Printed(x) == Concat(NextTyped(x)) + AfterTyped(x)
  {
    hide Concat;
    if x.bursts != [] {
      var b := x.bursts[0];
      assert Concat(b.typed) + PASTE_START + b.pasted + PASTE_END + Printed(Rest(x)) == Concat(b.typed) + AfterTyped(x);
    }
  }

  lemma EventsParts(x: Session, pending: Option<int>)
    ensures Events(pending, x) == Emit(pending, NextTyped(x)).events + EventsAfterTyped(x)
  {
    hide Emit;
    var e := Emit(pending, NextTyped(x)).events;
    if x.bursts != [] {
      assert e + [Paste(x.bursts[0].pasted)] + Events(None, Rest(x)) == e + EventsAfterTyped(x);
    }
  }

  lemma RetypedParts(x: Session, typed: seq<Bytes>)
    ensures var y := Retyped(x, typed);
      && NextTyped(y) == typed && AfterTyped(y) == AfterTyped(x) && EventsAfterTyped(y) == EventsAfterTyped(x)
      && (SessionOk(x) && TypedOk(typed) ==> SessionOk(y))
      && |y.bursts| == |x.bursts|
      && (x.bursts != [] ==>
            && Rest(y) == Rest(x) && y.bursts[0].pasted == x.bursts[0].pasted
            && BurstSize(y) == BurstSize(x) - |Concat(x.bursts[0].typed)| + |Concat(typed)|)
  {
    hide Concat, TypedOk, Printed, Events, IndexOf;
    if x.bursts != [] {
      assert Retyped(x, typed).bursts[1..] == x.bursts[1..];
    }
  }

  lemma NothingTyped()
    ensures TypedOk([]) && Concat([]) == [] && Extract([]) == Extracted([], [])
  {
  }

  lemma EmitNothing(pending: Option<int>)
    ensures Emit(pending, []) == Emitted([], pending)
  {
  }

  lemma NothingHappens(pending: Option<int>, x: Session)
    requires NextTyped(x) == []
    ensures Events(pending, x) == EventsAfterTyped(x) && Printed(x) == AfterTyped(x)
  {
    hide Printed, Events;
    EventsParts(x, pending);
    PrintedParts(x);
    EmitNothing(pending);
    NothingTyped();
    assert [] + EventsAfterTyped(x) == EventsAfterTyped(x) && [] + AfterTyped(x) == AfterTyped(x);
  }

  // ---------------------------------------------------------------- one read, seen from the session

  /** Bytes of the remaining session that have come. */
  function Held(st: State): nat { if st.pasteMode then 6 + |st.pasteBuffer| else |st.buffer| }

  /** The state is what is left of a session after some of its bytes: the bytes
      held back and the bytes still to come spell the rest of the session. */
  ghost predicate Awaits(st: State, x: Session, coming: Bytes) {
    && SessionOk(x) && PendingOk(st.pending)
    && (forall p :: MustCut(x, p) ==> p > Held(st))
    && if st.pasteMode then
         && x.bursts != [] && x.bursts[0].typed == [] && st.buffer == []
         && IndexOf(st.pasteBuffer, PASTE_END) < 0
         && x.bursts[0].pasted + PASTE_END + Printed(Rest(x)) == st.pasteBuffer + coming
       else
         && st.pasteBuffer == []
         && Printed(x) == st.buffer + coming
         && IndexOf(st.buffer, PASTE_START) < 0
         && Extract(st.buffer) == Extracted([], st.buffer)
  }

  /** What a read must achieve: some session remains, and the events reported so
      far followed by its events are the events expected before. */
  ghost predicate Accounts(output: Output, expected: seq<Event>, rest: Session, coming: Bytes) {
    && Awaits(output.state, rest, coming)
    && output.events + Events(output.state.pending, rest) == expected
  }

  /** A read up to place n accounts for its bytes exactly when it goes well; if it
      does not, a wrong event is among those it reports. */
  ghost predicate Outcome(output: Output, expected: seq<Event>, x: Session, n: nat, rest: Session, coming: Bytes) {
    if GoesWell(x, n) then Accounts(output, expected, rest, coming) && Carries(x, n, rest, Held(output.state))
    else Strays(output.events, expected)
  }

  lemma OutcomePrepends(events: seq<Event>, output: Output, expected: seq<Event>, x: Session, n: nat, rest: Session, coming: Bytes)
    requires Outcome(output, expected, x, n, rest, coming)
    ensures Outcome(Prepend(events, output), events + expected, x, n, rest, coming)
  {
    hide GoesWell, Carries, Awaits, Strays, Events;
    var later := Events(output.state.pending, rest);
    assert (events + output.events) + later == events + (output.events + later);
    if !GoesWell(x, n) { StraysPrepends(events, output.events, expected); }
  }

}
