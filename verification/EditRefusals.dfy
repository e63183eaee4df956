// When a call of the edit tool is refused (internal/tools/edit.go), by where the old
// texts occur in the file: in the order of the edits given, before sorting, and
// without the counts and the splices that decide it.

module EditRefusals {
  import opened Utf8
  import opened ByteSearch
  import opened LineEndings
  import opened MultiEdit

  ghost predicate Missing(content: Bytes, text: Bytes) { forall at :: !OccursAt(content, text, at) }

  /** Two occurrences that do not overlap. */
  ghost predicate OccursTwice(content: Bytes, text: Bytes) {
    exists a, b :: OccursAt(content, text, a) && OccursAt(content, text, b) && a + |text| <= b
  }

  ghost predicate FirstAt(content: Bytes, text: Bytes, at: int) {
    OccursAt(content, text, at) && forall j :: OccursAt(content, text, j) ==> at <= j
  }

  ghost predicate Locatable(content: Bytes, edit: Edit) {
    var text := Normalize(edit.oldText);
    text != [] && !Missing(content, text) && !OccursTwice(content, text)
  }

  // The first edit that cannot be located.
  ghost predicate StopsAt(content: Bytes, edits: seq<Edit>, k: nat) {
    k < |edits| && !Locatable(content, edits[k]) && forall i :: 0 <= i < k ==> Locatable(content, edits[i])
  }

  ghost predicate AllLocatable(content: Bytes, edits: seq<Edit>) {
    forall i :: 0 <= i < |edits| ==> Locatable(content, edits[i])
  }

  // The first occurrences of two old texts share a byte.
  ghost predicate Collide(content: Bytes, a: Bytes, b: Bytes) {
    exists p, q :: FirstAt(content, a, p) && FirstAt(content, b, q) && p < q + |b| && q < p + |a|
  }

  ghost predicate SomeCollide(content: Bytes, edits: seq<Edit>) {
    exists i, j :: 0 <= i < j < |edits| && Collide(content, Normalize(edits[i].oldText), Normalize(edits[j].oldText))
  }

  // ---------------------------------------------------------------- one edit

  lemma FirstIndex(content: Bytes, text: Bytes)
    requires text != []
    ensures IndexOf(content, text) < 0 <==> Missing(content, text)
    ensures IndexOf(content, text) >= 0 ==> FirstAt(content, text, IndexOf(content, text))
  {
    hide IndexOf, OccursAt;
    IndexOfFindsAll(content, text);
    FoundOccurs(content, text);
    forall j | OccursAt(content, text, j) ensures IndexOf(content, text) <= j {
      OccursNoEarlier(content, text, j);
    }
  }

  lemma CountedTwice(content: Bytes, text: Bytes)
    requires text != []
    ensures Count(content, text) == 0 <==> Missing(content, text)
    ensures Count(content, text) > 1 <==> OccursTwice(content, text)
  {
    hide IndexOf, OccursAt, Count;
    FirstIndex(content, text);
    CountOne(content, text);
    var i := IndexOf(content, text);
    if OccursTwice(content, text) {
      var a, b :| OccursAt(content, text, a) && OccursAt(content, text, b) && a + |text| <= b;
      assert i <= a;
    }
    if Count(content, text) > 1 {
      var j :| j >= i + |text| && OccursAt(content, text, j);
      assert OccursAt(content, text, i);
    }
  }

  // Looking up one edit, by where its old text occurs.
  lemma OneIsLocated(content: Bytes, edit: Edit, k: nat)
    ensures var r, text := LocateOne(content, edit, k), Normalize(edit.oldText);
      && (r.Success? <==> Locatable(content, edit))
      && (r.Success? ==> FirstAt(content, text, r.value.index) && r.value.oldText == text)
      && (r.Failure? ==> r == Failure(if text == [] then EmptyOldText(k)
                                      else if Missing(content, text) then NotFound(k)
                                      else NotUnique(k)))
  {
    hide Count, IndexOf, Normalize, Missing, OccursTwice, FirstAt;
    var text := Normalize(edit.oldText);
    if text != [] {
      CountedTwice(content, text);
      CountOne(content, text);
      FirstIndex(content, text);
    }
  }

  ghost predicate FailsAt(content: Bytes, edits: seq<Edit>, j: nat, error: Error) {
    StopsAt(content, edits, j) && LocateOne(content, edits[j], j) == Failure(error)
  }

  lemma {:induction false} LookingUpStops(content: Bytes, edits: seq<Edit>, k: nat)
    requires k <= |edits|
    ensures var r := LocateAll(content, edits, k);
      && (r.Success? <==> AllLocatable(content, edits[..k]))
      && (r.Failure? ==> exists j: nat :: FailsAt(content, edits, j, r.error))
  {
    hide LocateOne, Locatable;
    if k > 0 {
      LookingUpStops(content, edits, k - 1);
      OneIsLocated(content, edits[k - 1], k - 1);
      assert edits[..k] == edits[..k - 1] + [edits[k - 1]];
      var before := LocateAll(content, edits, k - 1);
      if before.Success? && LocateOne(content, edits[k - 1], k - 1).Failure? {
        assert forall i :: 0 <= i < k - 1 ==> edits[..k - 1][i] == edits[i];
        assert FailsAt(content, edits, k - 1, LocateOne(content, edits[k - 1], k - 1).error);
      }
    }
  }

  lemma StopIsUnique(content: Bytes, edits: seq<Edit>, j: nat, k: nat)
    requires StopsAt(content, edits, j) && StopsAt(content, edits, k)
    ensures j == k
  {
  }

  // ---------------------------------------------------------------- overlaps

  predicate Apart(a: Located, b: Located) { a.End() <= b.index || b.End() <= a.index }

  ghost predicate ApartFrom(e: Located, s: seq<Located>) { forall i :: 0 <= i < |s| ==> Apart(e, s[i]) }

  ghost predicate AllApart(s: seq<Located>) { forall i, j :: 0 <= i < j < |s| ==> Apart(s[i], s[j]) }

  lemma ApartCons(e: Located, s: seq<Located>)
    ensures AllApart([e] + s) <==> AllApart(s) && ApartFrom(e, s)
  {
    hide Apart;
    var t := [e] + s;
    assert forall i :: 0 <= i < |s| ==> t[i + 1] == s[i];
    if AllApart(t) {
      forall i, j | 0 <= i < j < |s| ensures Apart(s[i], s[j]) { assert Apart(t[i + 1], t[j + 1]); }
      forall i | 0 <= i < |s| ensures Apart(e, s[i]) { assert Apart(t[0], t[i + 1]); }
    }
  }

  lemma ApartFromCons(e: Located, x: Located, s: seq<Located>)
    ensures ApartFrom(e, [x] + s) <==> Apart(e, x) && ApartFrom(e, s)
  {
    hide Apart;
    var t := [x] + s;
    assert t[0] == x && forall i :: 0 <= i < |s| ==> t[i + 1] == s[i];
    if ApartFrom(e, t) {
      forall i | 0 <= i < |s| ensures Apart(e, s[i]) { assert Apart(e, t[i + 1]); }
    }
  }

  lemma {:induction false} InsertApart(e: Located, x: Located, s: seq<Located>)
    ensures AllApart(InsertByIndex(e, s)) <==> AllApart(s) && ApartFrom(e, s)
    ensures ApartFrom(x, InsertByIndex(e, s)) <==> Apart(x, e) && ApartFrom(x, s)
    decreases |s|
  {
    hide Apart, AllApart, ApartFrom;
    if s == [] || e.index < s[0].index {
      ApartCons(e, s);
      ApartFromCons(x, e, s);
    } else {
      var rest := InsertByIndex(e, s[1..]);
      assert s == [s[0]] + s[1..];
      InsertApart(e, x, s[1..]);
      InsertApart(e, s[0], s[1..]);
      ApartCons(s[0], rest);
      ApartCons(s[0], s[1..]);
      ApartFromCons(x, s[0], rest);
      ApartFromCons(x, s[0], s[1..]);
      ApartFromCons(e, s[0], s[1..]);
      assert Apart(s[0], e) == Apart(e, s[0]) by { ApartIsMutual(s[0], e); }
    }
  }

  lemma ApartIsMutual(a: Located, b: Located)
    ensures Apart(a, b) == Apart(b, a)
  {
  }

  lemma ApartLast(s: seq<Located>, e: Located)
    ensures AllApart(s + [e]) <==> AllApart(s) && ApartFrom(e, s)
  {
    hide Apart;
    var t := s + [e];
    assert t[|s|] == e && forall i :: 0 <= i < |s| ==> t[i] == s[i];
    forall i | 0 <= i < |s| ensures Apart(s[i], e) == Apart(e, s[i]) { ApartIsMutual(s[i], e); }
    if AllApart(t) {
      forall i | 0 <= i < |s| ensures Apart(e, s[i]) { assert Apart(t[i], t[|s|]); }
    }
  }

  lemma {:induction false} SortApart(s: seq<Located>, x: Located)
    ensures AllApart(SortByIndex(s)) <==> AllApart(s)
    ensures ApartFrom(x, SortByIndex(s)) <==> ApartFrom(x, s)
    decreases |s|
  {
    hide Apart, AllApart, ApartFrom;
    if s == [] {
      assert SortByIndex(s) == s;
    } else {
      var before, e := s[..|s| - 1], s[|s| - 1];
      assert s == before + [e];
      SortApart(before, e);
      SortApart(before, x);
      InsertApart(e, x, SortByIndex(before));
      ApartLast(before, e);
      ApartFromLast(x, before, e);
    }
  }

  lemma ApartFromLast(x: Located, s: seq<Located>, e: Located)
    ensures ApartFrom(x, s + [e]) <==> ApartFrom(x, s) && Apart(x, e)
  {
    hide Apart;
    var t := s + [e];
    assert t[|s|] == e && forall i :: 0 <= i < |s| ==> t[i] == s[i];
    if ApartFrom(x, t) {
      forall i | 0 <= i < |s| ensures Apart(x, s[i]) { assert Apart(x, t[i]); }
    }
  }

  // In order of position, comparing neighbours compares all.
  lemma {:induction false} NeighboursSuffice(content: Bytes, s: seq<Located>)
    requires Ordered(s) && AllFit(content, s)
    ensures Disjoint(s) <==> AllApart(s)
  {
    if Disjoint(s) {
      forall i, j | 0 <= i < j < |s| ensures Apart(s[i], s[j]) {
        assert s[i].End() <= s[i + 1].index <= s[j].index;
      }
    }
    if AllApart(s) {
      forall i | 0 < i < |s| ensures s[i - 1].End() <= s[i].index {
        assert Apart(s[i - 1], s[i]) && Fits(content, s[i]);
      }
    }
  }

  lemma FirstIsUnique(content: Bytes, text: Bytes, p: int, q: int)
    requires FirstAt(content, text, p) && FirstAt(content, text, q)
    ensures p == q
  {
  }

  lemma CollidingIsNotApart(content: Bytes, a: Located, b: Located)
    requires FirstAt(content, a.oldText, a.index) && FirstAt(content, b.oldText, b.index)
    ensures Collide(content, a.oldText, b.oldText) <==> !Apart(a, b)
  {
    hide FirstAt;
    if Collide(content, a.oldText, b.oldText) {
      var p, q :| FirstAt(content, a.oldText, p) && FirstAt(content, b.oldText, q)
               && p < q + |b.oldText| && q < p + |a.oldText|;
      FirstIsUnique(content, a.oldText, p, a.index);
      FirstIsUnique(content, b.oldText, q, b.index);
    }
  }

  lemma OverlapMeans(content: Bytes, edits: seq<Edit>)
    requires LocateAll(content, edits, |edits|).Success?
    ensures Disjoint(SortByIndex(LocateAll(content, edits, |edits|).value)) <==> !SomeCollide(content, edits)
  {
    hide LocateAll, LocateOne, SortByIndex, Disjoint, Ordered, Apart, Collide, Normalize, FirstAt, Fits, Locatable, Missing, OccursTwice;
    var located := LocateAll(content, edits, |edits|).value;
    LocateAllIsEach(content, edits, |edits|);
    LocatedFit(content, edits, |edits|);
    SortOrders(located);
    SameBagFits(content, SortByIndex(located), located);
    NeighboursSuffice(content, SortByIndex(located));
    if edits != [] { SortApart(located, located[0]); }
    forall i, j | 0 <= i < j < |edits|
      ensures Collide(content, Normalize(edits[i].oldText), Normalize(edits[j].oldText)) <==> !Apart(located[i], located[j])
    {
      OneIsLocated(content, edits[i], 0);
      OneIsLocated(content, edits[j], 0);
      CollidingIsNotApart(content, located[i], located[j]);
    }
    hide AllApart;
    assert AllApart(located) <==> !SomeCollide(content, edits) by { CollisionsMean(content, edits, located); }
    if edits == [] { assert located == []; assert SortByIndex([]) == [] by { SortNothing(); } }
  }

  lemma SortNothing()
    ensures SortByIndex([]) == []
  {
  }

  lemma CollisionsMean(content: Bytes, edits: seq<Edit>, located: seq<Located>)
    requires |located| == |edits|
    requires forall i, j :: 0 <= i < j < |edits| ==>
      (Collide(content, Normalize(edits[i].oldText), Normalize(edits[j].oldText)) <==> !Apart(located[i], located[j]))
    ensures AllApart(located) <==> !SomeCollide(content, edits)
  {
    hide Collide, Normalize, Apart;
  }

  // ---------------------------------------------------------------- the outcome

  ghost predicate MixesEndings(content: Bytes) { HasCrLf(content) && HasBareLf(content) }

  /** A call is refused for mixed endings; else for the first edit whose old text is
      empty, missing, or there twice without overlap; else where the first occurrences
      of two old texts overlap; else where nothing would change; and for no other
      reason. */
  lemma WhyRefused(raw: Bytes, edits: seq<Edit>)
    ensures var outcome, content := Execute(raw, edits), SplitBom(raw).1;
      var n := Normalize(content);
      && (outcome == Failure(MixedEndings) <==> MixesEndings(content))
      && (!MixesEndings(content) ==>
            && (forall k: nat :: StopsAt(n, edits, k) ==>
                  var text := Normalize(edits[k].oldText);
                  outcome == Failure(if text == [] then EmptyOldText(k)
                                     else if Missing(n, text) then NotFound(k)
                                     else NotUnique(k)))
            && (AllLocatable(n, edits) ==>
                  && (outcome == Failure(Overlap) <==> SomeCollide(n, edits))
                  && (!SomeCollide(n, edits) ==>
                        (outcome == Failure(NoChange) <==> Unchanged(n, edits))
                        && (outcome.Success? <==> !Unchanged(n, edits)))))
  {
    hide LocateAll, LocateOne, Normalize, HasCrLf, HasBareLf, HasMixedLineEndings, SortByIndex, SpliceFrom, Disjoint, LfToCrLf,
      StopsAt, Missing, OccursTwice, SomeCollide, Unchanged, AllLocatable, Locatable;
    var content := SplitBom(raw).1;
    MixedMeansBoth(content);
    var n := Normalize(content);
    LookingUpStops(n, edits, |edits|);
    assert edits[..|edits|] == edits;
    var located := LocateAll(n, edits, |edits|);
    if located.Success? {
      OverlapMeans(n, edits);
      UpdatedIsTheSame(n, edits);
      forall k: nat ensures !StopsAt(n, edits, k) { NoStop(n, edits, k); }
    } else {
      var j: nat :| FailsAt(n, edits, j, located.error);
      OneStops(n, edits, j);
      OneIsLocated(n, edits[j], j);
      forall k: nat | StopsAt(n, edits, k) ensures k == j { StopIsUnique(n, edits, j, k); }
    }
  }

  lemma OneStops(n: Bytes, edits: seq<Edit>, j: nat)
    requires StopsAt(n, edits, j)
    ensures j < |edits| && !Locatable(n, edits[j]) && !AllLocatable(n, edits)
  {
  }

  lemma NoStop(n: Bytes, edits: seq<Edit>, k: nat)
    requires AllLocatable(n, edits)
    ensures !StopsAt(n, edits, k)
  {
  }

  /** Replacing every old text at its first occurrence gives the content back. */
  ghost predicate Unchanged(n: Bytes, edits: seq<Edit>) {
    var located := LocateAll(n, edits, |edits|);
    located.Success? && Substituted(n, 0, SortByIndex(located.value)) == n
  }

  lemma UpdatedIsTheSame(n: Bytes, edits: seq<Edit>)
    requires LocateAll(n, edits, |edits|).Success?
    ensures var sorted := SortByIndex(LocateAll(n, edits, |edits|).value);
      Disjoint(sorted) ==> (SpliceFrom(n, sorted, 0) == n <==> Unchanged(n, edits))
  {
    hide LocateAll, SortByIndex, SpliceFrom, Disjoint, Substituted, Fits;
    var located := LocateAll(n, edits, |edits|).value;
    LocatedFit(n, edits, |edits|);
    SortOrders(located);
    SameBagFits(n, SortByIndex(located), located);
    if Disjoint(SortByIndex(located)) { SpliceAll(n, SortByIndex(located)); }
  }
}
