// When a failed attempt is followed by another one, and with which model
// (internal/chat/chat.go and cmd/midas/main.go), told by providers and catalog.

module FailoverChoices {
  import opened Options
  import opened Spaces
  import opened Rotation
  import opened Failover

  // ---------------------------------------------------------------- ranking

  /** Up to some place the texts agree, and there the first one ends or is smaller. */
  ghost predicate PrecedesAt(a: string, b: string, k: int) {
    0 <= k <= |a| && k < |b| && a[..k] == b[..k] && (k == |a| || a[k] < b[k])
  }

  ghost predicate Precedes(a: string, b: string) { exists k :: PrecedesAt(a, b, k) }

  /** The failed model's interface counts most, then its kind of reasoning, then a
      context window no smaller than its own; identifiers decide the rest. */
  ghost predicate Better(a: Model, b: Model, failed: Model) {
    var wideA, wideB := a.contextWindow >= failed.contextWindow, b.contextWindow >= failed.contextWindow;
    if (a.api == failed.api) != (b.api == failed.api) then a.api == failed.api
    else if (a.reasoning == failed.reasoning) != (b.reasoning == failed.reasoning) then a.reasoning == failed.reasoning
    else if wideA != wideB then wideA
    else Precedes(a.id, b.id)
  }

  lemma {:induction false} BelowMeans(a: string, b: string)
    ensures StringBelow(a, b) <==> Precedes(a, b)
  {
    if a == [] && b != [] {
      assert PrecedesAt(a, b, 0);
    } else if b != [] {
      BelowMeans(a[1..], b[1..]);
      forall k: int ensures k > 0 && a[0] == b[0] ==> (PrecedesAt(a, b, k) <==> PrecedesAt(a[1..], b[1..], k - 1)) {
        if a[0] == b[0] { TailPrecedes(a, b, k); }
      }
      assert PrecedesAt(a, b, 0) <==> a[0] < b[0];
      if k :| PrecedesAt(a[1..], b[1..], k) { assert a[0] == b[0] ==> PrecedesAt(a, b, k + 1); }
      if k :| PrecedesAt(a, b, k) { assert k > 0 ==> a[..k][0] == b[..k][0]; }
    }
  }

  lemma TailPrecedes(a: string, b: string, k: int)
    requires a != [] && b != [] && a[0] == b[0]
    ensures k > 0 ==> (PrecedesAt(a, b, k) <==> PrecedesAt(a[1..], b[1..], k - 1))
  {
    if 0 < k <= |a| && k < |b| {
      assert a[..k] == [a[0]] + a[1..][..k - 1] && b[..k] == [b[0]] + b[1..][..k - 1];
      assert a[1..][..k - 1] == a[..k][1..] && b[1..][..k - 1] == b[..k][1..];
    }
  }

  /** The scores stand for the ranking. */
  lemma BeforeMeans(a: Model, b: Model, failed: Model)
    ensures Before(a, b, failed) <==> Better(a, b, failed)
  {
    hide StringBelow, Precedes;
    BelowMeans(a.id, b.id);
  }

  predicate Tie(a: Model, b: Model, failed: Model) { !Before(a, b, failed) && !Before(b, a, failed) }

  function Ties(models: seq<Model>, m: Model, failed: Model): seq<Model> {
    if models == [] then [] else (if Tie(models[0], m, failed) then [models[0]] else []) + Ties(models[1..], m, failed)
  }

  lemma {:induction false} TiesAppend(a: seq<Model>, b: seq<Model>, m: Model, failed: Model)
    ensures Ties(a + b, m, failed) == Ties(a, m, failed) + Ties(b, m, failed)
  {
    hide Tie;
    if a == [] {
      assert a + b == b;
    } else {
      assert (a + b)[0] == a[0] && (a + b)[1..] == a[1..] + b;
      TiesAppend(a[1..], b, m, failed);
    }
  }

  lemma {:induction false} NoTies(models: seq<Model>, m: Model, failed: Model)
    requires forall i :: 0 <= i < |models| ==> !Tie(models[i], m, failed)
    ensures Ties(models, m, failed) == []
  {
    if models != [] { NoTies(models[1..], m, failed); }
  }

  // Everything from the first place that x ranks before ranks after x.
  lemma AfterInsertion(x: Model, sorted: seq<Model>, m: Model, failed: Model)
    requires Sorted(sorted, failed) && sorted != [] && Before(x, sorted[0], failed) && Tie(x, m, failed)
    ensures Ties(sorted, m, failed) == []
  {
    hide Before;
    forall i | 0 <= i < |sorted| ensures !Tie(sorted[i], m, failed) {
      BeforeIsTransitive(x, sorted[0], sorted[i], failed);
      BeforeIsTransitive(x, m, sorted[i], failed);
      BeforeIsTransitive(sorted[0], sorted[i], m, failed);
      BeforeIsTransitive(sorted[0], m, x, failed);
      NotBeforeItself(sorted[i], failed);
    }
    NoTies(sorted, m, failed);
  }

  lemma {:induction false} InsertKeepsTies(x: Model, sorted: seq<Model>, m: Model, failed: Model)
    requires Sorted(sorted, failed)
    ensures Ties(Insert(x, sorted, failed), m, failed)
         == Ties(sorted, m, failed) + (if Tie(x, m, failed) then [x] else [])
  {
    hide Before, Tie;
    if sorted == [] {
      assert [x] + sorted == [x] && [x][1..] == [];
    } else if Before(x, sorted[0], failed) {
      assert ([x] + sorted)[1..] == sorted;
      if Tie(x, m, failed) { AfterInsertion(x, sorted, m, failed); }
    } else {
      assert Insert(x, sorted, failed)[1..] == Insert(x, sorted[1..], failed);
      TailIsSorted(sorted, failed);
      InsertKeepsTies(x, sorted[1..], m, failed);
    }
  }

  lemma TailIsSorted(sorted: seq<Model>, failed: Model)
    requires Sorted(sorted, failed) && sorted != []
    ensures Sorted(sorted[1..], failed)
  {
    hide Before;
    forall i, j | 0 <= i < j < |sorted| - 1 ensures !Before(sorted[1..][j], sorted[1..][i], failed) {
      assert !Before(sorted[j + 1], sorted[i + 1], failed);
    }
  }

  /** Models that rank alike keep the order of the catalog. */
  lemma {:induction false} RankingIsStable(models: seq<Model>, failed: Model, m: Model)
    ensures Ties(Ordered(models, failed), m, failed) == Ties(models, m, failed)
  {
    hide Tie, Before;
    if models != [] {
      var n := |models| - 1;
      RankingIsStable(models[..n], failed, m);
      OrderedSorts(models[..n], failed);
      InsertKeepsTies(models[n], Ordered(models[..n], failed), m, failed);
      TiesAppend(models[..n], [models[n]], m, failed);
      assert models[..n] + [models[n]] == models && [models[n]][1..] == [];
      assert Ties([models[n]], m, failed) == if Tie(models[n], m, failed) then [models[n]] else [];
    }
  }

  // ---------------------------------------------------------------- what is on offer

  /** A model with a name, not tried yet, that takes text. */
  ghost predicate Usable(m: Model, tried: seq<Model>) {
    && HasText(m.id) && HasText(m.provider)
    && (forall t :: t in tried ==> Key(t) != Key(m))
    && (m.input == [] || "text" in m.input)
  }

  /** Another model of the failed one's provider needs the setting for that, and that
      the provider did not refuse the credentials; another provider needs its own. */
  predicate Permitted(m: Model, failed: Model, settings: Settings, refused: bool) {
    if m.provider == failed.provider then settings.modelRotation && !refused else settings.providerRotation
  }

  ghost predicate Eligible(m: Model, failed: Model, tried: seq<Model>, catalog: seq<Model>, settings: Settings, refused: bool) {
    m in catalog && Usable(m, tried) && Permitted(m, failed, settings, refused)
  }

  /** First n models of the failed one's provider, then one of each other provider, each
      part by rank: all there are, or LIMIT in all and none better left out. */
  ghost predicate Offered(cs: seq<Model>, n: nat, failed: Model, tried: seq<Model>, catalog: seq<Model>, settings: Settings, refused: bool) {
    && n <= |cs| <= LIMIT
    && (forall i :: 0 <= i < |cs| ==>
          Eligible(cs[i], failed, tried, catalog, settings, refused) && (i < n <==> cs[i].provider == failed.provider))
    && (forall i, j :: 0 <= i < j < |cs| && (j < n || n <= i) ==> !Better(cs[j], cs[i], failed))
    && (forall i, j :: n <= i < j < |cs| ==> cs[i].provider != cs[j].provider)
    && (forall x :: Eligible(x, failed, tried, catalog, settings, refused) && x.provider == failed.provider && x !in cs ==>
          n == LIMIT && NoneBelow(x, cs, 0, failed))
    && (forall x :: Eligible(x, failed, tried, catalog, settings, refused) && x.provider != failed.provider ==>
          Represented(x, cs, n, failed) || (|cs| == LIMIT && NoneBelow(x, cs, n, failed)))
  }

  /** Nothing offered from place n on ranks below the model. */
  ghost predicate NoneBelow(x: Model, cs: seq<Model>, n: nat, failed: Model) {
    forall i :: n <= i < |cs| ==> !Better(x, cs[i], failed)
  }

  /** A model of the same provider is offered that ranks no lower. */
  ghost predicate Represented(x: Model, cs: seq<Model>, n: nat, failed: Model) {
    exists i :: n <= i < |cs| && cs[i].provider == x.provider && !Better(x, cs[i], failed)
  }

  lemma UsableMeans(m: Model, tried: seq<Model>)
    ensures Compatible(m, tried) <==> Usable(m, tried)
  {
    hide Key, IsSpace;
  }

  // ---------------------------------------------------------------- the candidates are what is on offer

  // Those of the failed provider that found no place rank below all that did.
  lemma {:induction false} SameProviderLeavesOut(ordered: seq<Model>, k: nat, failed: Model, attempted: seq<Model>, x: nat)
    requires k <= |ordered| && Sorted(ordered, failed) && x < k
    requires ordered[x].provider == failed.provider && Compatible(ordered[x], attempted)
    ensures var found := SameProvider(ordered, k, failed, attempted);
      && (forall f :: f in found ==> f in ordered[..k])
      && (ordered[x] in found || (|found| == LIMIT && forall f :: f in found ==> !Before(ordered[x], f, failed)))
  {
    hide Compatible, Before;
    SameProviderSound(ordered, k - 1, failed, attempted);
    var before := SameProvider(ordered, k - 1, failed, attempted);
    if x < k - 1 {
      SameProviderLeavesOut(ordered, k - 1, failed, attempted, x);
      SliceGrows(ordered, k);
    } else {
      forall f | f in before ensures f in ordered[..k] && !Before(ordered[x], f, failed) {
        var i :| 0 <= i < |before| && before[i] == f;
        var j :| 0 <= j < k - 1 && ordered[..k - 1][j] == f;
        assert ordered[..k][j] == f;
      }
      assert ordered[..k][k - 1] == ordered[k - 1];
    }
  }

  lemma SliceGrows(ordered: seq<Model>, k: nat)
    requires 0 < k <= |ordered|
    ensures forall m :: m in ordered[..k] <==> m in ordered[..k - 1] || m == ordered[k - 1]
  {
    assert ordered[..k] == ordered[..k - 1] + [ordered[k - 1]];
  }

  lemma {:induction false} OthersAreRanked(ordered: seq<Model>, k: nat, failed: Model, attempted: seq<Model>, found: seq<Model>)
    requires k <= |ordered| && Sorted(ordered, failed) && |found| <= LIMIT
    ensures var r := OtherProviders(ordered, k, failed, attempted, found);
      && |found| <= |r| <= LIMIT
      && (forall i :: |found| <= i < |r| ==> r[i] in ordered[..k])
      && (forall i, j :: |found| <= i < j < |r| ==> !Before(r[j], r[i], failed))
  {
    hide Compatible, Before, Providers;
    if k > 0 {
      OthersAreRanked(ordered, k - 1, failed, attempted, found);
      SliceGrows(ordered, k);
      RanksLast(ordered, k, failed);
    }
  }

  ghost predicate RanksBelow(last: Model, above: seq<Model>, failed: Model) { forall m :: m in above ==> !Before(last, m, failed) }

  lemma RanksLast(ordered: seq<Model>, k: nat, failed: Model)
    requires 0 < k <= |ordered| && Sorted(ordered, failed)
    ensures RanksBelow(ordered[k - 1], ordered[..k - 1], failed)
  {
    hide Before;
    var above := ordered[..k - 1];
    forall m | m in above ensures !Before(ordered[k - 1], m, failed) {
      var j :| 0 <= j < k - 1 && above[j] == m;
      assert ordered[j] == m;
    }
  }

  lemma ProviderPlace(so: seq<Model>, found: seq<Model>, failed: Model, provider: string) returns (i: nat)
    requires |found| <= |so| && so[..|found|] == found && forall f :: f in found ==> f.provider == failed.provider
    requires provider != failed.provider && provider in Providers(so)
    ensures |found| <= i < |so| && so[i].provider == provider
  {
    var p :| p in so && p.provider == provider;
    i :| 0 <= i < |so| && so[i] == p;
    assert forall j :: 0 <= j < |found| ==> so[j] == found[j] && found[j] in found;
  }

  // A usable model elsewhere has its provider among the found, or ranks below them all.
  lemma {:induction false} OthersLeaveOut(ordered: seq<Model>, k: nat, failed: Model, attempted: seq<Model>, found: seq<Model>, x: nat)
    requires k <= |ordered| && Sorted(ordered, failed) && |found| <= LIMIT && x < k
    requires ordered[x].provider != failed.provider && Compatible(ordered[x], attempted)
    requires forall f :: f in found ==> f.provider == failed.provider
    ensures var r := OtherProviders(ordered, k, failed, attempted, found);
      && |found| <= |r|
      && ((exists i :: |found| <= i < |r| && r[i].provider == ordered[x].provider && !Before(ordered[x], r[i], failed))
          || (|r| == LIMIT && forall i :: |found| <= i < |r| ==> !Before(ordered[x], r[i], failed)))
  {
    hide Compatible, Before, Providers;
    OthersAreRanked(ordered, k - 1, failed, attempted, found);
    OtherProvidersSound(ordered, k - 1, failed, attempted, found);
    var so := OtherProviders(ordered, k - 1, failed, attempted, found);
    var r := OtherProviders(ordered, k, failed, attempted, found);
    if x < k - 1 {
      OthersLeaveOut(ordered, k - 1, failed, attempted, found, x);
      if i :| |found| <= i < |so| && so[i].provider == ordered[x].provider && !Before(ordered[x], so[i], failed) {
        assert r[i] == so[i];
      }
    } else {
      RanksLast(ordered, k, failed);
      NotBeforeItself(ordered[x], failed);
      if ordered[x].provider in Providers(so) {
        var i := ProviderPlace(so, found, failed, ordered[x].provider);
        assert r[i] == so[i] && !Before(ordered[x], so[i], failed);
      } else if |so| < LIMIT {
        assert r[|so|] == ordered[x];
      }
    }
  }

  function SamePart(failed: Model, tried: seq<Model>, catalog: seq<Model>, settings: Settings, refused: bool): seq<Model> {
    var ordered := Ordered(catalog, failed);
    if settings.modelRotation && !refused then SameProvider(ordered, |ordered|, failed, tried) else []
  }

  lemma SamePartHolds(failed: Model, tried: seq<Model>, catalog: seq<Model>, settings: Settings, refused: bool)
    ensures var same := SamePart(failed, tried, catalog, settings, refused);
      && |same| <= LIMIT && Sorted(same, failed)
      && (forall m :: m in same ==> m.provider == failed.provider)
      && (forall x :: Eligible(x, failed, tried, catalog, settings, refused) && x.provider == failed.provider && x !in same ==>
            |same| == LIMIT && forall f :: f in same ==> !Before(x, f, failed))
  {
    hide Compatible, Before, Ordered, SameProvider, Usable;
    var ordered := Ordered(catalog, failed);
    OrderedSorts(catalog, failed);
    SameProviderSound(ordered, |ordered|, failed, tried);
    var same := SamePart(failed, tried, catalog, settings, refused);
    forall x | Eligible(x, failed, tried, catalog, settings, refused) && x.provider == failed.provider && x !in same
      ensures |same| == LIMIT && forall f :: f in same ==> !Before(x, f, failed)
    {
      UsableMeans(x, tried);
      OrderedHas(catalog, failed, x);
      var i :| 0 <= i < |ordered| && ordered[i] == x;
      SameProviderLeavesOut(ordered, |ordered|, failed, tried, i);
    }
  }

  lemma OtherPartHolds(failed: Model, tried: seq<Model>, catalog: seq<Model>, settings: Settings, refused: bool)
    ensures var same, cs := SamePart(failed, tried, catalog, settings, refused), Candidates(failed, tried, catalog, settings, refused);
      && |same| <= |cs| && cs[..|same|] == same
      && (forall i :: |same| <= i < |cs| ==> cs[i].provider != failed.provider)
      && (forall i, j :: |same| <= i < j < |cs| ==> !Before(cs[j], cs[i], failed))
  {
    hide Compatible, Before, Ordered, SameProvider, OtherProviders;
    var ordered := Ordered(catalog, failed);
    var same := SamePart(failed, tried, catalog, settings, refused);
    OrderedSorts(catalog, failed);
    SamePartHolds(failed, tried, catalog, settings, refused);
    OtherProvidersSound(ordered, |ordered|, failed, tried, same);
    OthersAreRanked(ordered, |ordered|, failed, tried, same);
  }

  lemma OthersAreRepresented(failed: Model, tried: seq<Model>, catalog: seq<Model>, settings: Settings, refused: bool, x: Model)
    requires Eligible(x, failed, tried, catalog, settings, refused) && x.provider != failed.provider
    ensures var same, cs := SamePart(failed, tried, catalog, settings, refused), Candidates(failed, tried, catalog, settings, refused);
      Represented(x, cs, |same|, failed) || (|cs| == LIMIT && NoneBelow(x, cs, |same|, failed))
  {
    hide Compatible, Before, Better, Ordered, SameProvider, OtherProviders, Usable;
    var ordered := Ordered(catalog, failed);
    var same, cs := SamePart(failed, tried, catalog, settings, refused), Candidates(failed, tried, catalog, settings, refused);
    OrderedSorts(catalog, failed);
    SamePartHolds(failed, tried, catalog, settings, refused);
    UsableMeans(x, tried);
    OrderedHas(catalog, failed, x);
    var k :| 0 <= k < |ordered| && ordered[k] == x;
    OthersLeaveOut(ordered, |ordered|, failed, tried, same, k);
    forall i | 0 <= i < |cs| ensures Before(x, cs[i], failed) <==> Better(x, cs[i], failed) { BeforeMeans(x, cs[i], failed); }
  }

  lemma RankOf(cs: seq<Model>, failed: Model)
    ensures forall i, j :: 0 <= i < |cs| && 0 <= j < |cs| ==> (Before(cs[j], cs[i], failed) <==> Better(cs[j], cs[i], failed))
  {
    hide Before, Better;
    forall i, j | 0 <= i < |cs| && 0 <= j < |cs| ensures Before(cs[j], cs[i], failed) <==> Better(cs[j], cs[i], failed) {
      BeforeMeans(cs[j], cs[i], failed);
    }
  }

  // What found no place among those of the failed provider found none at all.
  lemma HomeIsComplete(failed: Model, tried: seq<Model>, catalog: seq<Model>, settings: Settings, refused: bool, x: Model)
    requires Eligible(x, failed, tried, catalog, settings, refused) && x.provider == failed.provider
    requires x !in Candidates(failed, tried, catalog, settings, refused)
    ensures var same, cs := SamePart(failed, tried, catalog, settings, refused), Candidates(failed, tried, catalog, settings, refused);
      |same| == LIMIT && NoneBelow(x, cs, 0, failed)
  {
    hide Compatible, Before, Better, Candidates, SamePart, Usable;
    var same, cs := SamePart(failed, tried, catalog, settings, refused), Candidates(failed, tried, catalog, settings, refused);
    CandidatesAreSound(failed, tried, catalog, settings, refused);
    SamePartHolds(failed, tried, catalog, settings, refused);
    OtherPartHolds(failed, tried, catalog, settings, refused);
    assert forall f :: f in same ==> f in cs[..|same|];
    forall i | 0 <= i < |cs| ensures !Better(x, cs[i], failed) {
      BeforeMeans(x, cs[i], failed);
      assert cs[i] == cs[..|same|][i] && cs[..|same|][i] in same;
    }
  }

  /** The candidates are what is on offer. */
  lemma CandidatesAreOffered(failed: Model, tried: seq<Model>, catalog: seq<Model>, settings: Settings, refused: bool)
    ensures Offered(Candidates(failed, tried, catalog, settings, refused), |SamePart(failed, tried, catalog, settings, refused)|,
                    failed, tried, catalog, settings, refused)
  {
    hide Compatible, Before, Better, Candidates, SamePart, Usable, Represented, NoneBelow;
    var same, cs := SamePart(failed, tried, catalog, settings, refused), Candidates(failed, tried, catalog, settings, refused);
    CandidatesAreSound(failed, tried, catalog, settings, refused);
    SamePartHolds(failed, tried, catalog, settings, refused);
    OtherPartHolds(failed, tried, catalog, settings, refused);
    RankOf(cs, failed);
    var n := |same|;
    forall i | 0 <= i < n ensures cs[i].provider == failed.provider { assert cs[..n][i] == same[i] && same[i] in same; }
    forall i | 0 <= i < |cs| ensures Usable(cs[i], tried) { UsableMeans(cs[i], tried); }
    forall x | Eligible(x, failed, tried, catalog, settings, refused) && x.provider == failed.provider && x !in cs
      ensures n == LIMIT && NoneBelow(x, cs, 0, failed)
    {
      HomeIsComplete(failed, tried, catalog, settings, refused, x);
    }
    forall x | Eligible(x, failed, tried, catalog, settings, refused) && x.provider != failed.provider
      ensures Represented(x, cs, n, failed) || (|cs| == LIMIT && NoneBelow(x, cs, n, failed))
    {
      OthersAreRepresented(failed, tried, catalog, settings, refused, x);
    }
  }

  // ---------------------------------------------------------------- why an attempt follows

  /** The attempt may be followed by another: it ended because the provider was
      unavailable, before anything meaningful, and the caller still wants it. */
  ghost predicate MayFailOver(w: World, a: Attempt) {
    && w.failsOver && a.live && Idle(a.events)
    && a.end.AgentEnd? && a.end.failure.Some? && a.end.failure.value.unavailable
  }

  /** The first model on offer that is configured. */
  ghost predicate FirstOf(cs: seq<Model>, w: World, tried: seq<Model>, next: Option<Model>) {
    if next.None? then forall i :: 0 <= i < |cs| ==> !w.configured(tried, cs[i])
    else exists i :: FirstAt(cs, w, tried, i) && cs[i] == next.value
  }

  ghost predicate FirstAt(cs: seq<Model>, w: World, tried: seq<Model>, i: int) {
    0 <= i < |cs| && w.configured(tried, cs[i]) && forall j :: 0 <= j < i ==> !w.configured(tried, cs[j])
  }

  ghost predicate Chosen(w: World, tried: seq<Model>, failed: Model, refused: bool, next: Option<Model>) {
    exists cs, n :: Offered(cs, n, failed, tried, w.catalog, w.settings(tried), refused) && FirstOf(cs, w, tried, next)
  }

  lemma {:induction false} FirstConfiguredMeans(cs: seq<Model>, w: World, tried: seq<Model>)
    ensures FirstOf(cs, w, tried, FirstConfigured(cs, m => w.configured(tried, m)))
  {
    var next := FirstConfigured(cs, m => w.configured(tried, m));
    if cs != [] {
      if w.configured(tried, cs[0]) {
        assert FirstAt(cs, w, tried, 0);
      } else {
        FirstConfiguredMeans(cs[1..], w, tried);
        if next.Some? {
          var i :| FirstAt(cs[1..], w, tried, i) && cs[1..][i] == next.value;
          assert FirstAt(cs, w, tried, i + 1);
        } else {
          assert forall i :: 0 < i < |cs| ==> cs[i] == cs[1..][i - 1];
        }
      }
    }
  }

  lemma NextIsChosen(w: World, a: Attempt, first: bool, tried: seq<Model>)
    requires tried != []
    ensures var next := NextModel(w, a, ScanAll(a.events, first).meaningful, tried);
      && (!MayFailOver(w, a) ==> next == None)
      && (MayFailOver(w, a) ==> Chosen(w, tried, tried[|tried| - 1], a.end.failure.value.authentication, next))
  {
    hide ScanAll, Candidates, FirstConfigured, Offered, FirstOf, Idle;
    HeldBack(a.events, first);
    if MayFailOver(w, a) {
      var failed, refused := tried[|tried| - 1], a.end.failure.value.authentication;
      CandidatesAreOffered(failed, tried, w.catalog, w.settings(tried), refused);
      FirstConfiguredMeans(Candidates(failed, tried, w.catalog, w.settings(tried), refused), w, tried);
    }
  }

  /** Every attempt that was followed by another ended unavailable, idle and wanted, and
      the next model was the first one configured of what was on offer. */
  lemma {:induction false} WhyAttemptsFollow(w: World, attempted: seq<Model>, k: nat)
    requires attempted != [] && |attempted| <= k < |RunFrom(w, attempted).attempted|
    ensures var all := RunFrom(w, attempted).attempted;
      var a := AttemptAt(w, all, k);
      && MayFailOver(w, a)
      && Chosen(w, all[..k], all[k - 1], a.end.failure.value.authentication, Some(all[k]))
    decreases Keys(w.catalog) - Keys(attempted)
  {
    hide ScanAll, NextModel, Deliver, Keys, Key, MayFailOver, Chosen;
    var a := w.attempt(attempted);
    var scan := ScanAll(a.events, |attempted| == 1);
    var next := NextModel(w, a, scan.meaningful, attempted);
    NextIsChosen(w, a, |attempted| == 1, attempted);
    if next.Some? {
      NextModelIsFresh(w, a, scan.meaningful, attempted);
      KeysAppend(attempted, next.value);
      WhatIsSeen(w, attempted + [next.value]);
      var all := RunFrom(w, attempted).attempted;
      assert all[..|attempted|] == attempted && all[|attempted|] == next.value;
      if k > |attempted| {
        WhyAttemptsFollow(w, attempted + [next.value], k);
      } else {
        assert all[k - 1] == attempted[|attempted| - 1];
      }
    }
  }

  /** The last attempt was one that may not be followed, or nothing on offer was
      configured. */
  lemma {:induction false} WhyTheRunStops(w: World, attempted: seq<Model>)
    requires attempted != []
    ensures var all := RunFrom(w, attempted).attempted;
      var last := w.attempt(all);
      && all != []
      && (MayFailOver(w, last) ==> Chosen(w, all, all[|all| - 1], last.end.failure.value.authentication, None))
    decreases Keys(w.catalog) - Keys(attempted)
  {
    hide ScanAll, NextModel, Deliver, Keys, Key, MayFailOver, Chosen;
    var a := w.attempt(attempted);
    var scan := ScanAll(a.events, |attempted| == 1);
    var next := NextModel(w, a, scan.meaningful, attempted);
    NextIsChosen(w, a, |attempted| == 1, attempted);
    if next.Some? {
      NextModelIsFresh(w, a, scan.meaningful, attempted);
      KeysAppend(attempted, next.value);
      WhyTheRunStops(w, attempted + [next.value]);
    }
  }

  // ---------------------------------------------------------------- what that means

  /** A model moved to is eligible and configured. It is of the same provider only if the
      credentials were not refused, and of another one only if no eligible model of the
      same provider is configured; no configured eligible one of its provider is better. */
  lemma NextModelFits(w: World, tried: seq<Model>, failed: Model, refused: bool, next: Model)
    requires Chosen(w, tried, failed, refused, Some(next))
    ensures Eligible(next, failed, tried, w.catalog, w.settings(tried), refused) && w.configured(tried, next)
    ensures refused ==> next.provider != failed.provider
    ensures forall x :: Eligible(x, failed, tried, w.catalog, w.settings(tried), refused) && w.configured(tried, x) ==>
      && (x.provider == failed.provider ==> next.provider == failed.provider)
      && (x.provider == next.provider ==> !Better(x, next, failed))
  {
    hide Usable, Better, Represented, NoneBelow;
    var cs: seq<Model>, n: nat :| Offered(cs, n, failed, tried, w.catalog, w.settings(tried), refused) && FirstOf(cs, w, tried, Some(next));
    var i :| FirstAt(cs, w, tried, i) && cs[i] == next;
    forall x | Eligible(x, failed, tried, w.catalog, w.settings(tried), refused) && w.configured(tried, x)
      ensures x.provider == failed.provider ==> next.provider == failed.provider
      ensures x.provider == next.provider ==> !Better(x, next, failed)
    {
      NoBetterChoice(w, cs, n, tried, failed, refused, i, x);
    }
  }

  lemma NoBetterChoice(w: World, cs: seq<Model>, n: nat, tried: seq<Model>, failed: Model, refused: bool, i: nat, x: Model)
    requires Offered(cs, n, failed, tried, w.catalog, w.settings(tried), refused) && FirstAt(cs, w, tried, i)
    requires Eligible(x, failed, tried, w.catalog, w.settings(tried), refused) && w.configured(tried, x)
    ensures x.provider == failed.provider ==> cs[i].provider == failed.provider
    ensures x.provider == cs[i].provider ==> !Better(x, cs[i], failed)
  {
    hide Offered, Eligible, FirstAt, Better;
    FirstIsWithin(cs, w, tried, i);
    if x.provider == failed.provider {
      NoBetterAtHome(w, cs, n, tried, failed, refused, i, x);
    } else if x.provider == cs[i].provider {
      NoBetterElsewhere(w, cs, n, tried, failed, refused, i, x);
    }
  }

  lemma FirstIsWithin(cs: seq<Model>, w: World, tried: seq<Model>, i: nat)
    requires FirstAt(cs, w, tried, i)
    ensures i < |cs|
  {
  }

  lemma NoBetterAtHome(w: World, cs: seq<Model>, n: nat, tried: seq<Model>, failed: Model, refused: bool, i: nat, x: Model)
    requires Offered(cs, n, failed, tried, w.catalog, w.settings(tried), refused) && FirstAt(cs, w, tried, i)
    requires Eligible(x, failed, tried, w.catalog, w.settings(tried), refused) && w.configured(tried, x) && x.provider == failed.provider
    ensures i < n && cs[i].provider == failed.provider && !Better(x, cs[i], failed)
  {
    hide Eligible, Better, Represented;
    NotBetterThanItself(x, failed);
    if x in cs {
      var j :| 0 <= j < |cs| && cs[j] == x;
      assert i <= j < n;
    }
  }

  lemma NoBetterElsewhere(w: World, cs: seq<Model>, n: nat, tried: seq<Model>, failed: Model, refused: bool, i: nat, x: Model)
    requires Offered(cs, n, failed, tried, w.catalog, w.settings(tried), refused) && i < |cs|
    requires Eligible(x, failed, tried, w.catalog, w.settings(tried), refused) && x.provider == cs[i].provider != failed.provider
    ensures !Better(x, cs[i], failed)
  {
    hide Eligible, Better;
    assert i >= n;
    if Represented(x, cs, n, failed) {
      var j: int :| n <= j < |cs| && cs[j].provider == x.provider && !Better(x, cs[j], failed);
      assert i == j;
    }
  }

  lemma NotBetterThanItself(x: Model, failed: Model)
    ensures !Better(x, x, failed)
  {
    NotBeforeItself(x, failed);
    BeforeMeans(x, x, failed);
  }

  /** Over a whole run: each model moved to is in the catalog, usable, configured and
      permitted; a provider that refused the credentials is left, and one that did not is
      left only when nothing eligible of it is configured. */
  lemma EveryMoveFits(w: World, attempted: seq<Model>, k: nat)
    requires attempted != [] && |attempted| <= k < |RunFrom(w, attempted).attempted|
    ensures var all := RunFrom(w, attempted).attempted;
      var a, tried, failed, next := AttemptAt(w, all, k), all[..k], all[k - 1], all[k];
      && MayFailOver(w, a)
      && Eligible(next, failed, tried, w.catalog, w.settings(tried), a.end.failure.value.authentication) && w.configured(tried, next)
      && (a.end.failure.value.authentication ==> next.provider != failed.provider)
      && (next.provider != failed.provider ==>
            forall x :: Eligible(x, failed, tried, w.catalog, w.settings(tried), a.end.failure.value.authentication) ==>
              x.provider != failed.provider || !w.configured(tried, x))
  {
    hide RunFrom, Chosen, Eligible;
    WhyAttemptsFollow(w, attempted, k);
    var all := RunFrom(w, attempted).attempted;
    NextModelFits(w, all[..k], all[k - 1], AttemptAt(w, all, k).end.failure.value.authentication, all[k]);
  }

  ghost predicate ByProvider(w: World, tried: seq<Model>) {
    forall a: Model, b: Model :: a.provider == b.provider ==> w.configured(tried, a) == w.configured(tried, b)
  }

  ghost predicate Full(w: World, tried: seq<Model>, failed: Model, refused: bool) {
    exists cs, n :: Offered(cs, n, failed, tried, w.catalog, w.settings(tried), refused) && FirstOf(cs, w, tried, None) && |cs| == LIMIT
  }

  lemma RepresentedByConfigured(w: World, tried: seq<Model>, cs: seq<Model>, n: nat, failed: Model, x: Model)
    requires Represented(x, cs, n, failed) && ByProvider(w, tried) && w.configured(tried, x)
    ensures exists i :: 0 <= i < |cs| && w.configured(tried, cs[i])
  {
    hide Better;
    var i: int :| n <= i < |cs| && cs[i].provider == x.provider && !Better(x, cs[i], failed);
    assert w.configured(tried, cs[i]) == w.configured(tried, x);
  }

  /** A run that may go on stops although an eligible model is configured only if LIMIT
      better ones were looked at in vain: always for a model of the failed provider, and
      for others when being configured is a matter of the provider alone. */
  lemma StopsWhenNothingIsLeft(w: World, tried: seq<Model>, failed: Model, refused: bool, x: Model)
    requires Chosen(w, tried, failed, refused, None)
    requires Eligible(x, failed, tried, w.catalog, w.settings(tried), refused) && w.configured(tried, x)
    requires x.provider == failed.provider || ByProvider(w, tried)
    ensures Full(w, tried, failed, refused)
  {
    hide Eligible, NoneBelow, Better;
    var cs: seq<Model>, n: nat :| Offered(cs, n, failed, tried, w.catalog, w.settings(tried), refused) && FirstOf(cs, w, tried, None);
    if x.provider != failed.provider && Represented(x, cs, n, failed) { RepresentedByConfigured(w, tried, cs, n, failed, x); }
  }

  /** Over a whole run: it stops at an attempt that may be followed by another one only
      where nothing eligible is configured, or LIMIT better models were not. */
  lemma EveryStopIsDue(w: World, attempted: seq<Model>, x: Model)
    requires attempted != []
    ensures var all := RunFrom(w, attempted).attempted;
      var last := w.attempt(all);
      && all != []
      && (MayFailOver(w, last) ==>
            var (failed, refused) := (all[|all| - 1], last.end.failure.value.authentication);
            (&& Eligible(x, failed, all, w.catalog, w.settings(all), refused) && w.configured(all, x)
             && (x.provider == failed.provider || ByProvider(w, all))) ==> Full(w, all, failed, refused))
  {
    hide RunFrom, Chosen, Eligible, Full, ByProvider;
    WhyTheRunStops(w, attempted);
    var all := RunFrom(w, attempted).attempted;
    var last := w.attempt(all);
    if MayFailOver(w, last) {
      var failed, refused := all[|all| - 1], last.end.failure.value.authentication;
      if Eligible(x, failed, all, w.catalog, w.settings(all), refused) && w.configured(all, x)
         && (x.provider == failed.provider || ByProvider(w, all)) {
        StopsWhenNothingIsLeft(w, all, failed, refused, x);
      }
    }
  }
}
