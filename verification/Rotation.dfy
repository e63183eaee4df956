// Which models a failed run may move to (cmd/midas/main.go).

module Rotation {
  import opened Options
  import opened Spaces

  datatype Model = Model(
    provider: string, id: string, api: string, reasoning: bool, contextWindow: int,
    input: seq<string>)

  datatype Settings = Settings(modelRotation: bool, providerRotation: bool)

  const LIMIT := 8

  /** A model is known by its provider and id. */
  function Key(model: Model): string { model.provider + ['\0'] + model.id }

  function Keys(models: seq<Model>): set<string> { set m | m in models :: Key(m) }

  predicate Compatible(model: Model, attempted: seq<Model>) {
    && !Blank(model.id) && !Blank(model.provider)
    && Key(model) !in Keys(attempted)
    && (model.input == [] || "text" in model.input)
  }

  function Score(model: Model, failed: Model): nat {
    (if model.api == failed.api then 4 else 0)
      + (if model.reasoning == failed.reasoning then 2 else 0)
      + (if model.contextWindow >= failed.contextWindow then 1 else 0)
  }

  predicate StringBelow(a: string, b: string) {
    if b == [] then false
    else if a == [] then true
    else a[0] < b[0] || (a[0] == b[0] && StringBelow(a[1..], b[1..]))
  }

  /** Better scores first, then by id. */
  predicate Before(a: Model, b: Model, failed: Model) {
    if Score(a, failed) != Score(b, failed) then Score(a, failed) > Score(b, failed) else StringBelow(a.id, b.id)
  }

  // Stable insertion: after everything that does not come after it.
  function Insert(model: Model, sorted: seq<Model>, failed: Model): seq<Model> {
    if sorted == [] || Before(model, sorted[0], failed) then [model] + sorted
    else [sorted[0]] + Insert(model, sorted[1..], failed)
  }

  function Ordered(models: seq<Model>, failed: Model): seq<Model> {
    if models == [] then []
    else Insert(models[|models| - 1], Ordered(models[..|models| - 1], failed), failed)
  }

  /** Other models of the failed one's provider, at most LIMIT in all. */
  function SameProvider(ordered: seq<Model>, k: nat, failed: Model, attempted: seq<Model>): seq<Model>
    requires k <= |ordered|
  {
    if k == 0 then []
    else
      var found := SameProvider(ordered, k - 1, failed, attempted);
      var m := ordered[k - 1];
      if |found| < LIMIT && m.provider == failed.provider && Compatible(m, attempted) then found + [m] else found
  }

  function Providers(models: seq<Model>): set<string> { set m | m in models :: m.provider }

  /** The best model of each other provider, as long as there is room. */
  function OtherProviders(ordered: seq<Model>, k: nat, failed: Model, attempted: seq<Model>, found: seq<Model>): seq<Model>
    requires k <= |ordered|
  {
    if k == 0 then found
    else
      var so := OtherProviders(ordered, k - 1, failed, attempted, found);
      var m := ordered[k - 1];
      if |so| < LIMIT && m.provider != failed.provider && m.provider !in Providers(so) && Compatible(m, attempted)
      then so + [m] else so
  }

  function Candidates(failed: Model, attempted: seq<Model>, available: seq<Model>, settings: Settings, authentication: bool): seq<Model> {
    var ordered := Ordered(available, failed);
    var same := if settings.modelRotation && !authentication
                then SameProvider(ordered, |ordered|, failed, attempted) else [];
    if |same| < LIMIT && settings.providerRotation
    then OtherProviders(ordered, |ordered|, failed, attempted, same) else same
  }

  // ---------------------------------------------------------------- what the candidates are

  ghost predicate Sorted(models: seq<Model>, failed: Model) {
    forall i, j :: 0 <= i < j < |models| ==> !Before(models[j], models[i], failed)
  }

  lemma {:induction false} InsertKeeps(model: Model, sorted: seq<Model>, failed: Model)
    ensures multiset(Insert(model, sorted, failed)) == multiset(sorted) + multiset{model}
  {
    if sorted != [] && !Before(model, sorted[0], failed) {
      InsertKeeps(model, sorted[1..], failed);
      assert sorted == [sorted[0]] + sorted[1..];
    }
  }

  lemma {:induction false} OrderedKeeps(models: seq<Model>, failed: Model)
    ensures multiset(Ordered(models, failed)) == multiset(models)
  {
    if models != [] {
      var n := |models| - 1;
      OrderedKeeps(models[..n], failed);
      InsertKeeps(models[n], Ordered(models[..n], failed), failed);
      assert models == models[..n] + [models[n]];
    }
  }

  lemma OrderedHas(models: seq<Model>, failed: Model, m: Model)
    ensures m in Ordered(models, failed) <==> m in models
  {
    OrderedKeeps(models, failed);
    assert m in Ordered(models, failed) <==> m in multiset(Ordered(models, failed));
  }

  lemma {:induction false} BelowIsTransitive(a: string, b: string, c: string)
    ensures !StringBelow(b, a) && !StringBelow(c, b) ==> !StringBelow(c, a)
    ensures !(StringBelow(a, b) && StringBelow(b, a))
  {
    if a != [] && b != [] && c != [] {
      BelowIsTransitive(a[1..], b[1..], c[1..]);
    } else if a != [] && b != [] {
      BelowIsTransitive(a[1..], b[1..], []);
    }
  }

  lemma BeforeIsTransitive(a: Model, b: Model, c: Model, failed: Model)
    ensures !Before(b, a, failed) && !Before(c, b, failed) ==> !Before(c, a, failed)
    ensures Before(a, b, failed) ==> !Before(b, a, failed)
  {
    BelowIsTransitive(a.id, b.id, c.id);
  }

  lemma {:induction false} InsertSorts(model: Model, sorted: seq<Model>, failed: Model)
    requires Sorted(sorted, failed)
    ensures var r := Insert(model, sorted, failed);
      Sorted(r, failed) && r != [] && (r[0] == model || (sorted != [] && r[0] == sorted[0]))
  {
    hide Before;
    if sorted == [] {
    } else if Before(model, sorted[0], failed) {
      forall j | 0 <= j < |sorted| ensures !Before(sorted[j], model, failed) {
        BeforeIsTransitive(model, sorted[0], sorted[j], failed);
      }
    } else {
      var rest := Insert(model, sorted[1..], failed);
      InsertSorts(model, sorted[1..], failed);
      forall j | 0 <= j < |rest| ensures !Before(rest[j], sorted[0], failed) {
        if j > 0 {
          BeforeIsTransitive(sorted[0], rest[0], rest[j], failed);
        }
      }
    }
  }

  lemma {:induction false} OrderedSorts(models: seq<Model>, failed: Model)
    ensures Sorted(Ordered(models, failed), failed)
  {
    hide Before;
    if models != [] {
      OrderedSorts(models[..|models| - 1], failed);
      InsertSorts(models[|models| - 1], Ordered(models[..|models| - 1], failed), failed);
    }
  }

  ghost predicate FromSameProvider(found: seq<Model>, ordered: seq<Model>, failed: Model, attempted: seq<Model>) {
    forall i :: 0 <= i < |found| ==>
      found[i] in ordered && found[i].provider == failed.provider && Compatible(found[i], attempted)
  }

  ghost predicate FindsAll(found: seq<Model>, ordered: seq<Model>, k: nat, failed: Model, attempted: seq<Model>)
    requires k <= |ordered|
  {
    forall i :: 0 <= i < k ==>
      ordered[i].provider == failed.provider && Compatible(ordered[i], attempted) ==> ordered[i] in found
  }

  lemma {:induction false} SameProviderSound(ordered: seq<Model>, k: nat, failed: Model, attempted: seq<Model>)
    requires k <= |ordered| && Sorted(ordered, failed)
    ensures var found := SameProvider(ordered, k, failed, attempted);
      && |found| <= LIMIT && Sorted(found, failed)
      && FromSameProvider(found, ordered[..k], failed, attempted)
      && (|found| < LIMIT ==> FindsAll(found, ordered, k, failed, attempted))
  {
    hide Before, Compatible;
    if k > 0 {
      SameProviderSound(ordered, k - 1, failed, attempted);
      var before := SameProvider(ordered, k - 1, failed, attempted);
      forall i | 0 <= i < |before| ensures before[i] in ordered[..k] && !Before(ordered[k - 1], before[i], failed) {
        var j :| 0 <= j < k - 1 && ordered[..k - 1][j] == before[i];
        assert ordered[..k][j] == before[i];
      }
      assert ordered[..k][k - 1] == ordered[k - 1];
    }
  }

  lemma {:induction false} OtherProvidersSound(ordered: seq<Model>, k: nat, failed: Model, attempted: seq<Model>, found: seq<Model>)
    requires k <= |ordered| && |found| <= LIMIT
    ensures var r := OtherProviders(ordered, k, failed, attempted, found);
      && |found| <= |r| <= LIMIT && r[..|found|] == found
      && (forall i :: |found| <= i < |r| ==>
            r[i] in ordered && r[i].provider != failed.provider && Compatible(r[i], attempted))
      && (forall i, j :: |found| <= i < j < |r| ==> r[i].provider != r[j].provider)
  {
    hide Compatible;
    if k > 0 {
      OtherProvidersSound(ordered, k - 1, failed, attempted, found);
      var so := OtherProviders(ordered, k - 1, failed, attempted, found);
      forall i | 0 <= i < |so| ensures so[i].provider in Providers(so) {
        assert so[i] in so;
      }
    }
  }

  /** Candidates are usable, unattempted models of the catalog, at most LIMIT of
      them: the failed provider's by rank, then one from each other provider. */
  lemma CandidatesAreSound(failed: Model, attempted: seq<Model>, available: seq<Model>, settings: Settings, authentication: bool)
    ensures var cs := Candidates(failed, attempted, available, settings, authentication);
      && |cs| <= LIMIT
      && (forall i :: 0 <= i < |cs| ==> cs[i] in available && Compatible(cs[i], attempted))
      && (authentication || !settings.modelRotation ==> forall i :: 0 <= i < |cs| ==> cs[i].provider != failed.provider)
      && (!settings.providerRotation ==> forall i :: 0 <= i < |cs| ==> cs[i].provider == failed.provider)
      && (forall i, j :: 0 <= i < j < |cs| && cs[j].provider == failed.provider ==>
            cs[i].provider == failed.provider && !Before(cs[j], cs[i], failed))
      && (forall i, j :: 0 <= i < j < |cs| && cs[i].provider != failed.provider ==> cs[i].provider != cs[j].provider)
  {
    hide Compatible, Before, Ordered, SameProvider, OtherProviders;
    var ordered := Ordered(available, failed);
    OrderedSorts(available, failed);
    SameProviderSound(ordered, |ordered|, failed, attempted);
    assert ordered[..|ordered|] == ordered;
    var same := if settings.modelRotation && !authentication
                then SameProvider(ordered, |ordered|, failed, attempted) else [];
    OtherProvidersSound(ordered, |ordered|, failed, attempted, same);
    var cs := Candidates(failed, attempted, available, settings, authentication);
    assert forall i :: 0 <= i < |same| ==> cs[i] == same[i] by {
      assert cs[..|same|] == same;
    }
    forall i | 0 <= i < |cs| ensures cs[i] in available {
      OrderedHas(available, failed, cs[i]);
    }
  }

  // ---------------------------------------------------------------- choosing

  /** The first candidate that is configured. */
  function FirstConfigured(candidates: seq<Model>, configured: Model -> bool): Option<Model> {
    if candidates == [] then None
    else if configured(candidates[0]) then Some(candidates[0])
    else FirstConfigured(candidates[1..], configured)
  }

  lemma {:induction false} FirstConfiguredIsCandidate(candidates: seq<Model>, configured: Model -> bool)
    ensures var r := FirstConfigured(candidates, configured);
      && (r.Some? ==> r.value in candidates && configured(r.value))
      && (r.None? ==> forall i :: 0 <= i < |candidates| ==> !configured(candidates[i]))
  {
    if candidates != [] {
      FirstConfiguredIsCandidate(candidates[1..], configured);
    }
  }

  /** Each other provider contributes its best usable model, and none is passed over
      while there is room. */
  lemma {:induction false} OtherProvidersBest(ordered: seq<Model>, k: nat, failed: Model, attempted: seq<Model>, found: seq<Model>)
    requires k <= |ordered| && Sorted(ordered, failed)
    ensures var r := OtherProviders(ordered, k, failed, attempted, found);
      && |found| <= |r|
      && (|r| < LIMIT ==> forall i :: 0 <= i < k && Elsewhere(ordered[i], failed, attempted) ==> ordered[i].provider in Providers(r))
      && (forall j :: |found| <= j < |r| ==> BestOfProvider(r[j], ordered, failed, attempted))
  {
    hide Compatible, Before, BestOfProvider, Sorted, Providers;
    if k > 0 {
      OtherProvidersBest(ordered, k - 1, failed, attempted, found);
      var so := OtherProviders(ordered, k - 1, failed, attempted, found);
      var m := ordered[k - 1];
      ProvidersGrow(so, m);
      if |so| < LIMIT && m.provider != failed.provider && m.provider !in Providers(so) && Compatible(m, attempted) {
        FirstIsBest(ordered, k - 1, failed, attempted, Providers(so));
      }
    }
  }

  ghost predicate Elsewhere(m: Model, failed: Model, attempted: seq<Model>) {
    m.provider != failed.provider && Compatible(m, attempted)
  }

  ghost predicate BestOfProvider(m: Model, ordered: seq<Model>, failed: Model, attempted: seq<Model>) {
    forall i :: 0 <= i < |ordered| && ordered[i].provider == m.provider && Compatible(ordered[i], attempted)
      ==> !Before(ordered[i], m, failed)
  }

  lemma ProvidersGrow(models: seq<Model>, m: Model)
    ensures Providers(models + [m]) == Providers(models) + {m.provider}
  {
    forall p ensures p in Providers(models + [m]) <==> p in Providers(models) + {m.provider} {
      assert forall x :: x in models + [m] <==> x in models || x == m;
    }
  }

  lemma FirstIsBest(ordered: seq<Model>, k: nat, failed: Model, attempted: seq<Model>, seen: set<string>)
    requires k < |ordered| && Sorted(ordered, failed) && ordered[k].provider !in seen && ordered[k].provider != failed.provider
    requires forall i :: 0 <= i < k && Elsewhere(ordered[i], failed, attempted) ==> ordered[i].provider in seen
    ensures BestOfProvider(ordered[k], ordered, failed, attempted)
  {
    hide Compatible, Before;
    forall i | 0 <= i < k && ordered[i].provider == ordered[k].provider ensures !Compatible(ordered[i], attempted) {
      assert Elsewhere(ordered[i], failed, attempted) <==> Compatible(ordered[i], attempted);
    }
    NotBeforeItself(ordered[k], failed);
  }

  lemma NotBeforeItself(m: Model, failed: Model)
    ensures !Before(m, m, failed)
  {
    BeforeIsTransitive(m, m, m, failed);
  }

  // ---------------------------------------------------------------- the loops

  /** Ranks the catalog, then collects until there are enough candidates. */
  method RotationCandidates(failed: Model, attempted: seq<Model>, available: seq<Model>, settings: Settings, authentication: bool)
    returns (candidates: seq<Model>)
    ensures candidates == Candidates(failed, attempted, available, settings, authentication)
  {
    hide Compatible, Ordered, Providers;
    var ordered := Ordered(available, failed);
    candidates := [];
    if settings.modelRotation && !authentication {
      for k := 0 to |ordered|
        invariant candidates == SameProvider(ordered, k, failed, attempted) && |candidates| < LIMIT
      {
        if ordered[k].provider == failed.provider && Compatible(ordered[k], attempted) {
          candidates := candidates + [ordered[k]];
          if |candidates| == LIMIT {
            FullStays(ordered, k + 1, |ordered|, failed, attempted);
            return;
          }
        }
      }
    }
    if settings.providerRotation {
      ghost var same := candidates;
      var seenProviders: set<string> := {};
      SameProviderOnly(ordered, |ordered|, failed, attempted);
      NoProvider(candidates, failed.provider);
      for k := 0 to |ordered|
        invariant candidates == OtherProviders(ordered, k, failed, attempted, same) && |candidates| < LIMIT
        invariant forall p :: p != failed.provider ==> (p in seenProviders <==> p in Providers(candidates))
      {
        var m := ordered[k];
        if m.provider != failed.provider && m.provider !in seenProviders && Compatible(m, attempted) {
          ProvidersGrow(candidates, m);
          seenProviders := seenProviders + {m.provider};
          candidates := candidates + [m];
          if |candidates| == LIMIT {
            FullStaysFull(ordered, k + 1, |ordered|, failed, attempted, same);
            break;
          }
        }
      }
    }
  }

  lemma {:induction false} SameProviderOnly(ordered: seq<Model>, k: nat, failed: Model, attempted: seq<Model>)
    requires k <= |ordered|
    ensures forall m :: m in SameProvider(ordered, k, failed, attempted) ==> m.provider == failed.provider
  {
    hide Compatible;
    if k > 0 { SameProviderOnly(ordered, k - 1, failed, attempted); }
  }

  lemma NoProvider(models: seq<Model>, provider: string)
    requires forall m :: m in models ==> m.provider == provider
    ensures forall p :: p != provider ==> p !in Providers(models)
  {
  }

  lemma {:induction false} FullStays(ordered: seq<Model>, k: nat, n: nat, failed: Model, attempted: seq<Model>)
    requires k <= n <= |ordered| && |SameProvider(ordered, k, failed, attempted)| >= LIMIT
    ensures SameProvider(ordered, n, failed, attempted) == SameProvider(ordered, k, failed, attempted)
    decreases n
  {
    hide Compatible;
    if k < n { FullStays(ordered, k, n - 1, failed, attempted); }
  }

  lemma {:induction false} FullStaysFull(ordered: seq<Model>, k: nat, n: nat, failed: Model, attempted: seq<Model>, found: seq<Model>)
    requires k <= n <= |ordered| && |OtherProviders(ordered, k, failed, attempted, found)| >= LIMIT
    ensures OtherProviders(ordered, n, failed, attempted, found) == OtherProviders(ordered, k, failed, attempted, found)
    decreases n
  {
    hide Compatible;
    if k < n { FullStaysFull(ordered, k, n - 1, failed, attempted, found); }
  }
}
