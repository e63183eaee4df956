// Main-axis allocation of a stack (internal/tui/stack.go): every entry starts at
// its clamped basis, then the surplus or the shortfall is handed out in weighted
// passes until it is used up or nothing can take more.

module StackSizes {
  import opened Options

  const MAX_SAFE_INTEGER: nat := 9007199254740991

  /** Allocation settings; omitted ones take the defaults below. */
  datatype Entry = Entry(
    basis: Option<nat>, grow: Option<nat>, shrink: Option<nat>,
    minSize: Option<nat>, maxSize: Option<nat>)
  {
    function Grow(): nat { grow.GetOr(0) }
    function Shrink(): nat { shrink.GetOr(1) }
    function MinSize(): nat { minSize.GetOr(0) }
    function MaxSize(): nat { maxSize.GetOr(MAX_SAFE_INTEGER) }

    /** The minimum wins over a smaller maximum. */
    function Ceiling(): nat { Max(MinSize(), MaxSize()) }

    function Clamp(size: int): nat {
      Max(MinSize(), Min(Ceiling(), Max(0, size)))
    }

    /** How much an entry of this size can still take or give. */
    function Capacity(size: nat, grow: bool): int {
      if grow then MaxSize() - size else size - MinSize()
    }

    function Weight(size: nat, grow: bool): nat {
      if grow then Grow() else Shrink() * Max(1, size)
    }

    predicate Takes(size: nat, grow: bool) {
      (if grow then Grow() > 0 else Shrink() > 0) && Capacity(size, grow) > 0
    }
  }

  function Sum(sizes: seq<nat>): nat {
    if sizes == [] then 0 else Sum(sizes[..|sizes| - 1]) + sizes[|sizes| - 1]
  }

  // ---------------------------------------------------------------- one pass

  predicate Indexes(cs: seq<nat>, n: nat) {
    forall i :: 0 <= i < |cs| ==> cs[i] < n
  }

  /** Entries that can take part in a pass, in order, among the first k. */
  function Candidates(entries: seq<Entry>, sizes: seq<nat>, grow: bool, k: nat): (cs: seq<nat>)
    requires |entries| == |sizes| && k <= |entries|
    ensures Indexes(cs, k)
  {
    if k == 0 then []
    else
      var before := Candidates(entries, sizes, grow, k - 1);
      if entries[k - 1].Takes(sizes[k - 1], grow) then before + [k - 1] else before
  }

  /** The candidates are exactly the entries that can take part, each once. */
  ghost predicate AreAllCandidates(entries: seq<Entry>, sizes: seq<nat>, grow: bool, k: nat, cs: seq<nat>)
    requires |entries| == |sizes| && k <= |entries|
  {
    && Indexes(cs, k)
    && (forall i :: 0 <= i < |cs| ==> entries[cs[i]].Takes(sizes[cs[i]], grow))
    && (forall c: nat :: c < k && entries[c].Takes(sizes[c], grow) ==> c in cs)
    && (forall i, j :: 0 <= i < j < |cs| ==> cs[i] < cs[j])
  }

  lemma {:induction false} CandidatesAreAll(entries: seq<Entry>, sizes: seq<nat>, grow: bool, k: nat)
    requires |entries| == |sizes| && k <= |entries|
    ensures AreAllCandidates(entries, sizes, grow, k, Candidates(entries, sizes, grow, k))
  {
    if k > 0 {
      CandidatesAreAll(entries, sizes, grow, k - 1);
    }
  }

  function TotalWeight(entries: seq<Entry>, sizes: seq<nat>, grow: bool, cs: seq<nat>): nat
    requires |entries| == |sizes| && Indexes(cs, |entries|)
  {
    if cs == [] then 0
    else
      var c := cs[|cs| - 1];
      TotalWeight(entries, sizes, grow, cs[..|cs| - 1]) + entries[c].Weight(sizes[c], grow)
  }

  datatype Tally = Tally(sizes: seq<nat>, remaining: nat)

  /** An entry's share of what remains: at least one cell, at most its capacity. */
  function Share(remaining: nat, weight: nat, total: nat, capacity: int): int
    requires total > 0
  {
    Min(Min(remaining, Max(1, remaining * weight / total)), capacity)
  }

  function Give(entry: Entry, t: Tally, c: nat, total: nat, grow: bool): (r: Tally)
    requires c < |t.sizes| && total > 0
    ensures |r.sizes| == |t.sizes| && r.remaining <= t.remaining
  {
    var size := t.sizes[c];
    var delta := Share(t.remaining, entry.Weight(size, grow), total, entry.Capacity(size, grow));
    if delta <= 0 then t
    else Tally(t.sizes[c := if grow then size + delta else size - delta], t.remaining - delta)
  }

  /** Serves the first k candidates in order, each from what the ones before left. */
  function Pass(entries: seq<Entry>, t: Tally, cs: seq<nat>, total: nat, grow: bool, k: nat): (r: Tally)
    requires |entries| == |t.sizes| && Indexes(cs, |entries|) && total > 0 && k <= |cs|
    ensures |r.sizes| == |t.sizes| && r.remaining <= t.remaining
  {
    if k == 0 then t
    else Give(entries[cs[k - 1]], Pass(entries, t, cs, total, grow, k - 1), cs[k - 1], total, grow)
  }

  // Every candidate weighs something.
  lemma {:induction false} CandidatesWeigh(entries: seq<Entry>, sizes: seq<nat>, grow: bool, cs: seq<nat>)
    requires |entries| == |sizes| && Indexes(cs, |entries|)
    requires forall i :: 0 <= i < |cs| ==> entries[cs[i]].Takes(sizes[cs[i]], grow)
    ensures TotalWeight(entries, sizes, grow, cs) >= |cs|
  {
    if cs != [] {
      CandidatesWeigh(entries, sizes, grow, cs[..|cs| - 1]);
      ShrinkWeighs(entries[cs[|cs| - 1]], sizes[cs[|cs| - 1]]);
    }
  }

  lemma ShrinkWeighs(entry: Entry, size: nat)
    ensures entry.Shrink() > 0 ==> entry.Shrink() * Max(1, size) > 0
  {
  }

  lemma AllCandidatesWeigh(entries: seq<Entry>, sizes: seq<nat>, grow: bool)
    requires |entries| == |sizes|
    ensures var cs := Candidates(entries, sizes, grow, |entries|);
      TotalWeight(entries, sizes, grow, cs) >= |cs|
  {
    CandidatesAreAll(entries, sizes, grow, |entries|);
    var cs := Candidates(entries, sizes, grow, |entries|);
    assert AreAllCandidates(entries, sizes, grow, |entries|, cs);
    CandidatesWeigh(entries, sizes, grow, cs);
  }

  /** The result of one whole pass over the current candidates. */
  function FullPass(entries: seq<Entry>, sizes: seq<nat>, amount: nat, grow: bool): (r: Tally)
    requires |entries| == |sizes| && Candidates(entries, sizes, grow, |entries|) != []
    ensures |r.sizes| == |sizes| && r.remaining <= amount
  {
    var cs := Candidates(entries, sizes, grow, |entries|);
    AllCandidatesWeigh(entries, sizes, grow);
    Pass(entries, Tally(sizes, amount), cs, TotalWeight(entries, sizes, grow, cs), grow, |cs|)
  }

  function Distribute(entries: seq<Entry>, sizes: seq<nat>, amount: nat, grow: bool): (r: seq<nat>)
    requires |entries| == |sizes|
    ensures |r| == |sizes|
    decreases amount
  {
    if amount == 0 || Candidates(entries, sizes, grow, |entries|) == [] then sizes
    else
      var t := FullPass(entries, sizes, amount, grow);
      if t.remaining == amount then t.sizes else Distribute(entries, t.sizes, t.remaining, grow)
  }

  // ---------------------------------------------------------------- the whole allocation

  function BaseSizes(entries: seq<Entry>, intrinsic: seq<int>, k: nat): (r: seq<nat>)
    requires k <= |entries|
    ensures |r| == k
  {
    if k == 0 then []
    else
      var measured := if k - 1 < |intrinsic| then intrinsic[k - 1] else 0;
      BaseSizes(entries, intrinsic, k - 1)
        + [entries[k - 1].Clamp(if entries[k - 1].basis.Some? then entries[k - 1].basis.value else measured)]
  }

  function ContentSize(available: int, count: nat, gap: nat): nat {
    Max(0, available - Max(0, count - 1) * gap)
  }

  function Allocate(entries: seq<Entry>, intrinsic: seq<int>, available: Option<int>, gap: nat): (r: seq<nat>)
    ensures |r| == |entries|
  {
    var base := BaseSizes(entries, intrinsic, |entries|);
    if available.None? then base
    else
      var content := ContentSize(available.value, |entries|, gap);
      var total := Sum(base);
      if total < content then Distribute(entries, base, content - total, true)
      else if total > content then Distribute(entries, base, total - content, false)
      else base
  }

  // ---------------------------------------------------------------- what a pass achieves

  lemma {:induction false} SumUpdate(s: seq<nat>, i: nat, v: nat)
    requires i < |s|
    ensures Sum(s[i := v]) == Sum(s) - s[i] + v
  {
    var last := |s| - 1;
    if i < last {
      SumUpdate(s[..last], i, v);
      assert s[i := v][..last] == s[..last][i := v];
    } else {
      assert s[i := v][..last] == s[..last];
    }
  }

  lemma ShareBounds(remaining: nat, weight: nat, total: nat, capacity: int)
    requires total > 0
    ensures Share(remaining, weight, total, capacity) <= remaining
    ensures Share(remaining, weight, total, capacity) <= capacity
    ensures remaining > 0 && capacity > 0 ==> Share(remaining, weight, total, capacity) > 0
  {
  }

  /** Serving one candidate moves exactly what it takes out of what remains, and
      takes something whenever anything remains. */
  lemma GiveMoves(entry: Entry, t: Tally, c: nat, total: nat, grow: bool)
    requires c < |t.sizes| && total > 0
    ensures var r := Give(entry, t, c, total, grow);
      var moved := t.remaining - r.remaining;
      && Sum(r.sizes) == Sum(t.sizes) + (if grow then moved else -moved)
      && (forall i :: 0 <= i < |t.sizes| && i != c ==> r.sizes[i] == t.sizes[i])
      && r.sizes[c] == t.sizes[c] + (if grow then moved else -moved)
      && (moved > 0 ==> moved <= entry.Capacity(t.sizes[c], grow))
      && (t.remaining > 0 && entry.Capacity(t.sizes[c], grow) > 0 ==> moved > 0)
  {
    var size := t.sizes[c];
    var delta := Share(t.remaining, entry.Weight(size, grow), total, entry.Capacity(size, grow));
    ShareBounds(t.remaining, entry.Weight(size, grow), total, entry.Capacity(size, grow));
    if delta > 0 {
      SumUpdate(t.sizes, c, if grow then size + delta else size - delta);
    }
  }

  // What one pass keeps about each entry: it moves only in the pass's direction,
  // only if it is a candidate, and no further than its own bound.
  ghost predicate Moves(entry: Entry, before: nat, after: nat, grow: bool) {
    if grow then before <= after && (after != before ==> entry.Grow() > 0 && after <= entry.MaxSize())
    else after <= before && (after != before ==> entry.Shrink() > 0 && after >= entry.MinSize())
  }

  lemma {:induction false} PassMoves(entries: seq<Entry>, t: Tally, cs: seq<nat>, total: nat, grow: bool, k: nat)
    requires |entries| == |t.sizes| && Indexes(cs, |entries|) && total > 0 && k <= |cs|
    requires forall i :: 0 <= i < |cs| ==> entries[cs[i]].Takes(t.sizes[cs[i]], grow)
    requires forall i, j :: 0 <= i < j < |cs| ==> cs[i] < cs[j]
    ensures var r := Pass(entries, t, cs, total, grow, k);
      && Sum(r.sizes) == Sum(t.sizes) + (if grow then t.remaining - r.remaining else r.remaining - t.remaining)
      && (forall i :: 0 <= i < |entries| ==> Moves(entries[i], t.sizes[i], r.sizes[i], grow))
      && (forall j :: k <= j < |cs| ==> r.sizes[cs[j]] == t.sizes[cs[j]])
      && (t.remaining > 0 && k > 0 ==> r.remaining < t.remaining)
  {
    if k > 0 {
      PassMoves(entries, t, cs, total, grow, k - 1);
      var before := Pass(entries, t, cs, total, grow, k - 1);
      var c := cs[k - 1];
      assert before.sizes[c] == t.sizes[c];
      GiveMoves(entries[c], before, c, total, grow);
    }
  }

  /** A pass with something to give always gives: the exit for a pass that
      distributed nothing is never taken. */
  lemma FullPassMakesProgress(entries: seq<Entry>, sizes: seq<nat>, amount: nat, grow: bool)
    requires |entries| == |sizes| && amount > 0
    requires Candidates(entries, sizes, grow, |entries|) != []
    ensures var r := FullPass(entries, sizes, amount, grow);
      && r.remaining < amount
      && Sum(r.sizes) == Sum(sizes) + (if grow then amount - r.remaining else r.remaining - amount)
      && forall i :: 0 <= i < |entries| ==> Moves(entries[i], sizes[i], r.sizes[i], grow)
  {
    var cs := Candidates(entries, sizes, grow, |entries|);
    CandidatesAreAll(entries, sizes, grow, |entries|);
    CandidatesWeigh(entries, sizes, grow, cs);
    PassMoves(entries, Tally(sizes, amount), cs, TotalWeight(entries, sizes, grow, cs), grow, |cs|);
  }

  /** Distribution never overshoots, and stops short only when no entry can take more. */
  lemma {:induction false} DistributeUsesUpOrSaturates(entries: seq<Entry>, sizes: seq<nat>, amount: nat, grow: bool)
    requires |entries| == |sizes|
    requires !grow ==> amount <= Sum(sizes)
    ensures var r := Distribute(entries, sizes, amount, grow);
      var moved := if grow then Sum(r) - Sum(sizes) else Sum(sizes) - Sum(r);
      && 0 <= moved <= amount
      && (forall i :: 0 <= i < |entries| ==> Moves(entries[i], sizes[i], r[i], grow))
      && (moved < amount ==> forall i :: 0 <= i < |entries| ==> !entries[i].Takes(r[i], grow))
    decreases amount
  {
    hide FullPass;
    var cs := Candidates(entries, sizes, grow, |entries|);
    CandidatesAreAll(entries, sizes, grow, |entries|);
    if amount > 0 && cs != [] {
      var t := FullPass(entries, sizes, amount, grow);
      FullPassMakesProgress(entries, sizes, amount, grow);
      DistributeUsesUpOrSaturates(entries, t.sizes, t.remaining, grow);
      var r := Distribute(entries, t.sizes, t.remaining, grow);
      forall i | 0 <= i < |entries| ensures Moves(entries[i], sizes[i], r[i], grow) {
        assert Moves(entries[i], sizes[i], t.sizes[i], grow) && Moves(entries[i], t.sizes[i], r[i], grow);
      }
    }
  }

  // ---------------------------------------------------------------- the allocation

  /** The furthest an entry can go from its base size in one direction. */
  function Limit(entry: Entry, base: nat, grow: bool): nat {
    if grow then (if entry.Grow() > 0 then Max(base, entry.MaxSize()) else base)
    else (if entry.Shrink() > 0 then Min(base, entry.MinSize()) else base)
  }

  function Limits(entries: seq<Entry>, base: seq<nat>, grow: bool): (r: seq<nat>)
    requires |entries| == |base|
    ensures |r| == |base|
    ensures forall i :: 0 <= i < |base| ==> r[i] == Limit(entries[i], base[i], grow)
    decreases |base|
  {
    if base == [] then []
    else Limits(entries[..|base| - 1], base[..|base| - 1], grow) + [Limit(entries[|base| - 1], base[|base| - 1], grow)]
  }

  lemma {:induction false} SumMonotone(a: seq<nat>, b: seq<nat>)
    requires |a| == |b| && forall i :: 0 <= i < |a| ==> a[i] <= b[i]
    ensures Sum(a) <= Sum(b)
    ensures Sum(a) == Sum(b) ==> a == b
  {
    if a != [] {
      var last := |a| - 1;
      SumMonotone(a[..last], b[..last]);
      if Sum(a) == Sum(b) {
        assert a == a[..last] + [a[last]] && b == b[..last] + [b[last]];
      }
    }
  }

  lemma MovesWithinLimit(entry: Entry, before: nat, after: nat, grow: bool)
    requires Moves(entry, before, after, grow)
    ensures if grow then before <= after <= Limit(entry, before, grow) else Limit(entry, before, grow) <= after <= before
    ensures !entry.Takes(after, grow) ==> after == Limit(entry, before, grow)
    ensures (if grow then entry.Grow() else entry.Shrink()) == 0 ==> after == before
    ensures entry.MinSize() <= before <= entry.Ceiling() ==> entry.MinSize() <= after <= entry.Ceiling()
  {
  }

  // The outcome of a distribution, entry by entry.
  lemma {:induction false} DistributeWithinLimits(entries: seq<Entry>, sizes: seq<nat>, amount: nat, grow: bool)
    requires |entries| == |sizes|
    requires !grow ==> amount <= Sum(sizes)
    ensures var r := Distribute(entries, sizes, amount, grow);
      && (forall i :: 0 <= i < |entries| ==> Moves(entries[i], sizes[i], r[i], grow))
      && (if grow then Sum(sizes) <= Sum(r) <= Sum(sizes) + amount else Sum(sizes) - amount <= Sum(r) <= Sum(sizes))
      && (Sum(r) != (if grow then Sum(sizes) + amount else Sum(sizes) - amount) ==> r == Limits(entries, sizes, grow))
  {
    hide Distribute, Moves, Limit, Entry.Takes;
    DistributeUsesUpOrSaturates(entries, sizes, amount, grow);
    var r, limits := Distribute(entries, sizes, amount, grow), Limits(entries, sizes, grow);
    if Sum(r) != (if grow then Sum(sizes) + amount else Sum(sizes) - amount) {
      forall i | 0 <= i < |entries| ensures r[i] == limits[i] {
        assert !entries[i].Takes(r[i], grow);
        MovesWithinLimit(entries[i], sizes[i], r[i], grow);
      }
      assert r == limits;
    }
  }

  /** The final total in closed form: the target, unless the entries' limits fall
      short of it. In particular the total never crosses the target. */
  lemma {:induction false} DistributeTotal(entries: seq<Entry>, sizes: seq<nat>, amount: nat, grow: bool)
    requires |entries| == |sizes|
    requires !grow ==> amount <= Sum(sizes)
    ensures var limit := Sum(Limits(entries, sizes, grow));
      Sum(Distribute(entries, sizes, amount, grow))
        == if grow then Min(Sum(sizes) + amount, limit) else Max(Sum(sizes) - amount, limit)
  {
    hide Distribute, Moves, Limit;
    DistributeWithinLimits(entries, sizes, amount, grow);
    var r, limits := Distribute(entries, sizes, amount, grow), Limits(entries, sizes, grow);
    forall i | 0 <= i < |entries| ensures if grow then r[i] <= limits[i] else limits[i] <= r[i] {
      MovesWithinLimit(entries[i], sizes[i], r[i], grow);
    }
    if grow {
      SumMonotone(r, limits);
    } else {
      SumMonotone(limits, r);
    }
  }

  lemma {:induction false} BaseSizesInRange(entries: seq<Entry>, intrinsic: seq<int>, k: nat)
    requires k <= |entries|
    ensures forall i :: 0 <= i < k ==>
      entries[i].MinSize() <= BaseSizes(entries, intrinsic, k)[i] <= entries[i].Ceiling()
  {
    if k > 0 {
      BaseSizesInRange(entries, intrinsic, k - 1);
    }
  }

  /** Allocation is exact or saturated: every size stays in its range, the total is
      the target whenever the limits allow it, and entries of zero weight keep
      their base size. */
  lemma {:induction false} AllocateIsExactOrSaturated(entries: seq<Entry>, intrinsic: seq<int>, available: int, gap: nat)
    ensures var base := BaseSizes(entries, intrinsic, |entries|);
      var content := ContentSize(available, |entries|, gap);
      var r := Allocate(entries, intrinsic, Some(available), gap);
      var grow := Sum(base) < content;
      && (forall i :: 0 <= i < |entries| ==> entries[i].MinSize() <= r[i] <= entries[i].Ceiling())
      && (forall i :: 0 <= i < |entries| ==>
            (if grow then entries[i].Grow() else entries[i].Shrink()) == 0 ==> r[i] == base[i])
      && Sum(r) == (if grow then Min(content, Sum(Limits(entries, base, true)))
                    else Max(content, Sum(Limits(entries, base, false))))
      && (Sum(r) != content ==> forall i :: 0 <= i < |entries| ==> r[i] == Limit(entries[i], base[i], grow))
  {
    hide Distribute, Moves, Limit, Entry.Ceiling, ContentSize;
    var base := BaseSizes(entries, intrinsic, |entries|);
    var content := ContentSize(available, |entries|, gap);
    BaseSizesInRange(entries, intrinsic, |entries|);
    var r := Allocate(entries, intrinsic, Some(available), gap);
    var grow := Sum(base) < content;
    if Sum(base) != content {
      var amount := if grow then content - Sum(base) else Sum(base) - content;
      DistributeWithinLimits(entries, base, amount, grow);
      DistributeTotal(entries, base, amount, grow);
      forall i | 0 <= i < |entries|
        ensures entries[i].MinSize() <= r[i] <= entries[i].Ceiling()
        ensures (if grow then entries[i].Grow() else entries[i].Shrink()) == 0 ==> r[i] == base[i]
      {
        MovesWithinLimit(entries[i], base[i], r[i], grow);
      }
    } else {
      LimitsBelow(entries, base);
    }
  }

  lemma LimitsBelow(entries: seq<Entry>, base: seq<nat>)
    requires |entries| == |base|
    ensures Sum(Limits(entries, base, false)) <= Sum(base)
  {
    SumMonotone(Limits(entries, base, false), base);
  }

  // ---------------------------------------------------------------- in place

  method CollectCandidates(sizes: array<nat>, entries: seq<Entry>, grow: bool)
    returns (candidates: seq<nat>, totalWeight: nat)
    requires sizes.Length == |entries|
    ensures candidates == Candidates(entries, sizes[..], grow, |entries|)
    ensures totalWeight == TotalWeight(entries, sizes[..], grow, candidates)
  {
    hide Entry.Takes, Entry.Weight, TotalWeight;
    ghost var s := sizes[..];
    candidates, totalWeight := [], 0;
    NoWeight(entries, s, grow);
    for index := 0 to |entries|
      invariant candidates == Candidates(entries, s, grow, index)
      invariant totalWeight == TotalWeight(entries, s, grow, candidates)
    {
      var entry := entries[index];
      if entry.Takes(sizes[index], grow) {
        WeightAppends(entries, s, grow, candidates, index);
        candidates := candidates + [index];
        totalWeight := totalWeight + entry.Weight(sizes[index], grow);
      }
    }
  }

  lemma NoWeight(entries: seq<Entry>, sizes: seq<nat>, grow: bool)
    requires |entries| == |sizes|
    ensures TotalWeight(entries, sizes, grow, []) == 0
  {
  }

  lemma WeightAppends(entries: seq<Entry>, sizes: seq<nat>, grow: bool, cs: seq<nat>, c: nat)
    requires |entries| == |sizes| && Indexes(cs, |entries|) && c < |entries|
    ensures TotalWeight(entries, sizes, grow, cs + [c])
         == TotalWeight(entries, sizes, grow, cs) + entries[c].Weight(sizes[c], grow)
  {
    hide Entry.Weight;
    assert (cs + [c])[..|cs|] == cs;
  }

  method ServeCandidates(sizes: array<nat>, entries: seq<Entry>, candidates: seq<nat>, totalWeight: nat,
                         amount: nat, grow: bool) returns (remaining: nat)
    requires sizes.Length == |entries| && Indexes(candidates, |entries|) && totalWeight > 0
    modifies sizes
    ensures Tally(sizes[..], remaining)
         == Pass(entries, Tally(old(sizes[..]), amount), candidates, totalWeight, grow, |candidates|)
  {
    remaining := amount;
    ghost var start := Tally(sizes[..], amount);
    for k := 0 to |candidates|
      invariant Tally(sizes[..], remaining) == Pass(entries, start, candidates, totalWeight, grow, k)
    {
      if remaining <= 0 {
        NothingLeft(entries, start, candidates, totalWeight, grow, k, |candidates|);
        return;
      }
      var index := candidates[k];
      var entry := entries[index];
      var proposed := Max(1, remaining * entry.Weight(sizes[index], grow) / totalWeight);
      var delta := Min(Min(remaining, proposed), entry.Capacity(sizes[index], grow));
      if delta > 0 {
        ghost var before := sizes[..];
        sizes[index] := if grow then sizes[index] + delta else sizes[index] - delta;
        remaining := remaining - delta;
        assert sizes[..] == before[index := sizes[index]];
      }
    }
  }

  lemma {:induction false} NothingLeft(entries: seq<Entry>, t: Tally, cs: seq<nat>, total: nat, grow: bool, j: nat, k: nat)
    requires |entries| == |t.sizes| && Indexes(cs, |entries|) && total > 0 && j <= k <= |cs|
    requires Pass(entries, t, cs, total, grow, j).remaining == 0
    ensures Pass(entries, t, cs, total, grow, k) == Pass(entries, t, cs, total, grow, j)
  {
    if j < k {
      NothingLeft(entries, t, cs, total, grow, j, k - 1);
    }
  }

  /** Hands out the amount in passes, changing the sizes where they are. */
  method DistributeStackSizes(sizes: array<nat>, entries: seq<Entry>, amount: nat, grow: bool)
    requires sizes.Length == |entries|
    modifies sizes
    ensures sizes[..] == Distribute(entries, old(sizes[..]), amount, grow)
  {
    hide Pass;
    var remaining := amount;
    while remaining > 0
      invariant Distribute(entries, old(sizes[..]), amount, grow) == Distribute(entries, sizes[..], remaining, grow)
      decreases remaining
    {
      var candidates, totalWeight := CollectCandidates(sizes, entries, grow);
      if |candidates| == 0 {
        return;
      }
      ghost var before := sizes[..];
      AllCandidatesWeigh(entries, before, grow);
      FullPassMakesProgress(entries, before, remaining, grow);
      remaining := ServeCandidates(sizes, entries, candidates, totalWeight, remaining, grow);
    }
  }

  lemma SumOfNone()
    ensures Sum([]) == 0
  {
  }

  lemma SumSnoc(sizes: seq<nat>, size: nat)
    ensures Sum(sizes + [size]) == Sum(sizes) + size
  {
    assert (sizes + [size])[..|sizes|] == sizes;
  }

  method AllocateStackSizes(entries: seq<Entry>, intrinsic: seq<int>, available: Option<int>, gap: nat)
    returns (sizes: array<nat>)
    ensures fresh(sizes) && sizes[..] == Allocate(entries, intrinsic, available, gap)
  {
    hide Distribute, Entry.Clamp, Sum;
    SumOfNone();
    sizes := new nat[|entries|];
    var total := 0;
    for index := 0 to |entries|
      invariant sizes[..index] == BaseSizes(entries, intrinsic, index)
      invariant total == Sum(sizes[..index])
    {
      var basis := if index < |intrinsic| then intrinsic[index] else 0;
      if entries[index].basis.Some? {
        basis := entries[index].basis.value;
      }
      sizes[index] := entries[index].Clamp(basis);
      total := total + sizes[index];
      assert sizes[..index + 1] == sizes[..index] + [sizes[index]];
      SumSnoc(sizes[..index], sizes[index]);
    }
    assert sizes[..] == sizes[..|entries|];
    if available.None? {
      return;
    }
    var contentSize := Max(0, available.value - Max(0, |entries| - 1) * gap);
    if total < contentSize {
      DistributeStackSizes(sizes, entries, contentSize - total, true);
    } else if total > contentSize {
      DistributeStackSizes(sizes, entries, total - contentSize, false);
    }
  }
}
