// How the distribution of internal/tui/stack.go shares out what there is, told
// without its steps: in each pass every entry that can move takes the most that its
// weight, its own bound and the entries before it leave it.

module StackShares {
  import opened Options
  import opened StackSizes

  // ---------------------------------------------------------------- a fair pass

  predicate CanMove(e: Entry, size: nat, grow: bool) {
    if grow then e.grow.GetOr(0) > 0 && size < e.maxSize.GetOr(MAX_SAFE_INTEGER)
    else e.shrink.GetOr(1) > 0 && size > e.minSize.GetOr(0)
  }

  /** How far the entry can move. */
  function Room(e: Entry, size: nat, grow: bool): int {
    if grow then e.maxSize.GetOr(MAX_SAFE_INTEGER) - size else size - e.minSize.GetOr(0)
  }

  /** Growing weighs by the grow factor, shrinking by the shrink factor and the size. */
  function Pull(e: Entry, size: nat, grow: bool): nat {
    if grow then e.grow.GetOr(0) else e.shrink.GetOr(1) * Max(1, size)
  }

  /** The weight of those among the first k entries that can move. */
  function Pulls(entries: seq<Entry>, sizes: seq<nat>, grow: bool, k: nat): nat
    requires |entries| == |sizes| && k <= |entries|
  {
    if k == 0 then 0
    else Pulls(entries, sizes, grow, k - 1)
         + (if CanMove(entries[k - 1], sizes[k - 1], grow) then Pull(entries[k - 1], sizes[k - 1], grow) else 0)
  }

  function Taken(before: seq<nat>, after: seq<nat>, grow: bool, c: nat): int
    requires |before| == |after| && c < |before|
  {
    var moved: int := after[c] as int - before[c] as int;
    if grow then moved else -moved
  }

  function TakenBy(before: seq<nat>, after: seq<nat>, grow: bool, k: nat): int
    requires |before| == |after| && k <= |before|
  {
    if k == 0 then 0 else TakenBy(before, after, grow, k - 1) + Taken(before, after, grow, k - 1)
  }

  /** What an entry may take of what is left: no more than there is, than it has room
      for, and than its weighted share, but that one cell is always allowed. */
  predicate Fits(d: nat, left: int, room: int, pull: nat, total: nat) {
    d <= left && d <= room && (d <= 1 || d * total <= left * pull)
  }

  ghost predicate Largest(d: int, left: int, room: int, pull: nat, total: nat) {
    d >= 0 && Fits(d, left, room, pull, total) && forall d': nat :: Fits(d', left, room, pull, total) ==> d' <= d
  }

  /** Entry c took the most it may of what the entries before it left. */
  ghost predicate FairShare(entries: seq<Entry>, before: seq<nat>, after: seq<nat>, amount: nat, grow: bool, c: nat)
    requires |entries| == |before| == |after| && c < |entries|
  {
    var e, d := entries[c], Taken(before, after, grow, c);
    if CanMove(e, before[c], grow)
    then Largest(d, amount - TakenBy(before, after, grow, c), Room(e, before[c], grow), Pull(e, before[c], grow),
                 Pulls(entries, before, grow, |entries|))
    else d == 0
  }

  ghost predicate FairPass(entries: seq<Entry>, before: seq<nat>, after: seq<nat>, amount: nat, grow: bool) {
    && |entries| == |before| == |after|
    && forall c :: 0 <= c < |entries| ==> FairShare(entries, before, after, amount, grow, c)
  }

  ghost predicate NoneCanMove(entries: seq<Entry>, sizes: seq<nat>, grow: bool)
    requires |entries| == |sizes|
  {
    forall c :: 0 <= c < |entries| ==> !CanMove(entries[c], sizes[c], grow)
  }

  /** Fair passes, one after the other, until nothing is left or nothing can move. */
  ghost predicate FairlyShared(entries: seq<Entry>, before: seq<nat>, after: seq<nat>, amount: nat, grow: bool)
    requires |entries| == |before|
    decreases amount
  {
    if amount == 0 || NoneCanMove(entries, before, grow) then after == before
    else
      exists between ::
        && GoesOn(entries, before, between, amount, grow)
        && FairlyShared(entries, between, after, amount - TakenBy(before, between, grow, |entries|), grow)
  }

  ghost predicate GoesOn(entries: seq<Entry>, before: seq<nat>, between: seq<nat>, amount: nat, grow: bool) {
    FairPass(entries, before, between, amount, grow) && 0 < TakenBy(before, between, grow, |entries|) <= amount
  }

  // ---------------------------------------------------------------- one answer

  lemma LargestIsUnique(d: int, d': int, left: int, room: int, pull: nat, total: nat)
    requires Largest(d, left, room, pull, total) && Largest(d', left, room, pull, total)
    ensures d == d'
  {
    hide Fits;
  }

  lemma {:induction false} FairPassIsUnique(entries: seq<Entry>, before: seq<nat>, a: seq<nat>, b: seq<nat>, amount: nat, grow: bool, k: nat)
    requires FairPass(entries, before, a, amount, grow) && FairPass(entries, before, b, amount, grow) && k <= |entries|
    ensures a[..k] == b[..k] && TakenBy(before, a, grow, k) == TakenBy(before, b, grow, k)
  {
    hide Largest, CanMove, Room, Pull, Pulls;
    if k > 0 {
      FairPassIsUnique(entries, before, a, b, amount, grow, k - 1);
      var c := k - 1;
      assert FairShare(entries, before, a, amount, grow, c) && FairShare(entries, before, b, amount, grow, c);
      if CanMove(entries[c], before[c], grow) {
        LargestIsUnique(Taken(before, a, grow, c), Taken(before, b, grow, c), amount - TakenBy(before, a, grow, c),
                        Room(entries[c], before[c], grow), Pull(entries[c], before[c], grow), Pulls(entries, before, grow, |entries|));
      }
      assert a[..k] == a[..c] + [a[c]] && b[..k] == b[..c] + [b[c]];
    }
  }

  // ---------------------------------------------------------------- passes are fair

  lemma ShareIsLargest(remaining: nat, weight: nat, total: nat, capacity: int)
    requires total > 0 && capacity > 0
    ensures Largest(Share(remaining, weight, total, capacity), remaining, capacity, weight, total)
  {
    var d := Share(remaining, weight, total, capacity);
    var q := remaining * weight / total;
    Quotient(remaining * weight, total, d);
    forall d': nat | Fits(d', remaining, capacity, weight, total) ensures d' <= d {
      Quotient(remaining * weight, total, d');
    }
  }

  lemma Quotient(a: nat, b: nat, d: int)
    requires b > 0
    ensures d * b <= a <==> d <= a / b
  {
    var q := a / b;
    assert q * b <= a < q * b + b;
    if d <= q {
      assert d * b <= q * b;
    } else {
      assert d * b >= (q + 1) * b == q * b + b;
    }
  }

  // The source's candidates, weights and total are those of the pass.
  lemma {:induction false} CandidatesCanMove(entries: seq<Entry>, sizes: seq<nat>, grow: bool, k: nat)
    requires |entries| == |sizes| && k <= |entries|
    ensures TotalWeight(entries, sizes, grow, Candidates(entries, sizes, grow, k)) == Pulls(entries, sizes, grow, k)
  {
    hide Entry.Weight, Pull, Entry.Takes, CanMove, TotalWeight;
    NoWeight(entries, sizes, grow);
    if k > 0 {
      CandidatesCanMove(entries, sizes, grow, k - 1);
      SameWeight(entries[k - 1], sizes[k - 1], grow);
      WeightAppends(entries, sizes, grow, Candidates(entries, sizes, grow, k - 1), k - 1);
    }
  }

  lemma CandidateMeans(entries: seq<Entry>, sizes: seq<nat>, grow: bool, c: nat)
    requires |entries| == |sizes| && c < |entries|
    ensures c in Candidates(entries, sizes, grow, |entries|) <==> CanMove(entries[c], sizes[c], grow)
  {
    hide Candidates, Entry.Takes, CanMove;
    CandidatesAreAll(entries, sizes, grow, |entries|);
    SameWeight(entries[c], sizes[c], grow);
  }

  lemma NoCandidates(entries: seq<Entry>, sizes: seq<nat>, grow: bool)
    requires |entries| == |sizes|
    ensures Candidates(entries, sizes, grow, |entries|) == [] <==> NoneCanMove(entries, sizes, grow)
  {
    hide Candidates, CanMove;
    var cs := Candidates(entries, sizes, grow, |entries|);
    forall c | 0 <= c < |entries| ensures c in cs <==> CanMove(entries[c], sizes[c], grow) { CandidateMeans(entries, sizes, grow, c); }
    assert cs != [] ==> cs[0] in cs;
  }

  lemma SameWeight(e: Entry, size: nat, grow: bool)
    ensures e.Takes(size, grow) == CanMove(e, size, grow)
    ensures e.Weight(size, grow) == Pull(e, size, grow) && e.Capacity(size, grow) == Room(e, size, grow)
  {
  }

  lemma {:induction false} TakenByAgrees(before: seq<nat>, a: seq<nat>, b: seq<nat>, grow: bool, k: nat)
    requires |before| == |a| == |b| && k <= |before| && forall i :: 0 <= i < k ==> a[i] == b[i]
    ensures TakenBy(before, a, grow, k) == TakenBy(before, b, grow, k)
  {
    if k > 0 { TakenByAgrees(before, a, b, grow, k - 1); }
  }

  lemma {:induction false} TakenByUpdate(before: seq<nat>, a: seq<nat>, b: seq<nat>, grow: bool, c: nat, k: nat)
    requires |before| == |a| == |b| && c < k <= |before|
    requires forall i :: 0 <= i < |before| && i != c ==> a[i] == b[i]
    ensures TakenBy(before, b, grow, k) - TakenBy(before, a, grow, k) == Taken(before, b, grow, c) - Taken(before, a, grow, c)
  {
    if k - 1 == c {
      TakenByAgrees(before, a, b, grow, c);
    } else {
      TakenByUpdate(before, a, b, grow, c, k - 1);
    }
  }

  lemma {:induction false} NothingTaken(before: seq<nat>, grow: bool, k: nat)
    requires k <= |before|
    ensures TakenBy(before, before, grow, k) == 0
  {
    if k > 0 { NothingTaken(before, grow, k - 1); }
  }

  // What the first k candidates took is what is gone.
  lemma {:induction false} PassTakes(entries: seq<Entry>, t: Tally, cs: seq<nat>, total: nat, grow: bool, k: nat, m: nat)
    requires |entries| == |t.sizes| && Indexes(cs, |entries|) && total > 0 && k <= |cs| && m <= |entries|
    requires forall i, j :: 0 <= i < j < |cs| ==> cs[i] < cs[j]
    requires forall i :: 0 <= i < k ==> cs[i] < m
    ensures var r := Pass(entries, t, cs, total, grow, k);
      && TakenBy(t.sizes, r.sizes, grow, m) == t.remaining - r.remaining
      && (forall i :: 0 <= i < |t.sizes| && i !in cs[..k] ==> r.sizes[i] == t.sizes[i])
  {
    hide Give;
    if k == 0 {
      NothingTaken(t.sizes, grow, m);
    } else {
      PassTakes(entries, t, cs, total, grow, k - 1, m);
      var before := Pass(entries, t, cs, total, grow, k - 1);
      var c := cs[k - 1];
      assert cs[..k] == cs[..k - 1] + [c];
      GiveMoves(entries[c], before, c, total, grow);
      TakenByUpdate(t.sizes, before.sizes, Pass(entries, t, cs, total, grow, k).sizes, grow, c, m);
    }
  }

  // Candidates are served once: later ones do not touch what an earlier one took.
  lemma {:induction false} ServedOnce(entries: seq<Entry>, t: Tally, cs: seq<nat>, total: nat, grow: bool, j: nat, k: nat, m: nat)
    requires |entries| == |t.sizes| && Indexes(cs, |entries|) && total > 0 && j <= k <= |cs| && m <= |entries|
    requires forall i :: j <= i < k ==> cs[i] >= m
    ensures forall i :: 0 <= i < m ==>
      Pass(entries, t, cs, total, grow, k).sizes[i] == Pass(entries, t, cs, total, grow, j).sizes[i]
  {
    hide Give;
    if j < k {
      ServedOnce(entries, t, cs, total, grow, j, k - 1, m);
      GiveMoves(entries[cs[k - 1]], Pass(entries, t, cs, total, grow, k - 1), cs[k - 1], total, grow);
    }
  }

  lemma GiveIsLargest(e: Entry, t: Tally, c: nat, total: nat, grow: bool)
    requires c < |t.sizes| && total > 0 && CanMove(e, t.sizes[c], grow)
    ensures Largest(Taken(t.sizes, Give(e, t, c, total, grow).sizes, grow, c), t.remaining,
                    Room(e, t.sizes[c], grow), Pull(e, t.sizes[c], grow), total)
  {
    hide Share, Largest, Pull, Entry.Weight;
    SameWeight(e, t.sizes[c], grow);
    ShareIsLargest(t.remaining, Pull(e, t.sizes[c], grow), total, Room(e, t.sizes[c], grow));
    ShareBounds(t.remaining, Pull(e, t.sizes[c], grow), total, Room(e, t.sizes[c], grow));
    LargestIsNatural(Share(t.remaining, Pull(e, t.sizes[c], grow), total, Room(e, t.sizes[c], grow)),
                     t.remaining, Room(e, t.sizes[c], grow), Pull(e, t.sizes[c], grow), total);
  }

  lemma LargestIsNatural(d: int, left: int, room: int, pull: nat, total: nat)
    requires Largest(d, left, room, pull, total)
    ensures d >= 0
  {
  }

  lemma PassUnfolds(entries: seq<Entry>, t: Tally, cs: seq<nat>, total: nat, grow: bool, j: nat)
    requires |entries| == |t.sizes| && Indexes(cs, |entries|) && total > 0 && j < |cs|
    ensures Pass(entries, t, cs, total, grow, j + 1) == Give(entries[cs[j]], Pass(entries, t, cs, total, grow, j), cs[j], total, grow)
  {
  }

  // The j-th candidate is served from what the ones before it left, and then left alone.
  lemma WhenServed(entries: seq<Entry>, t: Tally, cs: seq<nat>, total: nat, grow: bool, j: nat)
    requires |entries| == |t.sizes| && Indexes(cs, |entries|) && total > 0 && j < |cs|
    requires forall i, k :: 0 <= i < k < |cs| ==> cs[i] < cs[k]
    ensures var before, final := Pass(entries, t, cs, total, grow, j), Pass(entries, t, cs, total, grow, |cs|);
      && TakenBy(t.sizes, final.sizes, grow, cs[j]) == t.remaining - before.remaining
      && before.sizes[cs[j]] == t.sizes[cs[j]]
      && final.sizes[cs[j]] == Give(entries[cs[j]], before, cs[j], total, grow).sizes[cs[j]]
  {
    hide Give, Pass, TakenBy;
    var c := cs[j];
    PassUnfolds(entries, t, cs, total, grow, j);
    PassTakes(entries, t, cs, total, grow, j, c);
    ServedOnce(entries, t, cs, total, grow, j, |cs|, c);
    ServedOnce(entries, t, cs, total, grow, j + 1, |cs|, c + 1);
    TakenByAgrees(t.sizes, Pass(entries, t, cs, total, grow, j).sizes, Pass(entries, t, cs, total, grow, |cs|).sizes, grow, c);
    NotYetServed(cs, j);
  }

  lemma CandidateIsFair(entries: seq<Entry>, sizes: seq<nat>, amount: nat, grow: bool, j: nat)
    requires |entries| == |sizes| && j < |Candidates(entries, sizes, grow, |entries|)|
    ensures FairShare(entries, sizes, FullPass(entries, sizes, amount, grow).sizes, amount, grow,
                      Candidates(entries, sizes, grow, |entries|)[j])
  {
    hide Give, Largest, CanMove, Pull, Room, Pass, Candidates, TotalWeight, Pulls, TakenBy, Entry.Takes;
    var cs := Candidates(entries, sizes, grow, |entries|);
    CandidatesAreAll(entries, sizes, grow, |entries|);
    CandidatesWeigh(entries, sizes, grow, cs);
    CandidatesCanMove(entries, sizes, grow, |entries|);
    var total := TotalWeight(entries, sizes, grow, cs);
    var t, c := Tally(sizes, amount), cs[j];
    CandidateMeans(entries, sizes, grow, c);
    WhenServed(entries, t, cs, total, grow, j);
    GiveIsLargest(entries[c], Pass(entries, t, cs, total, grow, j), c, total, grow);
  }

  lemma NotYetServed(cs: seq<nat>, j: nat)
    requires j < |cs| && forall i, k :: 0 <= i < k < |cs| ==> cs[i] < cs[k]
    ensures cs[j] !in cs[..j]
  {
  }

  lemma PassIsFair(entries: seq<Entry>, sizes: seq<nat>, amount: nat, grow: bool)
    requires |entries| == |sizes| && amount > 0 && Candidates(entries, sizes, grow, |entries|) != []
    ensures var r := FullPass(entries, sizes, amount, grow);
      GoesOn(entries, sizes, r.sizes, amount, grow) && TakenBy(sizes, r.sizes, grow, |entries|) == amount - r.remaining
  {
    hide FairShare, FullPass, CanMove, Candidates;
    var cs := Candidates(entries, sizes, grow, |entries|);
    var r := FullPass(entries, sizes, amount, grow);
    FullPassMakesProgress(entries, sizes, amount, grow);
    FullPassTakes(entries, sizes, amount, grow);
    forall c | 0 <= c < |entries| ensures FairShare(entries, sizes, r.sizes, amount, grow, c) {
      CandidateMeans(entries, sizes, grow, c);
      if c in cs {
        var j :| 0 <= j < |cs| && cs[j] == c;
        CandidateIsFair(entries, sizes, amount, grow, j);
      } else {
        OthersStay(entries, sizes, r.sizes, amount, grow, c);
      }
    }
  }

  lemma FullPassTakes(entries: seq<Entry>, sizes: seq<nat>, amount: nat, grow: bool)
    requires |entries| == |sizes| && Candidates(entries, sizes, grow, |entries|) != []
    ensures var r := FullPass(entries, sizes, amount, grow);
      && TakenBy(sizes, r.sizes, grow, |entries|) == amount - r.remaining
      && forall i :: 0 <= i < |sizes| && i !in Candidates(entries, sizes, grow, |entries|) ==> r.sizes[i] == sizes[i]
  {
    hide Give;
    var cs := Candidates(entries, sizes, grow, |entries|);
    CandidatesAreAll(entries, sizes, grow, |entries|);
    CandidatesWeigh(entries, sizes, grow, cs);
    PassTakes(entries, Tally(sizes, amount), cs, TotalWeight(entries, sizes, grow, cs), grow, |cs|, |entries|);
    assert cs[..|cs|] == cs;
  }

  lemma OthersStay(entries: seq<Entry>, before: seq<nat>, after: seq<nat>, amount: nat, grow: bool, c: nat)
    requires |entries| == |before| == |after| && c < |entries| && !CanMove(entries[c], before[c], grow) && after[c] == before[c]
    ensures FairShare(entries, before, after, amount, grow, c)
  {
  }

  // ---------------------------------------------------------------- the distribution

  /** The distribution is the one that is fairly shared, and the only one. */
  lemma {:induction false} DistributeIsFair(entries: seq<Entry>, sizes: seq<nat>, after: seq<nat>, amount: nat, grow: bool)
    requires |entries| == |sizes|
    ensures FairlyShared(entries, sizes, after, amount, grow) <==> after == Distribute(entries, sizes, amount, grow)
    decreases amount
  {
    hide FullPass, NoneCanMove, GoesOn, Candidates;
    NoCandidates(entries, sizes, grow);
    if amount > 0 && !NoneCanMove(entries, sizes, grow) {
      PassIsFair(entries, sizes, amount, grow);
      var r := FullPass(entries, sizes, amount, grow);
      PassGoesOn(entries, sizes, r.sizes, amount, grow);
      DistributeIsFair(entries, r.sizes, after, r.remaining, grow);
      forall between | GoesOn(entries, sizes, between, amount, grow) ensures between == r.sizes {
        OnlyOneGoesOn(entries, sizes, between, r.sizes, amount, grow);
      }
    }
  }

  lemma PassGoesOn(entries: seq<Entry>, before: seq<nat>, between: seq<nat>, amount: nat, grow: bool)
    requires GoesOn(entries, before, between, amount, grow)
    ensures |entries| == |before| == |between| && 0 < TakenBy(before, between, grow, |entries|) <= amount
  {
  }

  lemma OnlyOneGoesOn(entries: seq<Entry>, before: seq<nat>, a: seq<nat>, b: seq<nat>, amount: nat, grow: bool)
    requires GoesOn(entries, before, a, amount, grow) && GoesOn(entries, before, b, amount, grow)
    ensures a == b
  {
    FairPassIsUnique(entries, before, a, b, amount, grow, |entries|);
    assert a == a[..|entries|] && b == b[..|entries|];
  }

  /** In a pass no entry takes more than its weighted share and one cell besides. */
  lemma NoMoreThanItsShare(entries: seq<Entry>, before: seq<nat>, after: seq<nat>, amount: nat, grow: bool, c: nat)
    requires FairPass(entries, before, after, amount, grow) && c < |entries| && TakenBy(before, after, grow, c) >= 0
    ensures CanMove(entries[c], before[c], grow) ==>
      var d, total := Taken(before, after, grow, c), Pulls(entries, before, grow, |entries|);
      d <= 1 || d * total <= amount * Pull(entries[c], before[c], grow)
  {
    hide Pulls, TakenBy, CanMove, Room, Pull;
    assert FairShare(entries, before, after, amount, grow, c);
    var pull, left := Pull(entries[c], before[c], grow), amount - TakenBy(before, after, grow, c);
    assert left * pull <= amount * pull;
  }

  // ---------------------------------------------------------------- the allocation

  /** The size an entry asks for: its basis, or else its own size. */
  function Wanted(entries: seq<Entry>, intrinsic: seq<int>, i: nat): int
    requires i < |entries|
  {
    if entries[i].basis.Some? then entries[i].basis.value else if i < |intrinsic| then intrinsic[i] else 0
  }

  /** Sizes start where the entries want them, or at the nearest bound. */
  lemma {:induction false} BasesAreNearest(entries: seq<Entry>, intrinsic: seq<int>, k: nat, i: nat)
    requires i < k <= |entries|
    ensures var size, wanted := BaseSizes(entries, intrinsic, k)[i], Wanted(entries, intrinsic, i);
      var low, high := entries[i].minSize.GetOr(0), entries[i].maxSize.GetOr(MAX_SAFE_INTEGER);
      && low <= size && (size <= high || size == low)
      && (low <= wanted <= high ==> size == wanted)
      && (wanted < low ==> size == low) && (wanted > high >= low ==> size == high)
  {
    if i < k - 1 { BasesAreNearest(entries, intrinsic, k - 1, i); }
  }

  /** The whole allocation: what the base sizes leave of the space between the gaps, or
      exceed it by, is fairly shared. */
  lemma AllocateIsFair(entries: seq<Entry>, intrinsic: seq<int>, available: int, gap: nat)
    ensures var base, r := BaseSizes(entries, intrinsic, |entries|), Allocate(entries, intrinsic, Some(available), gap);
      var content := Max(0, available - gap * Max(0, |entries| - 1));
      && (Sum(base) <= content ==> FairlyShared(entries, base, r, content - Sum(base), true))
      && (Sum(base) >= content ==> FairlyShared(entries, base, r, Sum(base) - content, false))
    ensures Allocate(entries, intrinsic, None, gap) == BaseSizes(entries, intrinsic, |entries|)
  {
    hide Distribute, FairlyShared, BaseSizes, Sum;
    var base, r := BaseSizes(entries, intrinsic, |entries|), Allocate(entries, intrinsic, Some(available), gap);
    var content := Max(0, available - gap * Max(0, |entries| - 1));
    assert gap * Max(0, |entries| - 1) == Max(0, |entries| - 1) * gap;
    NothingToShare(entries, base, true);
    NothingToShare(entries, base, false);
    if Sum(base) < content {
      DistributeIsFair(entries, base, r, content - Sum(base), true);
    } else if Sum(base) > content {
      DistributeIsFair(entries, base, r, Sum(base) - content, false);
    }
  }

  lemma NothingToShare(entries: seq<Entry>, sizes: seq<nat>, grow: bool)
    requires |entries| == |sizes|
    ensures FairlyShared(entries, sizes, sizes, 0, grow)
  {
  }
}
