// Several replacements in one file (internal/tools/edit.go): each old text is
// looked up in the original content, the edits are sorted and spliced in from the
// right, and the file keeps its byte order mark and its line endings.

module MultiEdit {
  import opened Utf8
  import opened ByteSearch
  import opened LineEndings
  import opened Bags

  const BOM: Bytes := [0xEF, 0xBB, 0xBF]

  datatype Edit = Edit(oldText: Bytes, newText: Bytes)

  datatype Located = Located(index: nat, oldText: Bytes, newText: Bytes) {
    function End(): nat { index + |oldText| }
  }

  datatype Error = MixedEndings | EmptyOldText(edit: nat) | NotFound(edit: nat) | NotUnique(edit: nat) | Overlap | NoChange

  datatype Result<T> = Success(value: T) | Failure(error: Error)

  // ---------------------------------------------------------------- locating

  function LocateOne(content: Bytes, edit: Edit, k: nat): Result<Located> {
    var old_, new_ := Normalize(edit.oldText), Normalize(edit.newText);
    if old_ == [] then Failure(EmptyOldText(k))
    else
      var count := Count(content, old_);
      if count == 0 then Failure(NotFound(k))
      else if count > 1 then Failure(NotUnique(k))
      else CountOne(content, old_); Success(Located(IndexOf(content, old_), old_, new_))
  }

  /** Looks up every edit in the original content; the first one that fails decides. */
  function LocateAll(content: Bytes, edits: seq<Edit>, k: nat): Result<seq<Located>>
    requires k <= |edits|
    decreases k
  {
    if k == 0 then Success([])
    else
      var before := LocateAll(content, edits, k - 1);
      if before.Failure? then before
      else
        var last := LocateOne(content, edits[k - 1], k - 1);
        if last.Failure? then Failure(last.error) else Success(before.value + [last.value])
  }

  // Stable insertion by index.
  function InsertByIndex(e: Located, sorted: seq<Located>): seq<Located> {
    if sorted == [] || e.index < sorted[0].index then [e] + sorted else [sorted[0]] + InsertByIndex(e, sorted[1..])
  }

  function SortByIndex(located: seq<Located>): seq<Located> {
    if located == [] then [] else InsertByIndex(located[|located| - 1], SortByIndex(located[..|located| - 1]))
  }

  predicate Disjoint(sorted: seq<Located>) {
    forall i :: 0 < i < |sorted| ==> sorted[i - 1].End() <= sorted[i].index
  }

  // ---------------------------------------------------------------- splicing

  ghost predicate Fits(content: Bytes, e: Located) {
    e.End() <= |content| && content[e.index..e.End()] == e.oldText && e.oldText != []
  }

  ghost predicate AllFit(content: Bytes, located: seq<Located>) {
    forall i :: 0 <= i < |located| ==> Fits(content, located[i])
  }

  function SpliceOne(s: Bytes, e: Located): Bytes {
    if e.End() <= |s| then s[..e.index] + e.newText + s[e.End()..] else s
  }

  /** Splices from the last edit back to edit i. */
  function SpliceFrom(content: Bytes, sorted: seq<Located>, i: nat): Bytes
    requires i <= |sorted|
    decreases |sorted| - i
  {
    if i == |sorted| then content else SpliceOne(SpliceFrom(content, sorted, i + 1), sorted[i])
  }

  /** All edits at once: the content from a position on, with every old text in it
      replaced where it stands and everything between left alone. */
  function Substituted(content: Bytes, from: nat, sorted: seq<Located>): Bytes
    decreases |sorted|
  {
    if from > |content| then []
    else if sorted == [] then content[from..]
    else
      var e := sorted[0];
      if from <= e.index <= |content| then content[from..e.index] + e.newText + Substituted(content, e.End(), sorted[1..])
      else []
  }

  // ---------------------------------------------------------------- one call

  function SplitBom(raw: Bytes): (Bytes, Bytes) {
    if |raw| >= 3 && raw[..3] == BOM then (BOM, raw[3..]) else ([], raw)
  }

  function Execute(raw: Bytes, edits: seq<Edit>): Result<Bytes> {
    var (bom, content) := SplitBom(raw);
    if HasCrLf(content) && HasMixedLineEndings(content) then Failure(MixedEndings)
    else
      var normalized := Normalize(content);
      var located := LocateAll(normalized, edits, |edits|);
      if located.Failure? then Failure(located.error)
      else
        var sorted := SortByIndex(located.value);
        if !Disjoint(sorted) then Failure(Overlap)
        else
          var updated := SpliceFrom(normalized, sorted, 0);
          if updated == normalized then Failure(NoChange)
          else Success(bom + (if HasCrLf(content) then LfToCrLf(updated) else updated))
  }

  // ---------------------------------------------------------------- splicing is substitution

  lemma {:induction false} SpliceIsSubstitution(content: Bytes, sorted: seq<Located>, i: nat, from: nat)
    requires AllFit(content, sorted) && Disjoint(sorted) && i <= |sorted|
    requires from <= |content| && (i < |sorted| ==> from <= sorted[i].index)
    ensures SpliceFrom(content, sorted, i) == content[..from] + Substituted(content, from, sorted[i..])
    decreases |sorted| - i
  {
    if i < |sorted| {
      var e := sorted[i];
      assert Fits(content, e);
      SpliceIsSubstitution(content, sorted, i + 1, e.End());
      var rest := Substituted(content, e.End(), sorted[i + 1..]);
      assert sorted[i..][1..] == sorted[i + 1..] && sorted[i..][0] == e;
      var u := content[..e.End()] + rest;
      assert u[..e.index] == content[..e.index] && u[e.End()..] == rest;
      assert content[..from] + (content[from..e.index] + e.newText + rest) == content[..e.index] + e.newText + rest;
    } else {
      assert sorted[i..] == [];
    }
  }

  lemma {:induction false} LocatedFit(content: Bytes, edits: seq<Edit>, k: nat)
    requires k <= |edits|
    ensures var r := LocateAll(content, edits, k); r.Success? ==> |r.value| == k && AllFit(content, r.value)
  {
    hide Count, IndexOf, Normalize;
    if k > 0 {
      LocatedFit(content, edits, k - 1);
      var edit := edits[k - 1];
      if Normalize(edit.oldText) != [] {
        CountOne(content, Normalize(edit.oldText));
      }
    }
  }

  ghost predicate Ordered(located: seq<Located>) {
    forall i, j :: 0 <= i < j < |located| ==> located[i].index <= located[j].index
  }

  lemma {:induction false} InsertOrders(e: Located, sorted: seq<Located>)
    requires Ordered(sorted)
    ensures var r := InsertByIndex(e, sorted);
      && Ordered(r) && Bag(r) == Bag(sorted) + multiset{e}
      && r != [] && (r[0] == e || (sorted != [] && r[0] == sorted[0]))
  {
    hide Bag;
    if sorted != [] && e.index >= sorted[0].index {
      InsertOrders(e, sorted[1..]);
      BagCons(sorted[0], InsertByIndex(e, sorted[1..]));
      BagFirst(sorted);
    } else {
      BagCons(e, sorted);
    }
  }

  lemma {:induction false} SortOrders(located: seq<Located>)
    ensures Ordered(SortByIndex(located)) && Bag(SortByIndex(located)) == Bag(located)
  {
    hide Bag;
    if located != [] {
      SortOrders(located[..|located| - 1]);
      InsertOrders(located[|located| - 1], SortByIndex(located[..|located| - 1]));
      BagLast(located);
    }
  }

  lemma SameBagFits(content: Bytes, a: seq<Located>, b: seq<Located>)
    requires Bag(a) == Bag(b) && AllFit(content, b)
    ensures AllFit(content, a) && |a| == |b|
  {
    hide Fits, Bag;
    BagSize(a);
    BagSize(b);
    forall i | 0 <= i < |a| ensures Fits(content, a[i]) {
      BagHas(a, i);
      var j := BagFind(b, a[i]);
    }
  }

  lemma SplitMeans(raw: Bytes)
    ensures var (bom, content) := SplitBom(raw); raw == bom + content && bom == if BOM <= raw then BOM else []
  {
  }

  /** A successful call is one simultaneous substitution: it succeeds exactly on the
      replacements looked up in the normalized content, which are disjoint, and
      writes that content with each old text replaced at its original place, behind the
      byte order mark the file began with, if it did. */
  lemma ExecuteSubstitutes(raw: Bytes, edits: seq<Edit>)
    requires Execute(raw, edits).Success?
    ensures var (bom, content) := SplitBom(raw);
      var normalized := Normalize(content);
      var sorted := SortByIndex(LocateAll(normalized, edits, |edits|).value);
      && raw == bom + content && bom == (if BOM <= raw then BOM else [])
      && AllFit(normalized, sorted) && Disjoint(sorted) && |sorted| == |edits|
      && Execute(raw, edits).value
         == bom + (if HasCrLf(content) then LfToCrLf(Substituted(normalized, 0, sorted))
                   else Substituted(normalized, 0, sorted))
  {
    SplitMeans(raw);
    hide Normalize, HasCrLf, HasMixedLineEndings, SortByIndex, SpliceFrom, Disjoint, Fits, Substituted, LocateAll, SplitBom;
    var (bom, content) := SplitBom(raw);
    var normalized := Normalize(content);
    var located := LocateAll(normalized, edits, |edits|).value;
    LocatedFit(normalized, edits, |edits|);
    SortOrders(located);
    var sorted := SortByIndex(located);
    SameBagFits(normalized, sorted, located);
    SpliceAll(normalized, sorted);
  }

  lemma SpliceAll(content: Bytes, sorted: seq<Located>)
    requires AllFit(content, sorted) && Disjoint(sorted)
    ensures SpliceFrom(content, sorted, 0) == Substituted(content, 0, sorted)
  {
    hide SpliceFrom, Substituted;
    SpliceIsSubstitution(content, sorted, 0, 0);
    assert sorted[0..] == sorted && content[..0] == [];
  }

  // ---------------------------------------------------------------- any order

  // A strictly ordered list is determined by its elements.
  lemma {:induction false} OrderIsUnique(content: Bytes, a: seq<Located>, b: seq<Located>)
    requires Bag(a) == Bag(b) && Ordered(b) && Disjoint(a) && AllFit(content, a)
    ensures a == b
    decreases |a|
  {
    hide Bag, Fits;
    BagSize(a);
    BagSize(b);
    if a != [] {
      FirstIsUnique(content, a, b);
      BagFirst(a);
      BagFirst(b);
      assert Bag(a[1..]) == Bag(a) - multiset{a[0]};
      assert Bag(b[1..]) == Bag(b) - multiset{b[0]};
      DisjointTail(a);
      OrderIsUnique(content, a[1..], b[1..]);
      assert a == [a[0]] + a[1..] && b == [b[0]] + b[1..];
    }
  }

  lemma FirstIsUnique(content: Bytes, a: seq<Located>, b: seq<Located>)
    requires Bag(a) == Bag(b) && Ordered(b) && Disjoint(a) && AllFit(content, a) && a != [] && |a| == |b|
    ensures a[0] == b[0]
  {
    hide Bag, Fits;
    DisjointIncreases(content, a);
    BagHas(a, 0);
    BagHas(b, 0);
    var i := BagFind(a, b[0]);
    var j := BagFind(b, a[0]);
    assert a[0].index <= a[i].index == b[0].index <= b[j].index == a[0].index;
  }

  lemma DisjointTail(a: seq<Located>)
    requires Disjoint(a) && a != []
    ensures Disjoint(a[1..])
  {
    forall k | 0 < k < |a| - 1 ensures a[1..][k - 1].End() <= a[1..][k].index {
      assert a[k].End() <= a[k + 1].index;
    }
  }

  lemma {:induction false} DisjointIncreases(content: Bytes, a: seq<Located>)
    requires Disjoint(a) && AllFit(content, a)
    ensures forall i, j :: 0 <= i < j < |a| ==> a[i].index < a[j].index
  {
    if |a| > 1 {
      var n := |a| - 1;
      DisjointIncreases(content, a[..n]);
      assert a[n - 1].End() <= a[n].index && Fits(content, a[n - 1]);
    }
  }

  /** Looking up is edit by edit. */
  lemma {:induction false} LocateAllIsEach(content: Bytes, edits: seq<Edit>, k: nat)
    requires k <= |edits|
    ensures LocateAll(content, edits, k).Success? <==> forall i :: 0 <= i < k ==> LocateOne(content, edits[i], 0).Success?
    ensures var r := LocateAll(content, edits, k);
      r.Success? ==> |r.value| == k && forall i :: 0 <= i < k ==> r.value[i] == LocateOne(content, edits[i], 0).value
  {
    hide LocateOne;
    if k > 0 {
      LocateAllIsEach(content, edits, k - 1);
      LocateOneIgnoresPosition(content, edits[k - 1], k - 1);
    }
  }

  lemma LocateOneIgnoresPosition(content: Bytes, edit: Edit, k: nat)
    ensures LocateOne(content, edit, k).Success? <==> LocateOne(content, edit, 0).Success?
    ensures LocateOne(content, edit, k).Success? ==> LocateOne(content, edit, k) == LocateOne(content, edit, 0)
  {
    hide Count, IndexOf, Normalize;
  }

  // Every edit is found, at the place the list says.
  ghost predicate Locates(content: Bytes, edits: seq<Edit>, located: seq<Located>) {
    |located| == |edits| &&
    forall i :: 0 <= i < |edits| ==> LocateOne(content, edits[i], 0) == Success(located[i])
  }

  lemma LocatesWithout(content: Bytes, edits: seq<Edit>, located: seq<Located>, j: nat)
    requires Locates(content, edits, located) && j < |edits|
    ensures Locates(content, Without(edits, j), Without(located, j))
  {
    hide LocateOne;
  }

  // Reordered edits are looked up to reordered replacements.
  lemma {:induction false} MappedBags(content: Bytes, a: seq<Edit>, b: seq<Edit>, x: seq<Located>, y: seq<Located>)
    requires Bag(a) == Bag(b) && Locates(content, a, x) && Locates(content, b, y)
    ensures Bag(x) == Bag(y)
    decreases |a|
  {
    hide Bag, LocateOne, Without;
    BagSize(a);
    BagSize(b);
    if a == [] {
      assert x == [] && y == [];
    } else {
      var n := |a| - 1;
      BagHas(a, n);
      var j := BagFind(b, a[n]);
      BagWithout(a, n);
      BagWithout(b, j);
      BagWithout(x, n);
      BagWithout(y, j);
      LocatesWithout(content, a, x, n);
      LocatesWithout(content, b, y, j);
      assert Bag(Without(a, n)) == Bag(a) - multiset{a[n]};
      assert Bag(Without(b, j)) == Bag(b) - multiset{b[j]};
      SmallerWithout(a, n);
      MappedBags(content, Without(a, n), Without(b, j), Without(x, n), Without(y, j));
    }
  }

  lemma SmallerWithout<T>(s: seq<T>, j: nat)
    requires j < |s|
    ensures |Without(s, j)| == |s| - 1
  {
  }

  lemma LocatedAlike(content: Bytes, a: seq<Edit>, b: seq<Edit>)
    requires Bag(a) == Bag(b) && LocateAll(content, a, |a|).Success?
    ensures LocateAll(content, b, |b|).Success?
      && Bag(LocateAll(content, a, |a|).value) == Bag(LocateAll(content, b, |b|).value)
  {
    hide Bag, LocateOne, LocateAll;
    LocateAllIsEach(content, a, |a|);
    LocateAllIsEach(content, b, |b|);
    forall i | 0 <= i < |b| ensures LocateOne(content, b[i], 0).Success? {
      BagHas(b, i);
      var j := BagFind(a, b[i]);
    }
    MappedBags(content, a, b, LocateAll(content, a, |a|).value, LocateAll(content, b, |b|).value);
  }

  lemma SortedAlike(content: Bytes, x: seq<Located>, y: seq<Located>)
    requires Bag(x) == Bag(y) && AllFit(content, x) && Disjoint(SortByIndex(x))
    ensures SortByIndex(x) == SortByIndex(y)
  {
    hide Bag, SortByIndex, AllFit, Disjoint;
    SortOrders(x);
    SortOrders(y);
    SameBagFits(content, SortByIndex(x), x);
    OrderIsUnique(content, SortByIndex(x), SortByIndex(y));
  }

  /** The order in which the edits are given makes no difference to the outcome. */
  lemma OrderDoesNotMatter(raw: Bytes, a: seq<Edit>, b: seq<Edit>)
    requires multiset(a) == multiset(b) && Execute(raw, a).Success?
    ensures Execute(raw, b) == Execute(raw, a)
  {
    assert Bag(a) == Bag(b);
    hide Bag, SplitBom, Normalize, HasCrLf, HasMixedLineEndings, SortByIndex, SpliceFrom, LocateAll, LfToCrLf, AllFit, Disjoint;
    var normalized := Normalize(SplitBom(raw).1);
    LocatedAlike(normalized, a, b);
    LocatedFit(normalized, a, |a|);
    SortedAlike(normalized, LocateAll(normalized, a, |a|).value, LocateAll(normalized, b, |b|).value);
  }

  // ---------------------------------------------------------------- in place

  /** The same replacement seen from the file with its line feeds widened. */
  function Widen(content: Bytes, e: Located): Located
    requires e.index <= |content|
  {
    Located(|LfToCrLf(content[..e.index])|, LfToCrLf(e.oldText), LfToCrLf(e.newText))
  }

  function WidenAll(content: Bytes, sorted: seq<Located>): (r: seq<Located>)
    requires forall i :: 0 <= i < |sorted| ==> sorted[i].index <= |content|
    ensures |r| == |sorted| && forall i :: 0 <= i < |sorted| ==> r[i] == Widen(content, sorted[i])
  {
    seq(|sorted|, i requires 0 <= i < |sorted| => Widen(content, sorted[i]))
  }

  // Where a position of the content is once its line feeds are widened.
  function Place(content: Bytes, at: nat): nat
    requires at <= |content|
  {
    |LfToCrLf(content[..at])|
  }

  lemma PlacesDivide(content: Bytes, a: nat, b: nat)
    requires a <= b <= |content|
    ensures Place(content, a) <= Place(content, b) <= |LfToCrLf(content)|
    ensures LfToCrLf(content)[Place(content, a)..Place(content, b)] == LfToCrLf(content[a..b])
    ensures Place(content, b) == Place(content, a) + |LfToCrLf(content[a..b])|
    ensures LfToCrLf(content)[Place(content, b)..] == LfToCrLf(content[b..])
  {
    hide LfToCrLf;
    LfToCrLfAdds(content[..a], content[a..b]);
    assert content[..a] + content[a..b] == content[..b];
    LfToCrLfAdds(content[..b], content[b..]);
    assert content[..b] + content[b..] == content;
  }

  lemma WidenFits(content: Bytes, e: Located)
    requires Fits(content, e)
    ensures Widen(content, e).index == Place(content, e.index) && Widen(content, e).End() == Place(content, e.End())
    ensures Fits(LfToCrLf(content), Widen(content, e))
  {
    PlacesDivide(content, e.index, e.End());
  }

  lemma WidenAllFit(content: Bytes, sorted: seq<Located>)
    requires AllFit(content, sorted) && Disjoint(sorted)
    ensures AllFit(LfToCrLf(content), WidenAll(content, sorted)) && Disjoint(WidenAll(content, sorted))
  {
    hide LfToCrLf, Fits, Place, Widen;
    assert forall i :: 0 <= i < |sorted| ==> Fits(content, sorted[i]);
    FittingIndices(content, sorted);
    var wide := WidenAll(content, sorted);
    forall i | 0 <= i < |wide| ensures Fits(LfToCrLf(content), wide[i]) {
      WidenFits(content, sorted[i]);
    }
    forall i | 0 < i < |wide| ensures wide[i - 1].End() <= wide[i].index {
      WidenFits(content, sorted[i - 1]);
      WidenFits(content, sorted[i]);
      FitsBounds(content, sorted[i]);
      PlacesDivide(content, sorted[i - 1].End(), sorted[i].index);
    }
  }

  lemma FitsBounds(content: Bytes, e: Located)
    requires Fits(content, e)
    ensures e.index < e.End() <= |content|
  {
  }

  lemma FittingIndices(content: Bytes, sorted: seq<Located>)
    requires AllFit(content, sorted)
    ensures forall i :: 0 <= i < |sorted| ==> sorted[i].index <= |content|
  {
    hide Fits;
    forall i | 0 <= i < |sorted| ensures sorted[i].index <= |content| {
      assert Fits(content, sorted[i]);
      FitsBounds(content, sorted[i]);
    }
  }

  // Widening the substituted content substitutes in the widened content.
  lemma {:induction false} SubstituteThenWiden(content: Bytes, from: nat, sorted: seq<Located>)
    requires AllFit(content, sorted) && Disjoint(sorted) && from <= |content|
    requires forall i :: 0 <= i < |sorted| ==> sorted[i].index <= |content|
    requires sorted != [] ==> from <= sorted[0].index
    ensures LfToCrLf(Substituted(content, from, sorted))
      == Substituted(LfToCrLf(content), Place(content, from), WidenAll(content, sorted))
    decreases |sorted|
  {
    hide LfToCrLf, Place, Widen;
    if sorted == [] {
      PlacesDivide(content, from, from);
    } else {
      var e, rest := sorted[0], sorted[1..];
      assert Fits(content, e);
      DisjointTail(sorted);
      assert |sorted| > 1 ==> e.End() <= sorted[1].index;
      SubstituteThenWiden(content, e.End(), rest);
      PlacesDivide(content, from, e.index);
      WidenFits(content, e);
      assert WidenAll(content, sorted)[1..] == WidenAll(content, rest);
      LfToCrLfAdds(content[from..e.index] + e.newText, Substituted(content, e.End(), rest));
      LfToCrLfAdds(content[from..e.index], e.newText);
      WidenedText(content, e);
    }
  }

  lemma WidenedText(content: Bytes, e: Located)
    requires e.index <= |content|
    ensures Widen(content, e).newText == LfToCrLf(e.newText)
  {
  }

  /** The replacements a successful call makes, as places in the file's own bytes. */
  function InOwnBytes(content: Bytes, sorted: seq<Located>): seq<Located>
    requires forall i :: 0 <= i < |sorted| ==> sorted[i].index <= |Normalize(content)|
  {
    if HasCrLf(content) then WidenAll(Normalize(content), sorted) else sorted
  }

  /** In a file without lone carriage returns a successful call replaces disjoint
      ranges of the file's own bytes and nothing else: the byte order mark and
      every byte outside a range stay, and what is written keeps the file's one
      line ending. */
  lemma EditsInPlace(raw: Bytes, edits: seq<Edit>)
    requires Execute(raw, edits).Success? && !HasLoneCr(SplitBom(raw).1)
    ensures var (bom, content) := SplitBom(raw);
      var sorted := SortByIndex(LocateAll(Normalize(content), edits, |edits|).value);
      && (forall i :: 0 <= i < |sorted| ==> sorted[i].index <= |Normalize(content)|)
      && var own := InOwnBytes(content, sorted);
      && |own| == |edits| && AllFit(content, own) && Disjoint(own)
      && Execute(raw, edits).value == bom + Substituted(content, 0, own)
  {
    hide SplitBom, Normalize, HasCrLf, HasMixedLineEndings, SortByIndex, Disjoint, AllFit, Substituted, LocateAll, WidenAll, HasLoneCr, LfToCrLf;
    var (bom, content) := SplitBom(raw);
    var normalized := Normalize(content);
    var sorted := SortByIndex(LocateAll(normalized, edits, |edits|).value);
    ExecuteSubstitutes(raw, edits);
    FittingIndices(normalized, sorted);
    NotMixed(raw, edits);
    RestoreIsExact(content);
    if HasCrLf(content) {
      WidenAllFit(normalized, sorted);
      FromTheStart(normalized, sorted);
    }
  }

  lemma NotMixed(raw: Bytes, edits: seq<Edit>)
    requires Execute(raw, edits).Success?
    ensures !HasMixedLineEndings(SplitBom(raw).1)
  {
    hide HasBareLf, Normalize, Count, LocateAll, SortByIndex, SpliceFrom, HasCrLf, HasMixedLineEndings, SplitBom;
    MixedMeansBoth(SplitBom(raw).1);
  }

  lemma FromTheStart(content: Bytes, sorted: seq<Located>)
    requires AllFit(content, sorted) && Disjoint(sorted)
    requires forall i :: 0 <= i < |sorted| ==> sorted[i].index <= |content|
    ensures LfToCrLf(Substituted(content, 0, sorted)) == Substituted(LfToCrLf(content), 0, WidenAll(content, sorted))
  {
    hide Substituted, WidenAll;
    assert content[..0] == [];
    SubstituteThenWiden(content, 0, sorted);
  }

  /** Whatever the file held before, what is written uses a single line ending. */
  lemma OneEndingIsWritten(raw: Bytes, edits: seq<Edit>)
    requires Execute(raw, edits).Success?
    ensures var (bom, content) := SplitBom(raw);
      exists written :: Execute(raw, edits).value == bom + written
        && (if HasCrLf(content) then !HasBareLf(written) && !HasLoneCr(written) else NoCr(written))
  {
    hide SplitBom, Normalize, HasCrLf, HasMixedLineEndings, SortByIndex, SpliceFrom, LocateAll, LfToCrLf, HasBareLf, HasLoneCr, Disjoint, NoCr;
    var (bom, content) := SplitBom(raw);
    var normalized := Normalize(content);
    var located := LocateAll(normalized, edits, |edits|).value;
    var updated := SpliceFrom(normalized, SortByIndex(located), 0);
    NormalizedHasNoCr(content);
    NewTextsHaveNoCr(normalized, edits, |edits|);
    SortOrders(located);
    SortedTexts(located, SortByIndex(located));
    SplicedHasNoCr(normalized, SortByIndex(located), 0);
    WidenedIsPure(updated);
  }

  lemma {:induction false} NewTextsHaveNoCr(content: Bytes, edits: seq<Edit>, k: nat)
    requires k <= |edits|
    ensures var r := LocateAll(content, edits, k);
      r.Success? ==> forall i :: 0 <= i < |r.value| ==> NoCr(r.value[i].newText)
  {
    hide LocateOne, Normalize, NoCr, LocateAll;
    LocateAllUnfolds(content, edits, k);
    if k > 0 {
      NewTextsHaveNoCr(content, edits, k - 1);
      NormalizedTexts(content, edits[k - 1], k - 1);
      NormalizedHasNoCr(edits[k - 1].newText);
    }
  }

  lemma LocateAllUnfolds(content: Bytes, edits: seq<Edit>, k: nat)
    requires k <= |edits|
    ensures var r := LocateAll(content, edits, k);
      && (k == 0 ==> r == Success([]))
      && (k > 0 && r.Success? ==>
            var before, last := LocateAll(content, edits, k - 1), LocateOne(content, edits[k - 1], k - 1);
            before.Success? && last.Success? && r.value == before.value + [last.value])
  {
    hide LocateOne;
  }

  lemma NormalizedTexts(content: Bytes, edit: Edit, k: nat)
    ensures var r := LocateOne(content, edit, k); r.Success? ==> r.value.newText == Normalize(edit.newText)
  {
    hide Count, IndexOf, Normalize;
  }

  lemma SortedTexts(located: seq<Located>, sorted: seq<Located>)
    requires Bag(sorted) == Bag(located) && forall i :: 0 <= i < |located| ==> NoCr(located[i].newText)
    ensures forall i :: 0 <= i < |sorted| ==> NoCr(sorted[i].newText)
  {
    hide Bag, NoCr;
    forall i | 0 <= i < |sorted| ensures NoCr(sorted[i].newText) {
      BagHas(sorted, i);
      var j := BagFind(located, sorted[i]);
    }
  }

  lemma {:induction false} SplicedHasNoCr(content: Bytes, sorted: seq<Located>, i: nat)
    requires i <= |sorted| && NoCr(content) && forall j :: 0 <= j < |sorted| ==> NoCr(sorted[j].newText)
    ensures NoCr(SpliceFrom(content, sorted, i))
    decreases |sorted| - i
  {
    if i < |sorted| {
      SplicedHasNoCr(content, sorted, i + 1);
      assert NoCr(sorted[i].newText);
    }
  }

  // ---------------------------------------------------------------- the algorithm

  method LocateEdits(content: Bytes, edits: seq<Edit>) returns (r: Result<seq<Located>>)
    ensures r == LocateAll(content, edits, |edits|)
  {
    hide LocateOne;
    var located: seq<Located> := [];
    for k := 0 to |edits|
      invariant LocateAll(content, edits, k) == Success(located)
    {
      var one := LocateOne(content, edits[k], k);
      if one.Failure? {
        r := Failure(one.error);
        FailureStays(content, edits, k + 1, |edits|);
        return;
      }
      located := located + [one.value];
    }
    r := Success(located);
  }

  lemma {:induction false} FailureStays(content: Bytes, edits: seq<Edit>, k: nat, n: nat)
    requires k <= n <= |edits| && LocateAll(content, edits, k).Failure?
    ensures LocateAll(content, edits, n) == LocateAll(content, edits, k)
    decreases n - k
  {
    hide LocateOne;
    if k < n {
      assert LocateAll(content, edits, k + 1) == LocateAll(content, edits, k);
      FailureStays(content, edits, k + 1, n);
    }
  }

  method CheckDisjoint(sorted: seq<Located>) returns (ok: bool)
    ensures ok <==> Disjoint(sorted)
  {
    var i := 1;
    while i < |sorted|
      invariant 1 <= i
      invariant forall j :: 0 < j < i && j < |sorted| ==> sorted[j - 1].End() <= sorted[j].index
    {
      if sorted[i - 1].End() > sorted[i].index { return false; }
      i := i + 1;
    }
    return true;
  }

  // The splicing loop, right to left.
  method Splice(content: Bytes, sorted: seq<Located>) returns (updated: Bytes)
    requires AllFit(content, sorted) && Disjoint(sorted)
    ensures updated == Substituted(content, 0, sorted)
  {
    hide Substituted, Fits;
    updated := content;
    var i := |sorted|;
    while i > 0
      invariant 0 <= i <= |sorted|
      invariant updated == SpliceFrom(content, sorted, i)
    {
      SpliceInBounds(content, sorted, i, updated);
      i := i - 1;
      updated := updated[..sorted[i].index] + sorted[i].newText + updated[sorted[i].End()..];
    }
    SpliceAll(content, sorted);
  }

  // Splicing never slices past the end: what is left of the next edit is untouched.
  lemma SpliceInBounds(content: Bytes, sorted: seq<Located>, i: nat, updated: Bytes)
    requires AllFit(content, sorted) && Disjoint(sorted) && 0 < i <= |sorted|
    requires updated == SpliceFrom(content, sorted, i)
    ensures sorted[i - 1].End() <= |updated|
  {
    hide SpliceFrom, Substituted;
    assert Fits(content, sorted[i - 1]);
    SpliceIsSubstitution(content, sorted, i, sorted[i - 1].End());
  }

  /** The edit tool from the bytes read to the bytes written. */
  method EditFile(raw: Bytes, edits: seq<Edit>) returns (r: Result<Bytes>)
    ensures r == Execute(raw, edits)
  {
    hide Normalize, HasCrLf, HasMixedLineEndings, SortByIndex, SpliceFrom, Fits, Substituted, LocateAll, LfToCrLf, Disjoint;
    var (bom, content) := SplitBom(raw);
    var crlf := HasCrLf(content);
    if crlf && HasMixedLineEndings(content) { return Failure(MixedEndings); }
    var normalized := Normalize(content);
    var located := LocateEdits(normalized, edits);
    if located.Failure? { return Failure(located.error); }
    LocatedFit(normalized, edits, |edits|);
    SortOrders(located.value);
    var sorted := SortByIndex(located.value);
    SameBagFits(normalized, sorted, located.value);
    var disjoint := CheckDisjoint(sorted);
    if !disjoint { return Failure(Overlap); }
    var updated := Splice(normalized, sorted);
    SpliceAll(normalized, sorted);
    if updated == normalized { return Failure(NoChange); }
    return Success(bom + (if crlf then LfToCrLf(updated) else updated));
  }

  // ---------------------------------------------------------------- what counts as unique

  /** A text is accepted when its first occurrence has none at or past its end. */
  lemma AcceptedTexts(content: Bytes, edit: Edit, k: nat)
    ensures var text := Normalize(edit.oldText);
      var i := IndexOf(content, text);
      LocateOne(content, edit, k).Success? <==>
        text != [] && i >= 0 && forall j :: j >= i + |text| ==> !OccursAt(content, text, j)
  {
    hide Count, IndexOf, Normalize, OccursAt;
    if Normalize(edit.oldText) != [] { CountOne(content, Normalize(edit.oldText)); }
  }

  lemma LocatedAtStart(content: Bytes, edit: Edit)
    requires Normalize(edit.oldText) == edit.oldText != [] && edit.oldText <= content && Count(content, edit.oldText) == 1
    ensures LocateOne(content, edit, 0) == Success(Located(0, edit.oldText, Normalize(edit.newText)))
  {
    hide Count, Normalize;
  }

  /** The promise that an old text must be unique fails for overlapping copies:
      in "aaa" the text "aa" is accepted, and its first copy is replaced. */
  lemma OverlappingTextIsAccepted()
    ensures var content: Bytes := [97, 97, 97]; var edit := Edit([97, 97], [98]);
      && LocateOne(content, edit, 0) == Success(Located(0, [97, 97], [98]))
      && OccursAt(content, edit.oldText, 0) && OccursAt(content, edit.oldText, 1)
  {
    hide LocateOne, Count, Normalize, NoCr, IndexOf, HasCrLf;
    var content: Bytes := [97, 97, 97];
    var text: Bytes := [97, 97];
    PlainText(text);
    PlainText([98]);
    OneCounted(text, [97]);
    assert text + [97] == content && content[..2] == text && content[1..3] == text;
    LocatedAtStart(content, Edit(text, [98]));
  }

  lemma PlainText(text: Bytes)
    requires CR !in text
    ensures Normalize(text) == text
  {
    hide Normalize;
    NoCrHasNoPairs(text);
    NormalizeStays(text);
  }
}
