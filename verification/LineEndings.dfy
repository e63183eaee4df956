// Line endings of an edited file (internal/tools/edit.go): every ending is turned
// into a line feed before the edits and turned back after them.

module LineEndings {
  import opened Utf8
  import opened ByteSearch

  const CR: Byte := 13
  const LF: Byte := 10

  function CrLfToLf(s: Bytes): Bytes
    decreases |s|
  {
    if s == [] then []
    else if |s| > 1 && s[0] == CR && s[1] == LF then [LF] + CrLfToLf(s[2..])
    else [s[0]] + CrLfToLf(s[1..])
  }

  function CrToLf(s: Bytes): Bytes {
    if s == [] then [] else [if s[0] == CR then LF else s[0]] + CrToLf(s[1..])
  }

  function LfToCrLf(s: Bytes): Bytes {
    if s == [] then [] else (if s[0] == LF then [CR, LF] else [s[0]]) + LfToCrLf(s[1..])
  }

  function Normalize(s: Bytes): Bytes { CrToLf(CrLfToLf(s)) }

  predicate HasCrLf(s: Bytes) { exists i :: 0 <= i < |s| && OccursAt(s, [CR, LF], i) }

  predicate BareLfAt(s: Bytes, i: int) { 0 <= i < |s| && s[i] == LF && (i == 0 || s[i - 1] != CR) }

  ghost predicate HasBareLf(s: Bytes) { exists i :: BareLfAt(s, i) }

  predicate LoneCrAt(s: Bytes, i: int) { 0 <= i < |s| && s[i] == CR && (i + 1 == |s| || s[i + 1] != LF) }

  ghost predicate HasLoneCr(s: Bytes) { exists i :: LoneCrAt(s, i) }

  /** The source's test: some CRLF pair, and more line feeds than those pairs. */
  predicate HasMixedLineEndings(s: Bytes) {
    var pairs := Count(s, [CR, LF]);
    pairs > 0 && Count(s, [LF]) - pairs > 0
  }

  /** What is written back when nothing in between changes anything. */
  function Restore(s: Bytes): Bytes {
    if HasCrLf(s) then LfToCrLf(Normalize(s)) else Normalize(s)
  }

  // ---------------------------------------------------------------- the mixed test

  function BareCount(s: Bytes): nat
    decreases |s|
  {
    if s == [] then 0
    else if |s| > 1 && s[0] == CR && s[1] == LF then BareCount(s[2..])
    else (if s[0] == LF then 1 else 0) + BareCount(s[1..])
  }

  lemma {:induction false} CountsDiffer(s: Bytes)
    ensures Count(s, [LF]) == Count(s, [CR, LF]) + BareCount(s)
    decreases |s|
  {
    hide Count;
    if s == [] {
      CountShort(s, [LF]);
      CountShort(s, [CR, LF]);
    } else if |s| > 1 && s[0] == CR && s[1] == LF {
      CountHit(s, [CR, LF]);
      CountMiss(s, [LF]);
      CountHit(s[1..], [LF]);
      assert s[1..][1..] == s[2..];
      CountsDiffer(s[2..]);
    } else {
      CountMissPair(s);
      if s[0] == LF {
        CountHit(s, [LF]);
      } else {
        CountMiss(s, [LF]);
      }
      CountsDiffer(s[1..]);
    }
  }

  lemma CountMissPair(s: Bytes)
    requires s != [] && !(|s| > 1 && s[0] == CR && s[1] == LF)
    ensures Count(s, [CR, LF]) == Count(s[1..], [CR, LF])
  {
    hide Count;
    if |s| == 1 {
      CountShort(s, [CR, LF]);
      CountShort(s[1..], [CR, LF]);
    } else {
      assert s[..2] == [s[0], s[1]];
      CountMiss(s, [CR, LF]);
    }
  }

  lemma {:induction false} BareCountFinds(s: Bytes)
    ensures BareCount(s) > 0 <==> HasBareLf(s)
    decreases |s|
  {
    if s != [] {
      if |s| > 1 && s[0] == CR && s[1] == LF {
        BareCountFinds(s[2..]);
        BareAfter(s, 2);
      } else {
        BareCountFinds(s[1..]);
        BareAfter(s, 1);
        if s[0] == LF { assert BareLfAt(s, 0); }
      }
    }
  }

  // A bare line feed past a first byte or pair is one of what follows it.
  lemma BareAfter(s: Bytes, k: nat)
    requires 0 < k <= |s| && !(s[k - 1] == CR && k < |s| && s[k] == LF)
    requires forall i :: 0 <= i < k ==> !BareLfAt(s, i) || i == 0
    ensures HasBareLf(s) <==> BareLfAt(s, 0) || HasBareLf(s[k..])
  {
    if HasBareLf(s) && !BareLfAt(s, 0) {
      var i :| BareLfAt(s, i);
      assert BareLfAt(s[k..], i - k);
    }
    if HasBareLf(s[k..]) {
      var i :| BareLfAt(s[k..], i);
      assert BareLfAt(s, i + k);
    }
  }

  lemma PairReads(s: Bytes, i: int)
    ensures OccursAt(s, [CR, LF], i) <==> 0 <= i && i + 1 < |s| && s[i] == CR && s[i + 1] == LF
  {
    if 0 <= i && i + 1 < |s| { assert s[i..i + 2] == [s[i], s[i + 1]]; }
  }

  lemma PairsOccur(s: Bytes)
    ensures HasCrLf(s) <==> IndexOf(s, [CR, LF]) >= 0
  {
    hide IndexOf;
    IndexOfFindsAll(s, [CR, LF]);
  }

  /** The counting test says exactly that both endings occur. */
  lemma MixedMeansBoth(s: Bytes)
    ensures HasMixedLineEndings(s) <==> HasCrLf(s) && HasBareLf(s)
  {
    hide Count, BareCount, HasBareLf, HasCrLf, IndexOf;
    CountsDiffer(s);
    BareCountFinds(s);
    CountNone(s, [CR, LF]);
    PairsOccur(s);
  }

  // ---------------------------------------------------------------- round trip

  lemma {:induction false} LfToCrLfAdds(a: Bytes, b: Bytes)
    ensures LfToCrLf(a + b) == LfToCrLf(a) + LfToCrLf(b)
  {
    if a == [] {
      assert a + b == b;
    } else {
      assert (a + b)[0] == a[0] && (a + b)[1..] == a[1..] + b;
      LfToCrLfAdds(a[1..], b);
    }
  }

  ghost predicate NoCr(s: Bytes) { forall i :: 0 <= i < |s| ==> s[i] != CR }

  lemma {:induction false} CrToLfHasNoCr(s: Bytes)
    ensures NoCr(CrToLf(s)) && |CrToLf(s)| == |s|
  {
    if s != [] { CrToLfHasNoCr(s[1..]); }
  }

  lemma NormalizedHasNoCr(s: Bytes)
    ensures NoCr(Normalize(s))
  {
    CrToLfHasNoCr(CrLfToLf(s));
  }

  lemma {:induction false} NoCrStays(s: Bytes)
    requires NoCr(s)
    ensures CrLfToLf(s) == s && CrToLf(s) == s
    decreases |s|
  {
    if s != [] {
      NoCrStays(s[1..]);
      assert s == [s[0]] + s[1..];
    }
  }

  lemma WidenUnfolds(x: Byte, rest: Bytes)
    ensures LfToCrLf([x] + rest) == (if x == LF then [CR, LF] else [x]) + LfToCrLf(rest)
  {
    assert ([x] + rest)[1..] == rest;
  }

  lemma {:induction false} CrLfIsUndone(s: Bytes)
    requires !HasBareLf(s) && !HasLoneCr(s)
    ensures LfToCrLf(Normalize(s)) == s
    decreases |s|
  {
    hide LfToCrLf, HasBareLf, HasLoneCr, Normalize;
    if s != [] { CleanStart(s); }
    if s == [] {
      NothingToWiden();
    } else if s[0] == CR {
      CleanTail(s, 2);
      CrLfIsUndone(s[2..]);
      NormalizePair(s);
      WidenUnfolds(LF, Normalize(s[2..]));
      assert s == [CR, LF] + s[2..];
    } else {
      CleanTail(s, 1);
      CrLfIsUndone(s[1..]);
      NormalizeByte(s);
      WidenUnfolds(s[0], Normalize(s[1..]));
      assert s == [s[0]] + s[1..];
    }
  }

  lemma NothingToWiden()
    ensures LfToCrLf(Normalize([])) == []
  {
  }

  lemma CleanStart(s: Bytes)
    requires !HasBareLf(s) && !HasLoneCr(s) && s != []
    ensures s[0] != LF && (s[0] == CR ==> |s| > 1 && s[1] == LF)
  {
    assert !BareLfAt(s, 0) && !LoneCrAt(s, 0);
  }

  lemma NormalizePair(s: Bytes)
    requires |s| > 1 && s[0] == CR && s[1] == LF
    ensures Normalize(s) == [LF] + Normalize(s[2..])
  {
    var rest := CrLfToLf(s[2..]);
    assert ([LF] + rest)[1..] == rest;
  }

  lemma NormalizeByte(s: Bytes)
    requires s != [] && s[0] != CR
    ensures Normalize(s) == [s[0]] + Normalize(s[1..])
  {
    var rest := CrLfToLf(s[1..]);
    assert ([s[0]] + rest)[1..] == rest;
  }

  lemma CleanTail(s: Bytes, k: nat)
    requires !HasBareLf(s) && !HasLoneCr(s) && 0 < k <= |s| && s[k - 1] != CR
    ensures !HasBareLf(s[k..]) && !HasLoneCr(s[k..])
  {
    forall i ensures !BareLfAt(s[k..], i) {
      assert !BareLfAt(s, i + k);
    }
    forall i ensures !LoneCrAt(s[k..], i) {
      assert !LoneCrAt(s, i + k);
    }
  }

  // Widening the line feeds of a text without carriage returns leaves CRLF only.
  lemma {:induction false} WidenedIsPure(s: Bytes)
    requires NoCr(s)
    ensures !HasBareLf(LfToCrLf(s)) && !HasLoneCr(LfToCrLf(s))
    ensures LfToCrLf(s) != [] ==> LfToCrLf(s)[0] != LF
  {
    if s != [] {
      WidenedIsPure(s[1..]);
      var w, rest := LfToCrLf(s), LfToCrLf(s[1..]);
      var k := if s[0] == LF then 2 else 1;
      assert w[k..] == rest;
      forall i ensures !BareLfAt(w, i) {
        assert !BareLfAt(rest, i - k);
      }
      forall i ensures !LoneCrAt(w, i) {
        assert !LoneCrAt(rest, i - k);
      }
    }
  }

  lemma NoCrHasNoPairs(s: Bytes)
    ensures NoCr(s) ==> !HasCrLf(s) && !HasLoneCr(s)
    ensures !HasCrLf(s) && !HasLoneCr(s) ==> NoCr(s)
  {
    if !HasCrLf(s) && !HasLoneCr(s) {
      forall i | 0 <= i < |s| ensures s[i] != CR {
        assert !LoneCrAt(s, i) && !OccursAt(s, [CR, LF], i);
        PairReads(s, i);
      }
    }
    if NoCr(s) {
      forall i ensures !OccursAt(s, [CR, LF], i) {
        PairReads(s, i);
      }
    }
  }

  /** Exactly the unmixed files without lone carriage returns come back unchanged. */
  lemma RestoreIsExact(s: Bytes)
    requires !HasMixedLineEndings(s)
    ensures Restore(s) == s <==> !HasLoneCr(s)
  {
    hide Normalize, LfToCrLf, HasCrLf, HasBareLf, HasLoneCr, HasMixedLineEndings, NoCr;
    MixedMeansBoth(s);
    NormalizedHasNoCr(s);
    WidenedIsPure(Normalize(s));
    NoCrHasNoPairs(Normalize(s));
    if !HasLoneCr(s) {
      if HasCrLf(s) {
        CrLfIsUndone(s);
      } else {
        NoCrHasNoPairs(s);
        NormalizeStays(s);
      }
    }
  }

  lemma NormalizeStays(s: Bytes)
    requires NoCr(s)
    ensures Normalize(s) == s
  {
    NoCrStays(s);
  }

  /** Why lone carriage returns are the exception: they are rewritten. */
  lemma LoneCrIsRewritten()
    ensures var s: Bytes := [97, CR, 98]; !HasMixedLineEndings(s) && Restore(s) == [97, LF, 98]
  {
    var s: Bytes := [97, CR, 98];
    hide HasMixedLineEndings;
    MixedMeansBoth(s);
    forall i ensures !OccursAt(s, [CR, LF], i) {
      PairReads(s, i);
    }
    assert s[1..] == [CR, 98] && s[2..] == [98] && s[1..][1..] == s[2..] && s[2..][1..] == [];
    assert CrLfToLf(s[2..]) == [98];
    assert CrLfToLf(s[1..]) == [CR, 98];
    assert CrLfToLf(s) == s;
    assert CrToLf(s[2..]) == [98];
    assert CrToLf(s[1..]) == [LF, 98];
  }
}
