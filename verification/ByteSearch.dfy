// Substring search as Go's strings package does it.

module ByteSearch {
  import opened Utf8

  /** Index of the first occurrence, or -1. */
  function IndexOf(s: Bytes, marker: Bytes): (i: int)
    ensures -1 <= i <= |s| - |marker| || i == -1
    ensures i >= 0 ==> s[i..i + |marker|] == marker
    decreases |s|
  {
    if |s| < |marker| then -1
    else if s[..|marker|] == marker then 0
    else
      var i := IndexOf(s[1..], marker);
      if i < 0 then -1 else assert s[1..][i..i + |marker|] == s[i + 1..i + 1 + |marker|]; i + 1
  }

  /** An occurrence of the marker is an index where it can be read off. */
  lemma {:induction false} IndexOfIsFirst(s: Bytes, marker: Bytes, at: nat)
    requires marker != [] && at + |marker| <= |s| && s[at..at + |marker|] == marker
    ensures 0 <= IndexOf(s, marker) <= at
    decreases |s|
  {
    if s[..|marker|] != marker {
      assert at > 0;
      assert s[1..][at - 1..at - 1 + |marker|] == s[at..at + |marker|];
      IndexOfIsFirst(s[1..], marker, at - 1);
    }
  }

  // A slice of a slice is a slice.
  lemma PrefixSlice<T>(s: seq<T>, k: nat, i: nat, j: nat)
    requires i <= j <= k <= |s|
    ensures s[..k][i..j] == s[i..j]
  {
  }

  lemma SuffixSlice<T>(s: seq<T>, k: nat, i: nat)
    requires k + i <= |s|
    ensures s[k..][i..] == s[k + i..]
  {
  }

  predicate OccursAt(s: Bytes, pattern: Bytes, at: int) {
    0 <= at && at + |pattern| <= |s| && s[at..at + |pattern|] == pattern
  }

  /** Number of occurrences found from the left, each search resuming after the
      one before. */
  function Count(s: Bytes, pattern: Bytes): nat
    requires pattern != []
    decreases |s|
  {
    var i := IndexOf(s, pattern);
    if i < 0 then 0 else 1 + Count(s[i + |pattern|..], pattern)
  }

  lemma IndexOfFindsAll(s: Bytes, pattern: Bytes)
    requires pattern != []
    ensures IndexOf(s, pattern) < 0 <==> forall j :: !OccursAt(s, pattern, j)
  {
    hide IndexOf;
    var i := IndexOf(s, pattern);
    if i >= 0 {
      assert OccursAt(s, pattern, i);
    } else {
      forall j ensures !OccursAt(s, pattern, j) {
        if OccursAt(s, pattern, j) {
          IndexOfIsFirst(s, pattern, j);
        }
      }
    }
  }

  lemma OccursInSuffix(s: Bytes, k: nat, pattern: Bytes, j: int)
    requires k <= |s| && j >= k
    ensures OccursAt(s[k..], pattern, j - k) <==> OccursAt(s, pattern, j)
  {
    if j + |pattern| <= |s| {
      assert s[k..][j - k..j - k + |pattern|] == s[j..j + |pattern|];
    }
  }

  lemma OccursInPrefix(s: Bytes, k: nat, pattern: Bytes, j: int)
    requires k <= |s| && OccursAt(s[..k], pattern, j)
    ensures OccursAt(s, pattern, j)
  {
    PrefixSlice(s, k, j, j + |pattern|);
  }

  // Where the pattern occurs its first occurrence is no later.
  lemma OccursNoEarlier(s: Bytes, pattern: Bytes, j: int)
    requires pattern != [] && OccursAt(s, pattern, j)
    ensures 0 <= IndexOf(s, pattern) <= j && j + |pattern| <= |s|
  {
    hide IndexOf;
    IndexOfIsFirst(s, pattern, j);
  }

  lemma FoundOccurs(s: Bytes, pattern: Bytes)
    ensures IndexOf(s, pattern) >= 0 ==> OccursAt(s, pattern, IndexOf(s, pattern))
  {
    hide IndexOf;
  }

  /** One occurrence is counted exactly when there is one and none starts past its
      end; an occurrence that overlaps it is not noticed. */
  lemma {:induction false} CountOne(s: Bytes, pattern: Bytes)
    requires pattern != []
    ensures Count(s, pattern) == 0 <==> IndexOf(s, pattern) < 0
    ensures var i := IndexOf(s, pattern);
      Count(s, pattern) == 1 <==> i >= 0 && forall j :: j >= i + |pattern| ==> !OccursAt(s, pattern, j)
  {
    hide IndexOf, OccursAt;
    var i := IndexOf(s, pattern);
    if i >= 0 {
      var k := i + |pattern|;
      CountNone(s[k..], pattern);
      IndexOfFindsAll(s[k..], pattern);
      if IndexOf(s[k..], pattern) < 0 {
        forall j | j >= k ensures !OccursAt(s, pattern, j) {
          OccursInSuffix(s, k, pattern, j);
        }
      } else {
        var j :| OccursAt(s[k..], pattern, j);
        NotBefore(s[k..], pattern, j);
        OccursInSuffix(s, k, pattern, k + j);
      }
    }
  }

  lemma NotBefore(s: Bytes, pattern: Bytes, j: int)
    requires OccursAt(s, pattern, j)
    ensures j >= 0
  {
  }

  lemma CountNone(s: Bytes, pattern: Bytes)
    requires pattern != []
    ensures Count(s, pattern) == 0 <==> IndexOf(s, pattern) < 0
  {
  }

  lemma CountShort(s: Bytes, pattern: Bytes)
    requires |s| < |pattern|
    ensures Count(s, pattern) == 0
  {
  }

  lemma CountHit(s: Bytes, pattern: Bytes)
    requires pattern != [] && |s| >= |pattern| && s[..|pattern|] == pattern
    ensures Count(s, pattern) == 1 + Count(s[|pattern|..], pattern)
  {
  }

  lemma CountMiss(s: Bytes, pattern: Bytes)
    requires pattern != [] && |s| >= |pattern| && s[..|pattern|] != pattern
    ensures Count(s, pattern) == Count(s[1..], pattern)
  {
    hide IndexOf, Count;
    IndexOfMiss(s, pattern);
    CountMoves(s, s[1..], pattern);
  }

  // One byte less in front changes no count if the first occurrence moves with it.
  lemma CountMoves(s: Bytes, t: Bytes, pattern: Bytes)
    requires pattern != [] && s != [] && t == s[1..]
    requires IndexOf(s, pattern) == if IndexOf(t, pattern) < 0 then -1 else IndexOf(t, pattern) + 1
    ensures Count(s, pattern) == Count(t, pattern)
  {
    hide IndexOf, Count;
    CountUnfolds(s, pattern);
    CountUnfolds(t, pattern);
    if IndexOf(t, pattern) >= 0 {
      SuffixSlice(s, 1, IndexOf(t, pattern) + |pattern|);
    }
  }

  lemma CountUnfolds(s: Bytes, pattern: Bytes)
    requires pattern != []
    ensures var i := IndexOf(s, pattern);
      Count(s, pattern) == if i < 0 then 0 else 1 + Count(s[i + |pattern|..], pattern)
  {
    hide IndexOf;
  }

  lemma IndexOfMiss(s: Bytes, pattern: Bytes)
    requires pattern != [] && |s| >= |pattern| && s[..|pattern|] != pattern
    ensures var i := IndexOf(s[1..], pattern); IndexOf(s, pattern) == if i < 0 then -1 else i + 1
  {
  }

  // A text that overlaps a shifted copy of itself.
  ghost predicate HasBorder(pattern: Bytes) { exists k :: IsBorder(pattern, k) }

  ghost predicate IsBorder(pattern: Bytes, k: int) {
    0 < k < |pattern| && pattern[k..] == pattern[..|pattern| - k]
  }

  /** Counting one means being unique, for every text searched, exactly when the
      pattern has no border. */
  lemma CountOneMeansUnique(pattern: Bytes)
    requires pattern != []
    ensures !HasBorder(pattern) <==>
      forall s: Bytes, i, j :: Count(s, pattern) == 1 && OccursAt(s, pattern, i) && OccursAt(s, pattern, j) ==> i == j
  {
    hide Count, HasBorder;
    if HasBorder(pattern) {
      CountMissesOverlap(pattern);
    } else {
      forall s: Bytes, i, j | Count(s, pattern) == 1 && OccursAt(s, pattern, i) && OccursAt(s, pattern, j) ensures i == j {
        FirstIsOnly(s, pattern, i);
        FirstIsOnly(s, pattern, j);
      }
    }
  }

  lemma OverlapMakesBorder(s: Bytes, pattern: Bytes, i: int, j: int)
    requires OccursAt(s, pattern, i) && OccursAt(s, pattern, j) && i < j < i + |pattern|
    ensures IsBorder(pattern, j - i)
  {
    var k, n := j - i, |pattern|;
    assert pattern[k..] == s[i..i + n][k..] == s[j..i + n] == s[j..j + n][..n - k] == pattern[..n - k];
  }

  lemma FirstIsOnly(s: Bytes, pattern: Bytes, j: int)
    requires pattern != [] && !HasBorder(pattern) && Count(s, pattern) == 1 && OccursAt(s, pattern, j)
    ensures j == IndexOf(s, pattern)
  {
    hide Count, IndexOf;
    CountOne(s, pattern);
    IndexOfIsFirst(s, pattern, j);
    var i := IndexOf(s, pattern);
    if j != i {
      OverlapMakesBorder(s, pattern, i, j);
    }
  }

  lemma CountMissesOverlap(pattern: Bytes)
    requires HasBorder(pattern)
    ensures exists s: Bytes, i, j :: Count(s, pattern) == 1 && OccursAt(s, pattern, i) && OccursAt(s, pattern, j) && i != j
  {
    hide Count, OccursAt;
    var k :| IsBorder(pattern, k);
    var s := pattern + pattern[|pattern| - k..];
    OverlappingCopies(pattern, k);
    OneCounted(pattern, pattern[|pattern| - k..]);
    assert Count(s, pattern) == 1 && OccursAt(s, pattern, 0) && OccursAt(s, pattern, k);
  }

  lemma OverlappingCopies(pattern: Bytes, k: int)
    requires IsBorder(pattern, k)
    ensures var s := pattern + pattern[|pattern| - k..]; OccursAt(s, pattern, 0) && OccursAt(s, pattern, k)
  {
    var n := |pattern|;
    var s := pattern + pattern[n - k..];
    assert s[0..0 + n] == pattern;
    assert s[k..k + n] == pattern[k..] + pattern[n - k..] == pattern[..n - k] + pattern[n - k..] == pattern;
  }

  lemma OneCounted(pattern: Bytes, rest: Bytes)
    requires pattern != [] && |rest| < |pattern|
    ensures Count(pattern + rest, pattern) == 1
  {
    hide Count;
    var s := pattern + rest;
    assert s[..|pattern|] == pattern && s[|pattern|..] == rest;
    CountHit(s, pattern);
    CountShort(rest, pattern);
  }
}
