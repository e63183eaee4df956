// Optimal-string-alignment distance (internal/tui/fuzzy.go): the fewest
// insertions, deletions, substitutions and swaps of neighbours, no character
// being touched twice.

module EditDistance {
  import opened Options

  type Text = seq<int>

  // ---------------------------------------------------------------- the table

  /** Distance between prefixes of lengths i and j, as the table is filled. */
  function Cell(a: Text, b: Text, i: nat, j: nat): nat
    requires i <= |a| && j <= |b|
    decreases i + j
  {
    if i == 0 then j
    else if j == 0 then i
    else
      var best := Best(Cell(a, b, i - 1, j), Cell(a, b, i, j - 1), Cell(a, b, i - 1, j - 1), a[i - 1] == b[j - 1]);
      if Swapped(a, b, i, j) then Min(best, Cell(a, b, i - 2, j - 2) + 1) else best
  }

  function Best(above: nat, before: nat, diagonal: nat, same: bool): nat {
    Min(Min(above + 1, before + 1), diagonal + (if same then 0 else 1))
  }

  /** The last two characters of both prefixes are each other's, swapped. */
  predicate Swapped(a: Text, b: Text, i: nat, j: nat)
    requires i <= |a| && j <= |b|
  {
    i > 1 && j > 1 && a[i - 1] == b[j - 2] && a[i - 2] == b[j - 1]
  }

  lemma CellUnfolds(a: Text, b: Text, i: nat, j: nat)
    requires 0 < i <= |a| && 0 < j <= |b|
    ensures var best := Best(Cell(a, b, i - 1, j), Cell(a, b, i, j - 1), Cell(a, b, i - 1, j - 1), a[i - 1] == b[j - 1]);
      Cell(a, b, i, j) == if Swapped(a, b, i, j) then Min(best, Cell(a, b, i - 2, j - 2) + 1) else best
  {
  }

  lemma CellBorder(a: Text, b: Text, i: nat, j: nat)
    requires i <= |a| && j <= |b|
    ensures Cell(a, b, i, 0) == i && Cell(a, b, 0, j) == j
  {
  }

  function Distance(a: Text, b: Text): nat { Cell(a, b, |a|, |b|) }

  // ---------------------------------------------------------------- scripts

  /** One step of an alignment, read from the end of both texts. */
  datatype Edit = Keep | Substitute | Insert | Delete | Swap

  function Cost(script: seq<Edit>): nat {
    if script == [] then 0
    else Cost(script[..|script| - 1]) + (if script[|script| - 1] == Keep then 0 else 1)
  }

  /** The script turns the first i characters of a into the first j of b; each
      character is used by exactly one of its steps. */
  predicate Aligns(a: Text, b: Text, i: nat, j: nat, script: seq<Edit>)
    requires i <= |a| && j <= |b|
    decreases |script|
  {
    if script == [] then i == 0 && j == 0
    else
      var rest := script[..|script| - 1];
      match script[|script| - 1]
      case Keep => i > 0 && j > 0 && a[i - 1] == b[j - 1] && Aligns(a, b, i - 1, j - 1, rest)
      case Substitute => i > 0 && j > 0 && a[i - 1] != b[j - 1] && Aligns(a, b, i - 1, j - 1, rest)
      case Insert => j > 0 && Aligns(a, b, i, j - 1, rest)
      case Delete => i > 0 && Aligns(a, b, i - 1, j, rest)
      case Swap =>
        Swapped(a, b, i, j) && Aligns(a, b, i - 2, j - 2, rest)
  }

  lemma CostAppend(script: seq<Edit>, e: Edit)
    ensures Cost(script + [e]) == Cost(script) + (if e == Keep then 0 else 1)
  {
    assert (script + [e])[..|script|] == script;
  }

  /** No script is cheaper than the table says. */
  lemma {:induction false} NoScriptIsCheaper(a: Text, b: Text, i: nat, j: nat, script: seq<Edit>)
    requires i <= |a| && j <= |b| && Aligns(a, b, i, j, script)
    ensures Cell(a, b, i, j) <= Cost(script)
    decreases |script|
  {
    hide Cell;
    CellBorder(a, b, i, j);
    if script != [] {
      var rest := script[..|script| - 1];
      CellSteps(a, b, i, j);
      match script[|script| - 1]
      case Keep => NoScriptIsCheaper(a, b, i - 1, j - 1, rest);
      case Substitute => NoScriptIsCheaper(a, b, i - 1, j - 1, rest);
      case Insert => NoScriptIsCheaper(a, b, i, j - 1, rest);
      case Delete => NoScriptIsCheaper(a, b, i - 1, j, rest);
      case Swap => NoScriptIsCheaper(a, b, i - 2, j - 2, rest);
    }
  }

  // A cell is at most one step away from the cells a script step comes from.
  lemma CellSteps(a: Text, b: Text, i: nat, j: nat)
    requires i <= |a| && j <= |b|
    ensures i > 0 ==> Cell(a, b, i, j) <= Cell(a, b, i - 1, j) + 1
    ensures j > 0 ==> Cell(a, b, i, j) <= Cell(a, b, i, j - 1) + 1
    ensures i > 0 && j > 0 ==>
      Cell(a, b, i, j) <= Cell(a, b, i - 1, j - 1) + (if a[i - 1] == b[j - 1] then 0 else 1)
    ensures Swapped(a, b, i, j) ==> Cell(a, b, i, j) <= Cell(a, b, i - 2, j - 2) + 1
  {
    hide Cell;
    CellBorder(a, b, i, j);
    if i > 0 && j > 0 {
      CellUnfolds(a, b, i, j);
    } else if i > 0 {
      CellBorder(a, b, i - 1, j);
    } else if j > 0 {
      CellBorder(a, b, i, j - 1);
    }
  }

  /** A script of exactly the cost in the table. */
  lemma {:induction false} CheapestScript(a: Text, b: Text, i: nat, j: nat) returns (script: seq<Edit>)
    requires i <= |a| && j <= |b|
    ensures Aligns(a, b, i, j, script) && Cost(script) == Cell(a, b, i, j)
    decreases i + j
  {
    hide Cell;
    CellBorder(a, b, i, j);
    if i > 0 && j > 0 {
      CellUnfolds(a, b, i, j);
    }
    if i > 0 {
      CellBorder(a, b, i - 1, j);
    }
    if j > 0 {
      CellBorder(a, b, i, j - 1);
    }
    if i == 0 && j == 0 {
      script := [];
    } else if i == 0 || (j > 0 && Cell(a, b, i, j) == Cell(a, b, i, j - 1) + 1) {
      var rest := CheapestScript(a, b, i, j - 1);
      script := Extend(rest, Insert);
    } else if j == 0 || Cell(a, b, i, j) == Cell(a, b, i - 1, j) + 1 {
      var rest := CheapestScript(a, b, i - 1, j);
      script := Extend(rest, Delete);
    } else if Cell(a, b, i, j) == Cell(a, b, i - 1, j - 1) + (if a[i - 1] == b[j - 1] then 0 else 1) {
      var rest := CheapestScript(a, b, i - 1, j - 1);
      script := Extend(rest, if a[i - 1] == b[j - 1] then Keep else Substitute);
    } else {
      var rest := CheapestScript(a, b, i - 2, j - 2);
      script := Extend(rest, Swap);
    }
  }

  lemma Extend(rest: seq<Edit>, e: Edit) returns (script: seq<Edit>)
    ensures script == rest + [e] && script[..|script| - 1] == rest && script[|script| - 1] == e
    ensures Cost(script) == Cost(rest) + (if e == Keep then 0 else 1)
  {
    script := rest + [e];
    CostAppend(rest, e);
  }

  ghost predicate Turns(a: Text, b: Text, script: seq<Edit>) {
    Aligns(a, b, |a|, |b|, script)
  }

  /** The table computes the true minimum over all scripts. */
  lemma DistanceIsMinimal(a: Text, b: Text)
    ensures forall script :: Turns(a, b, script) ==> Distance(a, b) <= Cost(script)
    ensures exists script :: Turns(a, b, script) && Cost(script) == Distance(a, b)
  {
    forall script | Turns(a, b, script) ensures Distance(a, b) <= Cost(script) {
      NoScriptIsCheaper(a, b, |a|, |b|, script);
    }
    var script := CheapestScript(a, b, |a|, |b|);
    assert Turns(a, b, script);
  }

  // ---------------------------------------------------------------- laws

  lemma {:induction false} CellIsSymmetric(a: Text, b: Text, i: nat, j: nat)
    requires i <= |a| && j <= |b|
    ensures Cell(a, b, i, j) == Cell(b, a, j, i)
    decreases i + j
  {
    hide Cell;
    if i > 0 && j > 0 {
      CellUnfolds(a, b, i, j);
      CellUnfolds(b, a, j, i);
      CellIsSymmetric(a, b, i - 1, j);
      CellIsSymmetric(a, b, i, j - 1);
      CellIsSymmetric(a, b, i - 1, j - 1);
      if i > 1 && j > 1 {
        CellIsSymmetric(a, b, i - 2, j - 2);
      }
    } else {
      CellBorder(a, b, i, j);
      CellBorder(b, a, j, i);
    }
  }

  lemma {:induction false} CellZero(a: Text, b: Text, i: nat, j: nat)
    requires i <= |a| && j <= |b|
    ensures Cell(a, b, i, j) == 0 <==> a[..i] == b[..j]
    decreases i + j
  {
    hide Cell;
    CellBorder(a, b, i, j);
    if i > 0 && j > 0 {
      CellUnfolds(a, b, i, j);
    }
    if i > 0 && j > 0 {
      CellZero(a, b, i - 1, j - 1);
      assert a[..i] == a[..i - 1] + [a[i - 1]] && b[..j] == b[..j - 1] + [b[j - 1]];
      if a[..i] == b[..j] {
        assert a[..i - 1] == a[..i][..i - 1] == b[..j][..j - 1] == b[..j - 1];
        assert a[i - 1] == a[..i][i - 1] == b[..j][j - 1];
      }
    }
  }

  /** The distance is symmetric, and zero only between equal texts. */
  lemma DistanceIsAMeasure(a: Text, b: Text)
    ensures Distance(a, b) == Distance(b, a)
    ensures Distance(a, b) == 0 <==> a == b
  {
    hide Cell;
    CellIsSymmetric(a, b, |a|, |b|);
    CellZero(a, b, |a|, |b|);
    assert a[..|a|] == a && b[..|b|] == b;
  }

  // ---------------------------------------------------------------- one edit

  /** Texts that differ by one edit at position p. */
  predicate OneEditAt(a: Text, b: Text, p: nat) {
    || (p < |a| && |b| == |a| - 1 && b == a[..p] + a[p + 1..])
    || (p < |b| && |a| == |b| - 1 && a == b[..p] + b[p + 1..])
    || (p < |a| && |b| == |a| && b == a[..p] + [b[p]] + a[p + 1..])
    || (p + 1 < |a| && |b| == |a| && b == a[..p] + [a[p + 1], a[p]] + a[p + 2..])
  }

  ghost predicate OneEditApart(a: Text, b: Text) { exists p: nat :: OneEditAt(a, b, p) }

  lemma DeleteLast(a: Text, b: Text)
    requires |a| > 0 && a[..|a| - 1] == b
    ensures OneEditAt(a, b, |a| - 1) && OneEditAt(b, a, |a| - 1)
  {
    var p := |a| - 1;
    assert a[..p] + a[p + 1..] == a[..p];
  }

  lemma SubstituteLast(a: Text, b: Text)
    requires |a| > 0 && |b| > 0 && a[..|a| - 1] == b[..|b| - 1]
    ensures OneEditAt(a, b, |a| - 1)
  {
    var p := |a| - 1;
    assert |b| == |a| && b == b[..p] + [b[p]];
    assert a[..p] + [b[p]] + a[p + 1..] == a[..p] + [b[p]];
  }

  // Equal up to two swapped characters at the end.
  lemma SwapLast(a: Text, b: Text)
    requires |a| >= 2 && |b| >= 2 && a[..|a| - 2] == b[..|b| - 2]
    requires a[|a| - 1] == b[|b| - 2] && a[|a| - 2] == b[|b| - 1]
    ensures OneEditAt(a, b, |a| - 2)
  {
    var p := |a| - 2;
    assert |b| == |a|;
    assert b == b[..p] + [b[p], b[p + 1]];
    assert a[..p] + [a[p + 1], a[p]] + a[p + 2..] == a[..p] + [a[p + 1], a[p]];
  }

  // Prefixes whose distance comes from a neighbouring cell of zero.
  lemma {:induction false} CellNextToZero(a: Text, b: Text, i: nat, j: nat) returns (p: nat)
    requires 0 < i <= |a| && 0 < j <= |b|
    requires Cell(a, b, i - 1, j) == 0 || Cell(a, b, i, j - 1) == 0 || Cell(a, b, i - 1, j - 1) == 0
    ensures OneEditAt(a[..i], b[..j], p)
  {
    hide Cell, OneEditAt;
    var a', b' := a[..i], b[..j];
    assert a'[..i - 1] == a[..i - 1] && b'[..j - 1] == b[..j - 1];
    if Cell(a, b, i - 1, j) == 0 {
      CellZero(a, b, i - 1, j);
      p := i - 1;
      DeleteLast(a', b');
    } else if Cell(a, b, i, j - 1) == 0 {
      CellZero(a, b, i, j - 1);
      p := j - 1;
      DeleteLast(b', a');
    } else {
      CellZero(a, b, i - 1, j - 1);
      p := i - 1;
      SubstituteLast(a', b');
    }
  }

  lemma {:induction false} CellAfterSwap(a: Text, b: Text, i: nat, j: nat)
    requires i <= |a| && j <= |b| && Swapped(a, b, i, j) && Cell(a, b, i - 2, j - 2) == 0
    ensures OneEditAt(a[..i], b[..j], i - 2)
  {
    hide Cell, OneEditAt;
    var a', b' := a[..i], b[..j];
    CellZero(a, b, i - 2, j - 2);
    assert a'[..i - 2] == a[..i - 2] && b'[..j - 2] == b[..j - 2];
    SwapLast(a', b');
  }

  /** Where two prefixes at distance one differ. */
  lemma {:induction false} CellOne(a: Text, b: Text, i: nat, j: nat) returns (p: nat)
    requires i <= |a| && j <= |b| && Cell(a, b, i, j) == 1
    ensures OneEditAt(a[..i], b[..j], p)
    decreases i + j
  {
    hide Cell, OneEditAt;
    CellBorder(a, b, i, j);
    if i == 0 {
      p := 0;
      DeleteLast(b[..j], a[..i]);
    } else if j == 0 {
      p := 0;
      DeleteLast(a[..i], b[..j]);
    } else {
      CellUnfolds(a, b, i, j);
      if Cell(a, b, i - 1, j) == 0 || Cell(a, b, i, j - 1) == 0 || Cell(a, b, i - 1, j - 1) == 0 {
        p := CellNextToZero(a, b, i, j);
      } else if a[i - 1] == b[j - 1] && Cell(a, b, i - 1, j - 1) == 1 {
        p := CellOne(a, b, i - 1, j - 1);
        OneEditExtends(a[..i - 1], b[..j - 1], a[i - 1], p);
        assert a[..i] == a[..i - 1] + [a[i - 1]] && b[..j] == b[..j - 1] + [b[j - 1]];
      } else {
        p := i - 2;
        CellAfterSwap(a, b, i, j);
      }
    }
  }

  lemma OneEditExtends(a: Text, b: Text, c: int, p: nat)
    requires OneEditAt(a, b, p)
    ensures OneEditAt(a + [c], b + [c], p)
  {
    var a', b' := a + [c], b + [c];
    if p < |a| && |b| == |a| - 1 && b == a[..p] + a[p + 1..] {
      assert a'[..p] + a'[p + 1..] == (a[..p] + a[p + 1..]) + [c];
    } else if p < |b| && |a| == |b| - 1 && a == b[..p] + b[p + 1..] {
      assert b'[..p] + b'[p + 1..] == (b[..p] + b[p + 1..]) + [c];
    } else if p < |a| && |b| == |a| && b == a[..p] + [b[p]] + a[p + 1..] {
      assert a'[..p] + [b'[p]] + a'[p + 1..] == (a[..p] + [b[p]] + a[p + 1..]) + [c];
    } else {
      assert a'[..p] + [a'[p + 1], a'[p]] + a'[p + 2..] == (a[..p] + [a[p + 1], a[p]] + a[p + 2..]) + [c];
    }
  }

  // A common tail adds nothing to the distance.
  lemma {:induction false} CommonTail(a: Text, b: Text, i: nat, j: nat, n: nat)
    requires i + n <= |a| && j + n <= |b| && a[i..i + n] == b[j..j + n]
    ensures Cell(a, b, i + n, j + n) <= Cell(a, b, i, j)
  {
    hide Cell;
    if n > 0 {
      assert a[i..i + n - 1] == a[i..i + n][..n - 1] == b[j..j + n][..n - 1] == b[j..j + n - 1];
      CommonTail(a, b, i, j, n - 1);
      assert a[i + n - 1] == a[i..i + n][n - 1] == b[j..j + n][n - 1];
      CellSteps(a, b, i + n, j + n);
    }
  }

  lemma DeletionIsOne(a: Text, b: Text, p: nat)
    requires p < |a| && |b| == |a| - 1 && b == a[..p] + a[p + 1..]
    ensures Distance(a, b) <= 1
  {
    hide Cell;
    assert a[..p] == b[..p];
    CellZero(a, b, p, p);
    CellSteps(a, b, p + 1, p);
    var n := |a| - p - 1;
    assert a[p + 1..p + 1 + n] == b[p..p + n];
    CommonTail(a, b, p + 1, p, n);
  }

  lemma SubstitutionIsOne(a: Text, b: Text, p: nat)
    requires p < |a| && |b| == |a| && b == a[..p] + [b[p]] + a[p + 1..]
    ensures Distance(a, b) <= 1
  {
    hide Cell;
    var n := |a| - p - 1;
    assert a[..p] == b[..p];
    assert b[p + 1..] == a[p + 1..] by {
      assert (a[..p] + [b[p]] + a[p + 1..])[p + 1..] == a[p + 1..];
    }
    assert a[p + 1..p + 1 + n] == a[p + 1..] && b[p + 1..p + 1 + n] == b[p + 1..];
    CellZero(a, b, p, p);
    CellSteps(a, b, p + 1, p + 1);
    CommonTail(a, b, p + 1, p + 1, n);
  }

  lemma SwapIsOne(a: Text, b: Text, p: nat)
    requires p + 1 < |a| && |b| == |a| && b == a[..p] + [a[p + 1], a[p]] + a[p + 2..]
    ensures Distance(a, b) <= 1
  {
    hide Cell;
    var n := |a| - p - 2;
    assert a[..p] == b[..p] && b[p] == a[p + 1] && b[p + 1] == a[p];
    assert a[p + 2..p + 2 + n] == b[p + 2..p + 2 + n];
    CellZero(a, b, p, p);
    CellSteps(a, b, p + 2, p + 2);
    CommonTail(a, b, p + 2, p + 2, n);
  }

  lemma OneEditIsOne(a: Text, b: Text, p: nat)
    requires OneEditAt(a, b, p)
    ensures Distance(a, b) <= 1
  {
    hide Cell;
    if p < |a| && |b| == |a| - 1 && b == a[..p] + a[p + 1..] {
      DeletionIsOne(a, b, p);
    } else if p < |b| && |a| == |b| - 1 && a == b[..p] + b[p + 1..] {
      DeletionIsOne(b, a, p);
      CellIsSymmetric(a, b, |a|, |b|);
    } else if p < |a| && |b| == |a| && b == a[..p] + [b[p]] + a[p + 1..] {
      SubstitutionIsOne(a, b, p);
    } else {
      SwapIsOne(a, b, p);
    }
  }

  /** The distance is one exactly between different texts that a single insertion,
      deletion, substitution or swap of neighbours turns into each other. */
  lemma DistanceOneIsOneEdit(a: Text, b: Text)
    ensures Distance(a, b) == 1 <==> a != b && OneEditApart(a, b)
  {
    hide Cell, OneEditAt;
    DistanceIsAMeasure(a, b);
    if Distance(a, b) == 1 {
      var p := CellOne(a, b, |a|, |b|);
      assert a[..|a|] == a && b[..|b|] == b;
    }
    if OneEditApart(a, b) {
      var p: nat :| OneEditAt(a, b, p);
      OneEditIsOne(a, b, p);
    }
  }

  // ---------------------------------------------------------------- the loops

  /** Fills the table row by row. */
  method ComputeDistance(left: Text, right: Text) returns (distance: nat)
    ensures distance == Distance(left, right)
  {
    hide Cell, Best;
    var table := new nat[|left| + 1, |right| + 1];
    for row := 0 to |left| + 1
      invariant forall i :: 0 <= i < row ==> table[i, 0] == Cell(left, right, i, 0)
    {
      CellBorder(left, right, row, 0);
      table[row, 0] := row;
    }
    for column := 0 to |right| + 1
      invariant forall i :: 0 <= i <= |left| ==> table[i, 0] == Cell(left, right, i, 0)
      invariant forall j :: 0 <= j < column ==> table[0, j] == Cell(left, right, 0, j)
    {
      CellBorder(left, right, 0, column);
      table[0, column] := column;
    }
    for row := 1 to |left| + 1
      invariant forall i, j :: 0 <= i < row && 0 <= j <= |right| ==> table[i, j] == Cell(left, right, i, j)
      invariant forall i :: 0 <= i <= |left| ==> table[i, 0] == Cell(left, right, i, 0)
    {
      for column := 1 to |right| + 1
        invariant forall i, j :: 0 <= i < row && 0 <= j <= |right| ==> table[i, j] == Cell(left, right, i, j)
        invariant forall i :: 0 <= i <= |left| ==> table[i, 0] == Cell(left, right, i, 0)
        invariant forall j :: 0 <= j < column ==> table[row, j] == Cell(left, right, row, j)
      {
        var best := Best(table[row - 1, column], table[row, column - 1], table[row - 1, column - 1],
                         left[row - 1] == right[column - 1]);
        if row > 1 && column > 1 && left[row - 1] == right[column - 2] && left[row - 2] == right[column - 1] {
          best := Min(best, table[row - 2, column - 2] + 1);
        }
        CellUnfolds(left, right, row, column);
        table[row, column] := best;
      }
    }
    return table[|left|, |right|];
  }

  /** The typo fallback of the fuzzy match: texts of at least three characters, of
      nearly the same length, one edit apart. */
  method MatchesWithTypo(query: Text, value: Text) returns (matches: bool, prefix: nat)
    ensures matches <==> |query| >= 3 && |value| >= 3 && query != value && OneEditApart(query, value)
    ensures matches ==> prefix <= |query| && prefix <= |value| && query[..prefix] == value[..prefix]
    ensures matches ==> prefix == |query| || prefix == |value| || query[prefix] != value[prefix]
  {
    hide Distance;
    prefix := 0;
    DistanceOneIsOneEdit(query, value);
    if |query| < 3 || |value| < 3 || |query| - |value| > 1 || |value| - |query| > 1 {
      return false, 0;
    }
    var distance := ComputeDistance(query, value);
    if distance != 1 {
      return false, 0;
    }
    while prefix < |query| && prefix < |value| && query[prefix] == value[prefix]
      invariant prefix <= |query| && prefix <= |value| && query[..prefix] == value[..prefix]
    {
      prefix := prefix + 1;
    }
    matches := true;
  }
}
