// Which cells a match covers, told by the lines alone: the width of a line's characters
// gives their columns, and the collapsed text before them their place in the text
// (internal/tui/alt_screen_search.go).

module SearchCells {
  import opened Options
  import opened SearchCorpus
  import opened SearchMatches

  // ---------------------------------------------------------------- characters and their cells

  /** The columns taken by the first k characters of a line. */
  function WidthBefore(line: Line, k: nat): nat
    requires k <= |line|
  {
    if k == 0 then 0 else WidthBefore(line, k - 1) + line[k - 1].width
  }

  /** Everything up to and including character k of a line. */
  function UpTo(lines: seq<Line>, row: nat, k: nat): Line
    requires row < |lines| && k <= |lines[row]|
  {
    Joined(lines, row) + lines[row][..k]
  }

  /** Where character k ends in the searched text. */
  function TextEnd(lines: seq<Line>, row: nat, k: nat): nat
    requires row < |lines| && k < |lines[row]|
  {
    |Normalized(UpTo(lines, row, k + 1))|
  }

  /** Some of character k's own text, which ends there, lies in the range. */
  predicate Meets(lines: seq<Line>, row: nat, k: nat, r: Range)
    requires row < |lines| && k < |lines[row]|
  {
    TextEnd(lines, row, k) - |lines[row][k].units| < r.end && r.start < TextEnd(lines, row, k)
  }

  predicate InColumns(line: Line, k: nat, col: nat)
    requires k < |line|
  {
    WidthBefore(line, k) <= col < WidthBefore(line, k) + line[k].width
  }

  /** The cell shows a character of its line that is not white space and meets the range. */
  ghost predicate ShowsMatch(lines: seq<Line>, r: Range, row: nat, col: nat) {
    row < |lines| && exists k :: ShowsAt(lines, r, row, col, k)
  }

  ghost predicate ShowsAt(lines: seq<Line>, r: Range, row: nat, col: nat, k: int)
    requires row < |lines|
  {
    0 <= k < |lines[row]| && !lines[row][k].space && Meets(lines, row, k, r) && InColumns(lines[row], k, col)
  }

  // ---------------------------------------------------------------- the spans of the general path

  // The builder has read these characters.
  ghost predicate HasRead(b: Builder, symbols: Line) {
    forall rest: Line :: Collapse(symbols + rest, [], false) == Collapse(rest, b.text, b.pending)
  }

  lemma ReadText(b: Builder, symbols: Line)
    requires HasRead(b, symbols)
    ensures b.text == Normalized(symbols)
  {
    assert symbols + [] == symbols;
    assert Collapse(symbols + [], [], false) == Collapse([], b.text, b.pending);
  }

  function Step(b: Builder, c: Cluster, row: nat, col: nat): Builder {
    if c.space then Skip(b) else AppendSpan(b, c.units, row, col, col + c.width, false)
  }

  lemma StepReads(b: Builder, symbols: Line, c: Cluster, row: nat, col: nat)
    requires HasRead(b, symbols)
    ensures HasRead(Step(b, c, row, col), symbols + [c])
  {
    var next := Step(b, c, row, col);
    forall rest: Line ensures Collapse(symbols + [c] + rest, [], false) == Collapse(rest, next.text, next.pending) {
      assert symbols + [c] + rest == symbols + ([c] + rest);
      assert ([c] + rest)[1..] == rest;
      assert Collapse(symbols + ([c] + rest), [], false) == Collapse([c] + rest, b.text, b.pending);
      if !c.space {
        assert next.text == b.text + (if b.pending then [SPACE] else []) + c.units;
      }
    }
  }

  lemma SkipReads(b: Builder, symbols: Line)
    requires HasRead(b, symbols)
    ensures HasRead(Skip(b), symbols + [BREAK])
  {
    StepReads(b, symbols, BREAK, 0, 0);
  }

  function SpanOf(lines: seq<Line>, row: nat, k: nat): Span
    requires row < |lines| && k < |lines[row]| && TextEnd(lines, row, k) >= |lines[row][k].units|
  {
    var line := lines[row];
    Span(TextEnd(lines, row, k) - |line[k].units|, TextEnd(lines, row, k), row,
         WidthBefore(line, k), WidthBefore(line, k) + line[k].width, false)
  }

  ghost predicate IsSpanOf(s: Span, lines: seq<Line>, row: nat, k: int)
    requires row < |lines|
  {
    && 0 <= k < |lines[row]| && !lines[row][k].space
    && TextEnd(lines, row, k) >= |lines[row][k].units| && s == SpanOf(lines, row, k)
  }

  lemma StepSpans(b: Builder, lines: seq<Line>, row: nat, k: nat)
    requires row < |lines| && k < |lines[row]| && HasRead(b, UpTo(lines, row, k))
    ensures var line := lines[row];
      var next := Step(b, line[k], row, WidthBefore(line, k));
      && HasRead(next, UpTo(lines, row, k + 1))
      && (line[k].space ==> next.spans == b.spans)
      && (!line[k].space ==> TextEnd(lines, row, k) >= |line[k].units| && next.spans == b.spans + [SpanOf(lines, row, k)])
  {
    hide HasRead, WidthBefore, Collapse, Joined;
    var line := lines[row];
    var next := Step(b, line[k], row, WidthBefore(line, k));
    StepReads(b, UpTo(lines, row, k), line[k], row, WidthBefore(line, k));
    assert UpTo(lines, row, k) + [line[k]] == UpTo(lines, row, k + 1);
    ReadText(next, UpTo(lines, row, k + 1));
  }

  ghost predicate SpansUpTo(spans: seq<Span>, lines: seq<Line>, row: nat, k: nat)
    requires row < |lines|
  {
    forall s :: s in spans <==>
      || (exists r, j :: 0 <= r < row && IsSpanOf(s, lines, r, j))
      || (exists j :: 0 <= j < k && IsSpanOf(s, lines, row, j))
  }

  lemma SpansStep(spans: seq<Span>, lines: seq<Line>, row: nat, k: nat)
    requires row < |lines| && k < |lines[row]| && SpansUpTo(spans, lines, row, k)
    ensures lines[row][k].space ==> SpansUpTo(spans, lines, row, k + 1)
    ensures !lines[row][k].space && TextEnd(lines, row, k) >= |lines[row][k].units| ==>
      SpansUpTo(spans + [SpanOf(lines, row, k)], lines, row, k + 1)
  {
    hide TextEnd, SpanOf;
    if !lines[row][k].space && TextEnd(lines, row, k) >= |lines[row][k].units| {
      assert IsSpanOf(SpanOf(lines, row, k), lines, row, k);
    }
  }

  lemma {:induction false} LineSpans(b: Builder, lines: seq<Line>, row: nat, k: nat)
    requires row < |lines| && k <= |lines[row]| && HasRead(b, UpTo(lines, row, k)) && SpansUpTo(b.spans, lines, row, k)
    ensures var line := lines[row];
      var r := ClusterLine(b, line[k..], row, WidthBefore(line, k));
      HasRead(r, UpTo(lines, row, |line|)) && SpansUpTo(r.spans, lines, row, |line|)
    decreases |lines[row]| - k
  {
    hide HasRead, UpTo, AppendSpan, Skip, SpansUpTo, SpanOf, TextEnd;
    var line := lines[row];
    if k < |line| {
      ClusterUnfolds(b, line[k..], row, WidthBefore(line, k));
      assert line[k..][1..] == line[k + 1..] && line[k..][0] == line[k];
      StepSpans(b, lines, row, k);
      SpansStep(b.spans, lines, row, k);
      LineSpans(Step(b, line[k], row, WidthBefore(line, k)), lines, row, k + 1);
    }
  }

  ghost predicate SpansBefore(spans: seq<Span>, lines: seq<Line>, k: nat)
    requires k <= |lines|
  {
    forall s :: s in spans <==> exists r, j :: 0 <= r < k && IsSpanOf(s, lines, r, j)
  }

  lemma LineIsDone(spans: seq<Span>, lines: seq<Line>, row: nat)
    requires row < |lines|
    ensures SpansBefore(spans, lines, row) <==> SpansUpTo(spans, lines, row, 0)
    ensures SpansUpTo(spans, lines, row, |lines[row]|) ==> SpansBefore(spans, lines, row + 1)
  {
    hide TextEnd, SpanOf;
    if SpansUpTo(spans, lines, row, |lines[row]|) {
      forall s ensures s in spans <==> exists r, j :: 0 <= r < row + 1 && IsSpanOf(s, lines, r, j) {
        if r, j :| 0 <= r < row + 1 && IsSpanOf(s, lines, r, j) { assert r == row ==> 0 <= j < |lines[row]|; }
      }
    }
  }

  lemma NothingRead()
    ensures HasRead(Builder([], [], false), [])
  {
    forall rest: Line ensures Collapse([] + rest, [], false) == Collapse(rest, [], false) { assert [] + rest == rest; }
  }

  lemma {:induction false} GeneralSpans(lines: seq<Line>, k: nat)
    requires k <= |lines|
    ensures HasRead(Build(lines, k, false), Joined(lines, k)) && SpansBefore(Build(lines, k, false).spans, lines, k)
  {
    hide HasRead, ClusterLine, SpansUpTo, SpansBefore, Skip;
    if k == 0 {
      NothingRead();
      NoSpans(lines);
    } else {
      var row := k - 1;
      GeneralSpans(lines, row);
      var b, line := Build(lines, row, false), lines[row];
      assert UpTo(lines, row, 0) == Joined(lines, row) && line[0..] == line && UpTo(lines, row, |line|) == Joined(lines, row) + line;
      LineIsDone(b.spans, lines, row);
      LineSpans(b, lines, row, 0);
      var r := ClusterLine(b, line, row, 0);
      SkipReads(r, Joined(lines, row) + line);
      SkipKeepsSpans(r);
      LineIsDone(r.spans, lines, row);
    }
  }

  lemma SkipKeepsSpans(b: Builder)
    ensures Skip(b).spans == b.spans
  {
  }

  lemma NoSpans(lines: seq<Line>)
    ensures SpansBefore([], lines, 0)
  {
  }

  // ---------------------------------------------------------------- cells

  lemma Origin(spans: seq<Span>, lines: seq<Line>, s: Span) returns (row: nat, k: int)
    requires SpansBefore(spans, lines, |lines|) && s in spans
    ensures row < |lines| && IsSpanOf(s, lines, row, k)
  {
    hide TextEnd, SpanOf, WidthBefore;
    row, k :| row < |lines| && IsSpanOf(s, lines, row, k);
  }

  lemma TouchedMeansShown(lines: seq<Line>, spans: seq<Span>, r: Range, row: nat, col: nat)
    requires SpansBefore(spans, lines, |lines|)
    ensures Touched(spans, r, row, col) <==> ShowsMatch(lines, r, row, col)
  {
    hide TextEnd, WidthBefore;
    if i :| 0 <= i < |spans| && Overlaps(spans[i], r) && InSpan(spans[i], r, row, col) {
      var q, j := Origin(spans, lines, spans[i]);
      assert ShowsAt(lines, r, row, col, j);
    }
    if ShowsMatch(lines, r, row, col) {
      var k :| ShowsAt(lines, r, row, col, k);
      ShownHasSpan(lines, spans, r, row, col, k);
    }
  }

  lemma ShownHasSpan(lines: seq<Line>, spans: seq<Span>, r: Range, row: nat, col: nat, k: nat)
    requires SpansBefore(spans, lines, |lines|) && row < |lines| && ShowsAt(lines, r, row, col, k)
    ensures Touched(spans, r, row, col)
  {
    hide WidthBefore;
    EndHoldsUnits(lines, row, k);
    hide TextEnd;
    var s := SpanOf(lines, row, k);
    assert IsSpanOf(s, lines, row, k) && s in spans;
    var i :| 0 <= i < |spans| && spans[i] == s;
    assert Overlaps(spans[i], r) && InSpan(spans[i], r, row, col);
  }

  lemma {:induction false} CollapseGrows(symbols: Line, text: seq<nat>, pending: bool, c: Cluster)
    requires !c.space
    ensures |Collapse(symbols + [c], text, pending)| >= |c.units|
    decreases |symbols|
  {
    if symbols == [] {
      assert symbols + [c] == [c] && [c][1..] == [];
    } else {
      assert (symbols + [c])[1..] == symbols[1..] + [c];
      CollapseGrows(symbols[1..], if symbols[0].space then text else text + (if pending then [SPACE] else []) + symbols[0].units,
                    if symbols[0].space then pending || text != [] else false, c);
    }
  }

  lemma EndHoldsUnits(lines: seq<Line>, row: nat, k: nat)
    requires row < |lines| && k < |lines[row]| && !lines[row][k].space
    ensures TextEnd(lines, row, k) >= |lines[row][k].units|
  {
    hide Collapse;
    CollapseGrows(UpTo(lines, row, k), [], false, lines[row][k]);
    assert UpTo(lines, row, k + 1) == UpTo(lines, row, k) + [lines[row][k]];
  }

  /** The segments of a match cover exactly the cells of the characters it meets: each
      from the width of what is before it on its line, for as many columns as it is wide. */
  lemma SegmentsCoverCharacters(lines: seq<Line>, r: Range, row: nat, col: nat)
    requires AllProper(lines) && r.start < r.end
    ensures Covers(Segments(Corpus(lines).spans, r), row, col) <==> ShowsMatch(lines, r, row, col)
  {
    hide Build, Segments, Covers, Touched, ShowsMatch, SpansBefore, Chained, Tiled;
    var plain := Build(lines, |lines|, false);
    FastPathAgrees(lines, r);
    BuildIsSound(lines, |lines|, false);
    SegmentsCoverTheMatch(plain.spans, r, row, col);
    GeneralSpans(lines, |lines|);
    TouchedMeansShown(lines, plain.spans, r, row, col);
  }
}
