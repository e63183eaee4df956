// From matches in the searched text to cells on the screen
// (internal/tui/alt_screen_search.go). The matcher itself is a parameter: it
// yields ranges of text positions.

module SearchMatches {
  import opened SearchCorpus
  import opened Options

  datatype Range = Range(start: nat, end: nat)

  datatype Segment = Segment(row: nat, startCol: int, endCol: int)

  type Match = seq<Segment>

  predicate Overlaps(s: Span, r: Range) { s.textStart < r.end && r.start < s.textEnd }

  function StartColumn(s: Span, r: Range): int
    requires Overlaps(s, r)
  {
    if s.linear then s.startCol + Max(r.start, s.textStart) - s.textStart else s.startCol
  }

  function EndColumn(s: Span, r: Range): int
    requires Overlaps(s, r)
  {
    if s.linear then s.startCol + Min(r.end, s.textEnd) - s.textStart else s.endCol
  }

  /** A stretch of cells joins the last segment when it touches it. */
  function AddColumns(segments: Match, row: nat, startCol: int, endCol: int): Match {
    var n := |segments|;
    if n > 0 && segments[n - 1].row == row && startCol <= segments[n - 1].endCol then
      segments[..n - 1] + [segments[n - 1].(endCol := Max(segments[n - 1].endCol, endCol))]
    else segments + [Segment(row, startCol, endCol)]
  }

  function AddSpan(segments: Match, s: Span, r: Range): Match {
    if Overlaps(s, r) then AddColumns(segments, s.row, StartColumn(s, r), EndColumn(s, r)) else segments
  }

  function AddSpans(segments: Match, spans: seq<Span>, r: Range): Match {
    if spans == [] then segments else AddSpan(AddSpans(segments, spans[..|spans| - 1], r), spans[|spans| - 1], r)
  }

  /** The simple mapping of one match: every span is looked at. */
  function Segments(spans: seq<Span>, r: Range): Match { AddSpans([], spans, r) }

  function AllMatches(spans: seq<Span>, ranges: seq<Range>, k: nat): seq<Match>
    requires k <= |ranges|
  {
    if k == 0 then []
    else
      var before, m := AllMatches(spans, ranges, k - 1), Segments(spans, ranges[k - 1]);
      if m == [] then before else before + [m]
  }

  // ---------------------------------------------------------------- order of spans

  ghost predicate ProperSpan(s: Span) {
    s.textStart < s.textEnd && s.startCol <= s.endCol && (s.linear ==> s.endCol - s.startCol == s.textEnd - s.textStart)
  }

  ghost predicate Follows(a: Span, b: Span) {
    a.textEnd <= b.textStart && (a.row < b.row || (a.row == b.row && a.endCol <= b.startCol))
  }

  ghost predicate Chained(spans: seq<Span>) {
    (forall i :: 0 <= i < |spans| ==> ProperSpan(spans[i])) &&
    (forall i, j :: 0 <= i < j < |spans| ==> Follows(spans[i], spans[j]))
  }

  ghost predicate OrderedRanges(ranges: seq<Range>) {
    (forall i :: 0 <= i < |ranges| ==> ranges[i].start < ranges[i].end) &&
    (forall i, j :: 0 <= i < j < |ranges| ==> ranges[i].end <= ranges[j].start)
  }

  // Between two neighbouring spans there is nothing or one separator.
  ghost predicate Gap(text: seq<nat>, at: nat, next: nat) {
    next <= |text| && (at == next || (at + 1 == next && text[at] == SPACE))
  }

  ghost function EndBefore(spans: seq<Span>, i: nat): nat
    requires i <= |spans|
  {
    if i == 0 then 0 else spans[i - 1].textEnd
  }

  ghost predicate Tiled(text: seq<nat>, spans: seq<Span>) {
    forall i :: 0 <= i < |spans| ==> Gap(text, EndBefore(spans, i), spans[i].textStart)
  }

  ghost predicate Reaches(b: Builder, row: nat, col: nat) {
    && (b.spans == [] ==> b.text == [])
    && (b.text == [] ==> !b.pending)
    && (b.spans != [] ==>
          var last := b.spans[|b.spans| - 1];
          last.textEnd == |b.text| && (last.row < row || (last.row == row && last.endCol <= col)))
  }

  ghost predicate SoundBuilder(b: Builder, row: nat, col: nat) {
    Chained(b.spans) && Tiled(b.text, b.spans) && Reaches(b, row, col)
  }

  lemma SkipIsSound(b: Builder, row: nat, col: nat, row': nat, col': nat)
    requires SoundBuilder(b, row, col) && (row < row' || (row == row' && col <= col'))
    ensures SoundBuilder(Skip(b), row', col')
  {
    hide Chained, Tiled;
  }

  lemma SpanIsSound(b: Builder, units: seq<nat>, row: nat, col: nat, endCol: nat, linear: bool)
    requires SoundBuilder(b, row, col) && units != [] && col <= endCol && (linear ==> endCol - col == |units|)
    ensures SoundBuilder(AppendSpan(b, units, row, col, endCol, linear), row, endCol)
  {
    hide Chained, Tiled;
    var c := AppendSeparator(b);
    var s := Span(|c.text|, |c.text| + |units|, row, col, endCol, linear);
    ChainGrows(b.spans, s);
    TilesGrow(b.text, b.spans, c.text + units, s);
  }

  lemma ChainGrows(spans: seq<Span>, s: Span)
    requires Chained(spans) && ProperSpan(s)
    requires spans != [] ==> Follows(spans[|spans| - 1], s)
    ensures Chained(spans + [s])
  {
    forall i | 0 <= i < |spans| ensures Follows(spans[i], s) {
      assert i < |spans| - 1 ==> Follows(spans[i], spans[|spans| - 1]);
      assert ProperSpan(spans[|spans| - 1]);
    }
  }

  lemma TilesGrow(text: seq<nat>, spans: seq<Span>, longer: seq<nat>, s: Span)
    requires Tiled(text, spans) && text <= longer
    requires Gap(longer, EndBefore(spans, |spans|), s.textStart)
    ensures Tiled(longer, spans + [s])
  {
    var all := spans + [s];
    forall i | 0 <= i < |all| ensures Gap(longer, EndBefore(all, i), all[i].textStart) {
      assert i < |spans| ==> Gap(text, EndBefore(spans, i), spans[i].textStart);
    }
  }

  lemma {:induction false} ClusterLineIsSound(b: Builder, line: Line, row: nat, col: nat)
    requires SoundBuilder(b, row, col) && Proper(line)
    ensures SoundBuilder(ClusterLine(b, line, row, col), row + 1, 0)
    decreases |line|
  {
    hide SoundBuilder, AppendSpan;
    if line == [] {
      Onward(b, row, col);
    } else {
      var c := line[0];
      assert ProperCluster(c);
      if c.space {
        SkipIsSound(b, row, col, row, col + c.width);
        ClusterLineIsSound(Skip(b), line[1..], row, col + c.width);
      } else {
        SpanIsSound(b, c.units, row, col, col + c.width, false);
        ClusterLineIsSound(AppendSpan(b, c.units, row, col, col + c.width, false), line[1..], row, col + c.width);
      }
    }
  }

  lemma Onward(b: Builder, row: nat, col: nat)
    requires SoundBuilder(b, row, col)
    ensures SoundBuilder(b, row + 1, 0)
  {
    hide Chained, Tiled;
  }

  lemma {:induction false} AsciiLineIsSound(b: Builder, line: Line, row: nat, col: nat)
    requires SoundBuilder(b, row, col) && Proper(line) && Printable(line)
    ensures SoundBuilder(AsciiLine(b, line, row, col), row + 1, 0)
    decreases |line|
  {
    hide SoundBuilder, AppendSpan, Units, Skip;
    if line == [] {
      Onward(b, row, col);
    } else if line[0].space {
      SkipIsSound(b, row, col, row, col + 1);
      AsciiLineIsSound(Skip(b), line[1..], row, col + 1);
    } else {
      var n := WordLength(line);
      WordIsSound(b, line, n, row, col);
      AsciiLineIsSound(AppendSpan(b, Units(line[..n]), row, col, col + n, true), line[n..], row, col + n);
    }
  }

  lemma WordIsSound(b: Builder, line: Line, n: nat, row: nat, col: nat)
    requires SoundBuilder(b, row, col) && Proper(line) && Printable(line)
    requires 0 < n <= |line| && forall i :: 0 <= i < n ==> !line[i].space
    ensures SoundBuilder(AppendSpan(b, Units(line[..n]), row, col, col + n, true), row, col + n)
  {
    hide SoundBuilder, AppendSpan, Units, Word, Proper, Printable;
    PrintableWord(line, n);
    WordUnits(line[..n]);
    SpanIsSound(b, Units(line[..n]), row, col, col + n, true);
  }

  /** The spans of a corpus are non-empty, ordered in the text and on the screen,
      and cover the text but for single separators. */
  lemma {:induction false} BuildIsSound(lines: seq<Line>, k: nat, fast: bool)
    requires AllProper(lines) && k <= |lines|
    ensures SoundBuilder(Build(lines, k, fast), k, 0)
  {
    hide SoundBuilder, AsciiLine, ClusterLine, Proper, Printable, Skip;
    if k == 0 {
      EmptyIsSound();
    } else {
      BuildIsSound(lines, k - 1, fast);
      var b, line := Build(lines, k - 1, fast), lines[k - 1];
      assert Proper(line);
      if fast && Printable(line) {
        AsciiLineIsSound(b, line, k - 1, 0);
        SkipIsSound(AsciiLine(b, line, k - 1, 0), k, 0, k, 0);
      } else {
        ClusterLineIsSound(b, line, k - 1, 0);
        SkipIsSound(ClusterLine(b, line, k - 1, 0), k, 0, k, 0);
      }
    }
  }

  lemma EmptyIsSound()
    ensures SoundBuilder(Builder([], [], false), 0, 0)
  {
  }

  // ---------------------------------------------------------------- folding spans

  lemma {:induction false} AddSpansAdds(segments: Match, a: seq<Span>, b: seq<Span>, r: Range)
    ensures AddSpans(segments, a + b, r) == AddSpans(AddSpans(segments, a, r), b, r)
    decreases |b|
  {
    hide AddSpan;
    if b == [] {
      assert a + b == a;
    } else {
      var n := |b| - 1;
      assert (a + b)[..|a + b| - 1] == a + b[..n] && (a + b)[|a + b| - 1] == b[n];
      AddSpansAdds(segments, a, b[..n], r);
    }
  }

  lemma {:induction false} NoneOverlap(segments: Match, spans: seq<Span>, r: Range)
    requires forall i :: 0 <= i < |spans| ==> !Overlaps(spans[i], r)
    ensures AddSpans(segments, spans, r) == segments
  {
    if spans != [] { NoneOverlap(segments, spans[..|spans| - 1], r); }
  }

  // The characters of a word one by one, against the word as a whole.
  function WordPart(segments: Match, p: nat, n: nat, at: nat, row: nat, col: nat, r: Range): Match {
    var lo, hi := Max(r.start, at), Min(r.end, at + n);
    if at + p <= lo || hi <= lo then segments
    else AddColumns(segments, row, col + lo - at, col + Min(at + p, hi) - at)
  }

  lemma {:induction false} WordByCharacters(segments: Match, p: nat, n: nat, at: nat, row: nat, col: nat, r: Range)
    requires p <= n && r.start < r.end
    ensures AddSpans(segments, WordSpans(p, at, row, col), r) == WordPart(segments, p, n, at, row, col, r)
    decreases p
  {
    hide AddColumns;
    if p > 0 {
      WordByCharacters(segments, p - 1, n, at, row, col, r);
      var spans := WordSpans(p, at, row, col);
      assert spans[..p - 1] == WordSpans(p - 1, at, row, col);
      var before := AddSpans(segments, spans[..p - 1], r);
      var s := spans[p - 1];
      assert s == Span(at + p - 1, at + p, row, col + p - 1, col + p, false);
      if Overlaps(s, r) {
        Extends(segments, row, col + Max(r.start, at) - at, col + p - 1);
      }
    }
  }

  lemma Extends(segments: Match, row: nat, a: int, b: int)
    ensures AddColumns(AddColumns(segments, row, a, b), row, b, b + 1) == AddColumns(segments, row, a, b + 1)
  {
  }

  lemma ExpandedSpanAgrees(segments: Match, s: Span, r: Range)
    requires ProperSpan(s) && r.start < r.end
    ensures AddSpans(segments, ExpandSpan(s), r) == AddSpan(segments, s, r)
  {
    if s.linear {
      WordAgrees(segments, s, r);
    } else {
      OneSpan(segments, s, r);
    }
  }

  lemma WordAgrees(segments: Match, s: Span, r: Range)
    requires ProperSpan(s) && s.linear && r.start < r.end
    ensures AddSpans(segments, ExpandSpan(s), r) == AddSpan(segments, s, r)
  {
    hide AddColumns, AddSpans, WordSpans, ExpandSpan;
    var n := s.textEnd - s.textStart;
    WordByCharacters(segments, n, n, s.textStart, s.row, s.startCol, r);
    ExpandWord(n, s.textStart, s.row, s.startCol);
  }

  lemma OneSpan(segments: Match, s: Span, r: Range)
    ensures AddSpans(segments, [s], r) == AddSpan(segments, s, r)
  {
    hide AddSpan;
    assert [s][..0] == [];
  }

  /** Word spans map a match to the same segments as one span a character. */
  lemma {:induction false} ExpandedAgree(segments: Match, spans: seq<Span>, r: Range)
    requires Forward(spans) && r.start < r.end && forall i :: 0 <= i < |spans| ==> ProperSpan(spans[i])
    ensures AddSpans(segments, Expand(spans), r) == AddSpans(segments, spans, r)
  {
    hide AddSpan, ExpandSpan, ProperSpan;
    if spans != [] {
      var n := |spans| - 1;
      ExpandedAgree(segments, spans[..n], r);
      AddSpansAdds(segments, Expand(spans[..n]), ExpandSpan(spans[n]), r);
      ExpandedSpanAgrees(AddSpans(segments, spans[..n], r), spans[n], r);
    }
  }

  /** The path for printable ASCII changes nothing a search can show: every match
      range gets the same segments as with the general path on every line. */
  lemma FastPathAgrees(lines: seq<Line>, r: Range)
    requires AllProper(lines) && r.start < r.end
    ensures Corpus(lines).text == Build(lines, |lines|, false).text
    ensures Segments(Corpus(lines).spans, r) == Segments(Build(lines, |lines|, false).spans, r)
  {
    hide Build, Expand, AddSpans, Forward, ProperSpan;
    BuildsAlike(lines, |lines|);
    BuildIsSound(lines, |lines|, true);
    ExpandedAgree([], Corpus(lines).spans, r);
  }

  // ---------------------------------------------------------------- what segments cover

  ghost predicate Covers(segments: Match, row: nat, col: nat) {
    exists i :: 0 <= i < |segments| && segments[i].row == row && segments[i].startCol <= col < segments[i].endCol
  }

  // The cell belongs to a character the match touches.
  ghost predicate Touched(spans: seq<Span>, r: Range, row: nat, col: nat) {
    exists i :: 0 <= i < |spans| && Overlaps(spans[i], r) && InSpan(spans[i], r, row, col)
  }

  ghost predicate InSpan(s: Span, r: Range, row: nat, col: nat)
    requires Overlaps(s, r)
  {
    s.row == row && StartColumn(s, r) <= col < EndColumn(s, r)
  }

  // Everything so far lies before a cell.
  ghost predicate Behind(segments: Match, row: nat, col: int) {
    segments != [] ==>
      var last := segments[|segments| - 1];
      last.startCol <= last.endCol && (last.row < row || (last.row == row && last.endCol <= col))
  }

  // Distinct stretches in reading order, with a gap between those of one row.
  ghost predicate Separated(segments: Match) {
    forall i, j :: 0 <= i < j < |segments| ==>
      segments[i].row < segments[j].row || (segments[i].row == segments[j].row && segments[i].endCol < segments[j].startCol)
  }

  ghost predicate ForwardSegments(segments: Match) {
    forall i :: 0 <= i < |segments| ==> segments[i].startCol <= segments[i].endCol
  }

  ghost predicate Neat(segments: Match) { Separated(segments) && ForwardSegments(segments) }

  lemma AddColumnsCovers(segments: Match, row: nat, a: int, b: int, x: nat, y: nat)
    requires Behind(segments, row, a) && a <= b
    ensures Covers(AddColumns(segments, row, a, b), x, y) <==> Covers(segments, x, y) || (x == row && a <= y < b)
  {
    var n := |segments|;
    var r := AddColumns(segments, row, a, b);
    if n > 0 && segments[n - 1].row == row && a <= segments[n - 1].endCol {
      assert segments[n - 1].endCol == a && r[n - 1] == Segment(row, segments[n - 1].startCol, b);
      assert forall i :: 0 <= i < n - 1 ==> r[i] == segments[i];
    } else {
      assert r[n] == Segment(row, a, b);
      assert forall i :: 0 <= i < n ==> r[i] == segments[i];
    }
  }

  lemma AddColumnsIsNeat(segments: Match, row: nat, a: int, b: int)
    requires Behind(segments, row, a) && a <= b && Neat(segments)
    ensures Neat(AddColumns(segments, row, a, b)) && Behind(AddColumns(segments, row, a, b), row, b)
  {
  }

  lemma SpanColumns(s: Span, r: Range)
    requires ProperSpan(s) && Overlaps(s, r) && r.start < r.end
    ensures s.startCol <= StartColumn(s, r) <= EndColumn(s, r) <= s.endCol
  {
  }

  lemma BehindLater(segments: Match, row: nat, col: int, row': nat, col': int)
    requires Behind(segments, row, col) && (row < row' || (row == row' && col <= col'))
    ensures Behind(segments, row', col')
  {
  }

  lemma {:induction false} SegmentsAreNeat(spans: seq<Span>, r: Range)
    requires Chained(spans) && r.start < r.end
    ensures Neat(Segments(spans, r))
    ensures spans != [] ==> Behind(Segments(spans, r), spans[|spans| - 1].row, spans[|spans| - 1].endCol)
  {
    hide Neat, Behind, AddColumns, StartColumn, EndColumn;
    if spans == [] {
      assert Neat([]) by { NothingIsNeat(); }
    } else {
      var n := |spans| - 1;
      var s := spans[n];
      SegmentsAreNeat(spans[..n], r);
      var before := Segments(spans[..n], r);
      assert ProperSpan(s);
      if n > 0 {
        assert Follows(spans[n - 1], s);
        BehindLater(before, spans[n - 1].row, spans[n - 1].endCol, s.row, s.startCol);
      } else {
        NothingIsBehind(s.row, s.startCol);
      }
      if Overlaps(s, r) {
        SpanColumns(s, r);
        BehindLater(before, s.row, s.startCol, s.row, StartColumn(s, r));
        AddColumnsIsNeat(before, s.row, StartColumn(s, r), EndColumn(s, r));
        BehindLater(AddColumns(before, s.row, StartColumn(s, r), EndColumn(s, r)), s.row, EndColumn(s, r), s.row, s.endCol);
      } else {
        BehindLater(before, s.row, s.startCol, s.row, s.endCol);
      }
    }
  }

  lemma NothingIsNeat()
    ensures Neat([])
  {
  }

  lemma NothingIsBehind(row: nat, col: int)
    ensures Behind([], row, col)
  {
  }

  lemma TouchedLast(spans: seq<Span>, r: Range, row: nat, col: nat)
    requires spans != []
    ensures var n := |spans| - 1;
      Touched(spans, r, row, col) <==>
        Touched(spans[..n], r, row, col) || (Overlaps(spans[n], r) && InSpan(spans[n], r, row, col))
  {
    hide InSpan, Overlaps;
    var n := |spans| - 1;
    if Touched(spans, r, row, col) {
      var i :| 0 <= i < |spans| && Overlaps(spans[i], r) && InSpan(spans[i], r, row, col);
      if i < n { assert spans[..n][i] == spans[i]; }
    }
  }

  /** The segments of a match are exactly the cells of the characters it touches. */
  lemma {:induction false} SegmentsCoverTheMatch(spans: seq<Span>, r: Range, row: nat, col: nat)
    requires Chained(spans) && r.start < r.end
    ensures Covers(Segments(spans, r), row, col) <==> Touched(spans, r, row, col)
  {
    hide Covers, Touched, AddColumns, StartColumn, EndColumn, Neat, Behind;
    if spans == [] {
      NothingCovered(r, row, col);
    } else {
      var n := |spans| - 1;
      var s := spans[n];
      SegmentsCoverTheMatch(spans[..n], r, row, col);
      SegmentsAreNeat(spans[..n], r);
      TouchedLast(spans, r, row, col);
      if Overlaps(s, r) {
        assert ProperSpan(s);
        SpanColumns(s, r);
        BeforeSpan(spans, r);
        AddColumnsCovers(Segments(spans[..n], r), s.row, StartColumn(s, r), EndColumn(s, r), row, col);
      }
    }
  }

  lemma NothingCovered(r: Range, row: nat, col: nat)
    ensures !Covers([], row, col) && !Touched([], r, row, col)
  {
  }

  lemma BeforeSpan(spans: seq<Span>, r: Range)
    requires Chained(spans) && r.start < r.end && spans != [] && Overlaps(spans[|spans| - 1], r)
    ensures var n := |spans| - 1; Behind(Segments(spans[..n], r), spans[n].row, StartColumn(spans[n], r))
  {
    hide Behind, Segments;
    var n := |spans| - 1;
    var s := spans[n];
    assert ProperSpan(s);
    SpanColumns(s, r);
    SegmentsAreNeat(spans[..n], r);
    if n > 0 {
      assert Follows(spans[n - 1], s);
      BehindLater(Segments(spans[..n], r), spans[n - 1].row, spans[n - 1].endCol, s.row, StartColumn(s, r));
    } else {
      assert Segments(spans[..n], r) == [] by { NoSegments(r); }
      NothingIsBehind(s.row, StartColumn(s, r));
    }
  }

  lemma NoSegments(r: Range)
    ensures Segments([], r) == []
  {
  }

  // ---------------------------------------------------------------- dropped matches

  lemma {:induction false} EmptyMeansUntouched(spans: seq<Span>, r: Range)
    ensures Segments(spans, r) == [] <==> forall i :: 0 <= i < |spans| ==> !Overlaps(spans[i], r)
  {
    if spans != [] {
      var n := |spans| - 1;
      EmptyMeansUntouched(spans[..n], r);
      assert forall i :: 0 <= i < n ==> spans[..n][i] == spans[i];
    }
  }

  lemma PrefixIsTiled(text: seq<nat>, spans: seq<Span>)
    requires Chained(spans) && Tiled(text, spans) && |spans| > 1
    ensures var n := |spans| - 1;
      Chained(spans[..n]) && Tiled(text, spans[..n]) && spans[n - 1].textEnd <= spans[n].textStart <= |text|
  {
    var n := |spans| - 1;
    assert Gap(text, EndBefore(spans, n), spans[n].textStart);
    assert Follows(spans[n - 1], spans[n]);
    forall i | 0 <= i < n ensures Gap(text, EndBefore(spans[..n], i), spans[..n][i].textStart) {
      assert Gap(text, EndBefore(spans, i), spans[i].textStart);
    }
  }

  // A position of the text lies in a span or is a separator.
  lemma {:induction false} PositionHasSpan(text: seq<nat>, spans: seq<Span>, p: nat) returns (i: nat)
    requires Chained(spans) && Tiled(text, spans) && spans != [] && p < spans[|spans| - 1].textEnd <= |text|
    ensures text[p] == SPACE || (i < |spans| && spans[i].textStart <= p < spans[i].textEnd)
    decreases |spans|
  {
    hide Chained, Tiled;
    var n := |spans| - 1;
    i := n;
    if p < spans[n].textStart {
      LastGap(text, spans);
      if n > 0 {
        PrefixIsTiled(text, spans);
        if p < spans[n - 1].textEnd { i := PositionHasSpan(text, spans[..n], p); }
      }
    }
  }

  lemma LastGap(text: seq<nat>, spans: seq<Span>)
    requires Tiled(text, spans) && spans != []
    ensures var n := |spans| - 1; Gap(text, EndBefore(spans, n), spans[n].textStart)
  {
  }

  /** A match that contains anything but separators is never dropped. */
  lemma RealMatchesAreKept(lines: seq<Line>, r: Range, p: nat)
    requires AllProper(lines) && r.start <= p < r.end <= |Corpus(lines).text| && Corpus(lines).text[p] != SPACE
    ensures Segments(Corpus(lines).spans, r) != []
  {
    hide Build, Segments, Chained, Tiled;
    var b := Corpus(lines);
    BuildIsSound(lines, |lines|, true);
    var i := PositionHasSpan(b.text, b.spans, p);
    EmptyMeansUntouched(b.spans, r);
    assert Overlaps(b.spans[i], r);
  }

  // ---------------------------------------------------------------- the shared scan

  /** Maps all matches, with one span index that only moves forward. */
  method FindMatches(spans: seq<Span>, ranges: seq<Range>) returns (matches: seq<Match>)
    requires Chained(spans) && OrderedRanges(ranges)
    ensures matches == AllMatches(spans, ranges, |ranges|)
  {
    hide AddSpans, Chained;
    matches := [];
    var spanIndex := 0;
    for k := 0 to |ranges|
      invariant 0 <= spanIndex <= |spans|
      invariant forall p :: 0 <= p < spanIndex && k < |ranges| ==> spans[p].textEnd <= ranges[k].start
      invariant matches == AllMatches(spans, ranges, k)
    {
      var r := ranges[k];
      while spanIndex < |spans| && spans[spanIndex].textEnd <= r.start
        invariant 0 <= spanIndex <= |spans|
        invariant forall p :: 0 <= p < spanIndex ==> spans[p].textEnd <= r.start
      {
        spanIndex := spanIndex + 1;
      }
      var segments := MatchSegments(spans, spanIndex, r);
      while spanIndex < |spans| && spans[spanIndex].textEnd <= r.end
        invariant 0 <= spanIndex <= |spans|
        invariant forall p :: 0 <= p < spanIndex ==> spans[p].textEnd <= r.end
      {
        spanIndex := spanIndex + 1;
      }
      if segments != [] {
        matches := matches + [segments];
      }
    }
  }

  method MatchSegments(spans: seq<Span>, from: nat, r: Range) returns (segments: Match)
    requires Chained(spans) && r.start < r.end && from <= |spans|
    requires forall p :: 0 <= p < from ==> spans[p].textEnd <= r.start
    ensures segments == Segments(spans, r)
  {
    hide Chained, AddSpans;
    segments := [];
    NoneOverlap([], spans[..from], r);
    var index := from;
    while index < |spans|
      invariant from <= index <= |spans|
      invariant segments == AddSpans([], spans[..index], r)
    {
      var span := spans[index];
      OneMore(spans, index, r);
      if span.textStart >= r.end {
        RestIsPast(spans, index, r);
        return;
      }
      if span.textEnd > r.start {
        var startCol, endCol := StartColumn(span, r), EndColumn(span, r);
        var n := |segments|;
        if n > 0 && segments[n - 1].row == span.row && startCol <= segments[n - 1].endCol {
          segments := segments[n - 1 := segments[n - 1].(endCol := Max(segments[n - 1].endCol, endCol))];
        } else {
          segments := segments + [Segment(span.row, startCol, endCol)];
        }
      }
      index := index + 1;
    }
    assert spans[..index] == spans;
  }

  lemma OneMore(spans: seq<Span>, index: nat, r: Range)
    requires index < |spans|
    ensures AddSpans([], spans[..index + 1], r) == AddSpan(AddSpans([], spans[..index], r), spans[index], r)
  {
    hide AddSpan;
    assert spans[..index + 1][..index] == spans[..index];
  }

  lemma RestIsPast(spans: seq<Span>, index: nat, r: Range)
    requires Chained(spans) && index < |spans| && spans[index].textStart >= r.end
    ensures AddSpans([], spans[..index], r) == Segments(spans, r)
  {
    hide AddSpans;
    forall i | index <= i < |spans| ensures !Overlaps(spans[i], r) {
      assert i > index ==> Follows(spans[index], spans[i]);
      assert ProperSpan(spans[index]);
    }
    NoneOverlap(AddSpans([], spans[..index], r), spans[index..], r);
    AddSpansAdds([], spans[..index], spans[index..], r);
    assert spans[..index] + spans[index..] == spans;
  }

  // ---------------------------------------------------------------- order of matches

  lemma {:induction false} RowComesFromSpan(spans: seq<Span>, r: Range, k: nat) returns (i: nat)
    requires k < |Segments(spans, r)|
    ensures i < |spans| && Overlaps(spans[i], r) && spans[i].row == Segments(spans, r)[k].row
  {
    hide StartColumn, EndColumn;
    var n := |spans| - 1;
    var before := Segments(spans[..n], r);
    if k < |before| {
      i := RowComesFromSpan(spans[..n], r, k);
    } else {
      i := n;
    }
  }

  ghost predicate RowsAtMost(a: Match, b: Match) {
    forall i, j :: 0 <= i < |a| && 0 <= j < |b| ==> a[i].row <= b[j].row
  }

  lemma SpansFollow(spans: seq<Span>, p: nat, q: nat)
    requires Chained(spans) && p < |spans| && q < |spans|
    ensures p == q || (p < q && Follows(spans[p], spans[q])) || (q < p && Follows(spans[q], spans[p]))
  {
  }

  lemma LaterRangeLaterRows(spans: seq<Span>, a: Range, b: Range)
    requires Chained(spans) && a.start < a.end <= b.start < b.end
    ensures RowsAtMost(Segments(spans, a), Segments(spans, b))
  {
    hide Segments;
    forall i, j | 0 <= i < |Segments(spans, a)| && 0 <= j < |Segments(spans, b)|
      ensures Segments(spans, a)[i].row <= Segments(spans, b)[j].row
    {
      var p := RowComesFromSpan(spans, a, i);
      var q := RowComesFromSpan(spans, b, j);
      SpansFollow(spans, p, q);
    }
  }

  ghost predicate OrderedMatches(matches: seq<Match>) {
    (forall i :: 0 <= i < |matches| ==> matches[i] != []) &&
    (forall i, j :: 0 <= i < j < |matches| ==> RowsAtMost(matches[i], matches[j]))
  }

  // Every match found is that of one of the ranges.
  lemma {:induction false} MatchHasRange(spans: seq<Span>, ranges: seq<Range>, k: nat, m: nat) returns (i: nat)
    requires k <= |ranges| && m < |AllMatches(spans, ranges, k)|
    ensures i < k && AllMatches(spans, ranges, k)[m] == Segments(spans, ranges[i])
  {
    hide Segments;
    if m < |AllMatches(spans, ranges, k - 1)| {
      i := MatchHasRange(spans, ranges, k - 1, m);
    } else {
      i := k - 1;
    }
  }

  /** No match reaches below the start of a later one. */
  lemma {:induction false} MatchesAreOrdered(spans: seq<Span>, ranges: seq<Range>, k: nat)
    requires Chained(spans) && OrderedRanges(ranges) && k <= |ranges|
    ensures OrderedMatches(AllMatches(spans, ranges, k))
  {
    hide Segments, Chained, RowsAtMost;
    if k > 0 {
      MatchesAreOrdered(spans, ranges, k - 1);
      var before := AllMatches(spans, ranges, k - 1);
      forall i | 0 <= i < |before| ensures RowsAtMost(before[i], Segments(spans, ranges[k - 1])) {
        var p := MatchHasRange(spans, ranges, k - 1, i);
        LaterRangeLaterRows(spans, ranges[p], ranges[k - 1]);
      }
    }
  }

  // ---------------------------------------------------------------- binary searches

  function FirstRow(m: Match): nat { if m == [] then 0 else m[0].row }

  function LastRow(m: Match): nat { if m == [] then 0 else m[|m| - 1].row }

  predicate StartsAtOrBelow(m: Match, row: int) { m == [] || FirstRow(m) >= row }

  predicate EndsAtOrBelow(m: Match, row: int) { m == [] || LastRow(m) >= row }

  /** Go's sort.Search with the test used to place the selection. */
  method FirstStartingAt(matches: seq<Match>, row: int) returns (index: nat)
    requires OrderedMatches(matches)
    ensures index <= |matches|
    ensures forall i :: 0 <= i < index ==> matches[i] != [] && matches[i][0].row < row
    ensures forall i :: index <= i < |matches| ==> matches[i] == [] || matches[i][0].row >= row
  {
    index := 0;
    var end := |matches|;
    while index < end
      invariant 0 <= index <= end <= |matches|
      invariant forall i :: 0 <= i < index ==> !StartsAtOrBelow(matches[i], row)
      invariant forall i :: end <= i < |matches| ==> StartsAtOrBelow(matches[i], row)
    {
      var middle := (index + end) / 2;
      if !StartsAtOrBelow(matches[middle], row) {
        StartsAreMonotone(matches, row);
        index := middle + 1;
      } else {
        StartsAreMonotone(matches, row);
        end := middle;
      }
    }
  }

  lemma StartsAreMonotone(matches: seq<Match>, row: int)
    requires OrderedMatches(matches)
    ensures forall i, j :: 0 <= i < j < |matches| && StartsAtOrBelow(matches[i], row) ==> StartsAtOrBelow(matches[j], row)
  {
    forall i, j | 0 <= i < j < |matches| ensures FirstRow(matches[i]) <= FirstRow(matches[j]) {
      assert RowsAtMost(matches[i], matches[j]);
    }
  }

  lemma EndsAreMonotone(matches: seq<Match>, row: int)
    requires OrderedMatches(matches)
    ensures forall i, j :: 0 <= i < j < |matches| && EndsAtOrBelow(matches[i], row) ==> EndsAtOrBelow(matches[j], row)
  {
    forall i, j | 0 <= i < j < |matches| ensures LastRow(matches[i]) <= LastRow(matches[j]) {
      assert RowsAtMost(matches[i], matches[j]);
    }
  }

  /** The same search with the test used to find the first match on the screen. */
  method FirstEndingAt(matches: seq<Match>, row: int) returns (index: nat)
    requires OrderedMatches(matches)
    ensures index <= |matches|
    ensures forall i :: 0 <= i < index ==> matches[i] != [] && matches[i][|matches[i]| - 1].row < row
    ensures forall i :: index <= i < |matches| ==> matches[i] == [] || matches[i][|matches[i]| - 1].row >= row
  {
    index := 0;
    var end := |matches|;
    while index < end
      invariant 0 <= index <= end <= |matches|
      invariant forall i :: 0 <= i < index ==> !EndsAtOrBelow(matches[i], row)
      invariant forall i :: end <= i < |matches| ==> EndsAtOrBelow(matches[i], row)
    {
      var middle := (index + end) / 2;
      EndsAreMonotone(matches, row);
      if !EndsAtOrBelow(matches[middle], row) {
        index := middle + 1;
      } else {
        end := middle;
      }
    }
  }

  /** Where the scrolled content is on the screen, and the cells it may be painted on. */
  datatype Window = Window(x: int, y: int, scrollTop: int, minRow: int, maxRow: int, minColumn: int, maxColumn: int) {
    function RowOf(s: Segment): int { y + s.row - scrollTop }

    function StartOf(s: Segment): int { Max(minColumn, x + s.startCol) }

    function EndOf(s: Segment): int { Min(maxColumn, x + s.endCol) }

    predicate OnRows(s: Segment) { minRow <= RowOf(s) < maxRow }

    predicate Holds(row: int, col: int) { minRow <= row < maxRow && minColumn <= col < maxColumn }
  }

  datatype Highlight = Highlight(matchIndex: nat, row: int, start: int, end: int)

  function VisibleOf(m: Match, k: nat, matchIndex: nat, w: Window): seq<Highlight>
    requires k <= |m|
  {
    if k == 0 then []
    else
      var before, s := VisibleOf(m, k - 1, matchIndex, w), m[k - 1];
      if w.OnRows(s) && w.StartOf(s) < w.EndOf(s)
      then before + [Highlight(matchIndex, w.RowOf(s), w.StartOf(s), w.EndOf(s))]
      else before
  }

  /** Every match's segments, cut to the window, without those it leaves nothing of. */
  function AllVisible(matches: seq<Match>, k: nat, w: Window): seq<Highlight>
    requires k <= |matches|
  {
    if k == 0 then []
    else AllVisible(matches, k - 1, w) + VisibleOf(matches[k - 1], |matches[k - 1]|, k - 1, w)
  }

  ghost predicate Paints(h: Highlight, matchIndex: nat, row: int, col: int) {
    h.matchIndex == matchIndex && h.row == row && h.start <= col < h.end
  }

  /** The content cell under a cell of the screen belongs to a segment. */
  ghost predicate Under(s: Segment, w: Window, row: int, col: int) {
    s.row == row - w.y + w.scrollTop && s.startCol <= col - w.x < s.endCol
  }

  lemma {:induction false} VisibleCellsOf(m: Match, k: nat, matchIndex: nat, w: Window, row: int, col: int)
    requires k <= |m|
    ensures (exists h :: h in VisibleOf(m, k, matchIndex, w) && Paints(h, matchIndex, row, col))
      <==> w.Holds(row, col) && exists i :: 0 <= i < k && Under(m[i], w, row, col)
    ensures forall h :: h in VisibleOf(m, k, matchIndex, w) ==> h.matchIndex == matchIndex
  {
    if k > 0 {
      VisibleCellsOf(m, k - 1, matchIndex, w, row, col);
      var s := m[k - 1];
      var h := Highlight(matchIndex, w.RowOf(s), w.StartOf(s), w.EndOf(s));
      assert Paints(h, matchIndex, row, col) && w.OnRows(s) <==> w.Holds(row, col) && Under(s, w, row, col);
      if w.Holds(row, col) && Under(s, w, row, col) { assert h in VisibleOf(m, k, matchIndex, w); }
    }
  }

  /** A cell of the screen is highlighted for a match exactly when it is in the window
      and shows a cell of one of the match's segments. */
  lemma {:induction false} VisibleCells(matches: seq<Match>, k: nat, w: Window, matchIndex: nat, row: int, col: int)
    requires k <= |matches|
    ensures (exists h :: h in AllVisible(matches, k, w) && Paints(h, matchIndex, row, col))
      <==> matchIndex < k && w.Holds(row, col) && exists i :: 0 <= i < |matches[matchIndex]| && Under(matches[matchIndex][i], w, row, col)
  {
    hide VisibleOf, Under, Window.Holds;
    if k > 0 {
      VisibleCells(matches, k - 1, w, matchIndex, row, col);
      var m := matches[k - 1];
      VisibleCellsOf(m, |m|, k - 1, w, row, col);
      if h :| h in VisibleOf(m, |m|, k - 1, w) && Paints(h, matchIndex, row, col) {
        assert h in AllVisible(matches, k, w);
      }
    }
  }

  lemma {:induction false} NoneVisible(m: Match, k: nat, matchIndex: nat, w: Window)
    requires k <= |m| && forall i :: 0 <= i < k ==> !w.OnRows(m[i])
    ensures VisibleOf(m, k, matchIndex, w) == []
  {
    if k > 0 { NoneVisible(m, k - 1, matchIndex, w); }
  }

  lemma {:induction false} SkippedAreInvisible(matches: seq<Match>, lo: nat, hi: nat, w: Window)
    requires lo <= hi <= |matches|
    requires forall k, i :: lo <= k < hi && 0 <= i < |matches[k]| ==> !w.OnRows(matches[k][i])
    ensures AllVisible(matches, hi, w) == AllVisible(matches, lo, w)
    decreases hi
  {
    if lo < hi {
      SkippedAreInvisible(matches, lo, hi - 1, w);
      NoneVisible(matches[hi - 1], |matches[hi - 1]|, hi - 1, w);
    }
  }

  ghost predicate RowsRise(m: Match) { forall i, j :: 0 <= i < j < |m| ==> m[i].row <= m[j].row }

  /** The highlights are found by a binary search and a scan that stops early, and
      are all there are. */
  method FindVisible(matches: seq<Match>, w: Window) returns (visible: seq<Highlight>)
    requires OrderedMatches(matches) && forall i :: 0 <= i < |matches| ==> RowsRise(matches[i])
    ensures visible == AllVisible(matches, |matches|, w)
  {
    hide RowsAtMost, VisibleOf;
    visible := [];
    var minContentRow := w.scrollTop + w.minRow - w.y;
    var maxContentRow := w.scrollTop + w.maxRow - w.y - 1;
    var index := FirstEndingAt(matches, minContentRow);
    forall k, i | 0 <= k < index && 0 <= i < |matches[k]| ensures !w.OnRows(matches[k][i]) {
      assert !EndsAtOrBelow(matches[k], minContentRow) && RowsRise(matches[k]);
    }
    SkippedAreInvisible(matches, 0, index, w);
    while index < |matches|
      invariant 0 <= index <= |matches|
      invariant visible == AllVisible(matches, index, w)
    {
      var m := matches[index];
      assert m != [];
      if m[0].row > maxContentRow {
        RestIsBelow(matches, index, maxContentRow);
        SkippedAreInvisible(matches, index, |matches|, w);
        return;
      }
      var painted := PaintMatch(m, index, w);
      visible := visible + painted;
      index := index + 1;
    }
  }

  method PaintMatch(m: Match, matchIndex: nat, w: Window) returns (visible: seq<Highlight>)
    ensures visible == VisibleOf(m, |m|, matchIndex, w)
  {
    visible := [];
    for k := 0 to |m|
      invariant visible == VisibleOf(m, k, matchIndex, w)
    {
      var row := w.y + m[k].row - w.scrollTop;
      if row < w.minRow || row >= w.maxRow {
        continue;
      }
      var start := Max(w.minColumn, w.x + m[k].startCol);
      var end := Min(w.maxColumn, w.x + m[k].endCol);
      if end > start {
        visible := visible + [Highlight(matchIndex, row, start, end)];
      }
    }
  }

  lemma RestIsBelow(matches: seq<Match>, index: nat, maxRow: int)
    requires OrderedMatches(matches) && index < |matches| && forall i :: 0 <= i < |matches| ==> RowsRise(matches[i])
    requires matches[index] != [] && matches[index][0].row > maxRow
    ensures forall k, i :: index <= k < |matches| && 0 <= i < |matches[k]| ==> matches[k][i].row > maxRow
  {
    forall k, i | index <= k < |matches| && 0 <= i < |matches[k]| ensures matches[k][i].row > maxRow {
      if k > index {
        assert RowsAtMost(matches[index], matches[k]);
      } else {
        assert RowsRise(matches[k]);
      }
    }
  }

  lemma NeatRowsRise(m: Match)
    requires Neat(m)
    ensures RowsRise(m)
  {
  }
}
