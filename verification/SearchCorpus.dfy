// The text a transcript is searched in (internal/tui/alt_screen_search.go): all
// lines run together with white space collapsed, and spans that lead from its
// UTF-16 positions back to terminal cells.

module SearchCorpus {

  const SPACE: nat := 0x20

  /** One user-perceived character of a line stripped of escape sequences. */
  datatype Cluster = Cluster(units: seq<nat>, width: nat, space: bool)

  type Line = seq<Cluster>

  datatype Span = Span(textStart: nat, textEnd: nat, row: nat, startCol: nat, endCol: nat, linear: bool)

  datatype Builder = Builder(text: seq<nat>, spans: seq<Span>, pending: bool)

  predicate PrintableCluster(c: Cluster) { forall i :: 0 <= i < |c.units| ==> 0x20 <= c.units[i] <= 0x7e }

  predicate Printable(line: Line) { forall i :: 0 <= i < |line| ==> PrintableCluster(line[i]) }

  // What segmentation into clusters guarantees.
  ghost predicate ProperCluster(c: Cluster) {
    && c.units != []
    && (PrintableCluster(c) ==> |c.units| == 1 && c.width == 1 && (c.space <==> c.units == [SPACE]))
  }

  ghost predicate Proper(line: Line) { forall i :: 0 <= i < |line| ==> ProperCluster(line[i]) }

  ghost predicate AllProper(lines: seq<Line>) { forall i :: 0 <= i < |lines| ==> Proper(lines[i]) }

  function Units(clusters: Line): seq<nat> {
    if clusters == [] then [] else clusters[0].units + Units(clusters[1..])
  }

  // ---------------------------------------------------------------- building

  function AppendSeparator(b: Builder): Builder {
    if b.pending then Builder(b.text + [SPACE], b.spans, false) else b
  }

  function AppendSpan(b: Builder, units: seq<nat>, row: nat, startCol: nat, endCol: nat, linear: bool): Builder {
    var c := AppendSeparator(b);
    Builder(c.text + units, c.spans + [Span(|c.text|, |c.text| + |units|, row, startCol, endCol, linear)], false)
  }

  function Skip(b: Builder): Builder { if b.text != [] then b.(pending := true) else b }

  /** The general path: one span a cluster. */
  function ClusterLine(b: Builder, line: Line, row: nat, col: nat): Builder
    decreases |line|
  {
    if line == [] then b
    else
      var c := line[0];
      ClusterLine(if c.space then Skip(b) else AppendSpan(b, c.units, row, col, col + c.width, false),
                  line[1..], row, col + c.width)
  }

  function WordLength(line: Line): (n: nat)
    ensures n <= |line| && forall i :: 0 <= i < n ==> !line[i].space
    ensures line != [] && !line[0].space ==> n > 0
    decreases |line|
  {
    if line == [] || line[0].space then 0
    else
      var n := WordLength(line[1..]);
      assert forall i :: 1 <= i <= n ==> line[i] == line[1..][i - 1];
      1 + n
  }

  /** The path for printable ASCII: one span a word, whose columns run with its text. */
  function AsciiLine(b: Builder, line: Line, row: nat, col: nat): Builder
    decreases |line|
  {
    if line == [] then b
    else if line[0].space then AsciiLine(Skip(b), line[1..], row, col + 1)
    else
      var n := WordLength(line);
      AsciiLine(AppendSpan(b, Units(line[..n]), row, col, col + n, true), line[n..], row, col + n)
  }

  function AddLine(b: Builder, line: Line, row: nat, fast: bool): Builder {
    Skip(if fast && Printable(line) then AsciiLine(b, line, row, 0) else ClusterLine(b, line, row, 0))
  }

  /** The corpus of the first k lines; without fast every line takes the general path. */
  function Build(lines: seq<Line>, k: nat, fast: bool): Builder
    requires k <= |lines|
  {
    if k == 0 then Builder([], [], false) else AddLine(Build(lines, k - 1, fast), lines[k - 1], k - 1, fast)
  }

  function Corpus(lines: seq<Line>): Builder { Build(lines, |lines|, true) }

  // ---------------------------------------------------------------- the loops

  method BuildCorpus(lines: seq<Line>) returns (corpus: Builder)
    ensures corpus == Corpus(lines)
  {
    corpus := Builder([], [], false);
    for row := 0 to |lines|
      invariant corpus == Build(lines, row, true)
    {
      var line := lines[row];
      if Printable(line) {
        corpus := AppendAscii(corpus, line, row);
      } else {
        corpus := AppendClusters(corpus, line, row);
      }
      corpus := Skip(corpus);
    }
  }

  method AppendAscii(b: Builder, line: Line, row: nat) returns (r: Builder)
    requires Printable(line)
    ensures r == AsciiLine(b, line, row, 0)
  {
    r := b;
    hide AsciiLine, AppendSpan, Units, Skip;
    var index: nat, column: nat := 0, 0;
    while index < |line|
      invariant 0 <= index <= |line|
      invariant AsciiLine(r, line[index..], row, column) == AsciiLine(b, line, row, 0)
    {
      var rest := line[index..];
      AsciiUnfolds(r, rest, row, column);
      if line[index].space {
        r := Skip(r);
        assert rest[1..] == line[index + 1..];
        index, column := index + 1, column + 1;
      } else {
        var end := WordEnd(line, index);
        var n: nat := end - index;
        assert rest[..n] == line[index..end] && rest[n..] == line[end..];
        r := AppendSpan(r, Units(line[index..end]), row, column, column + n, true);
        index, column := end, column + n;
      }
    }
    AsciiEnds(r, row, column);
    assert line[index..] == [];
  }

  lemma AsciiEnds(b: Builder, row: nat, col: nat)
    ensures AsciiLine(b, [], row, col) == b
  {
  }

  method WordEnd(line: Line, index: nat) returns (end: nat)
    requires index < |line| && !line[index].space
    ensures index < end <= |line| && end - index == WordLength(line[index..])
  {
    end := index + 1;
    assert line[index..][1..] == line[end..];
    while end < |line| && !line[end].space
      invariant index < end <= |line|
      invariant WordLength(line[index..]) == (end - index) + WordLength(line[end..])
    {
      assert line[end..][1..] == line[end + 1..];
      end := end + 1;
    }
  }

  lemma AsciiUnfolds(b: Builder, line: Line, row: nat, col: nat)
    requires line != []
    ensures AsciiLine(b, line, row, col) ==
      if line[0].space then AsciiLine(Skip(b), line[1..], row, col + 1)
      else var n := WordLength(line);
        AsciiLine(AppendSpan(b, Units(line[..n]), row, col, col + n, true), line[n..], row, col + n)
  {
  }

  method AppendClusters(b: Builder, line: Line, row: nat) returns (r: Builder)
    ensures r == ClusterLine(b, line, row, 0)
  {
    r := b;
    var column: nat := 0;
    for i := 0 to |line|
      invariant ClusterLine(r, line[i..], row, column) == ClusterLine(b, line, row, 0)
    {
      assert line[i..][1..] == line[i + 1..];
      var c := line[i];
      if c.space {
        r := Skip(r);
      } else {
        r := AppendSpan(r, c.units, row, column, column + c.width, false);
      }
      column := column + c.width;
    }
  }

  // ---------------------------------------------------------------- the text

  /** White space collapsed: runs of it become one separator, none at either end. */
  function Collapse(symbols: Line, text: seq<nat>, pending: bool): seq<nat>
    decreases |symbols|
  {
    if symbols == [] then text
    else if symbols[0].space then Collapse(symbols[1..], text, pending || text != [])
    else Collapse(symbols[1..], text + (if pending then [SPACE] else []) + symbols[0].units, false)
  }

  function Normalized(symbols: Line): seq<nat> { Collapse(symbols, [], false) }

  const BREAK: Cluster := Cluster([10], 0, true)

  /** The lines one after the other, a line break behind each. */
  function Joined(lines: seq<Line>, k: nat): Line
    requires k <= |lines|
  {
    if k == 0 then [] else Joined(lines, k - 1) + lines[k - 1] + [BREAK]
  }

  lemma {:induction false} ClusterLineReads(b: Builder, line: Line, row: nat, col: nat, rest: Line)
    ensures var r := ClusterLine(b, line, row, col);
      Collapse(line + rest, b.text, b.pending) == Collapse(rest, r.text, r.pending)
    decreases |line|
  {
    if line == [] {
      assert line + rest == rest;
    } else {
      var c := line[0];
      var next := if c.space then Skip(b) else AppendSpan(b, c.units, row, col, col + c.width, false);
      assert (line + rest)[1..] == line[1..] + rest;
      ClusterLineReads(next, line[1..], row, col + c.width, rest);
      if !c.space && b.pending {
        assert b.text + [SPACE] + c.units == next.text;
      } else if !c.space {
        assert b.text + [] + c.units == next.text;
      }
    }
  }

  lemma BuildReads(lines: seq<Line>, k: nat, rest: Line)
    requires k <= |lines|
    ensures var b := Build(lines, k, false);
      Collapse(Joined(lines, k) + rest, [], false) == Collapse(rest, b.text, b.pending)
    decreases k
  {
    hide ClusterLine, Collapse, Skip;
    if k == 0 {
      assert Joined(lines, 0) + rest == rest;
    } else {
      var line := lines[k - 1];
      var before := Build(lines, k - 1, false);
      var tail := line + [BREAK] + rest;
      assert Joined(lines, k) + rest == Joined(lines, k - 1) + tail;
      BuildReads(lines, k - 1, tail);
      assert tail == line + ([BREAK] + rest);
      ClusterLineReads(before, line, k - 1, 0, [BREAK] + rest);
      BreakReads(ClusterLine(before, line, k - 1, 0), rest);
    }
  }

  lemma BreakReads(b: Builder, rest: Line)
    ensures Collapse([BREAK] + rest, b.text, b.pending) == Collapse(rest, Skip(b).text, Skip(b).pending)
  {
    assert ([BREAK] + rest)[1..] == rest;
  }

  // ---------------------------------------------------------------- both paths agree

  /** A word span taken apart into one span for each of its characters. */
  function ExpandSpan(s: Span): seq<Span>
    requires s.textStart <= s.textEnd
  {
    if s.linear then
      seq(s.textEnd - s.textStart, i requires 0 <= i < s.textEnd - s.textStart =>
        Span(s.textStart + i, s.textStart + i + 1, s.row, s.startCol + i, s.startCol + i + 1, false))
    else [s]
  }

  ghost predicate Forward(spans: seq<Span>) { forall i :: 0 <= i < |spans| ==> spans[i].textStart <= spans[i].textEnd }

  function Expand(spans: seq<Span>): seq<Span>
    requires Forward(spans)
  {
    if spans == [] then [] else Expand(spans[..|spans| - 1]) + ExpandSpan(spans[|spans| - 1])
  }

  ghost predicate Alike(fast: Builder, plain: Builder) {
    && fast.text == plain.text && fast.pending == plain.pending
    && Forward(fast.spans) && Expand(fast.spans) == plain.spans
  }

  // Unit spans for the first n characters of a word that starts at a text position.
  function WordSpans(n: nat, at: nat, row: nat, col: nat): seq<Span> {
    seq(n, i requires 0 <= i < n => Span(at + i, at + i + 1, row, col + i, col + i + 1, false))
  }

  ghost predicate Word(line: Line) {
    forall i :: 0 <= i < |line| ==> |line[i].units| == 1 && line[i].width == 1 && !line[i].space
  }

  lemma {:induction false} WordUnits(word: Line)
    requires Word(word)
    ensures |Units(word)| == |word|
  {
    if word != [] { WordUnits(word[1..]); }
  }

  // The general path over a word, once the separator before it is written.
  lemma {:induction false} WordByClusters(b: Builder, word: Line, rest: Line, row: nat, col: nat)
    requires Word(word) && !b.pending
    ensures ClusterLine(b, word + rest, row, col) == ClusterLine(AfterWord(b, word, row, col), rest, row, col + |word|)
    decreases |word|
  {
    hide ClusterLine, AfterWord;
    if word == [] {
      assert word + rest == rest;
      AfterNothing(b, row, col);
    } else {
      assert (word + rest)[1..] == word[1..] + rest && (word + rest)[0] == word[0];
      ClusterUnfolds(b, word + rest, row, col);
      var next := AppendSpan(b, word[0].units, row, col, col + 1, false);
      WordByClusters(next, word[1..], rest, row, col + 1);
      AfterFirst(b, word, row, col);
    }
  }

  function AfterWord(b: Builder, word: Line, row: nat, col: nat): Builder {
    Builder(b.text + Units(word), b.spans + WordSpans(|word|, |b.text|, row, col), false)
  }

  lemma AfterNothing(b: Builder, row: nat, col: nat)
    requires !b.pending
    ensures AfterWord(b, [], row, col) == b
  {
    assert b.text + [] == b.text && b.spans + WordSpans(0, |b.text|, row, col) == b.spans;
  }

  lemma AfterFirst(b: Builder, word: Line, row: nat, col: nat)
    requires Word(word) && !b.pending && word != []
    ensures AfterWord(AppendSpan(b, word[0].units, row, col, col + 1, false), word[1..], row, col + 1)
      == AfterWord(b, word, row, col)
  {
    var next := AppendSpan(b, word[0].units, row, col, col + 1, false);
    assert next.text + Units(word[1..]) == b.text + Units(word);
    assert next.spans + WordSpans(|word| - 1, |b.text| + 1, row, col + 1)
      == b.spans + WordSpans(|word|, |b.text|, row, col);
  }

  lemma ClusterUnfolds(b: Builder, line: Line, row: nat, col: nat)
    requires line != []
    ensures var c := line[0];
      ClusterLine(b, line, row, col) ==
        ClusterLine(if c.space then Skip(b) else AppendSpan(b, c.units, row, col, col + c.width, false),
                    line[1..], row, col + c.width)
  {
  }

  lemma SeparatorFirst(b: Builder, line: Line, row: nat, col: nat)
    requires line != [] && !line[0].space
    ensures ClusterLine(b, line, row, col) == ClusterLine(AppendSeparator(b), line, row, col)
  {
  }

  lemma PrintableWord(line: Line, n: nat)
    requires Proper(line) && Printable(line) && n <= |line| && forall i :: 0 <= i < n ==> !line[i].space
    ensures Word(line[..n])
  {
    forall i | 0 <= i < n ensures |line[i].units| == 1 && line[i].width == 1 {
      assert ProperCluster(line[i]) && PrintableCluster(line[i]);
    }
  }

  lemma AlikeAfterWord(fast: Builder, plain: Builder, word: Line, row: nat, col: nat)
    requires Alike(fast, plain) && Word(word)
    ensures Alike(AppendSpan(fast, Units(word), row, col, col + |word|, true),
                  AfterWord(AppendSeparator(plain), word, row, col))
  {
    hide Units, Alike, AppendSpan, AfterWord, AppendSeparator;
    WordUnits(word);
    TextAlike(fast, plain, Units(word), word, row, col);
  }

  lemma TextAlike(fast: Builder, plain: Builder, units: seq<nat>, word: Line, row: nat, col: nat)
    requires Alike(fast, plain) && units == Units(word) && |units| == |word|
    ensures Alike(AppendSpan(fast, units, row, col, col + |word|, true),
                  AfterWord(AppendSeparator(plain), word, row, col))
  {
    hide Units, Word, WordSpans, Expand, Forward, AppendSeparator;
    SeparatorAlike(fast, plain);
    WordAlike(AppendSeparator(fast), AppendSeparator(plain), |word|, row, col);
  }

  lemma SeparatorAlike(fast: Builder, plain: Builder)
    requires Alike(fast, plain)
    ensures AppendSeparator(fast).text == AppendSeparator(plain).text
    ensures Alike(AppendSeparator(fast), AppendSeparator(plain))
  {
    hide Expand, Forward;
  }

  lemma WordAlike(fast: Builder, plain: Builder, n: nat, row: nat, col: nat)
    requires Forward(fast.spans) && Expand(fast.spans) == plain.spans
    ensures var spans := fast.spans + [Span(|fast.text|, |fast.text| + n, row, col, col + n, true)];
      Forward(spans) && Expand(spans) == plain.spans + WordSpans(n, |fast.text|, row, col)
  {
    hide WordSpans, Expand, ExpandSpan, Forward;
    ExpandSnoc(fast.spans, Span(|fast.text|, |fast.text| + n, row, col, col + n, true));
    ExpandWord(n, |fast.text|, row, col);
  }

  lemma ExpandWord(n: nat, at: nat, row: nat, col: nat)
    ensures ExpandSpan(Span(at, at + n, row, col, col + n, true)) == WordSpans(n, at, row, col)
  {
  }

  lemma ExpandSnoc(spans: seq<Span>, s: Span)
    requires Forward(spans) && s.textStart <= s.textEnd
    ensures Forward(spans + [s]) && Expand(spans + [s]) == Expand(spans) + ExpandSpan(s)
  {
    hide ExpandSpan;
    assert (spans + [s])[..|spans|] == spans;
  }

  lemma TailIsProper(line: Line, n: nat)
    requires Proper(line) && Printable(line) && n <= |line|
    ensures Proper(line[n..]) && Printable(line[n..])
    ensures n < |line| ==> line[n].width == 1
  {
    assert n < |line| ==> ProperCluster(line[n]) && PrintableCluster(line[n]);
  }

  lemma {:induction false} LinesAlike(fast: Builder, plain: Builder, line: Line, row: nat, col: nat)
    requires Alike(fast, plain) && Proper(line) && Printable(line)
    ensures Alike(AsciiLine(fast, line, row, col), ClusterLine(plain, line, row, col))
    decreases |line|
  {
    hide Alike, AppendSpan, AppendSeparator, Units, AfterWord, Proper, Printable, Word, AsciiLine, ClusterLine, Skip;
    if line == [] {
      NothingAlike(fast, plain, row, col);
    } else if line[0].space {
      TailIsProper(line, 0);
      TailIsProper(line, 1);
      SkipAlike(fast, plain);
      AsciiUnfolds(fast, line, row, col);
      ClusterUnfolds(plain, line, row, col);
      LinesAlike(Skip(fast), Skip(plain), line[1..], row, col + 1);
    } else {
      var n := WordLength(line);
      var word, rest := line[..n], line[n..];
      PrintableWord(line, n);
      AsciiUnfolds(fast, line, row, col);
      TailIsProper(line, n);
      AlikeAfterWord(fast, plain, word, row, col);
      var p := AppendSeparator(plain);
      SeparatorWritten(plain);
      SeparatorFirst(plain, line, row, col);
      assert word + rest == line;
      WordByClusters(p, word, rest, row, col);
      LinesAlike(AppendSpan(fast, Units(word), row, col, col + n, true), AfterWord(p, word, row, col), rest, row, col + n);
    }
  }

  lemma NothingAlike(fast: Builder, plain: Builder, row: nat, col: nat)
    ensures AsciiLine(fast, [], row, col) == fast && ClusterLine(plain, [], row, col) == plain
  {
  }

  lemma SeparatorWritten(b: Builder)
    ensures !AppendSeparator(b).pending
  {
  }

  lemma SkipAlike(fast: Builder, plain: Builder)
    requires Alike(fast, plain)
    ensures Alike(Skip(fast), Skip(plain))
  {
  }

  // Both builders take the general path.
  lemma {:induction false} ClusterLinesAlike(fast: Builder, plain: Builder, line: Line, row: nat, col: nat)
    requires Alike(fast, plain)
    ensures Alike(ClusterLine(fast, line, row, col), ClusterLine(plain, line, row, col))
    decreases |line|
  {
    hide Alike, AppendSpan;
    if line != [] {
      var c := line[0];
      if c.space {
        SkipAlike(fast, plain);
        ClusterLinesAlike(Skip(fast), Skip(plain), line[1..], row, col + c.width);
      } else {
        SpanAlike(fast, plain, c.units, row, col, col + c.width);
        ClusterLinesAlike(AppendSpan(fast, c.units, row, col, col + c.width, false),
                          AppendSpan(plain, c.units, row, col, col + c.width, false), line[1..], row, col + c.width);
      }
    }
  }

  lemma SpanAlike(fast: Builder, plain: Builder, units: seq<nat>, row: nat, startCol: nat, endCol: nat)
    requires Alike(fast, plain)
    ensures Alike(AppendSpan(fast, units, row, startCol, endCol, false), AppendSpan(plain, units, row, startCol, endCol, false))
  {
    hide Expand, Forward;
    var a := AppendSeparator(fast);
    ExpandSnoc(fast.spans, Span(|a.text|, |a.text| + |units|, row, startCol, endCol, false));
  }

  /** The fast path builds the same text, and its word spans are the general path's
      cluster spans put together. */
  lemma {:induction false} BuildsAlike(lines: seq<Line>, k: nat)
    requires AllProper(lines) && k <= |lines|
    ensures Alike(Build(lines, k, true), Build(lines, k, false))
  {
    hide Alike, AsciiLine, ClusterLine, Proper, Printable, Skip;
    if k == 0 {
      EmptyAlike();
    } else {
      BuildsAlike(lines, k - 1);
      var f, p := Build(lines, k - 1, true), Build(lines, k - 1, false);
      var line := lines[k - 1];
      assert Proper(line);
      if Printable(line) {
        LinesAlike(f, p, line, k - 1, 0);
        SkipAlike(AsciiLine(f, line, k - 1, 0), ClusterLine(p, line, k - 1, 0));
      } else {
        ClusterLinesAlike(f, p, line, k - 1, 0);
        SkipAlike(ClusterLine(f, line, k - 1, 0), ClusterLine(p, line, k - 1, 0));
      }
    }
  }

  lemma EmptyAlike()
    ensures Alike(Builder([], [], false), Builder([], [], false))
  {
  }

  /** The searched text is the whole transcript with its white space collapsed as a
      query's is, except that it is clusters that are white space here and single
      characters in a query. */
  lemma CorpusIsCollapsed(lines: seq<Line>)
    requires AllProper(lines)
    ensures Corpus(lines).text == Normalized(Joined(lines, |lines|))
  {
    hide Build, Collapse, Joined;
    BuildsAlike(lines, |lines|);
    BuildReads(lines, |lines|, []);
    assert Joined(lines, |lines|) + [] == Joined(lines, |lines|);
    CollapseEnds(Build(lines, |lines|, false).text, Build(lines, |lines|, false).pending);
  }

  lemma CollapseEnds(text: seq<nat>, pending: bool)
    ensures Collapse([], text, pending) == text
  {
  }

  // ---------------------------------------------------------------- collapsed text

  ghost predicate SpaceFree(symbols: Line) {
    forall i :: 0 <= i < |symbols| && !symbols[i].space ==> symbols[i].units != [] && SPACE !in symbols[i].units
  }

  // No separator first, none after another.
  ghost predicate Tidy(text: seq<nat>) {
    forall i :: 0 <= i < |text| && text[i] == SPACE ==> 0 < i && text[i - 1] != SPACE
  }

  ghost predicate EndsInWord(text: seq<nat>) { text == [] || text[|text| - 1] != SPACE }

  /** Collapsed text has single separators, and none at its ends. */
  lemma {:induction false} CollapsedIsTidy(symbols: Line, text: seq<nat>, pending: bool)
    requires SpaceFree(symbols) && Tidy(text) && EndsInWord(text) && (pending ==> text != [])
    ensures Tidy(Collapse(symbols, text, pending)) && EndsInWord(Collapse(symbols, text, pending))
    decreases |symbols|
  {
    if symbols != [] {
      var c := symbols[0];
      if c.space {
        CollapsedIsTidy(symbols[1..], text, pending || text != []);
      } else {
        CollapsedIsTidy(symbols[1..], text + (if pending then [SPACE] else []) + c.units, false);
      }
    }
  }

  /** The loop that collapses a query. */
  method NormalizeQuery(query: Line) returns (text: seq<nat>)
    requires forall i :: 0 <= i < |query| ==> query[i].units != []
    ensures text == Normalized(query)
  {
    text := [];
    var pendingSpace, wrote := false, false;
    for i := 0 to |query|
      invariant wrote <==> text != []
      invariant Collapse(query[i..], text, pendingSpace) == Normalized(query)
    {
      assert query[i..][1..] == query[i + 1..];
      if query[i].space {
        if wrote { pendingSpace := true; }
      } else {
        if pendingSpace {
          text := text + [SPACE];
          pendingSpace := false;
        } else {
          assert text + [] == text;
        }
        text := text + query[i].units;
        wrote := true;
      }
    }
  }
}
