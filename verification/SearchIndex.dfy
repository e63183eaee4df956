// The search index that keeps its corpus and its matches while the transcript and
// the query stay the same (internal/tui/alt_screen_search.go).

module SearchIndex {
  import opened SearchCorpus
  import opened SearchMatches
  import opened Options

  /** Finds a query's ranges in a text; stands for the regular expression engine. */
  type Matcher = (seq<nat>, seq<nat>) -> seq<Range>

  ghost predicate Sound(find: Matcher) {
    forall text, query :: OrderedRanges(find(text, query))
      && forall i :: 0 <= i < |find(text, query)| ==> find(text, query)[i].end <= |text|
  }

  function FindInCorpus(find: Matcher, corpus: Builder, query: seq<nat>): seq<Match> {
    if query == [] then []
    else
      var ranges := find(corpus.text, query);
      AllMatches(corpus.spans, ranges, |ranges|)
  }

  /** A search without any index. */
  function Fresh(find: Matcher, lines: seq<Line>, query: Line): seq<Match> {
    FindInCorpus(find, Corpus(lines), Normalized(query))
  }

  datatype Cache = Cache(source: seq<Line>, corpus: Option<Builder>, query: Option<seq<nat>>, matches: seq<Match>)

  const EMPTY: Cache := Cache([], None, None, [])

  datatype Answer = Answer(matches: seq<Match>, changed: bool)

  /** One call: what the index keeps afterwards, and what it answers. */
  function Lookup(find: Matcher, cache: Cache, lines: seq<Line>, query: Line): (Cache, Answer) {
    var sourceChanged := cache.source != lines;
    var rebuilt := if sourceChanged || cache.corpus.None? then cache.(source := lines, corpus := Some(Corpus(lines))) else cache;
    var normalized := Normalized(query);
    var changed := sourceChanged || cache.query != Some(normalized);
    var searched :=
      if changed then rebuilt.(query := Some(normalized), matches := FindInCorpus(find, rebuilt.corpus.value, normalized))
      else rebuilt;
    (searched, Answer(searched.matches, changed))
  }

  ghost predicate Consistent(find: Matcher, cache: Cache) {
    && (cache.corpus.Some? ==> cache.corpus.value == Corpus(cache.source))
    && (cache.query.Some? ==>
          cache.corpus.Some? && cache.matches == FindInCorpus(find, cache.corpus.value, cache.query.value))
  }

  datatype Call = Call(lines: seq<Line>, query: Line)

  function AfterCalls(find: Matcher, calls: seq<Call>): Cache {
    if calls == [] then EMPTY
    else
      var last := calls[|calls| - 1];
      Lookup(find, AfterCalls(find, calls[..|calls| - 1]), last.lines, last.query).0
  }

  lemma LookupIsFresh(find: Matcher, cache: Cache, lines: seq<Line>, query: Line)
    requires Consistent(find, cache)
    ensures var (next, answer) := Lookup(find, cache, lines, query);
      Consistent(find, next) && answer.matches == Fresh(find, lines, query)
  {
    hide Corpus, Normalized, FindInCorpus;
  }

  lemma {:induction false} CallsStayConsistent(find: Matcher, calls: seq<Call>)
    ensures Consistent(find, AfterCalls(find, calls))
  {
    hide Lookup, Consistent;
    if calls == [] {
      assert Consistent(find, EMPTY) by { EmptyIsConsistent(find); }
    } else {
      var last := calls[|calls| - 1];
      CallsStayConsistent(find, calls[..|calls| - 1]);
      LookupIsFresh(find, AfterCalls(find, calls[..|calls| - 1]), last.lines, last.query);
    }
  }

  lemma EmptyIsConsistent(find: Matcher)
    ensures Consistent(find, EMPTY)
  {
  }

  /** After any history of calls the index answers like a fresh search, and an answer
      reported as unchanged is the one of the call before. */
  lemma AnyHistoryIsFresh(find: Matcher, calls: seq<Call>, lines: seq<Line>, query: Line)
    ensures var (next, answer) := Lookup(find, AfterCalls(find, calls), lines, query);
      && answer.matches == Fresh(find, lines, query)
      && (!answer.changed ==>
            calls != [] && answer.matches == Fresh(find, calls[|calls| - 1].lines, calls[|calls| - 1].query))
  {
    hide Fresh, Consistent, Normalized;
    CallsStayConsistent(find, calls);
    LookupIsFresh(find, AfterCalls(find, calls), lines, query);
    if calls != [] {
      var last := calls[|calls| - 1];
      CallsStayConsistent(find, calls[..|calls| - 1]);
      LookupIsFresh(find, AfterCalls(find, calls[..|calls| - 1]), last.lines, last.query);
    }
  }

  lemma SoundRanges(find: Matcher, text: seq<nat>, query: seq<nat>)
    requires Sound(find)
    ensures OrderedRanges(find(text, query))
  {
  }

  /** What every search returns can be searched by row: matches are neat and do not
      reach below the start of a later one. */
  lemma FreshIsSearchable(find: Matcher, lines: seq<Line>, query: Line)
    requires Sound(find) && AllProper(lines)
    ensures OrderedMatches(Fresh(find, lines, query))
    ensures forall i :: 0 <= i < |Fresh(find, lines, query)| ==> Neat(Fresh(find, lines, query)[i]) && RowsRise(Fresh(find, lines, query)[i])
  {
    hide Build, Normalized, Sound, Chained, Tiled, Segments, Neat, RowsRise, AllMatches, OrderedMatches;
    if Normalized(query) == [] {
      NoMatches();
    } else {
      var corpus := Corpus(lines);
      var ranges := find(corpus.text, Normalized(query));
      SoundRanges(find, corpus.text, Normalized(query));
      BuildIsSound(lines, |lines|, true);
      MatchesAreOrdered(corpus.spans, ranges, |ranges|);
      var matches := AllMatches(corpus.spans, ranges, |ranges|);
      forall i | 0 <= i < |matches| ensures Neat(matches[i]) && RowsRise(matches[i]) {
        var k := MatchHasRange(corpus.spans, ranges, |ranges|, i);
        SegmentsAreNeat(corpus.spans, ranges[k]);
        NeatRowsRise(matches[i]);
      }
    }
  }

  lemma NoMatches()
    ensures OrderedMatches([])
  {
  }

  /** The index as the program keeps it. */
  class Index {
    const find: Matcher
    var sourceLines: seq<Line>
    var corpus: Option<Builder>
    var normalizedQuery: seq<nat>
    var hasQuery: bool
    var matches: seq<Match>

    ghost function Kept(): Cache
      reads this
    {
      Cache(sourceLines, corpus, if hasQuery then Some(normalizedQuery) else None, matches)
    }

    ghost predicate Valid()
      reads this
    {
      Consistent(find, Kept()) && Sound(find) && AllProper(sourceLines)
    }

    constructor (find: Matcher)
      requires Sound(find)
      ensures Valid() && this.find == find && Kept() == EMPTY
    {
      this.find := find;
      sourceLines, corpus, normalizedQuery, hasQuery, matches := [], None, [], false, [];
    }

    method Search(lines: seq<Line>, query: Line) returns (answer: Answer)
      requires Valid() && AllProper(lines)
      modifies this
      ensures Valid() && (Kept(), answer) == Lookup(find, old(Kept()), lines, query)
      ensures answer.matches == Fresh(find, lines, query)
    {
      hide Corpus, Normalized, AllProper, Sound, AllMatches;
      LookupIsFresh(find, Kept(), lines, query);
      var sourceChanged := |sourceLines| != |lines|;
      if !sourceChanged {
        sourceChanged := Differ(sourceLines, lines);
      }
      if sourceChanged || corpus.None? {
        sourceLines := lines;
        var built := BuildCorpus(lines);
        corpus := Some(built);
      }
      var normalized := Normalized(query);
      var changed := sourceChanged || !hasQuery || normalized != normalizedQuery;
      if changed {
        normalizedQuery, hasQuery := normalized, true;
        matches := FindIn(find, sourceLines, corpus.value, normalized);
      }
      answer := Answer(matches, changed);
    }
  }

  method FindIn(find: Matcher, lines: seq<Line>, corpus: Builder, query: seq<nat>) returns (matches: seq<Match>)
    requires Sound(find) && AllProper(lines) && corpus == Corpus(lines)
    ensures matches == FindInCorpus(find, corpus, query)
  {
    hide Build, Chained, AllMatches, Tiled, Sound;
    if query == [] { return []; }
    BuildIsSound(lines, |lines|, true);
    SoundRanges(find, corpus.text, query);
    matches := FindMatches(corpus.spans, find(corpus.text, query));
  }

  method Differ(a: seq<Line>, b: seq<Line>) returns (differ: bool)
    requires |a| == |b|
    ensures differ <==> a != b
  {
    for i := 0 to |a|
      invariant a[..i] == b[..i]
    {
      if a[i] != b[i] { return true; }
    }
    assert a[..|a|] == a && b[..|b|] == b;
    return false;
  }
}
