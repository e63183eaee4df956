// Splitting terminal input into key sequences (internal/tui/stdin_buffer.go):
// control sequences end as in ECMA-48, section 5.4; a truncated sequence or a
// truncated UTF-8 encoding stays behind for the next read.

module InputSequences {
  import opened Utf8

  const ESC: Byte := 0x1B
  const BEL: Byte := 0x07
  const DOUBLE_ESCAPE: Bytes := [ESC, ESC]

  datatype Status = NotEscape | Incomplete | Complete

  // The bytes that introduce a longer sequence after an escape: [ ] O P _
  predicate Introduces(b: Byte) { b in [0x5B, 0x5D, 0x4F, 0x50, 0x5F] }

  predicate IsDigit(b: Byte) { 0x30 <= b <= 0x39 }

  predicate EndsWith(s: Bytes, suffix: Bytes) {
    |suffix| <= |s| && s[|s| - |suffix|..] == suffix
  }

  // Three runs of digits separated by semicolons; `open` counts the fields still
  // to start and `digits` says whether the current one has begun.
  predicate DigitFields(s: Bytes, open: nat, digits: bool)
    decreases |s|
  {
    if s == [] then open == 0 && digits
    else if IsDigit(s[0]) then DigitFields(s[1..], open, true)
    else s[0] == 0x3B && digits && open > 0 && DigitFields(s[1..], open - 1, false)
  }

  // An SGR mouse report: ESC [ < digits ; digits ; digits followed by M or m.
  predicate IsSgrMouse(s: Bytes) {
    && |s| > 4 && s[..3] == [ESC, 0x5B, 0x3C]
    && s[|s| - 1] in [0x4D, 0x6D]
    && DigitFields(s[3..|s| - 1], 2, false)
  }

  function StatusOf(data: Bytes): Status {
    if data == [] || data[0] != ESC then NotEscape
    else if |data| == 1 then Incomplete
    else if data[1] == 0x5B then
      if |data| >= 3 && data[2] == 0x4D then (if |data| >= 6 then Complete else Incomplete)
      else if |data| < 3 then Incomplete
      else
        var last := data[|data| - 1];
        if last < 0x40 || last > 0x7E then Incomplete
        else if data[2] == 0x3C then (if last in [0x4D, 0x6D] && IsSgrMouse(data) then Complete else Incomplete)
        else Complete
    else if data[1] == 0x5D then
      if EndsWith(data, [ESC, 0x5C]) || EndsWith(data, [BEL]) then Complete else Incomplete
    else if data[1] in [0x50, 0x5F] then
      if EndsWith(data, [ESC, 0x5C]) then Complete else Incomplete
    else if data[1] == 0x4F then
      if RuneSize(data[2..]) > 0 then Complete else Incomplete
    else if RuneSize(data[1..]) == 1 && data[1] >= 0x80 && !FullRune(data[1..]) then Incomplete
    else Complete
  }

  /** Length of the shortest complete prefix that ends on a rune boundary at or
      after `end`; zero when there is none. */
  function FirstComplete(s: Bytes, end: nat): (n: nat)
    requires end <= |s|
    ensures n == 0 || end <= n <= |s|
    decreases |s| - end
  {
    if StatusOf(s[..end]) != Incomplete then end
    else if !FullRune(s[end..]) then 0
    else FirstComplete(s, end + RuneSize(s[end..]))
  }

  /** Length of the first sequence of the input; zero when it is incomplete. A
      doubled escape gives up its first half if the second one introduces more. */
  function NextLength(s: Bytes): (n: nat)
    requires s != []
    ensures n <= |s|
  {
    if s[0] != ESC then (if FullRune(s) then RuneSize(s) else 0)
    else
      var n := FirstComplete(s, 1);
      if n == 2 && s[1] == ESC && 2 < |s| && Introduces(s[2]) then 1 else n
  }

  datatype Extracted = Extracted(sequences: seq<Bytes>, rest: Bytes)

  function Extract(s: Bytes): Extracted
    decreases |s|
  {
    if s == [] || NextLength(s) == 0 then Extracted([], s)
    else
      var n := NextLength(s);
      var tail := Extract(s[n..]);
      Extracted([s[..n]] + tail.sequences, tail.rest)
  }

  function Concat(parts: seq<Bytes>): Bytes {
    if parts == [] then [] else parts[0] + Concat(parts[1..])
  }

  // ---------------------------------------------------------------- nothing is lost

  /** What remains has no complete sequence at its start. */
  lemma {:induction false} RestIsIncomplete(s: Bytes)
    ensures var rest := Extract(s).rest; rest == [] || NextLength(rest) == 0
    decreases |s|
  {
    hide FirstComplete, StatusOf;
    if s != [] && NextLength(s) != 0 {
      RestIsIncomplete(s[NextLength(s)..]);
    }
  }

  /** The sequences and the remainder spell the input, byte for byte. */
  lemma {:induction false} ExtractLosesNothing(s: Bytes)
    ensures Concat(Extract(s).sequences) + Extract(s).rest == s
    decreases |s|
  {
    hide NextLength, Extract;
    if s != [] && NextLength(s) != 0 {
      var n := NextLength(s);
      ExtractUnfolds(s, n);
      ExtractLosesNothing(s[n..]);
      var tail := Extract(s[n..]);
      ConcatPrepends(s[..n], tail.sequences);
      assert s[..n] + (Concat(tail.sequences) + tail.rest) == s;
    } else {
      StuckExtractsNothing(s);
    }
  }

  lemma ConcatPrepends(first: Bytes, rest: seq<Bytes>)
    ensures Concat([first] + rest) == first + Concat(rest)
  {
    assert ([first] + rest)[1..] == rest;
  }

  // ---------------------------------------------------------------- more input

  lemma {:induction false} FirstCompleteIsStable(s: Bytes, more: Bytes, end: nat)
    requires end <= |s| && FirstComplete(s, end) != 0
    ensures FirstComplete(s + more, end) == FirstComplete(s, end)
    decreases |s| - end
  {
    hide StatusOf;
    assert (s + more)[..end] == s[..end];
    if StatusOf(s[..end]) == Incomplete {
      assert (s + more)[end..] == s[end..] + more;
      FullRuneIsStable(s[end..], more);
      FirstCompleteIsStable(s, more, end + RuneSize(s[end..]));
    }
  }

  /** Only a doubled escape at the very end of the input can still change. */
  predicate Ambiguous(s: Bytes, more: Bytes) {
    s == DOUBLE_ESCAPE && more != [] && Introduces(more[0])
  }

  lemma NextLengthIsStable(s: Bytes, more: Bytes)
    requires s != [] && NextLength(s) != 0
    ensures NextLength(s + more) == if Ambiguous(s, more) then 1 else NextLength(s)
  {
    hide StatusOf, FirstComplete;
    var t := s + more;
    assert t[0] == s[0];
    if s[0] != ESC {
      FullRuneIsStable(s, more);
    } else {
      FirstCompleteIsStable(s, more, 1);
      if FirstComplete(s, 1) == 2 {
        assert t[1] == s[1];
        if |s| > 2 {
          assert t[2] == s[2];
        } else if more != [] {
          assert t[2] == more[0];
          assert s == [s[0], s[1]];
        }
      }
    }
  }

  /** The exception to incremental extraction: the first part ends with a doubled
      escape that the second part turns out to split. */
  predicate SplitsLast(first: Extracted, more: Bytes) {
    && first.rest == [] && first.sequences != []
    && first.sequences[|first.sequences| - 1] == DOUBLE_ESCAPE
    && more != [] && Introduces(more[0])
  }

  lemma DoubleEscapeIsComplete()
    ensures NextLength(DOUBLE_ESCAPE) == 2
  {
    assert StatusOf(DOUBLE_ESCAPE[..1]) == Incomplete;
    assert DOUBLE_ESCAPE[..2] == DOUBLE_ESCAPE;
    assert DOUBLE_ESCAPE[1..] == [ESC];
    assert FirstComplete(DOUBLE_ESCAPE, 2) == 2;
  }

  // A split in the tail, or of the whole input, is a split of the input.
  lemma SplitsLastOfTail(a: Bytes, b: Bytes)
    requires a != [] && NextLength(a) != 0
    ensures SplitsLast(Extract(a[NextLength(a)..]), b) ==> SplitsLast(Extract(a), b)
    ensures Ambiguous(a, b) ==> SplitsLast(Extract(a), b) && a[NextLength(a)..] == []
  {
    hide FirstComplete, StatusOf;
    var n := NextLength(a);
    var tail := Extract(a[n..]);
    var s := Extract(a).sequences;
    assert s == [a[..n]] + tail.sequences;
    if SplitsLast(tail, b) {
      assert s[|s| - 1] == tail.sequences[|tail.sequences| - 1];
    }
    if Ambiguous(a, b) {
      DoubleEscapeIsComplete();
      assert a[..n] == DOUBLE_ESCAPE && a[n..] == [];
    }
  }

  function Combine(first: Extracted, second: Extracted): Extracted {
    Extracted(first.sequences + second.sequences, second.rest)
  }

  lemma CombineAssociates(x: Extracted, y: Extracted, z: Extracted)
    ensures Combine(x, Combine(y, z)) == Combine(Combine(x, y), z)
  {
    assert x.sequences + (y.sequences + z.sequences) == (x.sequences + y.sequences) + z.sequences;
  }

  function Head(s: Bytes, n: nat): Extracted
    requires n <= |s|
  {
    Extracted([s[..n]], [])
  }

  lemma ExtractUnfolds(s: Bytes, n: nat)
    requires s != [] && 0 < NextLength(s) == n
    ensures Extract(s) == Combine(Head(s, n), Extract(s[n..]))
  {
  }

  lemma {:induction false} ExtractInTwoParts(a: Bytes, b: Bytes)
    requires !SplitsLast(Extract(a), b)
    ensures Extract(a + b) == Combine(Extract(a), Extract(Extract(a).rest + b))
    decreases |a|
  {
    hide FirstComplete, StatusOf, NextLength, Extract, SplitsLast;
    if a != [] && NextLength(a) != 0 {
      var n := NextLength(a);
      SplitsLastOfTail(a, b);
      NextLengthIsStable(a, b);
      ExtractUnfolds(a, n);
      ExtractUnfolds(a + b, n);
      ExtractInTwoParts(a[n..], b);
      assert (a + b)[n..] == a[n..] + b && (a + b)[..n] == a[..n];
      var tail := Extract(a[n..]);
      CombineAssociates(Head(a, n), tail, Extract(tail.rest + b));
    } else {
      StuckExtractsNothing(a);
      assert [] + Extract(a + b).sequences == Extract(a + b).sequences;
    }
  }

  lemma StuckExtractsNothing(s: Bytes)
    ensures (s == [] || NextLength(s) == 0) <==> Extract(s).sequences == []
    ensures Extract(s).sequences == [] ==> Extract(s).rest == s
  {
    hide FirstComplete, StatusOf;
  }

  /** When the exception applies, the first half of the doubled escape stands alone. */
  lemma {:induction false} ExtractSplitsLast(a: Bytes, b: Bytes)
    requires SplitsLast(Extract(a), b)
    ensures var s := Extract(a).sequences;
      |Extract(a + b).sequences| >= |s| && Extract(a + b).sequences[|s| - 1] == [ESC]
    decreases |a|
  {
    hide FirstComplete, StatusOf;
    var n := NextLength(a);
    var tail := Extract(a[n..]);
    var s := Extract(a).sequences;
    assert s == [a[..n]] + tail.sequences;
    NextLengthIsStable(a, b);
    SplitsLastOfTail(a, b);
    if tail.sequences == [] {
      StuckExtractsNothing(a[n..]);
      assert a[n..] == [] && a[..n] == a;
      assert (a + b)[..1] == [ESC];
    } else {
      assert s[|s| - 1] == tail.sequences[|tail.sequences| - 1];
      assert (a + b)[n..] == a[n..] + b;
      ExtractSplitsLast(a[n..], b);
      assert Extract(a + b).sequences == [(a + b)[..n]] + Extract(a[n..] + b).sequences;
    }
  }

  /** Extraction is incremental exactly when the cut does not split a doubled
      escape: for every input cut in two, extracting the first part and carrying
      its remainder over gives the same sequences as extracting it all at once. */
  lemma ExtractIsIncremental(a: Bytes, b: Bytes)
    ensures var (first, whole) := (Extract(a), Extract(a + b));
      var second := Extract(first.rest + b);
      whole == Combine(first, second) <==> !SplitsLast(first, b)
  {
    if SplitsLast(Extract(a), b) {
      ExtractSplitsLast(a, b);
      var s := Extract(a).sequences;
      var second := Extract(Extract(a).rest + b);
      assert (s + second.sequences)[|s| - 1] == DOUBLE_ESCAPE;
    } else {
      ExtractInTwoParts(a, b);
    }
  }
}
