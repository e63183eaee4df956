// The reader object of internal/tui/stdin_buffer.go: its buffers and the loops
// that work them off, proved to compute StdinBuffer.Process.

module StdinReader {
  import opened Options
  import opened Utf8
  import opened ByteSearch
  import opened InputSequences
  import opened StdinBuffer

  function RuneBoundaries(s: Bytes, start: nat): seq<nat>
    requires start <= |s|
    decreases |s| - start
  {
    if !FullRune(s[start..]) then []
    else
      var end := start + RuneSize(s[start..]);
      [end] + RuneBoundaries(s, end)
  }

  /** Ends of the runes decided by the input, in order. */
  method CollectBoundaries(value: Bytes) returns (boundaries: seq<nat>)
    ensures boundaries == RuneBoundaries(value, 0)
  {
    hide FullRune, RuneSize;
    boundaries := [];
    var index := 0;
    while index < |value|
      invariant index <= |value|
      invariant boundaries + RuneBoundaries(value, index) == RuneBoundaries(value, 0)
    {
      var size := RuneSize(value[index..]);
      if !FullRune(value[index..]) {
        PartialRuneIsOneByte(value[index..]);
      }
      if size == 1 && value[index] >= 0x80 && !FullRune(value[index..]) {
        return;
      }
      ghost var later := RuneBoundaries(value, index + size);
      assert RuneBoundaries(value, index) == [index + size] + later;
      assert boundaries + ([index + size] + later) == (boundaries + [index + size]) + later;
      index := index + size;
      boundaries := boundaries + [index];
    }
  }

  lemma FirstBoundary(s: Bytes)
    requires s != [] && s[0] == ESC
    ensures RuneBoundaries(s, 0) == [1] + RuneBoundaries(s, 1)
  {
    assert s[0..] == s;
  }

  /** The first boundary that ends a complete sequence decides. */
  method FirstSequence(remaining: Bytes) returns (length: nat)
    requires remaining != [] && remaining[0] == ESC
    ensures length == FirstComplete(remaining, 1)
  {
    hide FullRune, RuneSize;
    var boundaries := CollectBoundaries(remaining);
    FirstBoundary(remaining);
    for index := 0 to |boundaries|
      invariant index < |boundaries| ==> boundaries[index] <= |remaining|
      invariant index < |boundaries| ==>
        && boundaries[index..] == [boundaries[index]] + RuneBoundaries(remaining, boundaries[index])
        && FirstComplete(remaining, 1) == FirstComplete(remaining, boundaries[index])
      invariant index == |boundaries| ==> FirstComplete(remaining, 1) == 0
    {
      var end := boundaries[index];
      if StatusOf(remaining[..end]) != Incomplete {
        return end;
      }
      assert boundaries[index + 1..] == RuneBoundaries(remaining, end);
    }
    return 0;
  }

  /** Length of the first sequence; zero when it is incomplete. */
  method FirstLength(remaining: Bytes) returns (length: nat)
    requires remaining != []
    ensures length == NextLength(remaining)
  {
    hide FirstComplete, StatusOf;
    if remaining[0] != ESC {
      if !FullRune(remaining) {
        PartialRuneIsOneByte(remaining);
      }
      var size := RuneSize(remaining);
      length := if size == 1 && remaining[0] >= 0x80 && !FullRune(remaining) then 0 else size;
    } else {
      length := FirstSequence(remaining);
      if remaining[..length] == DOUBLE_ESCAPE && length < |remaining| && Introduces(remaining[length]) {
        length := 1;
      }
    }
  }

  /** Takes complete sequences off the front until only an incomplete one is left. */
  method ExtractSequences(buffer: Bytes) returns (sequences: seq<Bytes>, rest: Bytes)
    ensures Extracted(sequences, rest) == Extract(buffer)
  {
    hide NextLength, Extract;
    sequences := [];
    var position := 0;
    while position < |buffer|
      invariant position <= |buffer|
      invariant Extract(buffer) == Combine(Extracted(sequences, []), Extract(buffer[position..]))
    {
      var remaining := buffer[position..];
      var length := FirstLength(remaining);
      if length == 0 {
        StuckExtractsNothing(remaining);
        assert sequences + [] == sequences;
        rest := remaining;
        return;
      }
      ExtractUnfolds(remaining, length);
      CombineAssociates(Extracted(sequences, []), Head(remaining, length), Extract(remaining[length..]));
      sequences := sequences + [remaining[..length]];
      position := position + length;
      assert buffer[position..] == remaining[length..];
    }
    StuckExtractsNothing([]);
    assert buffer[position..] == [] && sequences + [] == sequences;
    rest := [];
  }

  lemma NothingPrepended(output: Output)
    ensures Prepend([], output) == output
  {
  }

  lemma PrependsTwice(a: seq<Event>, b: seq<Event>, output: Output)
    ensures Prepend(a, Prepend(b, output)) == Prepend(a + b, output)
  {
    assert a + (b + output.events) == (a + b) + output.events;
  }

  lemma PrependsLast(a: seq<Event>, b: seq<Event>, state: State)
    ensures Prepend(a, Output(b, state)) == Output(a + b, state)
  {
  }

  class Reader {
    var buffer: Bytes
    var pasteMode: bool
    var pasteBuffer: Bytes
    var pending: Option<int>

    constructor ()
      ensures Contents() == EMPTY
    {
      buffer, pasteMode, pasteBuffer, pending := [], false, [], None;
    }

    ghost function Contents(): State
      reads this
    {
      State(buffer, pasteMode, pasteBuffer, pending)
    }

    /** Reports sequences in order, dropping a repeated printable. */
    method EmitAll(sequences: seq<Bytes>) returns (events: seq<Event>)
      modifies this`pending
      ensures Emitted(events, pending) == Emit(old(pending), sequences)
    {
      hide Repeats, KittyPrintable;
      events := [];
      for index := 0 to |sequences|
        invariant Emit(old(pending), sequences).events == events + Emit(pending, sequences[index..]).events
        invariant Emit(old(pending), sequences).pending == Emit(pending, sequences[index..]).pending
      {
        var sequence := sequences[index];
        assert sequences[index..][1..] == sequences[index + 1..];
        if Repeats(pending, sequence) {
          pending := None;
        } else {
          pending := KittyPrintable(sequence);
          events := events + [Key(sequence)];
        }
      }
    }

    /** Leaves paste mode if the end marker has arrived. */
    method FinishPaste() returns (found: bool, events: seq<Event>)
      requires pasteMode
      modifies this
      ensures var data := old(pasteBuffer) + old(buffer);
        var end := IndexOf(data, PASTE_END);
        && found == (end >= 0)
        && (!found ==> events == [] && Contents() == State([], true, data, old(pending)))
        && (found ==> events == [Paste(data[..end])])
        && (found ==> Contents() == State(data[end + |PASTE_END|..], false, [], None))
    {
      pasteBuffer := pasteBuffer + buffer;
      buffer := [];
      var end := IndexOf(pasteBuffer, PASTE_END);
      if end < 0 {
        return false, [];
      }
      events := [Paste(pasteBuffer[..end])];
      buffer := pasteBuffer[end + |PASTE_END|..];
      pasteMode, pasteBuffer, pending := false, [], None;
      found := true;
    }

    method Process(data: Bytes) returns (events: seq<Event>)
      modifies this
      ensures Output(events, Contents()) == StdinBuffer.Process(old(Contents()), data)
    {
      hide Extract, Emit, IndexOf, Prepend;
      if data == [] && buffer == [] {
        events := EmitAll([[]]);
        return;
      }
      buffer := buffer + data;
      events := [];
      ghost var expected := Drain(Contents());
      NothingPrepended(expected);
      while true
        invariant expected == Prepend(events, Drain(Contents()))
        decreases |buffer| + |pasteBuffer|, if pasteMode then 0 else 1
      {
        ghost var before, tail := events, Drain(Contents());
        if pasteMode {
          var found, pasted := FinishPaste();
          events := events + pasted;
          if !found || buffer == [] {
            assert tail == Output(pasted, Contents());
            PrependsLast(before, pasted, Contents());
            return;
          }
          assert tail == Prepend(pasted, Drain(Contents()));
          PrependsTwice(before, pasted, Drain(Contents()));
        } else {
          var start := IndexOf(buffer, PASTE_START);
          if start < 0 {
            var sequences, rest := ExtractSequences(buffer);
            buffer := rest;
            var keys := EmitAll(sequences);
            events := events + keys;
            assert tail == Output(keys, Contents());
            PrependsLast(before, keys, Contents());
            return;
          }
          var sequences, _ := ExtractSequences(buffer[..start]);
          var keys := EmitAll(sequences);
          events := events + keys;
          pasteMode, pasteBuffer := true, buffer[start + |PASTE_START|..];
          buffer, pending := [], None;
          assert tail == Prepend(keys, Drain(Contents())) by {
            assert Contents() == State([], true, pasteBuffer, None);
          }
          PrependsTwice(before, keys, Drain(Contents()));
        }
      }
    }
  }
}
