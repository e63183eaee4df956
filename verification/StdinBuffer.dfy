// Key and paste events from arbitrarily cut terminal input
// (internal/tui/stdin_buffer.go). Between bracketed pastes the input is split
// into key sequences; a key that repeats a just-reported Kitty printable is
// dropped.

module StdinBuffer {
  import opened Options
  import opened Utf8
  import opened ByteSearch
  import opened InputSequences

  const PASTE_START: Bytes := [ESC, 0x5B, 0x32, 0x30, 0x30, 0x7E]
  const PASTE_END: Bytes := [ESC, 0x5B, 0x32, 0x30, 0x31, 0x7E]

  datatype Event = Key(data: Bytes) | Paste(content: Bytes)

  /** What survives from one read to the next. */
  datatype State = State(buffer: Bytes, pasteMode: bool, pasteBuffer: Bytes, pending: Option<int>)

  const EMPTY := State([], false, [], None)

  datatype Output = Output(events: seq<Event>, state: State)

  // ---------------------------------------------------------------- duplicate printables

  function DigitCount(s: Bytes): (n: nat)
    ensures n <= |s| && forall i :: 0 <= i < n ==> IsDigit(s[i])
  {
    if s == [] || !IsDigit(s[0]) then 0 else 1 + DigitCount(s[1..])
  }

  function DecimalValue(s: Bytes): int
    requires forall i :: 0 <= i < |s| ==> IsDigit(s[i])
  {
    if s == [] then 0 else DecimalValue(s[..|s| - 1]) * 10 + (s[|s| - 1] as int) - 0x30
  }

  // Nothing, or a colon and digits, or a colon, digits, a colon and at least one digit.
  predicate IsKittySuffix(s: Bytes) {
    s == [] ||
    (s[0] == 0x3A &&
     var n := DigitCount(s[1..]);
     var rest := s[1 + n..];
     rest == [] || (rest[0] == 0x3A && |rest| > 1 && DigitCount(rest[1..]) == |rest| - 1))
  }

  /** The character of an unmodified Kitty key report: ESC [ digits suffix u. */
  function KittyPrintable(s: Bytes): Option<int> {
    if |s| < 4 || s[..2] != [ESC, 0x5B] || s[|s| - 1] != 0x75 then None
    else
      var body := s[2..|s| - 1];
      var n := DigitCount(body);
      if n == 0 || !IsKittySuffix(body[n..]) then None
      else
        var value := DecimalValue(body[..n]);
        if 32 <= value <= MAX_RUNE then Some(value) else None
  }

  predicate IsSingleRune(s: Bytes, rune: int) {
    s != [] && RuneSize(s) == |s| && DecodeRune(s) == rune
  }

  predicate Repeats(pending: Option<int>, sequence: Bytes) {
    pending.Some? && IsSingleRune(sequence, pending.value)
  }

  datatype Emitted = Emitted(events: seq<Event>, pending: Option<int>)

  /** Reports key sequences in order, dropping a repeated printable. */
  function Emit(pending: Option<int>, sequences: seq<Bytes>): Emitted
    decreases |sequences|
  {
    if sequences == [] then Emitted([], pending)
    else if Repeats(pending, sequences[0]) then Emit(None, sequences[1..])
    else
      var tail := Emit(KittyPrintable(sequences[0]), sequences[1..]);
      Emitted([Key(sequences[0])] + tail.events, tail.pending)
  }

  // ---------------------------------------------------------------- one read

  function Prepend(events: seq<Event>, output: Output): Output {
    Output(events + output.events, output.state)
  }

  /** Works off the buffer until it holds neither a paste nor a complete sequence. */
  function Drain(st: State): Output
    decreases |st.buffer| + |st.pasteBuffer|, if st.pasteMode then 0 else 1
  {
    if st.pasteMode then
      var data := st.pasteBuffer + st.buffer;
      var end := IndexOf(data, PASTE_END);
      if end < 0 then Output([], st.(buffer := [], pasteBuffer := data))
      else
        var rest := data[end + |PASTE_END|..];
        var after := State(rest, false, [], None);
        if rest == [] then Output([Paste(data[..end])], after)
        else Prepend([Paste(data[..end])], Drain(after))
    else
      var start := IndexOf(st.buffer, PASTE_START);
      if start >= 0 then
        var keys := Emit(st.pending, Extract(st.buffer[..start]).sequences);
        Prepend(keys.events, Drain(State([], true, st.buffer[start + |PASTE_START|..], None)))
      else
        var extracted := Extract(st.buffer);
        var keys := Emit(st.pending, extracted.sequences);
        Output(keys.events, State(extracted.rest, false, st.pasteBuffer, keys.pending))
  }

  /** One read. An empty read with nothing buffered is reported as an empty key. */
  function Process(st: State, data: Bytes): Output {
    if data == [] && st.buffer == [] then
      var keys := Emit(st.pending, [[]]);
      Output(keys.events, st.(pending := keys.pending))
    else
      Drain(st.(buffer := st.buffer + data))
  }

  function ProcessAll(st: State, chunks: seq<Bytes>): Output
    decreases |chunks|
  {
    if chunks == [] then Output([], st)
    else
      var first := Process(st, chunks[0]);
      Prepend(first.events, ProcessAll(first.state, chunks[1..]))
  }
}
