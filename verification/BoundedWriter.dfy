// The writer that hands a frame to the terminal in bounded pieces
// (internal/tui/main_screen.go). Text is the sequence of code points it decodes to.

module BoundedWriter {

  const MAX_UNITS: nat := 1024 * 1024

  type Text = seq<nat>

  function RuneUnits(r: nat): nat { if r > 0xffff then 2 else 1 }

  /** Length in UTF-16 code units. */
  function Units(s: Text): nat { if s == [] then 0 else Units(s[..|s| - 1]) + RuneUnits(s[|s| - 1]) }

  /** The code units of UTF-16: a surrogate pair above the basic plane. */
  function Utf16(s: Text): seq<nat>
    requires forall i :: 0 <= i < |s| ==> s[i] <= 0x10FFFF
  {
    if s == [] then []
    else
      var r := s[|s| - 1];
      Utf16(s[..|s| - 1])
        + if r < 0x10000 then [r] else [0xD800 + (r - 0x10000) / 0x400, 0xDC00 + (r - 0x10000) % 0x400]
  }

  lemma {:induction false} UnitsAreUtf16(s: Text)
    requires forall i :: 0 <= i < |s| ==> s[i] <= 0x10FFFF
    ensures Units(s) == |Utf16(s)| && forall i :: 0 <= i < |Utf16(s)| ==> Utf16(s)[i] < 0x10000
  {
    if s != [] { UnitsAreUtf16(s[..|s| - 1]); }
  }

  function Concat(pieces: seq<Text>): Text {
    if pieces == [] then [] else Concat(pieces[..|pieces| - 1]) + pieces[|pieces| - 1]
  }

  lemma {:induction false} UnitsAdd(a: Text, b: Text)
    ensures Units(a + b) == Units(a) + Units(b)
    decreases |b|
  {
    if b == [] {
      assert a + b == a;
    } else {
      var n := |b| - 1;
      assert (a + b)[..|a + b| - 1] == a + b[..n] && (a + b)[|a + b| - 1] == b[n];
      UnitsAdd(a, b[..n]);
    }
  }

  lemma ConcatSnoc(pieces: seq<Text>, piece: Text)
    ensures Concat(pieces + [piece]) == Concat(pieces) + piece
  {
    assert (pieces + [piece])[..|pieces|] == pieces;
  }

  lemma UnitsPrefix(s: Text, i: nat)
    requires i < |s|
    ensures Units(s[..i + 1]) == Units(s[..i]) + RuneUnits(s[i])
  {
    assert s[..i + 1][..i] == s[..i];
  }

  /** The longest prefix of whole code points within a number of units. */
  method Utf16Prefix(value: Text, limit: nat) returns (end: nat, units: nat)
    ensures end <= |value| && units == Units(value[..end]) <= limit
    ensures end < |value| ==> Units(value[..end + 1]) > limit
  {
    end, units := 0, 0;
    while end < |value|
      invariant end <= |value| && units == Units(value[..end]) <= limit
    {
      var runeUnits := RuneUnits(value[end]);
      UnitsPrefix(value, end);
      if units + runeUnits > limit { break; }
      end, units := end + 1, units + runeUnits;
    }
  }

  // Pieces the writer may hand over on its own: full but for half a code point.
  ghost predicate Full(piece: Text) { MAX_UNITS - 1 <= Units(piece) <= MAX_UNITS }

  ghost predicate AllFull(pieces: seq<Text>) { forall i :: 0 <= i < |pieces| ==> Full(pieces[i]) }

  lemma FullSnoc(pieces: seq<Text>, piece: Text)
    requires AllFull(pieces) && Full(piece)
    ensures AllFull(pieces + [piece])
  {
  }

  class Writer {
    // What the terminal has been handed, piece by piece.
    var written: seq<Text>
    var buffer: Text
    var bufferUnits: nat
    var writtenUnits: nat

    ghost predicate Valid()
      reads this
    {
      bufferUnits == Units(buffer) && bufferUnits <= MAX_UNITS && writtenUnits == Units(Concat(written))
    }

    /** Everything appended so far. */
    ghost function Contents(): Text
      reads this
    {
      Concat(written) + buffer
    }

    constructor ()
      ensures Valid() && written == [] && buffer == []
    {
      written, buffer, bufferUnits, writtenUnits := [], [], 0, 0;
    }

    method Flush()
      requires Valid()
      modifies this
      ensures Valid() && Contents() == old(Contents()) && buffer == []
      ensures written == if old(buffer) == [] then old(written) else old(written) + [old(buffer)]
    {
      if buffer == [] { return; }
      ConcatSnoc(written, buffer);
      UnitsAdd(Concat(written), buffer);
      written := written + [buffer];
      writtenUnits := writtenUnits + bufferUnits;
      buffer, bufferUnits := [], 0;
    }

    /** Appending writes nothing but full pieces, in order, cut between code points;
        what is left stays buffered. */
    method Append(value: Text)
      requires Valid()
      modifies this
      ensures Valid() && Contents() == old(Contents()) + value
      ensures old(written) <= written && AllFull(written[|old(written)|..])
      ensures value != [] ==> bufferUnits < MAX_UNITS
    {
      hide Units, Concat, Full;
      var rest := value;
      ghost var fresh_: seq<Text> := [];
      assert Contents() + rest == old(Contents()) + value;
      assert written == old(written) + fresh_;
      while rest != []
        invariant Valid()
        invariant Contents() + rest == old(Contents()) + value
        invariant written == old(written) + fresh_ && AllFull(fresh_)
        invariant rest == [] && value != [] ==> bufferUnits < MAX_UNITS
        decreases |rest|, bufferUnits
      {
        var capacity := MAX_UNITS - bufferUnits;
        if capacity == 0 {
          fresh_ := HandOver(fresh_);
          continue;
        }
        var end, units := Utf16Prefix(rest, capacity);
        if end == 0 {
          LeftOver(rest, capacity);
          fresh_ := HandOver(fresh_);
          continue;
        }
        Take(Concat(written), buffer, rest, end);
        buffer := buffer + rest[..end];
        bufferUnits := bufferUnits + units;
        rest := rest[end..];
        if bufferUnits == MAX_UNITS {
          fresh_ := HandOver(fresh_);
        }
      }
    }

    method HandOver(ghost before: seq<Text>) returns (ghost after: seq<Text>)
      requires Valid() && bufferUnits >= MAX_UNITS - 1 && AllFull(before)
      modifies this
      ensures Valid() && Contents() == old(Contents()) && bufferUnits == 0 && buffer == []
      ensures written == old(written) + [old(buffer)] && after == before + [old(buffer)] && AllFull(after)
    {
      NotEmpty(buffer);
      FullSnoc(before, buffer);
      after := before + [buffer];
      Flush();
    }
  }

  // Moving the front of the rest into the buffer.
  lemma Take(before: Text, buffer: Text, rest: Text, end: nat)
    requires end <= |rest|
    ensures Units(buffer + rest[..end]) == Units(buffer) + Units(rest[..end])
    ensures before + (buffer + rest[..end]) + rest[end..] == before + buffer + rest
  {
    hide Units;
    UnitsAdd(buffer, rest[..end]);
    var front, back := rest[..end], rest[end..];
    assert front + back == rest;
    assert before + (buffer + front) + back == before + buffer + (front + back);
  }

  lemma NotEmpty(s: Text)
    requires Units(s) >= MAX_UNITS - 1
    ensures s != []
  {
  }

  // Only a code point of two units can fail to fit, and only in the last unit.
  lemma LeftOver(rest: Text, capacity: nat)
    requires rest != [] && capacity > 0 && Units(rest[..1]) > capacity
    ensures capacity == 1
  {
    UnitsPrefix(rest, 0);
    assert rest[..0] == [];
  }

  /** Pieces whose units are bounded and which put together give the text: what a
      writer leaves behind after a flush. */
  method WriteAll(values: seq<Text>) returns (pieces: seq<Text>)
    ensures Concat(pieces) == Concat(values)
    ensures forall i :: 0 <= i < |pieces| ==> pieces[i] != [] && Units(pieces[i]) <= MAX_UNITS
    ensures forall i :: 0 <= i < |pieces| - 1 ==> Units(pieces[i]) >= MAX_UNITS - 1
  {
    hide Concat, Units;
    var w := new Writer();
    NothingConcats();
    for i := 0 to |values|
      invariant fresh(w) && w.Valid() && w.Contents() == Concat(values[..i]) && AllFull(w.written)
    {
      ghost var before := w.written;
      PrefixConcats(values, i);
      w.Append(values[i]);
      BothFull(before, w.written);
    }
    assert values[..|values|] == values;
    ghost var last, before := w.buffer, w.written;
    w.Flush();
    FullBounds(before);
    pieces := w.written;
  }

  lemma NothingConcats()
    ensures Concat([]) == [] && Concat([]) + [] == []
  {
  }

  lemma PrefixConcats(values: seq<Text>, i: nat)
    requires i < |values|
    ensures Concat(values[..i + 1]) == Concat(values[..i]) + values[i]
  {
    assert values[..i + 1] == values[..i] + [values[i]];
    ConcatSnoc(values[..i], values[i]);
  }

  lemma BothFull(before: seq<Text>, after: seq<Text>)
    requires before <= after && AllFull(before) && AllFull(after[|before|..])
    ensures AllFull(after)
  {
    hide Full;
    forall i | 0 <= i < |after| ensures Full(after[i]) {
      if i >= |before| { assert after[i] == after[|before|..][i - |before|]; }
    }
  }

  lemma FullBounds(pieces: seq<Text>)
    requires AllFull(pieces)
    ensures forall i :: 0 <= i < |pieces| ==> pieces[i] != [] && MAX_UNITS - 1 <= Units(pieces[i]) <= MAX_UNITS
  {
    forall i | 0 <= i < |pieces| ensures pieces[i] != [] && MAX_UNITS - 1 <= Units(pieces[i]) <= MAX_UNITS {
      assert Full(pieces[i]);
    }
  }
}
