// Which byte strings are keys, by the forms terminals send: single characters, an
// escape before a character, single shifts, command strings and control sequences
// (ECMA-48, sections 5.4 and 5.6).

module KeyGrammar {
  import opened Utf8
  import opened InputSequences
  import opened KeyLists

  const SS3: Byte := 0x4F
  const DCS: Byte := 0x50
  const CSI: Byte := 0x5B
  const BACKSLASH: Byte := 0x5C
  const OSC: Byte := 0x5D
  const APC: Byte := 0x5F
  const STRING_TERMINATOR: Bytes := [ESC, BACKSLASH]

  /** The bytes decode as one character, and need no more bytes for it. */
  predicate OneRune(s: Bytes) { FullRune(s) && RuneSize(s) == |s| }

  lemma KeyByLength(s: Bytes)
    ensures IsKey(s) <==> s != [] && NextLength(s) == |s|
  {
    hide NextLength, Extract;
    if s != [] && NextLength(s) != 0 {
      var n := NextLength(s);
      ExtractUnfolds(s, n);
      if n == |s| {
        assert s[..n] == s && s[n..] == [];
        StuckExtractsNothing([]);
      } else {
        CombineFirst(Head(s, n), Extract(s[n..]));
      }
    } else {
      StuckExtractsNothing(s);
    }
  }

  // ---------------------------------------------------------------- characters

  /** A character is a key. */
  lemma RuneIsKey(s: Bytes)
    requires OneRune(s) && s[0] != ESC
    ensures IsKey(s)
  {
    hide IsKey;
    KeyByLength(s);
  }

  /** An escape in front of a character that does not introduce a sequence is a key;
      so a doubled escape is. */
  lemma EscapedRuneIsKey(rune: Bytes)
    requires OneRune(rune) && !Introduces(rune[0])
    ensures IsKey([ESC] + rune)
  {
    hide IsKey;
    var s := [ESC] + rune;
    KeyByLength(s);
    assert s[..1] == [ESC] && s[1..] == rune && s[..|s|] == s;
    assert StatusOf(s[..1]) == Incomplete;
    assert StatusOf(s) == Complete;
    FirstCompleteStops(s);
    assert FirstComplete(s, 1) == FirstComplete(s, 1 + |rune|);
  }

  lemma FirstCompleteStops(s: Bytes)
    requires StatusOf(s) != Incomplete
    ensures FirstComplete(s, |s|) == |s|
  {
    assert s[..|s|] == s;
  }

  /** A single shift and its character are a key. */
  lemma SingleShiftIsKey(rune: Bytes)
    requires OneRune(rune)
    ensures IsKey([ESC, SS3] + rune)
  {
    hide IsKey;
    var s := [ESC, SS3] + rune;
    KeyByLength(s);
    assert s[..1] == [ESC] && s[1..] == [SS3] + rune && s[..2] == [ESC, SS3] && s[2..] == rune;
    assert StatusOf(s[..1]) == Incomplete && StatusOf(s[..2]) == Incomplete;
    assert StatusOf(s) == Complete;
    FirstCompleteStops(s);
    assert FirstComplete(s, 2) == FirstComplete(s, 2 + |rune|);
    assert FirstComplete(s, 1) == FirstComplete(s, 2);
  }

  // ---------------------------------------------------------------- longer sequences

  lemma RuneStopsBeforeAscii(s: Bytes, i: nat)
    requires i < |s| && s[i] < 0x80
    ensures FullRune(s) && RuneSize(s) <= i + 1
  {
  }

  // The first complete prefix is the one found when every shorter one waits and it
  // ends in ASCII, where a character always ends.
  lemma {:induction false} FirstCompleteAt(s: Bytes, end: nat, n: nat)
    requires end < n <= |s| && s[n - 1] < 0x80 && StatusOf(s[..n]) != Incomplete
    requires forall k :: end <= k < n ==> StatusOf(s[..k]) == Incomplete
    ensures FirstComplete(s, end) == n
    decreases n - end
  {
    hide StatusOf, FullRune, RuneSize;
    RuneStopsBeforeAscii(s[end..], n - 1 - end);
    var next := end + RuneSize(s[end..]);
    if next < n { FirstCompleteAt(s, next, n); }
  }

  lemma {:induction false} NeverComplete(s: Bytes, end: nat)
    requires end <= |s| && forall k :: end <= k <= |s| ==> StatusOf(s[..k]) == Incomplete
    ensures FirstComplete(s, end) == 0
    decreases |s| - end
  {
    hide StatusOf;
    if FullRune(s[end..]) { NeverComplete(s, end + RuneSize(s[end..])); }
  }

  // A sequence whose proper prefixes all wait, and which ends in ASCII.
  lemma WaitsToItsEnd(s: Bytes)
    requires |s| > 2 && s[0] == ESC && s[|s| - 1] < 0x80
    requires forall k :: 1 <= k < |s| ==> StatusOf(s[..k]) == Incomplete
    ensures IsKey(s) <==> StatusOf(s) != Incomplete
  {
    hide StatusOf, IsKey, FirstComplete;
    KeyByLength(s);
    assert s[..|s|] == s;
    if StatusOf(s) != Incomplete {
      FirstCompleteAt(s, 1, |s|);
    } else {
      NeverComplete(s, 1);
    }
  }

  // ---------------------------------------------------------------- command strings

  predicate Terminator(kind: Byte, t: Bytes) { t == STRING_TERMINATOR || (kind == OSC && t == [BEL]) }

  /** A terminator ends right before this place. */
  predicate EndsBefore(kind: Byte, s: Bytes, n: int) {
    || (2 <= n <= |s| && s[n - 2] == ESC && s[n - 1] == BACKSLASH)
    || (kind == OSC && 1 <= n <= |s| && s[n - 1] == BEL)
  }

  ghost predicate HoldsTerminator(kind: Byte, s: Bytes) { exists n :: EndsBefore(kind, s, n) }

  lemma StringStatus(kind: Byte, s: Bytes, k: nat)
    requires kind in [OSC, DCS, APC] && 2 <= k <= |s| && s[0] == ESC && s[1] == kind
    ensures StatusOf(s[..k]) == if EndsBefore(kind, s, k) then Complete else Incomplete
  {
    var data := s[..k];
    assert data[|data| - 2..] == [s[k - 2], s[k - 1]];
    assert data[|data| - 1..] == [s[k - 1]];
  }

  /** A command string (OSC, DCS or APC) and its terminator are a key exactly when
      the string holds no terminator itself. */
  lemma CommandStringIsKey(kind: Byte, body: Bytes, terminator: Bytes)
    requires kind in [OSC, DCS, APC] && Terminator(kind, terminator)
    ensures IsKey([ESC, kind] + body + terminator) <==> !HoldsTerminator(kind, body)
  {
    hide StatusOf, IsKey, EndsBefore;
    var s := [ESC, kind] + body + terminator;
    EndsOfString(kind, body, terminator);
    forall k | 2 <= k <= |s| ensures StatusOf(s[..k]) == if EndsBefore(kind, s, k) then Complete else Incomplete {
      StringStatus(kind, s, k);
    }
    EscapeStatus(s);
    assert s[..|s|] == s;
    if HoldsTerminator(kind, body) {
      var n :| EndsBefore(kind, body, n);
      EndsInside(kind, body, n);
      EndsEarly(kind, s, n + 2);
    } else {
      WaitsToItsEnd(s);
    }
  }

  lemma EscapeStatus(s: Bytes)
    requires s != [] && s[0] == ESC
    ensures StatusOf(s[..1]) == Incomplete
  {
    assert s[..1] == [ESC];
  }

  lemma EndsInside(kind: Byte, body: Bytes, n: int)
    requires EndsBefore(kind, body, n)
    ensures 1 <= n <= |body|
  {
  }

  // In the whole string a terminator ends where one of the body does, or at the end.
  lemma EndsOfString(kind: Byte, body: Bytes, terminator: Bytes)
    requires kind in [OSC, DCS, APC] && Terminator(kind, terminator)
    ensures var s := [ESC, kind] + body + terminator;
      && |s| > 2 && s[0] == ESC && s[1] == kind && s[|s| - 1] < 0x80 && EndsBefore(kind, s, |s|)
      && (forall n :: EndsBefore(kind, body, n) ==> EndsBefore(kind, s, n + 2) && n + 2 < |s|)
      && (forall k :: 2 <= k < |s| && EndsBefore(kind, s, k) ==> EndsBefore(kind, body, k - 2))
  {
    var s := [ESC, kind] + body + terminator;
    forall n | EndsBefore(kind, body, n) ensures EndsBefore(kind, s, n + 2) && n + 2 < |s| {
      assert s[n + 1] == body[n - 1];
      if n >= 2 { assert s[n] == body[n - 2]; }
    }
    forall k | 2 <= k < |s| && EndsBefore(kind, s, k) ensures EndsBefore(kind, body, k - 2) {
      InsideBody(kind, body, terminator, k);
    }
  }

  lemma InsideBody(kind: Byte, body: Bytes, terminator: Bytes, k: int)
    requires kind in [OSC, DCS, APC] && Terminator(kind, terminator)
    requires var s := [ESC, kind] + body + terminator; 2 <= k < |s| && EndsBefore(kind, s, k)
    ensures EndsBefore(kind, body, k - 2)
  {
    var s := [ESC, kind] + body + terminator;
    assert s[k - 1] == BACKSLASH || s[k - 1] == BEL;
    assert k - 1 < 2 + |body|;
    assert k > 2;
    assert s[k - 1] == body[k - 3];
    if k > 3 { assert s[k - 2] == body[k - 4]; }
  }

  // A prefix that is complete before the end leaves the rest for another key.
  lemma EndsEarly(kind: Byte, s: Bytes, n: nat)
    requires kind in [OSC, DCS, APC] && |s| > 2 && s[0] == ESC && s[1] == kind && 2 < n < |s| && EndsBefore(kind, s, n)
    ensures !IsKey(s)
  {
    hide StatusOf, IsKey, FirstComplete;
    KeyByLength(s);
    EscapeStatus(s);
    StringStatus(kind, s, n);
    AsciiEnd(kind, s, n);
    FirstCompleteBy(s, 1, n);
  }

  lemma AsciiEnd(kind: Byte, s: Bytes, n: nat)
    requires EndsBefore(kind, s, n)
    ensures 0 < n <= |s| && s[n - 1] < 0x80
  {
  }

  lemma {:induction false} FirstCompleteBy(s: Bytes, end: nat, n: nat)
    requires 0 < end <= n <= |s| && s[n - 1] < 0x80 && StatusOf(s[..n]) != Incomplete
    ensures 0 < FirstComplete(s, end) <= n
    decreases n - end
  {
    hide StatusOf, FullRune, RuneSize;
    if StatusOf(s[..end]) == Incomplete {
      RuneStopsBeforeAscii(s[end..], n - 1 - end);
      FirstCompleteBy(s, end + RuneSize(s[end..]), n);
    }
  }

  // ---------------------------------------------------------------- control sequences

  predicate ParameterBytes(s: Bytes) { forall i :: 0 <= i < |s| ==> 0x30 <= s[i] <= 0x3F }

  predicate IntermediateBytes(s: Bytes) { forall i :: 0 <= i < |s| ==> 0x20 <= s[i] <= 0x2F }

  /** A control sequence (parameter bytes, intermediate bytes, a final byte) is a key
      exactly when it is not the introducer of an old mouse report, and a private one
      beginning with < is an SGR mouse report. */
  lemma ControlSequenceIsKey(parameters: Bytes, intermediates: Bytes, final: Byte)
    requires ParameterBytes(parameters) && IntermediateBytes(intermediates) && 0x40 <= final <= 0x7E
    ensures var s := [ESC, CSI] + parameters + intermediates + [final];
      IsKey(s) <==> (parameters + intermediates == [] ==> final != 0x4D) && (parameters != [] && parameters[0] == 0x3C ==> IsSgrMouse(s))
  {
    hide StatusOf, IsKey, IsSgrMouse;
    var s := [ESC, CSI] + parameters + intermediates + [final];
    EscapeStatus(s);
    forall k | 2 <= k < |s| ensures StatusOf(s[..k]) == Incomplete {
      ControlPrefixWaits(parameters, intermediates, final, k);
    }
    WaitsToItsEnd(s);
    ControlStatus(parameters, intermediates, final);
  }

  lemma ControlPrefixWaits(parameters: Bytes, intermediates: Bytes, final: Byte, k: nat)
    requires ParameterBytes(parameters) && IntermediateBytes(intermediates)
    requires 2 <= k < 3 + |parameters| + |intermediates|
    ensures StatusOf(([ESC, CSI] + parameters + intermediates + [final])[..k]) == Incomplete
  {
    var body := parameters + intermediates;
    var s := [ESC, CSI] + parameters + intermediates + [final];
    assert s == [ESC, CSI] + body + [final];
    if k > 2 {
      assert s[k - 1] == body[k - 3] && s[2] == body[0];
      assert body[k - 3] < 0x40 && body[0] < 0x40;
    }
  }

  lemma ControlStatus(parameters: Bytes, intermediates: Bytes, final: Byte)
    requires ParameterBytes(parameters) && IntermediateBytes(intermediates) && 0x40 <= final <= 0x7E
    ensures var s := [ESC, CSI] + parameters + intermediates + [final];
      StatusOf(s) != Incomplete <==>
        (parameters + intermediates == [] ==> final != 0x4D) && (parameters != [] && parameters[0] == 0x3C ==> IsSgrMouse(s))
  {
    hide DigitFields;
    var body := parameters + intermediates;
    var s := [ESC, CSI] + parameters + intermediates + [final];
    assert s == [ESC, CSI] + body + [final];
    assert s[2] == if body == [] then final else body[0];
    assert body != [] ==> body[0] < 0x40;
    assert body != [] && body[0] == 0x3C ==> parameters != [];
  }

  /** The bytes split into characters, the last of which needs no more bytes. */
  predicate WholeRunes(s: Bytes)
    decreases |s|
  {
    s == [] || (FullRune(s) && WholeRunes(s[RuneSize(s)..]))
  }

  // A sequence whose proper prefixes all wait is found exactly when a character ends
  // where it does.
  lemma {:induction false} FoundAtItsEnd(s: Bytes, end: nat)
    requires end <= |s| && StatusOf(s) != Incomplete && forall k :: end <= k < |s| ==> StatusOf(s[..k]) == Incomplete
    ensures FirstComplete(s, end) == (if WholeRunes(s[end..]) then |s| else 0)
    decreases |s| - end
  {
    hide StatusOf, FullRune;
    if end == |s| {
      assert s[..end] == s;
    } else if FullRune(s[end..]) {
      var next := end + RuneSize(s[end..]);
      assert s[end..][RuneSize(s[end..])..] == s[next..];
      FoundAtItsEnd(s, next);
    }
  }

  lemma AsciiFirst(b: Byte, s: Bytes)
    requires b < 0x80
    ensures WholeRunes([b] + s) <==> WholeRunes(s)
  {
    assert ([b] + s)[1..] == s;
  }

  /** An old mouse report is a key exactly when its three bytes split into characters:
      ASCII bytes always do; beyond them the last may begin a character that waits for
      bytes of the next key. */
  lemma OldMouseReportIsKey(button: Byte, x: Byte, y: Byte)
    ensures IsKey([ESC, CSI, 0x4D, button, x, y]) <==> WholeRunes([button, x, y])
    ensures button < 0x80 && x < 0x80 && y < 0x80 ==> WholeRunes([button, x, y])
  {
    hide IsKey, WholeRunes;
    var s: Bytes := [ESC, CSI, 0x4D, button, x, y];
    KeyByLength(s);
    MouseStatus(s);
    FoundAtItsEnd(s, 1);
    assert s[1..] == [CSI] + ([0x4D] + [button, x, y]);
    AsciiFirst(CSI, [0x4D] + [button, x, y]);
    AsciiFirst(0x4D, [button, x, y]);
    AsciiIsWhole(button, x, y);
  }

  lemma AsciiIsWhole(a: Byte, b: Byte, c: Byte)
    ensures a < 0x80 && b < 0x80 && c < 0x80 ==> WholeRunes([a, b, c])
  {
    assert [a, b, c] == [a] + ([b] + ([c] + []));
    if a < 0x80 && b < 0x80 && c < 0x80 {
      AsciiFirst(c, []);
      AsciiFirst(b, [c] + []);
      AsciiFirst(a, [b] + ([c] + []));
    }
  }

  lemma MouseStatus(s: Bytes)
    requires |s| == 6 && s[..3] == [ESC, CSI, 0x4D]
    ensures StatusOf(s) == Complete && forall k :: 1 <= k < 6 ==> StatusOf(s[..k]) == Incomplete
  {
    assert s[0] == s[..3][0] && s[1] == s[..3][1] && s[2] == s[..3][2];
    EscapeStatus(s);
    forall k | 2 <= k < 6 ensures StatusOf(s[..k]) == Incomplete {
      if k > 2 { assert s[..k][2] == 0x4D; }
    }
  }
}
