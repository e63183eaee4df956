// Lists of keys and the bytes they are sent as: when the splitter of
// internal/tui/stdin_buffer.go gives the keys back, whole or cut in two.

module KeyLists {
  import opened Utf8
  import opened InputSequences

  /** A key that is complete by itself. */
  predicate IsKey(k: Bytes) { Extract(k) == Extracted([k], []) }

  // An escape and a byte that introduces more.
  predicate Longer(k: Bytes) { |k| > 1 && k[0] == ESC && Introduces(k[1]) }

  /** The escape key by itself, known for one by the longer sequence behind it. */
  predicate LoneEscape(keys: seq<Bytes>, i: int) {
    0 <= i < |keys| - 1 && keys[i] == [ESC] && Longer(keys[i + 1])
  }

  /** Keys that can be told apart: each is complete by itself or a lone escape. */
  predicate Typable(keys: seq<Bytes>) {
    forall i :: 0 <= i < |keys| ==> IsKey(keys[i]) || LoneEscape(keys, i)
  }

  /** A doubled escape in front of a byte that would make its second half introduce
      a longer sequence. */
  predicate Clash(keys: seq<Bytes>, i: int) {
    0 < i < |keys| && keys[i - 1] == DOUBLE_ESCAPE && keys[i] != [] && Introduces(keys[i][0])
  }

  ghost predicate NoClash(keys: seq<Bytes>) { forall i :: !Clash(keys, i) }

  /** Where key i starts in the bytes sent. */
  function Offset(keys: seq<Bytes>, i: int): nat
    requires 0 <= i <= |keys|
    decreases i
  {
    if i == 0 then 0 else |keys[0]| + Offset(keys[1..], i - 1)
  }

  /** A read that ends after n bytes goes well: it takes no clash in, and it does
      not end between a lone escape's follower's first two bytes. */
  ghost predicate ReadsWell(keys: seq<Bytes>, n: int) {
    && (forall i :: Clash(keys, i) ==> Offset(keys, i) >= n)
    && (forall i :: LoneEscape(keys, i) ==> n != Offset(keys, i + 1) + 1)
  }

  // ---------------------------------------------------------------- the front key

  lemma EscapeWaits()
    ensures Extract([ESC]) == Extracted([], [ESC]) && !IsKey([ESC])
  {
    var s := [ESC];
    assert s[..1] == s && s[1..] == [];
    assert StatusOf(s) == Incomplete;
    assert FirstComplete(s, 1) == 0;
  }

  lemma KeyIsNotEmpty(k: Bytes)
    requires IsKey(k)
    ensures k != [] && k != [ESC]
  {
    EscapeWaits();
  }

  lemma DoubleEscapeIsKey()
    ensures IsKey(DOUBLE_ESCAPE)
  {
    DoubleEscapeIsComplete();
    hide NextLength;
    ExtractUnfolds(DOUBLE_ESCAPE, 2);
    assert DOUBLE_ESCAPE[..2] == DOUBLE_ESCAPE && DOUBLE_ESCAPE[2..] == [];
    StuckExtractsNothing([]);
  }

  // A key in front is taken off, unless it clashes with what follows.
  lemma FrontKey(k: Bytes, more: Bytes)
    requires IsKey(k) && !(k == DOUBLE_ESCAPE && more != [] && Introduces(more[0]))
    ensures Extract(k + more) == Combine(Extracted([k], []), Extract(more))
  {
    hide Extract;
    ExtractInTwoParts(k, more);
    assert [] + more == more;
  }

  lemma FrontClash(k: Bytes, more: Bytes)
    requires k == DOUBLE_ESCAPE && more != [] && Introduces(more[0])
    ensures Extract(k + more).sequences != [] && Extract(k + more).sequences[0] == [ESC]
  {
    hide Extract;
    DoubleEscapeIsKey();
    ExtractSplitsLast(k, more);
  }

  // A lone escape is taken off once its follower's second byte is there.
  lemma FrontEscape(more: Bytes)
    requires Longer(more)
    ensures Extract([ESC] + more) == Combine(Extracted([[ESC]], []), Extract(more))
  {
    var s := [ESC] + more;
    assert s[..1] == [ESC] && s[..2] == DOUBLE_ESCAPE && s[1..] == more;
    SecondEscapeCompletes(s);
    hide FirstComplete;
    assert NextLength(s) == 1;
    hide NextLength;
    ExtractUnfolds(s, 1);
  }

  lemma SecondEscapeCompletes(s: Bytes)
    requires |s| > 2 && s[..2] == DOUBLE_ESCAPE
    ensures FirstComplete(s, 1) == 2 && s[0] == ESC && s[1] == ESC
  {
    assert s[..1] == DOUBLE_ESCAPE[..1] == [ESC];
    assert s[0] == s[..2][0] && s[1] == s[..2][1];
    assert s[1..][0] == ESC;
    assert StatusOf(s[..1]) == Incomplete;
    assert DOUBLE_ESCAPE[1..] == [ESC];
    assert StatusOf(s[..2]) == Complete;
    assert FirstComplete(s, 2) == 2;
  }

  // Part of a key is held back whole.
  lemma PartOfKeyWaits(part: Bytes, more: Bytes)
    requires IsKey(part + more) && part != [] && more != []
    ensures Extract(part) == Extracted([], part)
  {
    hide Extract;
    SplitSpoilsKey(part, more);
    ExtractInTwoParts(part, more);
    StuckExtractsNothing(part);
    FirstIsShort(part);
    CombineFirst(Extract(part), Extract(Extract(part).rest + more));
  }

  lemma CombineFirst(x: Extracted, y: Extracted)
    ensures x.sequences != [] ==> Combine(x, y).sequences[0] == x.sequences[0]
  {
  }

  lemma SplitSpoilsKey(part: Bytes, more: Bytes)
    requires IsKey(part + more)
    ensures !SplitsLast(Extract(part), more)
  {
    hide Extract;
    KeyIsNotEmpty(part + more);
    if SplitsLast(Extract(part), more) {
      ExtractSplitsLast(part, more);
    }
  }

  lemma FirstIsShort(s: Bytes)
    ensures Extract(s).sequences != [] ==> |Extract(s).sequences[0]| <= |s|
  {
    hide NextLength;
  }

  // ---------------------------------------------------------------- lists without their first key

  lemma {:induction false} ConcatSplits(keys: seq<Bytes>, m: nat)
    requires m <= |keys|
    ensures Concat(keys) == Concat(keys[..m]) + Concat(keys[m..])
    ensures |Concat(keys[..m])| == Offset(keys, m)
    decreases m
  {
    hide Concat;
    if m == 0 {
      assert keys[0..] == keys && keys[..0] == [];
      ConcatNothing();
    } else {
      ConcatSplits(keys[1..], m - 1);
      assert keys[..m][1..] == keys[1..][..m - 1] && keys[1..][m - 1..] == keys[m..];
      ConcatFront(keys);
      ConcatFront(keys[..m]);
      JoinAssociates(keys[0], Concat(keys[1..][..m - 1]), Concat(keys[m..]));
    }
  }

  lemma ConcatNothing()
    ensures Concat([]) == [] && forall s: Bytes :: [] + s == s
  {
  }

  lemma ConcatFront(keys: seq<Bytes>)
    requires keys != []
    ensures Concat(keys) == keys[0] + Concat(keys[1..])
  {
  }

  lemma JoinAssociates(a: Bytes, b: Bytes, c: Bytes)
    ensures a + (b + c) == a + b + c
  {
  }

  lemma {:induction false} OffsetSplits(keys: seq<Bytes>, m: nat, i: nat)
    requires m <= i <= |keys|
    ensures Offset(keys, i) == Offset(keys, m) + Offset(keys[m..], i - m)
    decreases m
  {
    if m == 0 {
      assert keys[0..] == keys;
    } else {
      OffsetSplits(keys[1..], m - 1, i - 1);
      assert keys[1..][m - 1..] == keys[m..];
    }
  }

  lemma SuffixIsTypable(keys: seq<Bytes>, m: nat)
    requires Typable(keys) && m <= |keys|
    ensures Typable(keys[m..])
  {
    hide IsKey;
    forall i | 0 <= i < |keys| - m ensures IsKey(keys[m..][i]) || LoneEscape(keys[m..], i) {
      assert IsKey(keys[m + i]) || LoneEscape(keys, m + i);
    }
  }

  lemma SuffixClash(keys: seq<Bytes>, m: nat, i: int)
    requires m <= |keys|
    ensures i > m ==> (Clash(keys, i) <==> Clash(keys[m..], i - m))
    ensures i >= m ==> (LoneEscape(keys, i) <==> LoneEscape(keys[m..], i - m))
  {
  }

  lemma NoKeyIsEmpty(keys: seq<Bytes>, i: nat)
    requires Typable(keys) && i < |keys|
    ensures |keys[i]| > 0
  {
    hide IsKey;
    if IsKey(keys[i]) { KeyIsNotEmpty(keys[i]); }
  }

  lemma {:induction false} OffsetsGrow(keys: seq<Bytes>, i: nat, j: nat)
    requires Typable(keys) && i <= j <= |keys|
    ensures Offset(keys, i) + (j - i) <= Offset(keys, j)
    decreases j
  {
    hide Typable;
    if i < j {
      if i == 0 {
        NoKeyIsEmpty(keys, 0);
        SuffixIsTypable(keys, 1);
        OffsetsGrow(keys[1..], 0, j - 1);
      } else {
        SuffixIsTypable(keys, 1);
        OffsetsGrow(keys[1..], i - 1, j - 1);
      }
    }
  }

  // Taking off the first key shifts what makes a read go well.
  lemma WithoutFirst(keys: seq<Bytes>, n: int)
    requires keys != [] && !(Clash(keys, 1) && |keys[0]| < n) && !(LoneEscape(keys, 0) && n == |keys[0]| + 1)
    ensures ReadsWell(keys, n) <==> ReadsWell(keys[1..], n - |keys[0]|)
  {
    var rest := keys[1..];
    assert Offset(keys, 1) == |keys[0]|;
    if ReadsWell(keys, n) {
      forall i | Clash(rest, i) ensures Offset(rest, i) >= n - |keys[0]| {
        SuffixClash(keys, 1, i + 1);
      }
      forall i | LoneEscape(rest, i) ensures n - |keys[0]| != Offset(rest, i + 1) + 1 {
        SuffixClash(keys, 1, i + 1);
      }
    }
    if ReadsWell(rest, n - |keys[0]|) {
      forall i | Clash(keys, i) ensures Offset(keys, i) >= n {
        SuffixClash(keys, 1, i);
      }
      forall i | LoneEscape(keys, i) ensures n != Offset(keys, i + 1) + 1 {
        SuffixClash(keys, 1, i);
      }
    }
  }

  // ---------------------------------------------------------------- a read of part of the keys

  /** What a read that goes well gives: the first m keys; the rest of its bytes are
      part of the next key. */
  ghost predicate Gives(keys: seq<Bytes>, first: Extracted, u: Bytes, m: nat) {
    && m <= |keys| && first.sequences == keys[..m] && first.rest + u == Concat(keys[m..])
    && (m < |keys| ==> |first.rest| < |keys[m]| || (keys[m] == [ESC] && |first.rest| == 1 && u != []))
    && (m == |keys| ==> first.rest == [] && u == [])
    && (m > 0 && keys[m - 1] == [ESC] ==> |first.rest| > 1)
  }

  /** The sequences are not the keys: at some place one is a single escape and the
      other a doubled one. */
  ghost predicate Misreads(sequences: seq<Bytes>, keys: seq<Bytes>, j: nat) {
    && j < |sequences| && j < |keys| && sequences[..j] == keys[..j]
    && ((sequences[j] == [ESC] && keys[j] == DOUBLE_ESCAPE) || (sequences[j] == DOUBLE_ESCAPE && keys[j] == [ESC]))
  }

  lemma GivesPrepends(keys: seq<Bytes>, first: Extracted, u: Bytes, m: nat)
    requires keys != [] && Gives(keys[1..], first, u, m) && (m == 0 && keys[0] == [ESC] ==> |first.rest| > 1)
    ensures Gives(keys, Combine(Extracted([keys[0]], []), first), u, m + 1)
  {
    assert keys[m + 1..] == keys[1..][m..];
    assert [keys[0]] + keys[1..][..m] == keys[..m + 1];
  }

  lemma MisreadsPrepends(sequences: seq<Bytes>, keys: seq<Bytes>, j: nat)
    requires keys != [] && Misreads(sequences, keys[1..], j)
    ensures Misreads([keys[0]] + sequences, keys, j + 1)
  {
    assert ([keys[0]] + sequences)[..j + 1] == [keys[0]] + keys[1..][..j] == keys[..j + 1];
  }

  /** A read of the first bytes of a list of keys gives the keys it has reached
      exactly when it goes well; otherwise it misreads one. */
  lemma {:induction false} PartRead(keys: seq<Bytes>, b: Bytes, u: Bytes) returns (m: nat)
    requires Typable(keys) && Concat(keys) == b + u
    ensures if ReadsWell(keys, |b|) then Gives(keys, Extract(b), u, m) else Misreads(Extract(b).sequences, keys, m)
    decreases |keys|
  {
    hide Extract, IsKey, Typable, ReadsWell, Gives, Misreads;
    if keys == [] {
      m := NoKeysRead(b, u);
    } else if b == [] {
      m := NothingRead(keys, u);
    } else if keys[0] == [ESC] {
      m := EscapeRead(keys, b, u);
    } else {
      FirstIsKey(keys);
      if |b| < |keys[0]| {
        m := PartOfFirstRead(keys, b, u);
      } else {
        m := FirstRead(keys, b, u);
      }
    }
  }

  lemma FirstIsKey(keys: seq<Bytes>)
    requires Typable(keys) && keys != []
    ensures if keys[0] == [ESC] then LoneEscape(keys, 0) else IsKey(keys[0])
  {
    hide IsKey;
    EscapeIsNoKey();
    assert IsKey(keys[0]) || LoneEscape(keys, 0);
  }

  lemma EscapeIsNoKey()
    ensures !IsKey([ESC])
  {
    EscapeWaits();
  }

  lemma NoKeysRead(b: Bytes, u: Bytes) returns (m: nat)
    requires Concat([]) == b + u
    ensures ReadsWell([], |b|) && Gives([], Extract(b), u, m)
  {
    StuckExtractsNothing(b);
    m := 0;
  }

  lemma NothingRead(keys: seq<Bytes>, u: Bytes) returns (m: nat)
    requires Typable(keys) && keys != [] && Concat(keys) == [] + u
    ensures ReadsWell(keys, 0) && Gives(keys, Extract([]), u, m)
  {
    hide IsKey, Extract;
    StuckExtractsNothing([]);
    NoKeyIsEmpty(keys, 0);
    assert keys[0..] == keys && [] + u == u;
    m := 0;
  }

  // Positions past the first key's bytes.
  lemma ShortReadsGoWell(keys: seq<Bytes>, n: nat)
    requires Typable(keys) && keys != [] && n <= |keys[0]| && (n == |keys[0]| ==> keys[0] == [ESC])
    ensures ReadsWell(keys, n)
  {
    hide Typable;
    forall i | Clash(keys, i) ensures Offset(keys, i) >= n { OffsetsGrow(keys, 1, i); }
    forall i | LoneEscape(keys, i) ensures n != Offset(keys, i + 1) + 1 { OffsetsGrow(keys, 1, i + 1); }
  }

  lemma PartOfFirstRead(keys: seq<Bytes>, b: Bytes, u: Bytes) returns (m: nat)
    requires Typable(keys) && keys != [] && IsKey(keys[0]) && Concat(keys) == b + u && 0 < |b| < |keys[0]|
    ensures ReadsWell(keys, |b|) && Gives(keys, Extract(b), u, m)
  {
    hide IsKey, Extract, Typable, ReadsWell;
    ShortReadsGoWell(keys, |b|);
    var more := keys[0][|b|..];
    assert Concat(keys)[..|b|] == keys[0][..|b|] && (b + u)[..|b|] == b;
    assert b + more == keys[0];
    PartOfKeyWaits(b, more);
    assert keys[0..] == keys && keys[..0] == [];
    m := 0;
  }

  // The bytes read past the first key, if it does not clash with them.
  lemma FirstRead(keys: seq<Bytes>, b: Bytes, u: Bytes) returns (m: nat)
    requires Typable(keys) && keys != [] && keys[0] != [ESC] && IsKey(keys[0]) && Concat(keys) == b + u && |b| >= |keys[0]|
    ensures if ReadsWell(keys, |b|) then Gives(keys, Extract(b), u, m) else Misreads(Extract(b).sequences, keys, m)
    decreases |keys|, 0
  {
    hide IsKey, Extract, Typable, ReadsWell, Gives, Misreads;
    var k, rest := keys[0], keys[1..];
    var b' := b[|k|..];
    AfterFirst(keys, b, u);
    SuffixIsTypable(keys, 1);
    if Clash(keys, 1) && b' != [] {
      m := ClashRead(keys, b, b', u);
    } else {
      NextByte(keys, b', u);
      FrontKey(k, b');
      WithoutFirst(keys, |b|);
      m := PartRead(rest, b', u);
      if ReadsWell(keys, |b|) {
        GivesPrepends(keys, Extract(b'), u, m);
      } else {
        MisreadsPrepends(Extract(b').sequences, keys, m);
      }
      m := m + 1;
    }
  }

  lemma AfterFirst(keys: seq<Bytes>, b: Bytes, u: Bytes)
    requires keys != [] && Concat(keys) == b + u && |b| >= |keys[0]|
    ensures b == keys[0] + b[|keys[0]|..] && Concat(keys[1..]) == b[|keys[0]|..] + u
  {
    var k := keys[0];
    assert (b + u)[..|k|] == b[..|k|] && Concat(keys)[..|k|] == k;
    assert Concat(keys)[|k|..] == Concat(keys[1..]) && (b + u)[|k|..] == b[|k|..] + u;
  }

  // The byte after the first key is the first of the second one.
  lemma NextByte(keys: seq<Bytes>, b: Bytes, u: Bytes)
    requires Typable(keys) && keys != [] && Concat(keys[1..]) == b + u
    ensures b != [] && keys[0] == DOUBLE_ESCAPE ==> |keys| > 1 && (Introduces(b[0]) <==> Clash(keys, 1))
  {
    hide IsKey;
    if b != [] && keys[0] == DOUBLE_ESCAPE {
      NoKeyIsEmpty(keys, 1);
      assert b[0] == (b + u)[0] == Concat(keys[1..])[0] == keys[1][0];
    }
  }

  lemma ClashRead(keys: seq<Bytes>, b: Bytes, b': Bytes, u: Bytes) returns (m: nat)
    requires Typable(keys) && Clash(keys, 1) && b' != [] && b == keys[0] + b' && Concat(keys[1..]) == b' + u
    ensures !ReadsWell(keys, |b|) && Misreads(Extract(b).sequences, keys, m)
  {
    hide IsKey, Extract, Typable;
    NextByte(keys, b', u);
    FrontClash(keys[0], b');
    assert Offset(keys, 1) == |keys[0]|;
    m := 0;
  }

  lemma EscapeRead(keys: seq<Bytes>, b: Bytes, u: Bytes) returns (m: nat)
    requires Typable(keys) && keys != [] && keys[0] == [ESC] && b != [] && Concat(keys) == b + u
    ensures if ReadsWell(keys, |b|) then Gives(keys, Extract(b), u, m) else Misreads(Extract(b).sequences, keys, m)
    decreases |keys|, 0
  {
    hide IsKey, Extract, Typable, ReadsWell, Gives, Misreads;
    FirstIsKey(keys);
    var b' := b[1..];
    AfterFirst(keys, b, u);
    assert |keys[0]| == 1 && b == [ESC] + b';
    if |b| == 1 {
      assert b == [ESC];
      m := OnlyEscapeRead(keys, u);
    } else {
      FollowerBytes(keys, b', u);
      if |b| == 2 {
        assert b == DOUBLE_ESCAPE;
        m := EscapeMisread(keys);
      } else {
        FrontEscape(b');
        SuffixIsTypable(keys, 1);
        WithoutFirst(keys, |b|);
        m := PartRead(keys[1..], b', u);
        if ReadsWell(keys, |b|) {
          HeldOrTaken(keys[1..], Extract(b'), u, m, b');
          GivesPrepends(keys, Extract(b'), u, m);
        } else {
          MisreadsPrepends(Extract(b').sequences, keys, m);
        }
        m := m + 1;
      }
    }
  }

  // With nothing taken off, every byte is held.
  lemma HeldOrTaken(keys: seq<Bytes>, first: Extracted, u: Bytes, m: nat, b: Bytes)
    requires Gives(keys, first, u, m) && first == Extract(b)
    ensures m == 0 ==> first.rest == b
  {
    hide Extract;
    StuckExtractsNothing(b);
  }

  lemma FollowerBytes(keys: seq<Bytes>, b': Bytes, u: Bytes)
    requires LoneEscape(keys, 0) && Concat(keys[1..]) == b' + u && b' != []
    ensures b'[0] == ESC && (|b'| > 1 ==> Longer(b'))
  {
    var whole := Concat(keys[1..]);
    assert whole[0] == keys[1][0] && whole[1] == keys[1][1];
    assert b'[0] == (b' + u)[0];
    if |b'| > 1 { assert b'[1] == (b' + u)[1]; }
  }

  lemma OnlyEscapeRead(keys: seq<Bytes>, u: Bytes) returns (m: nat)
    requires Typable(keys) && LoneEscape(keys, 0) && Concat(keys) == [ESC] + u
    ensures ReadsWell(keys, 1) && Gives(keys, Extract([ESC]), u, m)
  {
    hide IsKey, Extract, Typable, ReadsWell;
    ShortReadsGoWell(keys, 1);
    EscapeWaits();
    assert keys[0..] == keys;
    assert |Concat(keys)| == 1 + |Concat(keys[1..])| && |Concat(keys[1..])| >= |keys[1]|;
    m := 0;
  }

  lemma EscapeMisread(keys: seq<Bytes>) returns (m: nat)
    requires LoneEscape(keys, 0)
    ensures !ReadsWell(keys, 2) && Misreads(Extract(DOUBLE_ESCAPE).sequences, keys, m)
  {
    hide Extract;
    DoubleEscapeIsKey();
    assert Offset(keys, 1) == 1;
    m := 0;
  }

  // ---------------------------------------------------------------- whole lists

  lemma WholeReadGoesWell(keys: seq<Bytes>, n: int)
    requires Typable(keys) && n >= |Concat(keys)|
    ensures ReadsWell(keys, n) <==> NoClash(keys)
  {
    hide Typable;
    ConcatSplits(keys, |keys|);
    assert keys[..|keys|] == keys && keys[|keys|..] == [];
    forall i | Clash(keys, i) ensures Offset(keys, i) < n { OffsetsGrow(keys, i, |keys|); }
    forall i | LoneEscape(keys, i) ensures n != Offset(keys, i + 1) + 1 {
      OffsetSplits(keys, i + 1, |keys|);
      FollowerIsLong(keys, i);
      OffsetsGrow(keys, i + 2, |keys|);
      OffsetSplits(keys, i + 1, i + 2);
      assert keys[i + 1..][0] == keys[i + 1];
    }
  }

  lemma FollowerIsLong(keys: seq<Bytes>, i: int)
    requires LoneEscape(keys, i)
    ensures |keys[i + 1]| > 1
  {
  }

  /** Printed keys are read back exactly when no doubled escape stands before a key
      that begins with a byte its second half could introduce. */
  lemma KeysAreReadBack(keys: seq<Bytes>)
    requires Typable(keys)
    ensures Extract(Concat(keys)) == Extracted(keys, []) <==> NoClash(keys)
  {
    hide Extract, Typable, ReadsWell, NoClash;
    var b := Concat(keys);
    assert b + [] == b;
    WholeReadGoesWell(keys, |b|);
    var m := PartRead(keys, b, []);
    if ReadsWell(keys, |b|) {
      AllAreGiven(keys, Extract(b), m);
    }
  }

  // With no byte missing no key is.
  lemma AllAreGiven(keys: seq<Bytes>, first: Extracted, m: nat)
    requires Gives(keys, first, [], m)
    ensures first == Extracted(keys, [])
  {
    assert first.rest + [] == first.rest;
    KeyIsPart(keys, m);
    assert keys[..|keys|] == keys;
  }

  lemma KeyIsPart(keys: seq<Bytes>, m: nat)
    ensures m < |keys| ==> |Concat(keys[m..])| >= |keys[m]|
  {
    if m < |keys| { assert keys[m..][0] == keys[m]; }
  }
}
