// The terminal reports that input reading tells apart by pattern
// (internal/tui/stdin_buffer.go): SGR mouse reports, and the Kitty reports of
// printable characters.

module Reports {
  import opened Options
  import opened Utf8
  import opened InputSequences
  import opened StdinBuffer

  const SEMICOLON: Byte := 0x3B
  const COLON: Byte := 0x3A

  predicate Digit(b: Byte) { b as int - 0x30 in {0, 1, 2, 3, 4, 5, 6, 7, 8, 9} }

  predicate Digits(s: Bytes) { forall i :: 0 <= i < |s| ==> Digit(s[i]) }

  predicate Number(s: Bytes) { s != [] && Digits(s) }

  // ---------------------------------------------------------------- mouse reports

  /** ESC [ < button ; column ; row M, or m for a release. */
  ghost predicate MouseReport(s: Bytes, button: Bytes, column: Bytes, row: Bytes, final: Byte) {
    && Number(button) && Number(column) && Number(row) && final in {0x4D, 0x6D}
    && s == [ESC, 0x5B, 0x3C] + button + [SEMICOLON] + column + [SEMICOLON] + row + [final]
  }

  lemma {:induction false} FieldsSkipDigits(x: Bytes, rest: Bytes, open: nat, begun: bool)
    requires Digits(x)
    ensures DigitFields(x + rest, open, begun) == DigitFields(rest, open, begun || x != [])
    decreases |x|
  {
    if x == [] {
      assert x + rest == rest;
    } else {
      assert (x + rest)[1..] == x[1..] + rest;
      FieldsSkipDigits(x[1..], rest, open, true);
    }
  }

  lemma FieldsMoveOn(rest: Bytes, open: nat)
    ensures DigitFields([SEMICOLON] + rest, open, true) <==> open > 0 && DigitFields(rest, open - 1, false)
  {
    assert ([SEMICOLON] + rest)[1..] == rest;
  }

  // What a field takes off the front.
  lemma {:induction false} FieldsSplit(s: Bytes, open: nat, begun: bool) returns (x: Bytes, rest: Bytes)
    requires DigitFields(s, open, begun)
    ensures Digits(x) && (begun || x != [])
    ensures open == 0 ==> s == x && rest == []
    ensures open > 0 ==> s == x + [SEMICOLON] + rest && DigitFields(rest, open - 1, false)
    decreases |s|
  {
    if s == [] {
      x, rest := [], [];
    } else if IsDigit(s[0]) {
      x, rest := FieldsSplit(s[1..], open, true);
      x := [s[0]] + x;
    } else {
      x, rest := [], s[1..];
    }
  }

  lemma MouseReportRead(s: Bytes, button: Bytes, column: Bytes, row: Bytes, final: Byte)
    requires MouseReport(s, button, column, row, final)
    ensures IsSgrMouse(s)
  {
    hide DigitFields, Digits;
    var fields := button + ([SEMICOLON] + (column + ([SEMICOLON] + row)));
    assert s[3..|s| - 1] == fields && s[..3] == [ESC, 0x5B, 0x3C];
    FieldsSkipDigits(button, [SEMICOLON] + (column + ([SEMICOLON] + row)), 2, false);
    FieldsMoveOn(column + ([SEMICOLON] + row), 2);
    FieldsSkipDigits(column, [SEMICOLON] + row, 1, false);
    FieldsMoveOn(row, 1);
    FieldsSkipDigits(row, [], 0, false);
    assert row + [] == row && DigitFields([], 0, true) by { NothingOpen(); }
  }

  lemma NothingOpen()
    ensures DigitFields([], 0, true)
  {
  }

  /** The test for mouse reports accepts exactly the reports: three numbers between
      semicolons and a press or a release. */
  lemma MouseReportsAreRecognised(s: Bytes)
    ensures IsSgrMouse(s) <==> exists button, column, row, final :: MouseReport(s, button, column, row, final)
  {
    hide DigitFields, Digits;
    if IsSgrMouse(s) {
      var fields, final := s[3..|s| - 1], s[|s| - 1];
      var button, rest := FieldsSplit(fields, 2, false);
      var column, rest2 := FieldsSplit(rest, 1, false);
      var row, _ := FieldsSplit(rest2, 0, false);
      assert s == [ESC, 0x5B, 0x3C] + fields + [final];
      assert MouseReport(s, button, column, row, final);
    }
    if exists button, column, row, final :: MouseReport(s, button, column, row, final) {
      var button, column, row, final :| MouseReport(s, button, column, row, final);
      MouseReportRead(s, button, column, row, final);
    }
  }

  // ---------------------------------------------------------------- printable characters

  /** ESC [ number u, with an alternate key after a colon, and a base key after
      another one, where the terminal sends them. */
  ghost predicate PrintableReport(s: Bytes, number: Bytes, keys: Bytes) {
    && Number(number) && AlternateKeys(keys)
    && s == [ESC, 0x5B] + number + keys + [0x75]
  }

  ghost predicate AlternateKeys(s: Bytes) {
    s == [] || exists shifted, base :: KeysAre(s, shifted, base)
  }

  // The shifted key may be left empty; the base key may be left out.
  ghost predicate KeysAre(s: Bytes, shifted: Bytes, base: Bytes) {
    && Digits(shifted) && Digits(base)
    && s == [COLON] + shifted + (if base == [] then [] else [COLON] + base)
  }

  lemma {:induction false} CountedDigits(x: Bytes, rest: Bytes)
    requires Digits(x) && (rest == [] || !Digit(rest[0]))
    ensures DigitCount(x + rest) == |x|
    decreases |x|
  {
    if x == [] {
      assert x + rest == rest;
    } else {
      assert (x + rest)[1..] == x[1..] + rest;
      CountedDigits(x[1..], rest);
    }
  }

  lemma {:induction false} CountStops(s: Bytes)
    ensures var n := DigitCount(s); Digits(s[..n]) && (n == |s| || !Digit(s[n]))
    decreases |s|
  {
    if s != [] && IsDigit(s[0]) {
      CountStops(s[1..]);
      assert s[..DigitCount(s)] == [s[0]] + s[1..][..DigitCount(s[1..])];
    }
  }

  lemma SuffixListsKeys(s: Bytes)
    requires s != [] && IsKittySuffix(s)
    ensures AlternateKeys(s)
  {
    hide DigitCount, Digits;
    assert Digits([]) by { NoDigits(); }
    CountStops(s[1..]);
    var n := DigitCount(s[1..]);
    var shifted, rest := s[1..][..n], s[1 + n..];
    assert s == [COLON] + shifted + rest;
    if rest == [] {
      assert KeysAre(s, shifted, []);
    } else {
      CountStops(rest[1..]);
      assert rest[1..][..|rest| - 1] == rest[1..];
      assert KeysAre(s, shifted, rest[1..]);
    }
  }

  lemma KeysMakeSuffix(s: Bytes, shifted: Bytes, base: Bytes)
    requires KeysAre(s, shifted, base)
    ensures IsKittySuffix(s)
  {
    hide DigitCount, Digits;
    var rest := if base == [] then [] else [COLON] + base;
    assert s[1..] == shifted + rest;
    CountedDigits(shifted, rest);
    assert s[1 + |shifted|..] == rest;
    if base != [] {
      assert rest[1..] == base == base + [];
      CountedDigits(base, []);
    }
  }

  lemma SuffixIsAlternateKeys(s: Bytes)
    ensures IsKittySuffix(s) <==> AlternateKeys(s)
  {
    hide DigitCount, Digits, KeysAre;
    if s != [] {
      if IsKittySuffix(s) {
        SuffixListsKeys(s);
      } else if AlternateKeys(s) {
        var shifted, base :| KeysAre(s, shifted, base);
        KeysMakeSuffix(s, shifted, base);
      }
    }
  }

  lemma NoDigits()
    ensures Digits([])
  {
  }

  lemma ReportBody(s: Bytes, body: Bytes, n: nat)
    requires s == [ESC, 0x5B] + body + [0x75] && 0 < n == DigitCount(body) && IsKittySuffix(body[n..])
    ensures forall i :: 0 <= i < n ==> IsDigit(body[..n][i])
    ensures var value := DecimalValue(body[..n]);
      KittyPrintable(s) == if 32 <= value <= MAX_RUNE then Some(value) else None
  {
    hide IsKittySuffix, DecimalValue;
    assert s[2..|s| - 1] == body && s[..2] == [ESC, 0x5B];
  }

  lemma PrintableReportRead(s: Bytes, number: Bytes, keys: Bytes)
    requires PrintableReport(s, number, keys)
    ensures forall i :: 0 <= i < |number| ==> IsDigit(number[i])
    ensures var value := DecimalValue(number);
      KittyPrintable(s) == if 32 <= value <= MAX_RUNE then Some(value) else None
  {
    hide DigitCount, IsKittySuffix, AlternateKeys, DecimalValue, KittyPrintable, Digits, Digit, IsDigit;
    AllAreDigits(number);
    SuffixIsAlternateKeys(keys);
    StartsAfterDigits(keys);
    CountedDigits(number, keys);
    var body := number + keys;
    assert body[..|number|] == number && body[|number|..] == keys;
    assert s == [ESC, 0x5B] + body + [0x75];
    ReportBody(s, body, |number|);
  }

  lemma AllAreDigits(s: Bytes)
    requires Digits(s)
    ensures forall i :: 0 <= i < |s| ==> IsDigit(s[i])
  {
  }

  lemma StartsAfterDigits(keys: Bytes)
    requires AlternateKeys(keys)
    ensures keys == [] || !Digit(keys[0])
  {
  }

  // A number as it is written, without leading zeros.
  function Decimal(n: nat): Bytes {
    (if n < 10 then [] else Decimal(n / 10)) + [0x30 + n % 10]
  }

  function Zeros(k: nat): Bytes { seq(k, _ => 0x30) }

  lemma ValueUnfolds(s: Bytes, digit: nat)
    requires digit < 10 && forall i :: 0 <= i < |s| ==> IsDigit(s[i])
    ensures var t: Bytes := s + [0x30 + digit];
      (forall i :: 0 <= i < |t| ==> IsDigit(t[i])) && DecimalValue(t) == DecimalValue(s) * 10 + digit
  {
    hide DecimalValue;
    var t: Bytes := s + [0x30 + digit];
    assert t[..|t| - 1] == s;
    assert DecimalValue(t) == DecimalValue(s) * 10 + digit by { ValueOfLast(t); }
  }

  lemma ValueOfLast(t: Bytes)
    requires t != [] && forall i :: 0 <= i < |t| ==> IsDigit(t[i])
    ensures DecimalValue(t) == DecimalValue(t[..|t| - 1]) * 10 + t[|t| - 1] - 0x30
  {
  }

  // A digit behind a form: that of zero gains a zero, any other its last digit.
  lemma DecimalGrows(k: nat, v: nat, digit: nat)
    requires digit < 10
    ensures var last: Bytes := [0x30 + digit];
      Zeros(k) + Decimal(v) + last == if v == 0 then Zeros(k + 1) + Decimal(digit) else Zeros(k) + Decimal(v * 10 + digit)
  {
    if v == 0 {
      assert Zeros(k) + Decimal(0) == Zeros(k + 1);
    }
  }

  lemma {:induction false} ZerosHaveNoValue(k: nat)
    ensures (forall i :: 0 <= i < k ==> IsDigit(Zeros(k)[i])) && DecimalValue(Zeros(k)) == 0
  {
    if k > 0 {
      ZerosHaveNoValue(k - 1);
      ValueUnfolds(Zeros(k - 1), 0);
      assert Zeros(k) == Zeros(k - 1) + [0x30];
    }
  }

  lemma {:induction false} DecimalHasValue(n: nat, k: nat)
    ensures var s := Zeros(k) + Decimal(n); (forall i :: 0 <= i < |s| ==> IsDigit(s[i])) && DecimalValue(s) == n
    decreases n
  {
    hide DecimalValue;
    if n < 10 {
      ZerosHaveNoValue(k);
      ValueUnfolds(Zeros(k), n);
      assert Zeros(k) + Decimal(n) == Zeros(k) + [0x30 + n];
    } else {
      DecimalHasValue(n / 10, k);
      ValueUnfolds(Zeros(k) + Decimal(n / 10), n % 10);
      assert Zeros(k) + Decimal(n) == Zeros(k) + Decimal(n / 10) + [0x30 + n % 10];
    }
  }

  // A number is the decimal form of its value behind zeros.
  lemma {:induction false} NumberIsDecimal(s: Bytes) returns (v: nat, k: nat)
    requires Number(s) && forall i :: 0 <= i < |s| ==> IsDigit(s[i])
    ensures DecimalValue(s) == v && s == Zeros(k) + Decimal(v)
    decreases |s|
  {
    hide DecimalValue, Decimal, Zeros;
    var n := |s| - 1;
    assert Digit(s[n]);
    var digit: nat := s[n] - 0x30;
    assert s == s[..n] + [0x30 + digit];
    ValueUnfolds(s[..n], digit);
    if n == 0 {
      v, k := digit, 0;
      assert s[..0] == [];
      assert s == Zeros(0) + Decimal(digit) && DecimalValue(s) == digit by { OneDigit(digit); }
    } else {
      var w, j := NumberIsDecimal(s[..n]);
      DecimalGrows(j, w, digit);
      v, k := w * 10 + digit, if w == 0 then j + 1 else j;
    }
  }

  lemma OneDigit(digit: nat)
    requires digit < 10
    ensures DecimalValue([]) == 0 && Zeros(0) + Decimal(digit) == [0x30 + digit]
  {
  }

  ghost predicate Names(s: Bytes, r: nat) { exists k: nat, keys :: PrintableReport(s, Zeros(k) + Decimal(r), keys) }

  /** A printable character is named by exactly the reports of its number, whatever
      zeros it starts with and whatever other keys the terminal adds. */
  lemma PrintablesAreNamed(s: Bytes, r: nat)
    ensures KittyPrintable(s) == Some(r) <==> 32 <= r <= MAX_RUNE && Names(s, r)
  {
    hide DigitCount, IsKittySuffix, AlternateKeys, Digits, DecimalValue, Decimal, Zeros;
    if KittyPrintable(s) == Some(r) {
      var body := s[2..|s| - 1];
      var n := DigitCount(body);
      CountStops(body);
      SuffixIsAlternateKeys(body[n..]);
      var v, k := NumberIsDecimal(body[..n]);
      assert s == [ESC, 0x5B] + body[..n] + body[n..] + [0x75];
      assert PrintableReport(s, Zeros(k) + Decimal(r), body[n..]);
    }
    if Names(s, r) {
      hide KittyPrintable;
      var k: nat, keys :| PrintableReport(s, Zeros(k) + Decimal(r), keys);
      PrintableReportRead(s, Zeros(k) + Decimal(r), keys);
      DecimalHasValue(r, k);
    }
  }

  // ---------------------------------------------------------------- repetitions

  /** The character as a terminal sends it; a byte that encodes nothing stands for the
      replacement character as well. */
  predicate Spells(data: Bytes, r: nat) {
    (IsScalar(r) && data == Encode(r)) || (r == RUNE_ERROR && |data| == 1 && data[0] >= 0x80)
  }

  lemma SpellingsAreRead(data: Bytes, r: nat)
    ensures IsSingleRune(data, r) <==> Spells(data, r)
  {
    hide Encode, WellFormed, Payload;
    if IsSingleRune(data, r) && (|data| > 1 || data[0] < 0x80) {
      DecodedIsEncoded(data);
      assert data[..|data|] == data;
    }
    if IsScalar(r) && data == Encode(r) {
      EncodedIsDecoded(r, []);
      assert data + [] == data;
      EncodesSomething(r);
    }
    if |data| == 1 && data[0] >= 0x80 { OneByteIsNothing(data); }
  }

  lemma EncodesSomething(r: nat)
    requires IsScalar(r)
    ensures Encode(r) != []
  {
  }

  lemma OneByteIsNothing(data: Bytes)
    requires |data| == 1 && data[0] >= 0x80
    ensures !WellFormed(data)
  {
  }

  /** The key is the character that the report names. */
  ghost predicate Repetition(report: Bytes, key: Bytes) {
    exists r: nat :: 32 <= r <= MAX_RUNE && Names(report, r) && Spells(key, r)
  }

  lemma RepetitionsAreSeen(report: Bytes, key: Bytes)
    ensures Repeats(KittyPrintable(report), key) <==> Repetition(report, key)
  {
    hide KittyPrintable, Names, Spells, IsSingleRune;
    if Repeats(KittyPrintable(report), key) {
      var r: nat := PrintableIsNatural(report);
      PrintablesAreNamed(report, r);
      SpellingsAreRead(key, r);
    }
    if Repetition(report, key) {
      var r: nat :| 32 <= r <= MAX_RUNE && Names(report, r) && Spells(key, r);
      PrintablesAreNamed(report, r);
      SpellingsAreRead(key, r);
    }
  }

  lemma PrintableIsNatural(report: Bytes) returns (r: nat)
    requires KittyPrintable(report).Some?
    ensures KittyPrintable(report) == Some(r)
  {
    hide DecimalValue;
    r := KittyPrintable(report).value;
  }

  /** Key i repeats the report before it, which is not itself dropped. */
  ghost predicate Dropped(keys: seq<Bytes>, i: int)
    requires i < |keys|
    decreases i
  {
    i > 0 && !Dropped(keys, i - 1) && Repetition(keys[i - 1], keys[i])
  }

  ghost function Kept(keys: seq<Bytes>, n: nat): seq<Event>
    requires n <= |keys|
  {
    if n == 0 then [] else Kept(keys, n - 1) + if Dropped(keys, n - 1) then [] else [Key(keys[n - 1])]
  }

  ghost function PendingAt(keys: seq<Bytes>, i: nat): Option<int>
    requires i <= |keys|
  {
    if i == 0 || Dropped(keys, i - 1) then None else KittyPrintable(keys[i - 1])
  }

  lemma {:induction false} EmitsTheRest(keys: seq<Bytes>, i: nat)
    requires i <= |keys|
    ensures Kept(keys, i) + Emit(PendingAt(keys, i), keys[i..]).events == Kept(keys, |keys|)
    decreases |keys| - i
  {
    hide Repeats, Repetition, KittyPrintable;
    if i < |keys| {
      var rest := keys[i..];
      assert rest[0] == keys[i] && rest[1..] == keys[i + 1..];
      assert Repeats(PendingAt(keys, i), keys[i]) <==> Dropped(keys, i) by {
        if i == 0 || Dropped(keys, i - 1) { NothingRepeats(keys[i]); } else { RepetitionsAreSeen(keys[i - 1], keys[i]); }
      }
      EmitsTheRest(keys, i + 1);
      if !Dropped(keys, i) {
        var tail := Emit(KittyPrintable(keys[i]), keys[i + 1..]);
        assert Kept(keys, i) + ([Key(keys[i])] + tail.events) == (Kept(keys, i) + [Key(keys[i])]) + tail.events;
      }
    }
  }

  lemma NothingRepeats(key: Bytes)
    ensures !Repeats(None, key)
  {
  }

  /** Of the keys read, exactly those are dropped that spell the character named by the
      report just before them; a report counts once, and the others come in order. */
  lemma RepetitionsAreDropped(keys: seq<Bytes>)
    ensures Emit(None, keys).events == Kept(keys, |keys|)
  {
    hide Emit, Dropped, Repetition, KittyPrintable;
    EmitsTheRest(keys, 0);
    assert keys[0..] == keys && Kept(keys, 0) == [];
  }
}
