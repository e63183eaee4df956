// UTF-8 decoding as Go's unicode/utf8 performs it on a possibly truncated input:
// the well-formed byte sequences are those of RFC 3629, section 4, and anything
// else decodes as one replacement character of one byte.

module Utf8 {

  type Byte = b: int | 0 <= b < 256
  type Bytes = seq<Byte>

  const RUNE_ERROR := 0xFFFD
  const MAX_RUNE := 0x10FFFF

  // Length announced by a leading byte; one for ASCII and for bytes that lead nothing.
  function Announced(b: Byte): (n: nat)
    ensures 1 <= n <= 4
  {
    if b < 0xC2 then 1
    else if b < 0xE0 then 2
    else if b < 0xF0 then 3
    else if b < 0xF5 then 4
    else 1
  }

  // Whether a second byte may follow a leading one; rules out overlong forms,
  // surrogates and values above MAX_RUNE.
  predicate SecondOk(lead: Byte, b: Byte) {
    if lead == 0xE0 then 0xA0 <= b <= 0xBF
    else if lead == 0xED then 0x80 <= b <= 0x9F
    else if lead == 0xF0 then 0x90 <= b <= 0xBF
    else if lead == 0xF4 then 0x80 <= b <= 0x8F
    else 0x80 <= b <= 0xBF
  }

  predicate Continues(b: Byte) { 0x80 <= b <= 0xBF }

  /** The part of the input decides the rune: either a whole encoding is there or
      a byte is already wrong. */
  predicate FullRune(s: Bytes) {
    && |s| > 0
    && var n := Announced(s[0]);
       || |s| >= n
       || (|s| > 1 && !SecondOk(s[0], s[1]))
       || (|s| > 2 && !Continues(s[2]))
  }

  predicate WellFormed(s: Bytes) {
    && |s| > 0
    && var n := Announced(s[0]);
       && n > 1
       && |s| >= n
       && SecondOk(s[0], s[1])
       && (n > 2 ==> Continues(s[2]))
       && (n > 3 ==> Continues(s[3]))
  }

  /** Bytes taken by the first rune. */
  function RuneSize(s: Bytes): (n: nat)
    ensures s != [] ==> 1 <= n <= |s|
    ensures s == [] ==> n == 0
  {
    if s == [] then 0 else if WellFormed(s) then Announced(s[0]) else 1
  }

  function DecodeRune(s: Bytes): int {
    if s == [] then RUNE_ERROR
    else if s[0] < 0x80 then s[0]
    else if !WellFormed(s) then RUNE_ERROR
    else
      Payload(s, Announced(s[0]))
  }

  // The payload bits of the first k bytes of an encoding.
  function Payload(s: Bytes, k: nat): int
    requires WellFormed(s) && 1 <= k <= Announced(s[0])
  {
    if k == 1 then (s[0] as int) - (if s[0] < 0xE0 then 0xC0 else if s[0] < 0xF0 then 0xE0 else 0xF0)
    else Payload(s, k - 1) * 0x40 + (s[k - 1] as int) - 0x80
  }

  /** More input never changes a rune that was already decided. */
  lemma FullRuneIsStable(s: Bytes, more: Bytes)
    requires FullRune(s)
    ensures FullRune(s + more) && RuneSize(s + more) == RuneSize(s)
  {
    var t := s + more;
    assert forall i :: 0 <= i < |s| ==> t[i] == s[i];
  }

  /** An undecided rune is a proper prefix of an encoding, and decodes as one byte. */
  lemma PartialRuneIsOneByte(s: Bytes)
    requires s != [] && !FullRune(s)
    ensures s[0] >= 0x80 && RuneSize(s) == 1 && |s| < Announced(s[0])
  {
  }

  // ---------------------------------------------------------------- encoding

  /** The characters that have an encoding: no surrogates. */
  predicate IsScalar(r: int) { 0 <= r <= MAX_RUNE && !(0xD800 <= r <= 0xDFFF) }

  function Encode(r: int): Bytes
    requires IsScalar(r)
  {
    if r < 0x80 then [r]
    else if r < 0x800 then [0xC0 + r / 0x40, 0x80 + r % 0x40]
    else if r < 0x10000 then [0xE0 + r / 0x1000, 0x80 + r / 0x40 % 0x40, 0x80 + r % 0x40]
    else [0xF0 + r / 0x40000, 0x80 + r / 0x1000 % 0x40, 0x80 + r / 0x40 % 0x40, 0x80 + r % 0x40]
  }

  // Six bits a byte, put together and taken apart again.
  lemma TwoParts(a: int, b: int)
    requires 0 <= b < 0x40
    ensures var r := a * 0x40 + b; r / 0x40 == a && r % 0x40 == b
  {
  }

  lemma ThreeParts(a: int, b: int, c: int)
    requires 0 <= b < 0x40 && 0 <= c < 0x40
    ensures var r := (a * 0x40 + b) * 0x40 + c; r / 0x1000 == a && r / 0x40 % 0x40 == b && r % 0x40 == c
  {
    TwoParts(a * 0x40 + b, c);
    TwoParts(a, b);
  }

  lemma FourParts(a: int, b: int, c: int, d: int)
    requires 0 <= b < 0x40 && 0 <= c < 0x40 && 0 <= d < 0x40
    ensures var r := ((a * 0x40 + b) * 0x40 + c) * 0x40 + d;
      r / 0x40000 == a && r / 0x1000 % 0x40 == b && r / 0x40 % 0x40 == c && r % 0x40 == d
  {
    TwoParts((a * 0x40 + b) * 0x40 + c, d);
    ThreeParts(a, b, c);
  }

  lemma Payloads(s: Bytes)
    requires WellFormed(s)
    ensures var (n, b) := (Announced(s[0]), (s[1] as int) - 0x80);
      && (n == 2 ==> Payload(s, n) == ((s[0] as int) - 0xC0) * 0x40 + b)
      && (n == 3 ==> Payload(s, n) == (((s[0] as int) - 0xE0) * 0x40 + b) * 0x40 + (s[2] as int) - 0x80)
      && (n == 4 ==> Payload(s, n) == ((((s[0] as int) - 0xF0) * 0x40 + b) * 0x40 + (s[2] as int) - 0x80) * 0x40 + (s[3] as int) - 0x80)
  {
    var n := Announced(s[0]);
    assert Payload(s, 2) == Payload(s, 1) * 0x40 + (s[1] as int) - 0x80;
    if n > 2 { assert Payload(s, 3) == Payload(s, 2) * 0x40 + (s[2] as int) - 0x80; }
    if n > 3 { assert Payload(s, 4) == Payload(s, 3) * 0x40 + (s[3] as int) - 0x80; }
  }

  lemma EncodingLeads(r: int)
    requires IsScalar(r) && r >= 0x80
    ensures var e := Encode(r); e[0] >= 0x80 && Announced(e[0]) == |e| && WellFormed(e)
  {
  }

  lemma Reassembled(r: nat)
    ensures r == r / 0x40 * 0x40 + r % 0x40
    ensures r == (r / 0x1000 * 0x40 + r / 0x40 % 0x40) * 0x40 + r % 0x40
    ensures r == ((r / 0x40000 * 0x40 + r / 0x1000 % 0x40) * 0x40 + r / 0x40 % 0x40) * 0x40 + r % 0x40
  {
    var q := r / 0x40;
    assert q / 0x40 == r / 0x1000 && q / 0x40 / 0x40 == r / 0x40000;
  }

  lemma EncodingCarries(r: int)
    requires IsScalar(r) && r >= 0x80
    ensures WellFormed(Encode(r)) && Announced(Encode(r)[0]) == |Encode(r)| && Payload(Encode(r), |Encode(r)|) == r
  {
    hide Payload, WellFormed, Announced;
    EncodingLeads(r);
    Payloads(Encode(r));
    Reassembled(r);
  }

  lemma {:induction false} PayloadExtends(e: Bytes, more: Bytes, k: nat)
    requires WellFormed(e) && 1 <= k <= Announced(e[0])
    ensures WellFormed(e + more) && (e + more)[0] == e[0] && Payload(e + more, k) == Payload(e, k)
  {
    assert forall i :: 0 <= i < |e| ==> (e + more)[i] == e[i];
    if k > 1 { PayloadExtends(e, more, k - 1); }
  }

  /** What starts with the encoding of a character decodes as it. */
  lemma EncodedIsDecoded(r: int, more: Bytes)
    requires IsScalar(r)
    ensures var s := Encode(r) + more; RuneSize(s) == |Encode(r)| && DecodeRune(s) == r && FullRune(s)
  {
    hide Payload, SecondOk, Continues;
    if r >= 0x80 {
      EncodingLeads(r);
      EncodingCarries(r);
      hide Encode;
      PayloadExtends(Encode(r), more, |Encode(r)|);
    }
  }

  lemma PayloadInRange(s: Bytes)
    requires WellFormed(s)
    ensures var (n, r) := (Announced(s[0]), Payload(s, Announced(s[0])));
      && IsScalar(r) && (n == 2 <==> 0x80 <= r < 0x800) && (n == 3 <==> 0x800 <= r < 0x10000) && (n == 4 <==> 0x10000 <= r)
  {
    hide Payload;
    Payloads(s);
  }

  lemma EncodesTwo(a: Byte, b: Byte, r: int)
    requires 0x80 <= b < 0xC0 && r == ((a as int) - 0xC0) * 0x40 + (b as int) - 0x80 && 0x80 <= r < 0x800
    ensures IsScalar(r) && Encode(r) == [a, b]
  {
    TwoParts((a as int) - 0xC0, (b as int) - 0x80);
  }

  lemma EncodesThree(a: Byte, b: Byte, c: Byte, r: int)
    requires 0x80 <= b < 0xC0 && 0x80 <= c < 0xC0 && IsScalar(r) && 0x800 <= r < 0x10000
    requires r == (((a as int) - 0xE0) * 0x40 + (b as int) - 0x80) * 0x40 + (c as int) - 0x80
    ensures Encode(r) == [a, b, c]
  {
    ThreeParts((a as int) - 0xE0, (b as int) - 0x80, (c as int) - 0x80);
  }

  lemma EncodesFour(a: Byte, b: Byte, c: Byte, d: Byte, r: int)
    requires 0x80 <= b < 0xC0 && 0x80 <= c < 0xC0 && 0x80 <= d < 0xC0 && IsScalar(r) && 0x10000 <= r
    requires r == ((((a as int) - 0xF0) * 0x40 + (b as int) - 0x80) * 0x40 + (c as int) - 0x80) * 0x40 + (d as int) - 0x80
    ensures Encode(r) == [a, b, c, d]
  {
    FourParts((a as int) - 0xF0, (b as int) - 0x80, (c as int) - 0x80, (d as int) - 0x80);
  }

  // The encoding of what a whole encoding decodes as.
  lemma PayloadIsEncoded(s: Bytes)
    requires WellFormed(s)
    ensures var r := Payload(s, Announced(s[0])); IsScalar(r) && Encode(r) == s[..Announced(s[0])]
  {
    hide Payload, Encode;
    Payloads(s);
    PayloadInRange(s);
    ContinuationBytes(s);
    var n, r := Announced(s[0]), Payload(s, Announced(s[0]));
    hide Announced, WellFormed;
    if n == 2 {
      EncodesTwo(s[0], s[1], r);
    } else if n == 3 {
      EncodesThree(s[0], s[1], s[2], r);
    } else {
      EncodesFour(s[0], s[1], s[2], s[3], r);
    }
  }

  lemma ContinuationBytes(s: Bytes)
    requires WellFormed(s)
    ensures 2 <= Announced(s[0]) <= 4 && Announced(s[0]) <= |s| && forall i :: 1 <= i < Announced(s[0]) ==> 0x80 <= s[i] < 0xC0
  {
  }

  /** What decodes as more than a replacement of one byte is the encoding of what it
      decodes as. */
  lemma DecodedIsEncoded(s: Bytes)
    requires s != [] && (RuneSize(s) > 1 || s[0] < 0x80)
    ensures IsScalar(DecodeRune(s)) && s[..RuneSize(s)] == Encode(DecodeRune(s))
  {
    hide Payload;
    if s[0] >= 0x80 {
      PayloadIsEncoded(s);
      hide Encode, WellFormed;
    }
  }
}
