/** Strings as Unicode scalar values, their UTF-8 bytes (section 3 of RFC 3629), and
    the lossy decoding that never fails: each maximal ill-formed stretch becomes one
    U+FFFD. */
module Utf8 {
  import opened Wrappers

  type Scalar = c: int | 0 <= c <= 0x10FFFF && !(0xD800 <= c <= 0xDFFF)
  type Text = seq<Scalar>

  const REPLACEMENT: Scalar := 0xFFFD

  // ----------------------------------------------------------------- encoding

  /** Bytes of a character in a UTF-8 string. */
  function Utf8Width(c: Scalar): nat {
    if c < 0x80 then 1 else if c < 0x800 then 2 else if c < 0x10000 then 3 else 4
  }

  /** A byte that continues a character, with six of its bits. */
  function Continuation(digit: int): (b: u8)
    requires 0 <= digit < 64
    ensures 0x80 <= b <= 0xBF
  {
    0x80 + digit
  }

  function EncodeChar(c: Scalar): (bytes: seq<u8>)
    ensures |bytes| == Utf8Width(c)
  {
    var x: int := c;
    if c < 0x80 then [x]
    else if c < 0x800 then
      LeadByte(0xC0, x / 64, 0x20) + [Continuation(x % 64)]
    else if c < 0x10000 then
      LeadByte(0xE0, x / 4096, 0x10) + [Continuation(x / 64 % 64), Continuation(x % 64)]
    else
      LeadByte(0xF0, x / 262144, 5) + [Continuation(x / 4096 % 64), Continuation(x / 64 % 64), Continuation(x % 64)]
  }

  function LeadByte(tag: int, digit: int, bound: int): (b: seq<u8>)
    requires 0 <= digit < bound && 0 <= tag && tag + bound <= 256
    ensures b == [tag + digit]
  {
    [tag + digit]
  }

  function Encode(t: Text): seq<u8> {
    if t == [] then [] else Encode(t[..|t| - 1]) + EncodeChar(t[|t| - 1])
  }

  lemma {:induction false} EncodeSplit(a: Text, b: Text)
    ensures Encode(a + b) == Encode(a) + Encode(b)
  {
    hide EncodeChar;
    if b == [] {
      assert a + b == a;
    } else {
      EncodeSplit(a, b[..|b| - 1]);
      assert (a + b)[..|a + b| - 1] == a + b[..|b| - 1];
    }
  }

  lemma EncodeOne(c: Scalar)
    ensures Encode([c]) == EncodeChar(c)
  {
    assert [c][..0] == [];
    assert Encode([c]) == Encode([]) + EncodeChar(c);
  }

  // ----------------------------------------------------------------- decoding

  predicate IsContinuation(b: u8) {
    0x80 <= b <= 0xBF
  }

  /** Length that a first byte announces, zero if no character begins with it. */
  function Announced(b: u8): nat {
    if b < 0x80 then 1
    else if 0xC2 <= b <= 0xDF then 2
    else if 0xE0 <= b <= 0xEF then 3
    else if 0xF0 <= b <= 0xF4 then 4
    else 0
  }

  /** The second byte also excludes overlong forms, surrogates and what lies beyond
      U+10FFFF. */
  predicate SecondFits(first: u8, second: u8) {
    if first == 0xE0 then 0xA0 <= second <= 0xBF
    else if first == 0xED then 0x80 <= second <= 0x9F
    else if first == 0xF0 then 0x90 <= second <= 0xBF
    else if first == 0xF4 then 0x80 <= second <= 0x8F
    else IsContinuation(second)
  }

  /** How many bytes at the front belong to one well-formed character or to the
      beginning of one. */
  function WellFormed(b: seq<u8>): (n: nat)
    requires b != []
    ensures n <= |b| && n <= Announced(b[0])
  {
    var length := Announced(b[0]);
    if length <= 1 then length
    else if |b| < 2 || !SecondFits(b[0], b[1]) then 1
    else if length == 2 then 2
    else if |b| < 3 || !IsContinuation(b[2]) then 2
    else if length == 3 then 3
    else if |b| < 4 || !IsContinuation(b[3]) then 3
    else 4
  }

  predicate Complete(b: seq<u8>) {
    b != [] && Announced(b[0]) > 0 && WellFormed(b) == Announced(b[0])
  }

  function CharOf(b: seq<u8>): Scalar
    requires Complete(b)
  {
    var b0: int := b[0];
    if b0 < 0x80 then b0
    else
      var b1: int := b[1];
      if b0 <= 0xDF then (b0 - 0xC0) * 64 + (b1 - 0x80)
      else
        var b2: int := b[2];
        if b0 <= 0xEF then (b0 - 0xE0) * 4096 + (b1 - 0x80) * 64 + (b2 - 0x80)
        else
          var b3: int := b[3];
          (b0 - 0xF0) * 262144 + (b1 - 0x80) * 4096 + (b2 - 0x80) * 64 + (b3 - 0x80)
  }

  /** How many bytes the front of the input takes, well-formed or not. */
  function Step(b: seq<u8>): (n: nat)
    requires b != []
    ensures 1 <= n <= |b|
  {
    if WellFormed(b) == 0 then 1 else WellFormed(b)
  }

  function DecodeLossy(b: seq<u8>): Text {
    if b == [] then []
    else [if Complete(b) then CharOf(b) else REPLACEMENT] + DecodeLossy(b[Step(b)..])
  }

  // --------------------------------------------------------------- round trip

  /** The bytes of a character, read back: the same for a prefix of them, which is
      well-formed as far as it goes. */
  lemma CharFront(c: Scalar, k: nat, rest: seq<u8>)
    requires 0 < k <= Utf8Width(c) && (k < Utf8Width(c) ==> rest == [])
    ensures var b := EncodeChar(c)[..k] + rest;
            Announced(b[0]) == Utf8Width(c) && WellFormed(b) == k
  {
    var x: int := c;
    var e := EncodeChar(c);
    var b := e[..k] + rest;
    assert forall i | 0 <= i < k :: b[i] == e[i];
    if 0x800 <= c < 0x10000 {
      ThreeBytes(x);
    } else if c >= 0x10000 {
      FourBytes(x);
    }
  }

  lemma ThreeBytes(x: int)
    requires 0x800 <= x < 0x10000 && !(0xD800 <= x <= 0xDFFF)
    ensures var first, second := 0xE0 + x / 4096, 0x80 + x / 64 % 64;
            0xE0 <= first <= 0xEF && SecondFits(first, second)
    ensures x == x / 4096 * 4096 + x / 64 % 64 * 64 + x % 64
  {
    var q, r := x / 64, x % 64;
    assert x == q * 64 + r && q == q / 64 * 64 + q % 64 && q / 64 == x / 4096;
  }

  lemma FourBytes(x: int)
    requires 0x10000 <= x <= 0x10FFFF
    ensures var first, second := 0xF0 + x / 262144, 0x80 + x / 4096 % 64;
            0xF0 <= first <= 0xF4 && SecondFits(first, second)
    ensures x == x / 262144 * 262144 + x / 4096 % 64 * 4096 + x / 64 % 64 * 64 + x % 64
  {
    var p, q, r := x / 4096, x / 64, x % 64;
    assert x == q * 64 + r && q == p * 64 + q % 64 && p == p / 64 * 64 + p % 64 && p / 64 == x / 262144;
  }

  lemma CharReadsBack(c: Scalar, rest: seq<u8>)
    ensures var b := EncodeChar(c) + rest; Complete(b) && CharOf(b) == c && Step(b) == Utf8Width(c)
  {
    var x: int := c;
    var e := EncodeChar(c);
    var b := e + rest;
    assert e[..|e|] == e;
    CharFront(c, |e|, rest);
    assert forall i | 0 <= i < |e| :: b[i] == e[i];
    hide WellFormed;
    if 0x800 <= c < 0x10000 {
      ThreeBytes(x);
    } else if c >= 0x10000 {
      FourBytes(x);
    }
  }

  lemma DecodeFirst(c: Scalar, rest: seq<u8>)
    ensures DecodeLossy(EncodeChar(c) + rest) == [c] + DecodeLossy(rest)
  {
    hide EncodeChar, Complete, CharOf, Step;
    CharReadsBack(c, rest);
    assert (EncodeChar(c) + rest)[Utf8Width(c)..] == rest;
  }

  lemma {:induction false} DecodeAfter(t: Text, rest: seq<u8>)
    ensures DecodeLossy(Encode(t) + rest) == t + DecodeLossy(rest)
  {
    hide EncodeChar, DecodeLossy;
    if t == [] {
      assert Encode(t) + rest == rest;
    } else {
      var init, c := t[..|t| - 1], t[|t| - 1];
      assert Encode(t) + rest == Encode(init) + (EncodeChar(c) + rest);
      DecodeAfter(init, EncodeChar(c) + rest);
      DecodeFirst(c, rest);
      assert t + DecodeLossy(rest) == init + ([c] + DecodeLossy(rest));
    }
  }

  /** Every text survives UTF-8. */
  lemma Utf8RoundTrip(t: Text)
    ensures DecodeLossy(Encode(t)) == t
  {
    hide Encode;
    DecodeAfter(t, []);
    assert Encode(t) + [] == Encode(t);
  }

  /** A character that is cut off comes back as one U+FFFD, whichever it was. */
  lemma CutChar(c: Scalar, k: nat)
    requires 0 < k < Utf8Width(c)
    ensures DecodeLossy(EncodeChar(c)[..k]) == [REPLACEMENT]
  {
    hide EncodeChar, WellFormed;
    var b := EncodeChar(c)[..k];
    CharFront(c, k, []);
    assert b + [] == b;
    assert b[k..] == [];
  }

  /** Cutting a text's bytes leaves whole characters and a part of the next. */
  lemma {:induction false} CutText(t: Text, w: nat) returns (j: nat, k: nat)
    requires w < |Encode(t)|
    ensures j < |t| && k < Utf8Width(t[j])
    ensures Encode(t)[..w] == Encode(t[..j]) + EncodeChar(t[j])[..k]
    ensures |Encode(t[..j])| + k == w
  {
    hide EncodeChar;
    var init, c := t[..|t| - 1], t[|t| - 1];
    if w < |Encode(init)| {
      j, k := CutText(init, w);
      assert init[..j] == t[..j];
    } else {
      j, k := |t| - 1, w - |Encode(init)|;
    }
  }
}
