/** Text as Unicode scalar values, and its UCS2 (UTF-16BE) and ASCII forms. */
module SmsText {
  import opened Wrappers
  import opened Utf8

  type Unit = u: int | 0 <= u <= 0xFFFF

  datatype SmsEncoding = Ascii | Ucs2

  const MSG_FMT_ASCII: u8 := 0
  const MSG_FMT_UCS2: u8 := 8
  const MSG_FMT_GBK: u8 := 15

  function MsgFmt(e: SmsEncoding): u8 {
    if e.Ascii? then MSG_FMT_ASCII else MSG_FMT_UCS2
  }

  predicate IsAscii(t: Text) {
    forall i | 0 <= i < |t| :: t[i] < 0x80
  }

  function ChooseEncoding(t: Text): SmsEncoding {
    if IsAscii(t) then Ascii else Ucs2
  }

  // ----------------------------------------------------------------- UTF-16

  /** Section 2.1 of RFC 2781. */
  function Units(c: Scalar): seq<Unit> {
    if c < 0x10000 then [c]
    else
      var d: int := c - 0x10000;
      var high: int, low: int := d / 0x400, d % 0x400;
      assert 0 <= d <= 0xFFFFF && d == high * 0x400 + low && 0 <= low < 0x400 && 0 <= high < 0x400;
      [0xD800 + high, 0xDC00 + low]
  }

  function EncodeUtf16(t: Text): seq<Unit> {
    if t == [] then [] else Units(t[0]) + EncodeUtf16(t[1..])
  }

  predicate IsHigh(u: Unit) {
    0xD800 <= u <= 0xDBFF
  }

  predicate IsLow(u: Unit) {
    0xDC00 <= u <= 0xDFFF
  }

  function Paired(high: Unit, low: Unit): Scalar
    requires IsHigh(high) && IsLow(low)
  {
    var h: int, l: int := high as int - 0xD800, low as int - 0xDC00;
    0x10000 + h * 0x400 + l
  }

  /** Section 2.2 of RFC 2781; an unpaired surrogate becomes U+FFFD. */
  function DecodeUtf16(units: seq<Unit>): Text {
    if units == [] then []
    else if !IsHigh(units[0]) && !IsLow(units[0]) then
      [units[0] as Scalar] + DecodeUtf16(units[1..])
    else if IsHigh(units[0]) && |units| >= 2 && IsLow(units[1]) then
      [Paired(units[0], units[1])] + DecodeUtf16(units[2..])
    else
      [REPLACEMENT] + DecodeUtf16(units[1..])
  }

  lemma DecodeFirst(c: Scalar, rest: seq<Unit>)
    ensures DecodeUtf16(Units(c) + rest) == [c] + DecodeUtf16(rest)
  {
    var units := Units(c) + rest;
    assert units[|Units(c)|..] == rest;
  }

  /** Every text survives UTF-16. */
  lemma {:induction false} Utf16RoundTrip(t: Text)
    ensures DecodeUtf16(EncodeUtf16(t)) == t
  {
    if t != [] {
      Utf16RoundTrip(t[1..]);
      DecodeFirst(t[0], EncodeUtf16(t[1..]));
    }
  }

  function Word(high: u8, low: u8): Unit {
    var h: int, l: int := high as int, low as int;
    h * 256 + l
  }

  function UnitBytes(u: Unit): (bytes: seq<u8>)
    ensures |bytes| == 2 && Word(bytes[0], bytes[1]) == u
  {
    var high: int, low: int := u / 256, u % 256;
    assert 0 <= u <= 0xFFFF && u == high * 256 + low && 0 <= low < 256 && 0 <= high < 256;
    [high, low]
  }

  function BigEndian(units: seq<Unit>): seq<u8> {
    if units == [] then [] else UnitBytes(units[0]) + BigEndian(units[1..])
  }

  function FromBigEndian(bytes: seq<u8>): seq<Unit>
    requires |bytes| % 2 == 0
  {
    if bytes == [] then [] else [Word(bytes[0], bytes[1])] + FromBigEndian(bytes[2..])
  }

  lemma {:induction false} BigEndianRoundTrip(units: seq<Unit>)
    ensures |BigEndian(units)| == 2 * |units|
    ensures FromBigEndian(BigEndian(units)) == units
  {
    hide UnitBytes;
    if units != [] {
      BigEndianRoundTrip(units[1..]);
      assert BigEndian(units)[2..] == BigEndian(units[1..]);
    }
  }

  lemma {:induction false} BigEndianSplit(a: seq<Unit>, b: seq<Unit>)
    ensures BigEndian(a + b) == BigEndian(a) + BigEndian(b)
  {
    hide UnitBytes;
    if a == [] {
      assert a + b == b;
    } else {
      BigEndianSplit(a[1..], b);
      assert (a + b)[1..] == a[1..] + b && (a + b)[0] == a[0];
      assert BigEndian(a + b) == UnitBytes(a[0]) + (BigEndian(a[1..]) + BigEndian(b));
    }
  }

  // --------------------------------------------------------- content encoding

  function Encoded(t: Text, e: SmsEncoding): seq<u8> {
    match e
    case Ascii => seq(|t|, i requires 0 <= i < |t| => t[i] % 256)
    case Ucs2 => BigEndian(EncodeUtf16(t))
  }

  lemma {:induction false} EncodeUtf16Split(a: Text, b: Text)
    ensures EncodeUtf16(a + b) == EncodeUtf16(a) + EncodeUtf16(b)
  {
    hide Units;
    if a == [] {
      assert a + b == b;
    } else {
      EncodeUtf16Split(a[1..], b);
      assert (a + b)[1..] == a[1..] + b && (a + b)[0] == a[0];
      assert EncodeUtf16(a + b) == Units(a[0]) + (EncodeUtf16(a[1..]) + EncodeUtf16(b));
    }
  }

  method EncodeContent(t: Text, e: SmsEncoding) returns (out: seq<u8>)
    ensures out == Encoded(t, e)
  {
    match e {
      case Ascii =>
        out := [];
        for i := 0 to |t|
          invariant |out| == i && forall j | 0 <= j < i :: out[j] == t[j] % 256
        {
          out := out + [t[i] % 256];
        }
      case Ucs2 =>
        out := [];
        for i := 0 to |t|
          invariant out == BigEndian(EncodeUtf16(t[..i]))
        {
          Utf16Snoc(t, i);
          out := AppendUnits(out, EncodeUtf16(t[..i]), Units(t[i]));
        }
        assert t[..|t|] == t;
    }
  }

  lemma Utf16Snoc(t: Text, i: nat)
    requires i < |t|
    ensures EncodeUtf16(t[..i + 1]) == EncodeUtf16(t[..i]) + Units(t[i])
  {
    hide Units;
    EncodeUtf16Split(t[..i], [t[i]]);
    assert t[..i + 1] == t[..i] + [t[i]] && EncodeUtf16([t[i]]) == Units(t[i]) + EncodeUtf16([]);
  }

  method AppendUnits(out: seq<u8>, ghost before: seq<Unit>, units: seq<Unit>) returns (grown: seq<u8>)
    requires out == BigEndian(before)
    ensures grown == BigEndian(before + units)
  {
    grown := out;
    assert before + units[..0] == before;
    for j := 0 to |units|
      invariant grown == BigEndian(before + units[..j])
    {
      BigEndianSplit(before + units[..j], [units[j]]);
      assert before + units[..j + 1] == (before + units[..j]) + [units[j]];
      assert BigEndian([units[j]]) == UnitBytes(units[j]) + BigEndian([]);
      grown := grown + UnitBytes(units[j]);
    }
    assert units[..|units|] == units;
  }

  /** The text of a received content; None for GBK, whose tables are not modelled. */
  function DecodeMsgContent(msgFmt: u8, tpUdhi: u8, content: seq<u8>): Option<Text> {
    DecodePayload(msgFmt, if tpUdhi == 1 && |content| > 6 then content[6..] else content)
  }

  function DecodePayload(msgFmt: u8, payload: seq<u8>): Option<Text> {
    if msgFmt == MSG_FMT_UCS2 && |payload| % 2 == 0 then Some(DecodeUtf16(FromBigEndian(payload)))
    else if msgFmt == MSG_FMT_GBK then None
    else Some(DecodeLossy(payload))
  }

  /** What was encoded is decoded, with a six-byte header in front or without. */
  lemma ContentRoundTrip(t: Text, e: SmsEncoding, header: seq<u8>)
    requires e.Ascii? ==> IsAscii(t)
    requires header == [] || (|header| == 6 && t != [])
    ensures DecodeMsgContent(MsgFmt(e), if header == [] then 0 else 1, header + Encoded(t, e)) == Some(t)
  {
    var bytes := Encoded(t, e);
    assert (header + bytes)[|header|..] == bytes;
    assert [] + bytes == bytes;
    if t != [] {
      EncodedNotEmpty(t, e);
    }
    PayloadRoundTrip(t, e);
    hide Encoded, DecodePayload;
  }

  lemma PayloadRoundTrip(t: Text, e: SmsEncoding)
    requires e.Ascii? ==> IsAscii(t)
    ensures DecodePayload(MsgFmt(e), Encoded(t, e)) == Some(t)
  {
    match e {
      case Ascii =>
        AsciiIsUtf8(t);
        Utf8RoundTrip(t);
      case Ucs2 => Ucs2RoundTrip(t);
    }
  }

  lemma EncodedNotEmpty(t: Text, e: SmsEncoding)
    requires t != []
    ensures Encoded(t, e) != []
  {
    hide DecodeUtf16;
    match e {
      case Ascii => 
      case Ucs2 =>
        BigEndianRoundTrip(EncodeUtf16(t));
    }
  }

  /** The ASCII form of an ASCII text is its UTF-8 form. */
  lemma {:induction false} AsciiIsUtf8(t: Text)
    requires IsAscii(t)
    ensures Encoded(t, Ascii) == Encode(t)
  {
    if t != [] {
      var init := t[..|t| - 1];
      AsciiIsUtf8(init);
      assert Encoded(t, Ascii) == Encoded(init, Ascii) + [t[|t| - 1] % 256];
    }
  }

  /** The content of a text is that of its characters, one after the other. */
  lemma EncodedJoins(a: Text, b: Text, e: SmsEncoding)
    ensures Encoded(a + b, e) == Encoded(a, e) + Encoded(b, e)
  {
    hide EncodeUtf16, BigEndian;
    if e.Ucs2? {
      EncodeUtf16Split(a, b);
      BigEndianSplit(EncodeUtf16(a), EncodeUtf16(b));
    }
  }

  /** The bytes of one character: the upper byte of each unit first, and the upper ten
      bits of a supplementary character in the first unit of its pair. */
  lemma CharacterBytes(c: Scalar)
    ensures c < 0x80 ==> Encoded([c], Ascii) == [c]
    ensures c < 0x10000 ==> Encoded([c], Ucs2) == [c / 256, c % 256]
    ensures c >= 0x10000 ==>
              var d: int := c - 0x10000;
              Encoded([c], Ucs2) == [0xD8 + d / 0x40000, (d / 0x400) % 256, 0xDC + (d / 256) % 4, d % 256]
  {
    hide BigEndian, UnitBytes, Units;
    assert [c][1..] == [] && EncodeUtf16([]) == [] && Units(c) + [] == Units(c);
    assert EncodeUtf16([c]) == Units(c);
    hide EncodeUtf16;
    CharacterUnits(c);
    if c < 0x10000 {
      UnitIs(c, c / 256, c % 256);
      UnitAlone(c);
    } else {
      var d: int := c - 0x10000;
      var high: Unit, low: Unit := 0xD800 + d / 0x400, 0xDC00 + d % 0x400;
      UnitIs(high, 0xD8 + d / 0x40000, (d / 0x400) % 256);
      UnitIs(low, 0xDC + (d / 256) % 4, d % 256);
      assert Units(c) == [high] + [low];
      BigEndianSplit([high], [low]);
      UnitAlone(high);
      UnitAlone(low);
    }
  }

  lemma CharacterUnits(c: Scalar)
    ensures c < 0x10000 ==> Units(c) == [c]
    ensures c >= 0x10000 ==>
              var d: int := c - 0x10000;
              && 0 <= d <= 0xFFFFF && Units(c) == [0xD800 + d / 0x400, 0xDC00 + d % 0x400]
              && 0xD800 + d / 0x400 == (0xD8 + d / 0x40000) * 256 + (d / 0x400) % 256
              && 0xDC00 + d % 0x400 == (0xDC + (d / 256) % 4) * 256 + d % 256
              && d / 0x40000 < 4
  {
  }

  lemma UnitAlone(u: Unit)
    ensures BigEndian([u]) == UnitBytes(u)
  {
    assert [u][1..] == [] && BigEndian([]) == [];
  }

  lemma UnitIs(u: Unit, high: u8, low: u8)
    requires u as int == high as int * 256 + low as int
    ensures UnitBytes(u) == [high, low]
  {
  }

  lemma Ucs2RoundTrip(t: Text)
    ensures var bytes := Encoded(t, Ucs2);
            |bytes| % 2 == 0 && DecodeUtf16(FromBigEndian(bytes)) == t
  {
    hide EncodeUtf16, DecodeUtf16, BigEndian, FromBigEndian;
    BigEndianRoundTrip(EncodeUtf16(t));
    Utf16RoundTrip(t);
  }

  // -------------------------------------------------------------------- sizes

  /** Encoded bytes of one character. */
  function Width(e: SmsEncoding, c: Scalar): nat {
    if e.Ascii? then 1 else 2 * |Units(c)|
  }

  function Size(e: SmsEncoding, t: Text): nat {
    if t == [] then 0 else Size(e, t[..|t| - 1]) + Width(e, t[|t| - 1])
  }

  lemma {:induction false} SizeSplit(e: SmsEncoding, a: Text, b: Text)
    ensures Size(e, a + b) == Size(e, a) + Size(e, b)
  {
    if b == [] {
      assert a + b == a;
    } else {
      SizeSplit(e, a, b[..|b| - 1]);
      assert (a + b)[..|a + b| - 1] == a + b[..|b| - 1];
    }
  }

  lemma {:induction false} Ucs2Size(t: Text)
    ensures |EncodeUtf16(t)| * 2 == Size(Ucs2, t)
  {
    if t != [] {
      var last := |t| - 1;
      Ucs2Size(t[..last]);
      Utf16Snoc(t, last);
      assert t[..last + 1] == t;
    }
  }

  lemma {:induction false} AsciiSize(t: Text)
    ensures Size(Ascii, t) == |t|
  {
    if t != [] {
      AsciiSize(t[..|t| - 1]);
    }
  }

  /** The size is what the encoder writes. */
  lemma EncodedSize(t: Text, e: SmsEncoding)
    ensures |Encoded(t, e)| == Size(e, t)
  {
    match e {
      case Ascii => AsciiSize(t);
      case Ucs2 =>
        BigEndianRoundTrip(EncodeUtf16(t));
        Ucs2Size(t);
    }
  }

  // -------------------------------------------------- positions in the string

  /** Byte offset of a text's end. */
  function Utf8Size(t: Text): nat {
    if t == [] then 0 else Utf8Size(t[..|t| - 1]) + Utf8Width(t[|t| - 1])
  }

  lemma {:induction false} Utf8SizeIs(t: Text)
    ensures Utf8Size(t) == |Encode(t)|
  {
    if t != [] {
      Utf8SizeIs(t[..|t| - 1]);
    }
  }

  lemma {:induction false} Utf8Ascii(t: Text)
    requires IsAscii(t)
    ensures Utf8Size(t) == |t|
  {
    if t != [] {
      Utf8Ascii(t[..|t| - 1]);
    }
  }
}
