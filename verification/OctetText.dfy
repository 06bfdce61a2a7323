/** Text in fixed-width octet strings: what a field keeps of a string. */
module OctetText {
  import opened Wrappers
  import opened Utf8
  import opened WireBytes

  /** The field a string is written into. */
  function PutText(t: Text, width: nat): (b: Bytes)
    ensures |b| == width
  {
    OctetField(Encode(t), width)
  }

  /** The string that is read from a field. */
  function ReadText(b: Bytes): Text {
    DecodeLossy(Stripped(b))
  }

  /** What is left of a string after it went through a field. */
  function Kept(t: Text, width: nat): Text {
    ReadText(PutText(t, width))
  }

  predicate Padding(c: Scalar) {
    c == 0 || c == 0x20
  }

  /** Strings that fit the field and do not end in what is stripped. */
  predicate Canonical(t: Text, width: nat) {
    |Encode(t)| <= width && (t != [] ==> !Padding(t[|t| - 1]))
  }

  /** The one other case: the field cuts through a final U+FFFD, and the lossy decoder
      puts it back. */
  predicate CutReplacement(t: Text, width: nat) {
    t != [] && t[|t| - 1] == REPLACEMENT && width < |Encode(t)| <= width + 2
  }

  predicate Survives(t: Text, width: nat) {
    Canonical(t, width) || CutReplacement(t, width)
  }

  // ---------------------------------------------------------------- stripping

  /** The text without its trailing NULs and spaces. */
  function Trimmed(t: Text): (r: Text)
    ensures r <= t
    ensures r == t <==> (t != [] ==> !Padding(t[|t| - 1]))
  {
    if t != [] && Padding(t[|t| - 1]) then Trimmed(t[..|t| - 1]) else t
  }

  lemma LastByte(c: Scalar, k: nat)
    requires 0 < k <= Utf8Width(c)
    ensures var b := EncodeChar(c)[..k][k - 1];
            if c < 0x80 then b == c else b >= 0x80
  {
  }

  lemma StripNothing(b: Bytes)
    requires b != [] && b[|b| - 1] != 0 && b[|b| - 1] != 0x20
    ensures Stripped(b) == b
  {
  }

  lemma StripByte(b: Bytes, x: u8)
    requires x == 0 || x == 0x20
    ensures Stripped(b + [x]) == Stripped(b)
  {
    assert (b + [x])[..|b|] == b;
  }

  /** Stripping the bytes is trimming the text. */
  lemma {:induction false} StripIsTrim(t: Text)
    ensures Stripped(Encode(t)) == Encode(Trimmed(t))
  {
    if t != [] {
      var init, c := t[..|t| - 1], t[|t| - 1];
      var e := EncodeChar(c);
      assert e[..|e|] == e;
      LastByte(c, |e|);
      if Padding(c) {
        StripIsTrim(init);
        PaddingByte(c);
        hide Stripped, EncodeChar;
        StripByte(Encode(init), c);
      } else {
        hide Stripped, EncodeChar;
        assert Encode(t)[|Encode(t)| - 1] == e[|e| - 1];
        StripNothing(Encode(t));
      }
    }
  }

  lemma PaddingByte(c: Scalar)
    requires Padding(c)
    ensures EncodeChar(c) == [c]
  {
  }

  // --------------------------------------------------------------- both cases

  lemma FittingIsTrimmed(t: Text, width: nat)
    requires |Encode(t)| <= width
    ensures Kept(t, width) == Trimmed(t)
  {
    hide Stripped, Encode, DecodeLossy, Trimmed;
    var s := Encode(t);
    if |s| < width {
      StripZeros(s, width - |s|);
    } else {
      assert s[..width] == s;
    }
    StripIsTrim(t);
    Utf8RoundTrip(Trimmed(t));
  }

  /** A field that is too short keeps the whole characters, trimmed, or adds a U+FFFD
      for the one it cuts. */
  lemma CutIsShorter(t: Text, width: nat, j: nat, k: nat)
    requires width < |Encode(t)| && j < |t| && k < Utf8Width(t[j])
    requires Encode(t)[..width] == Encode(t[..j]) + EncodeChar(t[j])[..k]
    ensures Kept(t, width) == if k == 0 then Trimmed(t[..j]) else t[..j] + [REPLACEMENT]
  {
    hide Stripped, Encode, EncodeChar, DecodeLossy, Trimmed;
    var front, part := Encode(t[..j]), EncodeChar(t[j])[..k];
    if k == 0 {
      assert front + part == front;
      StripIsTrim(t[..j]);
      Utf8RoundTrip(Trimmed(t[..j]));
    } else {
      WideLast(t[j], k);
      assert (front + part)[|front + part| - 1] == part[k - 1];
      StripNothing(front + part);
      DecodeAfter(t[..j], part);
      CutChar(t[j], k);
    }
  }

  lemma WideLast(c: Scalar, k: nat)
    requires 0 < k < Utf8Width(c)
    ensures var b := EncodeChar(c)[..k][k - 1]; b != 0 && b != 0x20
  {
    LastByte(c, k);
  }

  lemma PrefixSizes(t: Text, i: nat, j: nat)
    requires i <= j <= |t|
    ensures |Encode(t[..i])| <= |Encode(t[..j])|
  {
    hide Encode;
    EncodeSplit(t[..i], t[i..j]);
    assert t[..i] + t[i..j] == t[..j];
  }

  lemma NextSize(t: Text, j: nat)
    requires j < |t|
    ensures |Encode(t[..j + 1])| == |Encode(t[..j])| + Utf8Width(t[j])
  {
    hide EncodeChar;
    assert t[..j + 1][..j] == t[..j];
  }

  /** Where the cut lies, seen from the end of the text. */
  lemma CutAtLast(t: Text, width: nat, j: nat, k: nat)
    requires width < |Encode(t)| && j < |t| && k < Utf8Width(t[j]) && |Encode(t[..j])| + k == width
    ensures j == |t| - 1 && k > 0 && t[j] == REPLACEMENT <==> CutReplacement(t, width)
  {
    hide Encode;
    var last := |t| - 1;
    NextSize(t, j);
    NextSize(t, last);
    assert t[..last + 1] == t;
    if j < last {
      PrefixSizes(t, j + 1, last);
    }
  }

  /** A string survives a field exactly if it fits without trailing padding, or if the
      field cuts through its final U+FFFD. */
  lemma OctetRoundTrip(t: Text, width: nat)
    ensures Kept(t, width) == t <==> Survives(t, width)
  {
    hide Kept, Encode, Utf8Width;
    if |Encode(t)| <= width {
      FittingIsTrimmed(t, width);
    } else {
      var j, k := CutText(t, width);
      CutIsShorter(t, width, j, k);
      CutAtLast(t, width, j, k);
      hide CutReplacement, Trimmed;
      TextEnds(t, j);
    }
  }

  lemma TextEnds(t: Text, j: nat)
    requires j < |t|
    ensures t[..j] + [REPLACEMENT] == t <==> j == |t| - 1 && t[j] == REPLACEMENT
    ensures |Trimmed(t[..j])| < |t|
  {
    if j == |t| - 1 && t[j] == REPLACEMENT {
      assert t == t[..j] + [t[j]];
    }
    if t[..j] + [REPLACEMENT] == t {
      assert t[j] == REPLACEMENT && |t| == j + 1;
    }
  }
}
