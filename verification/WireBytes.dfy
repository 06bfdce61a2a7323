/** Fields of a PDU body as bytes: integers, fixed-width octet strings, and the
    splitting of a body into fields. */
module WireBytes {
  import opened Wrappers

  type Bytes = seq<u8>

  // ----------------------------------------------------------------- integers

  function BigEndian32(x: u32): (b: Bytes)
    ensures |b| == 4
  {
    var b0: int, r0: int := x / 0x1000000, x % 0x1000000;
    var b1: int, r1: int := r0 / 0x10000, r0 % 0x10000;
    [b0, b1, r1 / 0x100, r1 % 0x100]
  }

  function FromBigEndian32(b: Bytes): (x: u32)
    requires |b| == 4
  {
    var b0: int, b1: int, b2: int, b3: int := b[0], b[1], b[2], b[3];
    b0 * 0x1000000 + b1 * 0x10000 + b2 * 0x100 + b3
  }

  lemma BigEndian32RoundTrip(x: u32)
    ensures FromBigEndian32(BigEndian32(x)) == x
  {
  }

  // ------------------------------------------------------------ octet strings

  function Zeros(n: nat): (b: Bytes)
    ensures |b| == n
  {
    seq(n, _ => 0)
  }

  /** `s` in a field of `width` bytes: cut off, or padded with NUL. */
  function OctetField(s: Bytes, width: nat): (b: Bytes)
    ensures |b| == width
  {
    if |s| >= width then s[..width] else s + Zeros(width - |s|)
  }

  /** The field without its trailing NULs and spaces. */
  function Stripped(b: Bytes): (s: Bytes)
    ensures s <= b
  {
    if b != [] && (b[|b| - 1] == 0 || b[|b| - 1] == 0x20) then Stripped(b[..|b| - 1]) else b
  }

  lemma StripLast(s: Bytes)
    ensures Stripped(s + [0]) == Stripped(s)
  {
    assert (s + [0])[..|s|] == s;
  }

  lemma {:induction false} StripZeros(s: Bytes, n: nat)
    ensures Stripped(s + Zeros(n)) == Stripped(s)
  {
    hide Stripped;
    if n == 0 {
      assert s + Zeros(0) == s;
    } else {
      StripZeros(s, n - 1);
      StripLast(s + Zeros(n - 1));
      assert s + Zeros(n) == (s + Zeros(n - 1)) + [0];
    }
  }

  // ------------------------------------------------------------------- fields

  function Flatten(fields: seq<Bytes>): Bytes {
    if fields == [] then [] else fields[0] + Flatten(fields[1..])
  }

  function Total(widths: seq<nat>): nat {
    if widths == [] then 0 else widths[0] + Total(widths[1..])
  }

  /** Fields of the given widths from the front of `b`, and the rest. */
  function Split(widths: seq<nat>, b: Bytes): (r: Option<(seq<Bytes>, Bytes)>)
    ensures r.Some? ==> |r.value.0| == |widths| && forall k | 0 <= k < |widths| :: |r.value.0[k]| == widths[k]
  {
    if widths == [] then Some(([], b))
    else if |b| < widths[0] then None
    else
      match Split(widths[1..], b[widths[0]..])
      case None => None
      case Some((fields, rest)) => Some(([b[..widths[0]]] + fields, rest))
  }

  predicate HaveWidths(fields: seq<Bytes>, widths: seq<nat>) {
    |fields| == |widths| && forall k | 0 <= k < |fields| :: |fields[k]| == widths[k]
  }

  lemma SplitCons(widths: seq<nat>, field: Bytes, more: Bytes)
    requires widths != [] && |field| == widths[0] && Split(widths[1..], more).Some?
    ensures Split(widths, field + more) ==
            Some(([field] + Split(widths[1..], more).value.0, Split(widths[1..], more).value.1))
  {
    assert (field + more)[..widths[0]] == field && (field + more)[widths[0]..] == more;
  }

  lemma FlattenCons(fields: seq<Bytes>, rest: Bytes)
    requires fields != []
    ensures Flatten(fields) + rest == fields[0] + (Flatten(fields[1..]) + rest)
  {
  }

  lemma {:induction false} SplitFlatten(widths: seq<nat>, fields: seq<Bytes>, rest: Bytes)
    requires HaveWidths(fields, widths)
    ensures Split(widths, Flatten(fields) + rest) == Some((fields, rest))
  {
    if fields == [] {
      assert Flatten(fields) + rest == rest;
    } else {
      hide Split, Flatten;
      SplitFlatten(widths[1..], fields[1..], rest);
      FlattenCons(fields, rest);
      SplitCons(widths, fields[0], Flatten(fields[1..]) + rest);
      assert fields == [fields[0]] + fields[1..];
    }
  }

  lemma {:induction false} SplitNeeds(widths: seq<nat>, b: Bytes)
    ensures Split(widths, b).Some? <==> |b| >= Total(widths)
  {
    if widths != [] && |b| >= widths[0] {
      SplitNeeds(widths[1..], b[widths[0]..]);
    }
  }

  lemma {:induction false} FlattenLength(fields: seq<Bytes>, widths: seq<nat>)
    requires HaveWidths(fields, widths)
    ensures |Flatten(fields)| == Total(widths)
  {
    if fields != [] {
      FlattenLength(fields[1..], widths[1..]);
    }
  }

  lemma {:induction false} FlattenSplit(a: seq<Bytes>, b: seq<Bytes>)
    ensures Flatten(a + b) == Flatten(a) + Flatten(b)
  {
    if a == [] {
      assert a + b == b;
    } else {
      FlattenSplit(a[1..], b);
      assert (a + b)[1..] == a[1..] + b;
      assert a[0] + (Flatten(a[1..]) + Flatten(b)) == (a[0] + Flatten(a[1..])) + Flatten(b);
    }
  }
}
