/** A set of 8-bit references kept as four 64-bit words. */
module UdhBitmap {
  import opened Wrappers

  type Bitmap = b: seq<bv64> | |b| == 4 witness [0, 0, 0, 0]

  const EMPTY: Bitmap := [0, 0, 0, 0]

  // ------------------------------------------------------------ words and masks

  function And(x: bv64, y: bv64): bv64 {
    x & y
  }

  function Either(v: bv64, w: bv64): bv64 {
    v | w
  }

  predicate Has(w: bv64, mask: bv64) {
    And(w, mask) != 0
  }

  function Setting(w: bv64, mask: bv64): bv64 {
    Either(w, mask)
  }

  function Clearing(w: bv64, mask: bv64): bv64 {
    And(w, !mask)
  }

  function Doubled(x: bv64): bv64 {
    x << 1
  }

  /** `1u64 << k`, one place at a time. */
  function Mask(k: nat): bv64
    requires k < 64
  {
    if k == 0 then 1 else Doubled(Mask(k - 1))
  }

  lemma DoubledApart(x: bv64, y: bv64)
    ensures Has(Doubled(x), Doubled(y)) ==> Has(x, y)
    ensures !Has(1, Doubled(x))
    ensures Doubled(x) != 0 ==> x != 0
  {
  }

  lemma {:induction false} MasksApart(i: nat, j: nat)
    requires i < j < 64
    ensures !Has(Mask(i), Mask(j))
  {
    hide Has, Doubled;
    if i == 0 {
      DoubledApart(Mask(j - 1), 0);
    } else {
      MasksApart(i - 1, j - 1);
      DoubledApart(Mask(i - 1), Mask(j - 1));
    }
  }

  function EightPlaces(x: bv64): bv64 {
    Doubled(Doubled(Doubled(Doubled(Doubled(Doubled(Doubled(Doubled(x))))))))
  }

  lemma EightIsShift(x: bv64)
    ensures EightPlaces(x) == x << 8
  {
  }

  lemma MaskEight(k: nat)
    requires k + 8 < 64
    ensures Mask(k + 8) == EightPlaces(Mask(k))
  {
    hide Doubled;
    assert Mask(k + 2) == Doubled(Doubled(Mask(k)));
    assert Mask(k + 4) == Doubled(Doubled(Mask(k + 2)));
    assert Mask(k + 6) == Doubled(Doubled(Mask(k + 4)));
  }

  lemma SevenTimesEight()
    ensures EightPlaces(EightPlaces(EightPlaces(EightPlaces(EightPlaces(EightPlaces(EightPlaces(1)))))))
            == 0x100_0000_0000_0000
  {
    hide EightPlaces;
    EightIsShift(1);
    EightIsShift(0x100);
    EightIsShift(0x1_0000);
    EightIsShift(0x100_0000);
    EightIsShift(0x1_0000_0000);
    EightIsShift(0x100_0000_0000);
    EightIsShift(0x1_0000_0000_0000);
  }

  lemma FirstMask()
    ensures Mask(0) == 1
  {
  }

  lemma Mask56()
    ensures Mask(56) == 0x100_0000_0000_0000
  {
    hide EightPlaces, Doubled, Mask;
    FirstMask();
    MaskEight(0);
    MaskEight(8);
    MaskEight(16);
    MaskEight(24);
    MaskEight(32);
    MaskEight(40);
    MaskEight(48);
    SevenTimesEight();
  }

  lemma MaskSeven(k: nat)
    requires k + 7 < 64
    ensures Mask(k + 7) == Doubled(Doubled(Doubled(Doubled(Doubled(Doubled(Doubled(Mask(k))))))))
  {
    hide Doubled;
    assert Mask(k + 2) == Doubled(Doubled(Mask(k)));
    assert Mask(k + 4) == Doubled(Doubled(Mask(k + 2)));
    assert Mask(k + 6) == Doubled(Doubled(Mask(k + 4)));
  }

  lemma TopMask()
    ensures Mask(63) != 0
  {
    hide Mask, Doubled;
    Mask56();
    MaskSeven(56);
    SevenPlaces();
  }

  lemma SevenPlaces()
    ensures Doubled(Doubled(Doubled(Doubled(Doubled(Doubled(Doubled(0x100_0000_0000_0000))))))) != 0
  {
  }

  lemma {:induction false} MaskNotZero(k: nat)
    requires k < 64
    ensures Mask(k) != 0
    decreases 63 - k
  {
    if k == 63 {
      TopMask();
    } else {
      MaskNotZero(k + 1);
      DoubledApart(Mask(k), 0);
      hide Doubled;
    }
  }

  // ---------------------------------------------------------------------- bits

  lemma AddsNothing(w: bv64, m: bv64, n: bv64)
    requires And(m, n) == 0
    ensures And(Either(w, m), n) == And(w, n)
  {
  }

  lemma LosesNothing(v: bv64, w: bv64, m: bv64)
    requires And(Either(v, w), m) == 0
    ensures And(v, m) == 0 && And(w, m) == 0
  {
  }

  lemma Commutes(v: bv64, w: bv64)
    ensures And(v, w) == And(w, v)
  {
  }

  lemma ClearsOnly(w: bv64, m: bv64, n: bv64)
    requires And(m, n) == 0
    ensures And(And(w, !m), n) == And(w, n)
  {
  }

  lemma OtherBit(w: bv64, m: bv64, n: bv64)
    requires !Has(m, n) || !Has(n, m)
    ensures Has(Setting(w, m), n) <==> Has(w, n)
    ensures Has(Clearing(w, m), n) <==> Has(w, n)
  {
    hide And, Either;
    Commutes(m, n);
    AddsNothing(w, m, n);
    ClearsOnly(w, m, n);
  }

  lemma OwnBit(w: bv64, m: bv64)
    requires m != 0
    ensures Has(Setting(w, m), m) && !Has(Clearing(w, m), m)
  {
  }

  lemma EitherBit(v: bv64, w: bv64, m: bv64)
    ensures Has(Either(v, w), m) <==> Has(v, m) || Has(w, m)
  {
    hide And, Either;
    if And(Either(v, w), m) == 0 {
      LosesNothing(v, w, m);
    } else if And(w, m) == 0 {
      AddsNothing(v, w, m);
    }
  }

  lemma NoBit(m: bv64)
    ensures !Has(0, m)
  {
  }

  /** One word after the change of one bit. */
  lemma WordBit(w: bv64, i: nat, j: nat)
    requires i < 64 && j < 64
    ensures Has(Setting(w, Mask(i)), Mask(j)) <==> i == j || Has(w, Mask(j))
    ensures Has(Clearing(w, Mask(i)), Mask(j)) <==> i != j && Has(w, Mask(j))
  {
    hide Mask, Has, Setting, Clearing;
    if i == j {
      MaskNotZero(i);
      OwnBit(w, Mask(i));
    } else {
      if i < j {
        MasksApart(i, j);
      } else {
        MasksApart(j, i);
      }
      OtherBit(w, Mask(i), Mask(j));
    }
  }

  // ---------------------------------------------------------------- references

  /** Word and mask of a reference. */
  function Position(reference: u8): (at: (nat, bv64))
    ensures at.0 < 4
  {
    (reference / 64, Mask(reference % 64))
  }

  predicate IsSet(b: Bitmap, reference: u8) {
    var (word, mask) := Position(reference);
    Has(b[word], mask)
  }

  /** The reference is in one bitmap or the other. */
  predicate EitherIsSet(active: Bitmap, cooling: Bitmap, reference: u8) {
    var (word, mask) := Position(reference);
    Has(Either(active[word], cooling[word]), mask)
  }

  function WithBit(b: Bitmap, reference: u8, bit: bool): Bitmap {
    var (word, mask) := Position(reference);
    b[word := if bit then Setting(b[word], mask) else Clearing(b[word], mask)]
  }

  lemma EitherIsOr(active: Bitmap, cooling: Bitmap, reference: u8)
    ensures EitherIsSet(active, cooling, reference) <==> IsSet(active, reference) || IsSet(cooling, reference)
  {
    hide Has, Either, Mask;
    var (word, mask) := Position(reference);
    EitherBit(active[word], cooling[word], mask);
  }

  /** The references a bitmap stands for. */
  ghost function Members(b: Bitmap): set<u8> {
    set r: u8 | 0 <= r <= 255 && IsSet(b, r)
  }

  lemma EmptyMembers()
    ensures Members(EMPTY) == {}
  {
    hide Has, Mask;
    forall r: u8
      ensures !IsSet(EMPTY, r)
    {
      NoBit(Position(r).1);
    }
  }

  /** Setting or clearing a reference changes its own membership only. */
  lemma BitMembers(b: Bitmap, reference: u8, bit: bool)
    ensures Members(WithBit(b, reference, bit)) ==
            if bit then Members(b) + {reference} else Members(b) - {reference}
  {
    hide IsSet, WithBit;
    forall r: u8
      ensures IsSet(WithBit(b, reference, bit), r) <==> if r == reference then bit else IsSet(b, r)
    {
      OneBit(b, reference, bit, r);
    }
  }

  lemma OneBit(b: Bitmap, reference: u8, bit: bool, r: u8)
    ensures IsSet(WithBit(b, reference, bit), r) <==> if r == reference then bit else IsSet(b, r)
  {
    hide Mask, Has, Setting, Clearing;
    var i: nat, j: nat := reference % 64, r % 64;
    assert reference == 64 * (reference / 64) + i && r == 64 * (r / 64) + j;
    WordBit(b[reference / 64], i, j);
  }
}
