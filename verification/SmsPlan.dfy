/** What a good split of a long message is, and why the greedy one is the best. */
module SmsPlan {
  import opened Wrappers
  import opened SmsText
  import opened Utf8

  const SINGLE_MAX_BYTES: nat := 140
  const MULTIPART_MAX_BYTES: nat := 134

  /** Encoded size of the characters from `from` up to `to`. */
  function Span(e: SmsEncoding, t: Text, from: nat, to: nat): nat
    requires from <= to <= |t|
  {
    Size(e, t[from..to])
  }

  lemma SpanJoin(e: SmsEncoding, t: Text, a: nat, b: nat, c: nat)
    requires a <= b <= c <= |t|
    ensures Span(e, t, a, c) == Span(e, t, a, b) + Span(e, t, b, c)
  {
    hide Size;
    SizeSplit(e, t[a..b], t[b..c]);
    assert t[a..c] == t[a..b] + t[b..c];
  }

  lemma SpanSnoc(e: SmsEncoding, t: Text, a: nat, b: nat)
    requires a <= b < |t|
    ensures Span(e, t, a, b + 1) == Span(e, t, a, b) + Width(e, t[b])
    ensures Span(e, t, a, a) == 0
  {
    hide Width;
    assert t[a..b + 1][..b - a] == t[a..b] && t[a..b + 1][b - a] == t[b];
  }

  /** Character positions 0, ..., |t| between which the segments lie. */
  type Cuts = seq<nat>

  predicate Ascending(cuts: Cuts) {
    forall j, k | 0 <= j < k < |cuts| :: cuts[j] <= cuts[k]
  }

  predicate StrictlyAscending(cuts: Cuts) {
    forall j, k | 0 <= j < k < |cuts| :: cuts[j] < cuts[k]
  }

  predicate IsPartition(t: Text, cuts: Cuts) {
    |cuts| >= 2 && cuts[0] == 0 && cuts[|cuts| - 1] == |t| && Ascending(cuts)
  }

  /** Encoded size of segment `k`. */
  function SegmentSize(e: SmsEncoding, t: Text, cuts: Cuts, k: nat): nat
    requires IsPartition(t, cuts) && k < |cuts| - 1
  {
    Span(e, t, cuts[k], cuts[k + 1])
  }

  ghost predicate Fits(e: SmsEncoding, t: Text, cuts: Cuts)
    requires IsPartition(t, cuts)
  {
    forall k: nat | k < |cuts| - 1 :: SegmentSize(e, t, cuts, k) <= MULTIPART_MAX_BYTES
  }

  /** Segment `k` fits, is not empty, and could not take one more character. */
  predicate Full(e: SmsEncoding, t: Text, cuts: Cuts, k: nat) {
    && k + 1 < |cuts| && cuts[k] < cuts[k + 1] < |t|
    && Span(e, t, cuts[k], cuts[k + 1]) <= MULTIPART_MAX_BYTES
    && Span(e, t, cuts[k], cuts[k + 1]) + Width(e, t[cuts[k + 1]]) > MULTIPART_MAX_BYTES
  }

  /** Every segment holds something and all but the last are full. */
  ghost predicate Greedy(e: SmsEncoding, t: Text, cuts: Cuts) {
    && IsPartition(t, cuts) && StrictlyAscending(cuts)
    && (forall k: nat | k < |cuts| - 2 :: Full(e, t, cuts, k))
    && SegmentSize(e, t, cuts, |cuts| - 2) <= MULTIPART_MAX_BYTES
  }

  lemma GreedyFits(e: SmsEncoding, t: Text, cuts: Cuts)
    requires Greedy(e, t, cuts)
    ensures Fits(e, t, cuts)
  {
    hide Span;
    forall k: nat | k < |cuts| - 1
      ensures SegmentSize(e, t, cuts, k) <= MULTIPART_MAX_BYTES
    {
      assert k < |cuts| - 2 ==> Full(e, t, cuts, k);
    }
  }

  /** No other split gets ahead of the greedy one. */
  lemma {:induction false} StaysAhead(e: SmsEncoding, t: Text, greedy: Cuts, other: Cuts, k: nat)
    requires Greedy(e, t, greedy) && IsPartition(t, other) && Fits(e, t, other)
    requires k < |greedy| && k < |other|
    ensures other[k] <= greedy[k]
  {
    hide Span;
    if k > 0 {
      StaysAhead(e, t, greedy, other, k - 1);
      assert k == |greedy| - 1 ==> other[k] <= |t|;
      if k < |greedy| - 1 && other[k] > greedy[k] {
        assert SegmentSize(e, t, other, k - 1) <= MULTIPART_MAX_BYTES;
        Overfull(e, t, greedy, other, k - 1);
      }
    }
  }

  lemma Overfull(e: SmsEncoding, t: Text, greedy: Cuts, other: Cuts, k: nat)
    requires Full(e, t, greedy, k) && IsPartition(t, other)
    requires k < |other| - 1 && other[k] <= greedy[k] && greedy[k + 1] < other[k + 1] <= |t|
    ensures SegmentSize(e, t, other, k) > MULTIPART_MAX_BYTES
  {
    hide Span;
    var a, b, c, d := other[k], greedy[k], greedy[k + 1], other[k + 1];
    SpanSnoc(e, t, b, c);
    SpanJoin(e, t, a, b, d);
    SpanJoin(e, t, b, c + 1, d);
  }

  /** The greedy split has the fewest segments of all that fit. */
  lemma GreedyIsFewest(e: SmsEncoding, t: Text, greedy: Cuts, other: Cuts)
    requires Greedy(e, t, greedy) && IsPartition(t, other) && Fits(e, t, other)
    ensures |greedy| <= |other|
  {
    hide Span, Full, Fits;
    if |other| < |greedy| {
      StaysAhead(e, t, greedy, other, |other| - 1);
    }
  }

  /** There is only one greedy split. */
  lemma GreedyIsUnique(e: SmsEncoding, t: Text, a: Cuts, b: Cuts)
    requires Greedy(e, t, a) && Greedy(e, t, b)
    ensures a == b
  {
    GreedyFits(e, t, a);
    GreedyFits(e, t, b);
    hide Span, Full, Fits;
    GreedyIsFewest(e, t, a, b);
    GreedyIsFewest(e, t, b, a);
    forall k | 0 <= k < |a|
      ensures a[k] == b[k]
    {
      StaysAhead(e, t, a, b, k);
      StaysAhead(e, t, b, a, k);
    }
  }

  // ------------------------------------------------------- building the split

  /** The starts of the segments of the first `i` characters, and the size of the
      open one. */
  ghost predicate Growing(e: SmsEncoding, t: Text, cuts: Cuts, i: nat, current: nat) {
    && i <= |t| && |cuts| >= 1 && cuts[0] == 0 && StrictlyAscending(cuts)
    && cuts[|cuts| - 1] <= i && (i == 0 <==> cuts[|cuts| - 1] == i)
    && current == Span(e, t, cuts[|cuts| - 1], i) <= MULTIPART_MAX_BYTES
    && (forall k: nat | k < |cuts| - 1 :: Full(e, t, cuts, k))
  }

  predicate StartsNew(e: SmsEncoding, c: Scalar, current: nat) {
    current != 0 && current + Width(e, c) > MULTIPART_MAX_BYTES
  }

  lemma SmallWidth(e: SmsEncoding, c: Scalar)
    ensures 1 <= Width(e, c) <= 4
  {
  }

  lemma GrowStart(e: SmsEncoding, t: Text)
    ensures Growing(e, t, [0], 0, 0)
  {
    assert t[0..0] == [];
  }

  lemma GrowOpen(e: SmsEncoding, t: Text, cuts: Cuts, i: nat, current: nat)
    requires Growing(e, t, cuts, i, current) && i < |t| && !StartsNew(e, t[i], current)
    ensures Growing(e, t, cuts, i + 1, current + Width(e, t[i]))
  {
    hide Full, Span, Width;
    SmallWidth(e, t[i]);
    SpanSnoc(e, t, cuts[|cuts| - 1], i);
  }

  lemma GrowClose(e: SmsEncoding, t: Text, cuts: Cuts, i: nat, current: nat)
    requires Growing(e, t, cuts, i, current) && i < |t| && StartsNew(e, t[i], current)
    ensures cuts[|cuts| - 1] < i && Growing(e, t, cuts + [i], i + 1, Width(e, t[i]))
  {
    hide Span, Width;
    SmallWidth(e, t[i]);
    SpanSnoc(e, t, i, i);
    var all, last := cuts + [i], |cuts| - 1;
    forall k: nat | k < |cuts|
      ensures Full(e, t, all, k)
    {
      if k < last {
        assert Full(e, t, cuts, k);
      } else {
        assert all[k] == cuts[last] && all[k + 1] == i;
      }
    }
  }

  lemma GrowEnd(e: SmsEncoding, t: Text, cuts: Cuts, current: nat)
    requires Growing(e, t, cuts, |t|, current) && t != []
    ensures Greedy(e, t, cuts + [|t|])
  {
    hide Span;
    var all, last := cuts + [|t|], |cuts| - 1;
    assert all[last] == cuts[last] && all[last + 1] == |t|;
    forall k: nat | k < |all| - 2
      ensures Full(e, t, all, k)
    {
      assert Full(e, t, cuts, k);
    }
  }
}
