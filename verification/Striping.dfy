/**
 * Cutting a value into stripes of a fixed size, one file each, and putting it back together. The
 * value arrives as a list of segments of any lengths, which are sliced on stripe boundaries.
 */
module Striping {
  import opened Types

  function StripeCount(total: nat, chunkSize: nat): (n: nat)
    requires chunkSize > 0
  {
    (total + chunkSize - 1) / chunkSize
  }

  lemma StripeCountIsTight(total: nat, chunkSize: nat)
    requires chunkSize > 0
    ensures total <= StripeCount(total, chunkSize) * chunkSize < total + chunkSize
  {
  }

  lemma MulMonotone(a: nat, b: nat, d: nat)
    requires a <= b
    ensures a * d <= b * d
  {
  }

  /** Stripe `i` starts inside the value exactly when it is one of the counted stripes. */
  lemma StripeStarts(total: nat, chunkSize: nat, i: nat)
    requires chunkSize > 0
    ensures i < StripeCount(total, chunkSize) <==> i * chunkSize < total
  {
    var n := StripeCount(total, chunkSize);
    StripeCountIsTight(total, chunkSize);
    if i < n {
      MulMonotone(i + 1, n, chunkSize);
      assert (i + 1) * chunkSize == i * chunkSize + chunkSize;
    } else {
      MulMonotone(n, i, chunkSize);
    }
  }

  function StripeEnd(total: nat, chunkSize: nat, i: nat): nat {
    Min(i * chunkSize + chunkSize, total)
  }

  /** Bytes `[i * chunkSize, min((i + 1) * chunkSize, total))` of the value. */
  function Stripe(data: Bytes, chunkSize: nat, i: nat): (part: Bytes)
    requires i * chunkSize <= |data|
  {
    data[i * chunkSize..StripeEnd(|data|, chunkSize, i)]
  }

  /** The first `n` stripes of the value. */
  function Stripes(data: Bytes, chunkSize: nat, n: nat): (parts: seq<Bytes>)
    requires chunkSize > 0 && n <= StripeCount(|data|, chunkSize)
    ensures |parts| == n
  {
    if n == 0 then []
    else
      StripeStarts(|data|, chunkSize, n - 1);
      Stripes(data, chunkSize, n - 1) + [Stripe(data, chunkSize, n - 1)]
  }

  lemma {:induction false} StripesAt(data: Bytes, chunkSize: nat, n: nat, i: nat)
    requires chunkSize > 0 && i < n <= StripeCount(|data|, chunkSize)
    ensures i * chunkSize <= |data| && Stripes(data, chunkSize, n)[i] == Stripe(data, chunkSize, i)
  {
    StripeStarts(|data|, chunkSize, i);
    if i < n - 1 {
      StripesAt(data, chunkSize, n - 1, i);
    }
  }

  lemma {:induction false} StripesJoin(data: Bytes, chunkSize: nat, n: nat)
    requires chunkSize > 0 && n <= StripeCount(|data|, chunkSize)
    ensures Flatten(Stripes(data, chunkSize, n)) == data[..Min(n * chunkSize, |data|)]
  {
    if n > 0 {
      StripeStarts(|data|, chunkSize, n - 1);
      StripesJoin(data, chunkSize, n - 1);
      FlattenSnoc(Stripes(data, chunkSize, n - 1), Stripe(data, chunkSize, n - 1));
      assert (n - 1) * chunkSize + chunkSize == n * chunkSize;
    }
  }

  /** All the stripes of a value, joined, are the value. */
  lemma StripesRejoin(data: Bytes, chunkSize: nat)
    requires chunkSize > 0
    ensures Flatten(Stripes(data, chunkSize, StripeCount(|data|, chunkSize))) == data
  {
    var n := StripeCount(|data|, chunkSize);
    StripeCountIsTight(|data|, chunkSize);
    StripesJoin(data, chunkSize, n);
    assert data[..|data|] == data;
  }

  /** Byte `k` of the value lies in stripe `k / chunkSize`, at offset `k % chunkSize`, and in no other stripe. */
  lemma ByteHome(data: Bytes, chunkSize: nat, k: nat)
    requires chunkSize > 0 && k < |data|
    ensures k / chunkSize < StripeCount(|data|, chunkSize) && (k / chunkSize) * chunkSize <= |data|
    ensures k % chunkSize < |Stripe(data, chunkSize, k / chunkSize)|
    ensures Stripe(data, chunkSize, k / chunkSize)[k % chunkSize] == data[k]
    ensures forall i: nat {:trigger i * chunkSize} ::
      i * chunkSize <= k < StripeEnd(|data|, chunkSize, i) ==> i == k / chunkSize
  {
    assert k == (k / chunkSize) * chunkSize + k % chunkSize;
    StripeStarts(|data|, chunkSize, k / chunkSize);
    forall i: nat | i * chunkSize <= k < StripeEnd(|data|, chunkSize, i)
      ensures i == k / chunkSize
    {
      QuotientUnique(k, chunkSize, i);
    }
  }

  lemma QuotientUnique(k: nat, d: nat, q: nat)
    requires d > 0 && q * d <= k < q * d + d
    ensures q == k / d
  {
    var p := k / d;
    assert k == p * d + k % d;
    MulStrict(p, q, d);
    MulStrict(q, p, d);
  }

  lemma MulStrict(a: nat, b: nat, d: nat)
    ensures a < b ==> a * d + d <= b * d
  {
    if a < b {
      MulMonotone(a + 1, b, d);
      assert (a + 1) * d == a * d + d;
    }
  }

  // ---------------------------------------------------------------------------------------------
  // Re-bucketing segments

  /** A read position: `offset` bytes into segment `cur`, or the end of the list. */
  predicate InRange(segments: seq<Bytes>, cur: nat, offset: nat) {
    cur <= |segments| && if cur < |segments| then offset <= |segments[cur]| else offset == 0
  }

  /** Where the read position sits once `cur` segments and `offset` bytes of the next are consumed. */
  function Consumed(segments: seq<Bytes>, cur: nat, offset: nat): nat
    requires cur <= |segments|
  {
    |Flatten(segments[..cur])| + offset
  }

  lemma ConsumeSegment(segments: seq<Bytes>, cur: nat)
    requires cur < |segments|
    ensures Consumed(segments, cur, |segments[cur]|) == Consumed(segments, cur + 1, 0)
  {
    FlattenSnoc(segments[..cur], segments[cur]);
    assert segments[..cur + 1] == segments[..cur] + [segments[cur]];
  }

  lemma ConsumeAll(segments: seq<Bytes>)
    ensures Consumed(segments, |segments|, 0) == |Flatten(segments)|
  {
    assert segments[..|segments|] == segments;
  }

  /** A slice of one segment is the slice of the whole value at the read position. */
  lemma SegmentSlice(segments: seq<Bytes>, cur: nat, offset: nat, take: nat)
    requires cur < |segments| && offset + take <= |segments[cur]|
    ensures Consumed(segments, cur, offset) + take <= |Flatten(segments)|
    ensures var at := Consumed(segments, cur, offset);
      Flatten(segments)[at..at + take] == segments[cur][offset..offset + take]
  {
    var before, seg, rest := Flatten(segments[..cur]), segments[cur], Flatten(segments[cur + 1..]);
    assert Flatten(segments) == before + (seg + rest) by {
      FlattenAppend(segments[..cur], segments[cur..]);
      assert segments[..cur] + segments[cur..] == segments;
      assert segments[cur..][1..] == segments[cur + 1..];
    }
  }

  /**
   * The re-bucketing loop: every stripe is a list of whole segments and slices of segments. Stripe
   * `i` holds exactly its range of the concatenated segments, however these are cut, empty ones
   * included, and the stripes together hold the value.
   */
  method RebucketSegments(segments: seq<Bytes>, total: nat, chunkSize: nat) returns (stripes: seq<seq<Bytes>>)
    requires chunkSize > 0 && total == |Flatten(segments)|
    ensures |stripes| == StripeCount(total, chunkSize)
    ensures forall i :: 0 <= i < |stripes| ==>
      Flatten(stripes[i]) == Stripes(Flatten(segments), chunkSize, |stripes|)[i]
  {
    var count := (total + chunkSize - 1) / chunkSize;
    ghost var data := Flatten(segments);
    ghost var parts := Stripes(data, chunkSize, count);
    stripes := [];
    var curSegment: nat, curOffset: nat := 0, 0;
    for index := 0 to count
      invariant |stripes| == index && InRange(segments, curSegment, curOffset)
      invariant Consumed(segments, curSegment, curOffset) == Boundary(total, chunkSize, index)
      invariant forall i :: 0 <= i < index ==> Flatten(stripes[i]) == parts[i]
    {
      var start := index * chunkSize;
      var end := Min(start + chunkSize, total);
      BoundaryStep(total, chunkSize, index);
      StripesAt(data, chunkSize, count, index);
      var stripe: seq<Bytes>;
      stripe, curSegment, curOffset := FillStripe(segments, total, start, end, curSegment, curOffset);
      stripes := stripes + [stripe];
    }
  }

  /** Where stripe `index` begins, or the end of the value. */
  ghost function Boundary(total: nat, chunkSize: nat, index: nat): nat {
    Min(index * chunkSize, total)
  }

  lemma BoundaryStep(total: nat, chunkSize: nat, index: nat)
    requires chunkSize > 0 && index < StripeCount(total, chunkSize)
    ensures Boundary(total, chunkSize, index) == index * chunkSize
    ensures Boundary(total, chunkSize, index + 1) == StripeEnd(total, chunkSize, index) >= index * chunkSize
  {
    StripeStarts(total, chunkSize, index);
    assert (index + 1) * chunkSize == index * chunkSize + chunkSize;
  }

  /** The stripe so far holds the value from `start` up to the read position. */
  ghost predicate Filling(segments: seq<Bytes>, cur: nat, offset: nat, start: nat, stripe: seq<Bytes>) {
    && InRange(segments, cur, offset)
    && start <= Consumed(segments, cur, offset) <= |Flatten(segments)|
    && Flatten(stripe) == Flatten(segments)[start..Consumed(segments, cur, offset)]
  }

  /** Taking part of the current segment keeps the stripe filled up to the new read position. */
  lemma TakePart(segments: seq<Bytes>, cur: nat, offset: nat, take: nat, start: nat, stripe: seq<Bytes>)
    requires Filling(segments, cur, offset, start, stripe) && cur < |segments| && offset + take <= |segments[cur]|
    ensures Filling(segments, cur, offset + take, start, stripe + [segments[cur][offset..offset + take]])
  {
    SegmentSlice(segments, cur, offset, take);
    TakePartOf(Flatten(segments), stripe, segments[cur][offset..offset + take], start, Consumed(segments, cur, offset));
  }

  lemma TakePartOf(data: Bytes, stripe: seq<Bytes>, part: Bytes, start: nat, at: nat)
    requires start <= at && at + |part| <= |data|
    requires Flatten(stripe) == data[start..at] && part == data[at..at + |part|]
    ensures Flatten(stripe + [part]) == data[start..at + |part|]
  {
    FlattenSnoc(stripe, part);
    assert data[start..at] + data[at..at + |part|] == data[start..at + |part|];
  }

  /** A segment used up is the start of the next. */
  lemma NextSegment(segments: seq<Bytes>, cur: nat, start: nat, stripe: seq<Bytes>)
    requires cur < |segments| && Filling(segments, cur, |segments[cur]|, start, stripe)
    ensures Filling(segments, cur + 1, 0, start, stripe)
    ensures Consumed(segments, cur, |segments[cur]|) == Consumed(segments, cur + 1, 0)
  {
    ConsumeSegment(segments, cur);
  }

  /** The inner loop: consumes segments until the stripe is full. */
  method FillStripe(segments: seq<Bytes>, total: nat, start: nat, end: nat, segment: nat, offset: nat)
    returns (stripe: seq<Bytes>, curSegment: nat, curOffset: nat)
    requires total == |Flatten(segments)| && start <= end <= total
    requires InRange(segments, segment, offset) && Consumed(segments, segment, offset) == start
    ensures Filling(segments, curSegment, curOffset, start, stripe)
    ensures Consumed(segments, curSegment, curOffset) == end
  {
    stripe, curSegment, curOffset := [], segment, offset;
    var filled := start;
    while filled < end && curSegment < |segments|
      invariant Filling(segments, curSegment, curOffset, start, stripe)
      invariant Consumed(segments, curSegment, curOffset) == filled <= end
      decreases |segments| - curSegment, end - filled
    {
      var seg := segments[curSegment];
      var take := Min(|seg| - curOffset, end - filled);
      TakePart(segments, curSegment, curOffset, take, start, stripe);
      TakeAll(seg);
      stripe := stripe + [if take == |seg| && curOffset == 0 then seg else seg[curOffset..curOffset + take]];
      filled := filled + take;
      curOffset := curOffset + take;
      if curOffset == |seg| {
        NextSegment(segments, curSegment, start, stripe);
        curSegment, curOffset := curSegment + 1, 0;
      }
    }
    ConsumeAll(segments);
  }

  /** The copy-free write from one buffer slices at the same boundaries. */
  method SliceBuffer(data: Bytes, chunkSize: nat) returns (parts: seq<Bytes>)
    requires chunkSize > 0
    ensures parts == Stripes(data, chunkSize, StripeCount(|data|, chunkSize))
  {
    var count := (|data| + chunkSize - 1) / chunkSize;
    parts := [];
    for i := 0 to count
      invariant parts == Stripes(data, chunkSize, i)
    {
      StripeStarts(|data|, chunkSize, i);
      parts := parts + [data[i * chunkSize..Min(i * chunkSize + chunkSize, |data|)]];
    }
  }

  /** Reading a striped value back: its files in stripe order, appended to one buffer. */
  method ReadStriped(files: seq<Bytes>) returns (out: Bytes)
    ensures out == Flatten(files)
  {
    out := [];
    for i := 0 to |files|
      invariant out == Flatten(files[..i])
    {
      FlattenSnoc(files[..i], files[i]);
      assert files[..i + 1] == files[..i] + [files[i]];
      out := out + files[i];
    }
    assert files[..|files|] == files;
  }

  /** Writing segments as stripe files and reading the files back gives the segments' bytes. */
  method RoundTrip(segments: seq<Bytes>, chunkSize: nat) returns (files: seq<Bytes>, out: Bytes)
    requires chunkSize > 0
    ensures files == Stripes(Flatten(segments), chunkSize, StripeCount(|Flatten(segments)|, chunkSize))
    ensures out == Flatten(segments)
  {
    var total := |Flatten(segments)|;
    var stripes := RebucketSegments(segments, total, chunkSize);
    files := seq(|stripes|, i requires 0 <= i < |stripes| => Flatten(stripes[i]));
    out := ReadStriped(files);
    StripesRejoin(Flatten(segments), chunkSize);
  }
}
