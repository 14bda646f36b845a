/**
 * Moving KV-cache blocks to storage and back: blocks of every layer are gathered into one buffer,
 * the buffer is cut into segments, the segments are spread over parallel lanes, and on the way back
 * the lanes are merged and the bytes scattered to other block ids.
 */
module StoreLoad {
  import opened Types
  import opened Striping

  /** The blocks of one tensor plane. */
  type Plane = seq<Bytes>

  /** A layer has one plane, or two when keys and values are stored side by side. */
  /** Element type and its size in bytes. */
  datatype Dtype = Dtype(name: string, size: nat)

  datatype Layer = Layer(numel: nat, dtype: Dtype, planes: seq<Plane>)

  function BlockBytes(l: Layer): nat {
    Times(l.numel, l.dtype.size)
  }

  predicate ValidPlane(plane: Plane, blocks: nat, size: nat) {
    |plane| == blocks && forall k :: 0 <= k < |plane| ==> |plane[k]| == size
  }

  predicate ValidPlanes(planes: seq<Plane>, blocks: nat, size: nat) {
    forall p :: 0 <= p < |planes| ==> ValidPlane(planes[p], blocks, size)
  }

  predicate ValidLayers(layers: seq<Layer>, blocks: nat) {
    forall i :: 0 <= i < |layers| ==> ValidPlanes(layers[i].planes, blocks, BlockBytes(layers[i]))
  }

  predicate ValidIds(ids: seq<nat>, blocks: nat) {
    forall k :: 0 <= k < |ids| ==> ids[k] < blocks
  }

  /** `n * size`, added up. */
  function Times(n: nat, size: nat): nat {
    if n == 0 then 0 else Times(n - 1, size) + size
  }

  lemma {:induction false} TimesIsProduct(n: nat, size: nat)
    ensures Times(n, size) == n * size
  {
    if n > 0 {
      TimesIsProduct(n - 1, size);
      assert n * size == (n - 1) * size + size;
    }
  }

  // ---------------------------------------------------------------------------------------------
  // Gather

  function Pick(plane: Plane, ids: seq<nat>): (picked: seq<Bytes>)
    requires ValidIds(ids, |plane|)
    ensures |picked| == |ids|
  {
    seq(|ids|, k requires 0 <= k < |ids| => plane[ids[k]])
  }

  function GatherPlanes(planes: seq<Plane>, blocks: nat, size: nat, ids: seq<nat>): Bytes
    requires ValidPlanes(planes, blocks, size) && ValidIds(ids, blocks)
  {
    if planes == [] then []
    else Flatten(Pick(planes[0], ids)) + GatherPlanes(planes[1..], blocks, size, ids)
  }

  function GatherLayer(l: Layer, blocks: nat, ids: seq<nat>): Bytes
    requires ValidPlanes(l.planes, blocks, BlockBytes(l)) && ValidIds(ids, blocks)
  {
    GatherPlanes(l.planes, blocks, BlockBytes(l), ids)
  }

  /** All blocks of layer 0, then all of layer 1, and so on. */
  function Gather(layers: seq<Layer>, blocks: nat, ids: seq<nat>): Bytes
    requires ValidLayers(layers, blocks) && ValidIds(ids, blocks)
  {
    if layers == [] then []
    else Gather(Front(layers), blocks, ids) + GatherLayer(Last(layers), blocks, ids)
  }

  lemma {:induction false} EvenLength(parts: seq<Bytes>, size: nat)
    requires ValidPlane(parts, |parts|, size)
    ensures |Flatten(parts)| == Times(|parts|, size)
  {
    if parts != [] {
      EvenLength(parts[1..], size);
    }
  }

  lemma {:induction false} PlanesLength(planes: seq<Plane>, blocks: nat, size: nat, ids: seq<nat>)
    requires ValidPlanes(planes, blocks, size) && ValidIds(ids, blocks)
    ensures |GatherPlanes(planes, blocks, size, ids)| == Times(|planes|, Times(|ids|, size))
  {
    if planes != [] {
      EvenLength(Pick(planes[0], ids), size);
      PlanesLength(planes[1..], blocks, size, ids);
    }
  }

  // ---------------------------------------------------------------------------------------------
  // Scatter

  /** Bytes cut into `n` pieces of one size. */
  function Cut(bytes: Bytes, size: nat, n: nat): (pieces: seq<Bytes>)
    requires |bytes| == Times(n, size)
    ensures ValidPlane(pieces, n, size)
    decreases n
  {
    if n == 0 then []
    else Cut(bytes[..|bytes| - size], size, n - 1) + [bytes[|bytes| - size..]]
  }

  lemma {:induction false} CutFlatten(parts: seq<Bytes>, size: nat)
    requires ValidPlane(parts, |parts|, size)
    ensures |Flatten(parts)| == Times(|parts|, size) && Cut(Flatten(parts), size, |parts|) == parts
  {
    EvenLength(parts, size);
    if parts != [] {
      var front, last := Front(parts), Last(parts);
      CutFlatten(front, size);
      FlattenSnoc(front, last);
      assert parts == front + [last];
    }
  }

  /** Writes the pieces to the ids, one after another. */
  function Place(plane: Plane, ids: seq<nat>, pieces: seq<Bytes>): (placed: Plane)
    requires |ids| == |pieces| && ValidIds(ids, |plane|)
    ensures |placed| == |plane|
  {
    if ids == [] then plane else Place(plane, Front(ids), Front(pieces))[Last(ids) := Last(pieces)]
  }

  lemma {:induction false} PlaceHolds(plane: Plane, ids: seq<nat>, pieces: seq<Bytes>)
    requires |ids| == |pieces| && ValidIds(ids, |plane|) && Distinct(ids)
    ensures forall k :: 0 <= k < |ids| ==> Place(plane, ids, pieces)[ids[k]] == pieces[k]
    ensures forall b :: 0 <= b < |plane| && b !in ids ==> Place(plane, ids, pieces)[b] == plane[b]
  {
    if ids != [] {
      PlaceHolds(plane, Front(ids), Front(pieces));
      assert ids == Front(ids) + [Last(ids)];
    }
  }

  function ScatterPlanes(planes: seq<Plane>, blocks: nat, size: nat, ids: seq<nat>, bytes: Bytes): (r: seq<Plane>)
    requires ValidPlanes(planes, blocks, size) && ValidIds(ids, blocks)
    requires |bytes| == Times(|planes|, Times(|ids|, size))
    ensures |r| == |planes|
  {
    if planes == [] then []
    else
      var n := Times(|ids|, size);
      [Place(planes[0], ids, Cut(bytes[..n], size, |ids|))] + ScatterPlanes(planes[1..], blocks, size, ids, bytes[n..])
  }

  function LayerBytes(l: Layer, n: nat): nat {
    Times(|l.planes|, Times(n, BlockBytes(l)))
  }

  function LayersBytes(layers: seq<Layer>, n: nat): nat {
    if layers == [] then 0 else LayersBytes(Front(layers), n) + LayerBytes(Last(layers), n)
  }

  lemma {:induction false} GatherLength(layers: seq<Layer>, blocks: nat, ids: seq<nat>)
    requires ValidLayers(layers, blocks) && ValidIds(ids, blocks)
    ensures |Gather(layers, blocks, ids)| == LayersBytes(layers, |ids|)
  {
    if layers != [] {
      PlanesLength(Last(layers).planes, blocks, BlockBytes(Last(layers)), ids);
      GatherLength(Front(layers), blocks, ids);
    }
  }

  function ScatterLayer(l: Layer, blocks: nat, ids: seq<nat>, bytes: Bytes): Layer
    requires ValidPlanes(l.planes, blocks, BlockBytes(l)) && ValidIds(ids, blocks) && |bytes| == LayerBytes(l, |ids|)
  {
    l.(planes := ScatterPlanes(l.planes, blocks, BlockBytes(l), ids, bytes))
  }

  function Scatter(layers: seq<Layer>, blocks: nat, ids: seq<nat>, bytes: Bytes): (r: seq<Layer>)
    requires ValidLayers(layers, blocks) && ValidIds(ids, blocks) && |bytes| == LayersBytes(layers, |ids|)
    ensures |r| == |layers|
  {
    if layers == [] then []
    else
      var at := |bytes| - LayerBytes(Last(layers), |ids|);
      Scatter(Front(layers), blocks, ids, bytes[..at]) + [ScatterLayer(Last(layers), blocks, ids, bytes[at..])]
  }

  // ---------------------------------------------------------------------------------------------
  // Round trip

  /** Target blocks hold the source's blocks; every other block of the target is as before. */
  ghost predicate Transferred(source: Plane, from: seq<nat>, before: Plane, to: seq<nat>, after: Plane)
    requires |from| == |to| && ValidIds(from, |source|) && ValidIds(to, |before|)
  {
    && |after| == |before|
    && (forall k :: 0 <= k < |to| ==> after[to[k]] == source[from[k]])
    && (forall b :: 0 <= b < |before| && b !in to ==> after[b] == before[b])
  }

  lemma PlaneRoundTrip(source: Plane, from: seq<nat>, before: Plane, to: seq<nat>, size: nat)
    requires |from| == |to| && ValidIds(from, |source|) && ValidIds(to, |before|) && Distinct(to)
    requires ValidPlane(source, |source|, size)
    ensures |Flatten(Pick(source, from))| == Times(|to|, size)
    ensures Transferred(source, from, before, to, Place(before, to, Cut(Flatten(Pick(source, from)), size, |to|)))
  {
    CutFlatten(Pick(source, from), size);
    PlaceHolds(before, to, Pick(source, from));
  }

  lemma {:induction false} PlanesRoundTrip(source: seq<Plane>, from: seq<nat>, before: seq<Plane>, to: seq<nat>,
                                           blocks: nat, targetBlocks: nat, size: nat, p: nat)
    requires |source| == |before| && p < |source| && |from| == |to| && Distinct(to)
    requires ValidPlanes(source, blocks, size) && ValidPlanes(before, targetBlocks, size)
    requires ValidIds(from, blocks) && ValidIds(to, targetBlocks)
    ensures |GatherPlanes(source, blocks, size, from)| == Times(|before|, Times(|to|, size))
    ensures var after := ScatterPlanes(before, targetBlocks, size, to, GatherPlanes(source, blocks, size, from));
      |after| == |before| && Transferred(source[p], from, before[p], to, after[p])
    decreases |source|
  {
    PlanesLength(source, blocks, size, from);
    var first := Flatten(Pick(source[0], from));
    var bytes := GatherPlanes(source, blocks, size, from);
    PlaneRoundTrip(source[0], from, before[0], to, size);
    assert bytes[..|first|] == first && bytes[|first|..] == GatherPlanes(source[1..], blocks, size, from);
    if p > 0 {
      PlanesRoundTrip(source[1..], from, before[1..], to, blocks, targetBlocks, size, p - 1);
    }
  }

  /** Two caches of the same model: layer by layer the same element counts, sizes and planes. */
  ghost predicate SameShape(a: seq<Layer>, b: seq<Layer>) {
    && |a| == |b|
    && forall i :: 0 <= i < |a| ==>
         a[i].numel == b[i].numel && a[i].dtype.size == b[i].dtype.size && |a[i].planes| == |b[i].planes|
  }

  lemma {:induction false} SameShapeBytes(a: seq<Layer>, b: seq<Layer>, n: nat)
    requires SameShape(a, b)
    ensures LayersBytes(a, n) == LayersBytes(b, n)
  {
    if a != [] {
      SameShapeBytes(Front(a), Front(b), n);
    }
  }

  /**
   * Gathering blocks of one cache and scattering the bytes to distinct blocks of another reproduces
   * every plane of every layer at the target blocks, and touches no other block.
   */
  lemma {:induction false} BlocksRoundTrip(source: seq<Layer>, from: seq<nat>, before: seq<Layer>, to: seq<nat>,
                                           blocks: nat, targetBlocks: nat, i: nat, p: nat)
    requires SameShape(source, before) && i < |source| && p < |source[i].planes| && |from| == |to| && Distinct(to)
    requires ValidLayers(source, blocks) && ValidLayers(before, targetBlocks)
    requires ValidIds(from, blocks) && ValidIds(to, targetBlocks)
    ensures |Gather(source, blocks, from)| == LayersBytes(before, |to|)
    ensures var after := Scatter(before, targetBlocks, to, Gather(source, blocks, from));
      && |after[i].planes| == |before[i].planes|
      && Transferred(source[i].planes[p], from, before[i].planes[p], to, after[i].planes[p])
    decreases |source|
  {
    GatherLength(source, blocks, from);
    SameShapeBytes(source, before, |to|);
    var a, b := Last(source), Last(before);
    var rest, last := Gather(Front(source), blocks, from), GatherLayer(a, blocks, from);
    var bytes := Gather(source, blocks, from);
    PlanesLength(a.planes, blocks, BlockBytes(a), from);
    assert bytes[..|rest|] == rest && bytes[|rest|..] == last;
    if i == |source| - 1 {
      PlanesRoundTrip(a.planes, from, b.planes, to, blocks, targetBlocks, BlockBytes(a), p);
    } else {
      BlocksRoundTrip(Front(source), from, Front(before), to, blocks, targetBlocks, i, p);
    }
  }

  // ---------------------------------------------------------------------------------------------
  // Parallel lanes

  /** As even as possible, the remainder going to the front. */
  function PartitionSizes(total: nat, lanes: nat): (sizes: seq<nat>)
    requires lanes > 0
    ensures |sizes| == lanes
    ensures forall i, j :: 0 <= i < j < lanes ==> sizes[j] <= sizes[i] <= sizes[j] + 1
  {
    var base, extra := total / lanes, total % lanes;
    seq(lanes, i => if i < extra then base + 1 else base)
  }

  function Sum(xs: seq<nat>): nat {
    if xs == [] then 0 else Sum(Front(xs)) + Last(xs)
  }

  lemma {:induction false} SumPrefix(total: nat, lanes: nat, i: nat)
    requires 0 < lanes && i <= lanes
    ensures Sum(PartitionSizes(total, lanes)[..i]) == Times(i, total / lanes) + Min(i, total % lanes)
  {
    if i > 0 {
      SumPrefix(total, lanes, i - 1);
      var sizes := PartitionSizes(total, lanes);
      assert Front(sizes[..i]) == sizes[..i - 1] && Last(sizes[..i]) == sizes[i - 1];
    }
  }

  /** The parts add up to the whole. */
  lemma PartitionTotals(total: nat, lanes: nat)
    requires lanes > 0
    ensures Sum(PartitionSizes(total, lanes)) == total
  {
    SumPrefix(total, lanes, lanes);
    TimesIsProduct(lanes, total / lanes);
    assert total == lanes * (total / lanes) + total % lanes && total % lanes < lanes;
    assert PartitionSizes(total, lanes)[..lanes] == PartitionSizes(total, lanes);
  }

  lemma {:induction false} SumGrows(xs: seq<nat>, i: nat)
    requires i <= |xs|
    ensures Sum(xs[..i]) <= Sum(xs)
    decreases |xs|
  {
    if i == |xs| {
      assert xs[..i] == xs;
    } else {
      SumGrows(Front(xs), i);
      assert Front(xs)[..i] == xs[..i];
    }
  }

  lemma SumStep(sizes: seq<nat>, i: nat)
    requires i < |sizes|
    ensures Sum(sizes[..i + 1]) == Sum(sizes[..i]) + sizes[i] <= Sum(sizes)
  {
    assert Front(sizes[..i + 1]) == sizes[..i];
    SumGrows(sizes, i + 1);
  }

  /** Part `i` of the segments, cut contiguously into parts of the given sizes. */
  function PartAt(segments: seq<Bytes>, sizes: seq<nat>, i: nat): seq<Bytes>
    requires Sum(sizes) == |segments| && i < |sizes|
  {
    SumStep(sizes, i);
    segments[Sum(sizes[..i])..Sum(sizes[..i + 1])]
  }

  const SENTINEL: Bytes := [0]

  /** A lane without segments stores one zero byte, so that no lane is missing. */
  function Stored(lane: seq<Bytes>): seq<Bytes> {
    if lane == [] then [SENTINEL] else lane
  }

  /** Chunks that are not the one zero byte. */
  function Real(chunks: seq<Bytes>): seq<Bytes> {
    if chunks == [] then []
    else if Last(chunks) == SENTINEL then Real(Front(chunks)) else Real(Front(chunks)) + [Last(chunks)]
  }

  lemma {:induction false} RealLoses(chunks: seq<Bytes>)
    ensures |Flatten(Real(chunks))| <= |Flatten(chunks)|
    ensures Flatten(Real(chunks)) == Flatten(chunks) <==> SENTINEL !in chunks
    ensures |Flatten(Real(chunks))| == |Flatten(chunks)| <==> SENTINEL !in chunks
  {
    if chunks != [] {
      var front, last := Front(chunks), Last(chunks);
      RealLoses(front);
      FlattenSnoc(front, last);
      FlattenSnoc(Real(front), last);
      assert chunks == front + [last];
    }
  }

  /** However a sentinel lane comes back, nothing of it is kept. */
  lemma {:induction false} SentinelVanishes(chunks: seq<Bytes>)
    requires Flatten(chunks) == SENTINEL
    ensures Flatten(Real(chunks)) == []
  {
    var front, last := Front(chunks), Last(chunks);
    FlattenSnoc(front, last);
    assert chunks == front + [last];
    if last == [] {
      SentinelVanishes(front);
      FlattenSnoc(Real(front), last);
    } else {
      assert |Flatten(front)| == 0;
      RealLoses(front);
      assert last == SENTINEL;
    }
  }

  /** The lanes' chunks in lane order, sentinels skipped. */
  function Merged(parts: seq<seq<Bytes>>): seq<Bytes> {
    if parts == [] then [] else Merged(Front(parts)) + Real(Last(parts))
  }

  /** What each lane returns holds the bytes stored there, sentinel included, cut in any way. */
  ghost predicate EachReturned(lanes: seq<seq<Bytes>>, parts: seq<seq<Bytes>>) {
    |lanes| == |parts| && forall i :: 0 <= i < |parts| ==> Flatten(parts[i]) == Flatten(Stored(lanes[i]))
  }

  /** With a single channel there are no lanes: the segments are stored as they are. */
  function StoredLanes(lanes: seq<seq<Bytes>>): (r: seq<seq<Bytes>>)
    ensures |r| == |lanes|
  {
    if |lanes| == 1 then lanes else seq(|lanes|, i requires 0 <= i < |lanes| => Stored(lanes[i]))
  }

  /** And what comes back is not looked at for sentinels. */
  function Gathered(parts: seq<seq<Bytes>>): seq<Bytes> {
    if |parts| == 1 then parts[0] else Merged(parts)
  }

  /** Every channel returns the bytes stored on it, cut in any way. */
  ghost predicate Returned(lanes: seq<seq<Bytes>>, parts: seq<seq<Bytes>>) {
    && |lanes| == |parts|
    && forall i :: 0 <= i < |parts| ==> Flatten(parts[i]) == Flatten(StoredLanes(lanes)[i])
  }

  /** No chunk of a lane that holds segments is a single zero byte. */
  ghost predicate NoFalseSentinel(lanes: seq<seq<Bytes>>, parts: seq<seq<Bytes>>)
    requires |lanes| == |parts|
  {
    forall i :: 0 <= i < |parts| && lanes[i] != [] ==> SENTINEL !in parts[i]
  }

  lemma {:induction false} LaneKept(lane: seq<Bytes>, chunks: seq<Bytes>)
    requires Flatten(chunks) == Flatten(Stored(lane))
    ensures |Flatten(Real(chunks))| <= |Flatten(lane)|
    ensures Flatten(Real(chunks)) == Flatten(lane) <==> lane == [] || SENTINEL !in chunks
    ensures |Flatten(Real(chunks))| == |Flatten(lane)| ==> Flatten(Real(chunks)) == Flatten(lane)
  {
    if lane == [] {
      assert [SENTINEL][1..] == [];
      SentinelVanishes(chunks);
    } else {
      RealLoses(chunks);
    }
  }

  lemma SumsEqual(a: Bytes, k: Bytes, b: Bytes, t: Bytes)
    requires |a| <= |b| && |k| <= |t|
    ensures a + k == b + t <==> a == b && k == t
  {
    if a + k == b + t {
      assert |a| == |b| && |k| == |t|;
      assert a == (a + k)[..|a|] == b && k == (a + k)[|a|..] == t;
    }
  }

  lemma {:induction false} MergeIff(lanes: seq<seq<Bytes>>, parts: seq<seq<Bytes>>)
    requires EachReturned(lanes, parts)
    ensures |Flatten(Merged(parts))| <= |Flatten(Flatten(lanes))|
    ensures Flatten(Merged(parts)) == Flatten(Flatten(lanes)) <==> NoFalseSentinel(lanes, parts)
  {
    if parts != [] {
      var lane, chunks := Last(lanes), Last(parts);
      var a, k := Flatten(Merged(Front(parts))), Flatten(Real(chunks));
      var b, t := Flatten(Flatten(Front(lanes))), Flatten(lane);
      MergeIff(Front(lanes), Front(parts));
      assert Flatten(Merged(parts)) == a + k by { FlattenAppend(Merged(Front(parts)), Real(chunks)); }
      assert Flatten(Flatten(lanes)) == b + t by { FlattenTwice(lanes); }
      LaneKept(lane, chunks);
      SumsEqual(a, k, b, t);
      NoFalseSnoc(lanes, parts);
    }
  }

  lemma FlattenTwice(lanes: seq<seq<Bytes>>)
    requires lanes != []
    ensures Flatten(Flatten(lanes)) == Flatten(Flatten(Front(lanes))) + Flatten(Last(lanes))
  {
    assert lanes == Front(lanes) + [Last(lanes)];
    FlattenSnoc(Front(lanes), Last(lanes));
    FlattenAppend(Flatten(Front(lanes)), Last(lanes));
  }

  lemma NoFalseSnoc(lanes: seq<seq<Bytes>>, parts: seq<seq<Bytes>>)
    requires |lanes| == |parts| && parts != []
    ensures NoFalseSentinel(lanes, parts) <==>
      NoFalseSentinel(Front(lanes), Front(parts)) && (Last(lanes) == [] || SENTINEL !in Last(parts))
  {
  }

  function Parts(segments: seq<Bytes>, sizes: seq<nat>): (r: seq<seq<Bytes>>)
    requires Sum(sizes) == |segments|
    ensures |r| == |sizes|
  {
    seq(|sizes|, i requires 0 <= i < |sizes| => PartAt(segments, sizes, i))
  }

  lemma {:induction false} PartsUpTo(segments: seq<Bytes>, sizes: seq<nat>, n: nat)
    requires Sum(sizes) == |segments| && n <= |sizes|
    ensures Sum(sizes[..n]) <= |segments| && Flatten(Parts(segments, sizes)[..n]) == segments[..Sum(sizes[..n])]
  {
    if n > 0 {
      var all := Parts(segments, sizes);
      PartsUpTo(segments, sizes, n - 1);
      SumStep(sizes, n - 1);
      TakeNext(all, n - 1);
      FlattenSnoc(all[..n - 1], all[n - 1]);
      TakeSome(segments, Sum(sizes[..n - 1]), Sum(sizes[..n]));
    }
  }

  /** The segments each lane carries. */
  function LanesOf(segments: seq<Bytes>, lanes: nat): (r: seq<seq<Bytes>>)
    requires lanes > 0
    ensures |r| == lanes
  {
    PartitionTotals(|segments|, lanes);
    Parts(segments, PartitionSizes(|segments|, lanes))
  }

  /** In lane order, the lanes hold the segments. */
  lemma LanesJoin(segments: seq<Bytes>, lanes: nat)
    requires lanes > 0
    ensures Flatten(LanesOf(segments, lanes)) == segments
  {
    PartitionTotals(|segments|, lanes);
    JoinParts(segments, PartitionSizes(|segments|, lanes));
  }

  lemma JoinParts(segments: seq<Bytes>, sizes: seq<nat>)
    requires Sum(sizes) == |segments|
    ensures Flatten(Parts(segments, sizes)) == segments
  {
    PartsUpTo(segments, sizes, |sizes|);
    TakeAll(sizes);
    TakeAll(segments);
    TakeAll(Parts(segments, sizes));
  }

  /**
   * The stored bytes come back exactly when a single channel is used or no chunk of a lane that holds
   * segments comes back as a lone zero byte.
   */
  lemma LanesRoundTripIff(segments: seq<Bytes>, lanes: nat, parts: seq<seq<Bytes>>)
    requires lanes > 0 && Returned(LanesOf(segments, lanes), parts)
    ensures Flatten(Gathered(parts)) == Flatten(segments) <==>
      lanes == 1 || NoFalseSentinel(LanesOf(segments, lanes), parts)
  {
    if lanes == 1 {
      SingleLane(segments);
    } else {
      MergeIff(LanesOf(segments, lanes), parts);
      LanesJoin(segments, lanes);
    }
  }

  lemma SingleLane(segments: seq<Bytes>)
    ensures LanesOf(segments, 1) == [segments]
  {
    LanesJoin(segments, 1);
    var only := LanesOf(segments, 1);
    assert only == [only[0]];
    FlattenOne(only[0]);
  }

  /** One zero byte stored over two lanes comes back as nothing; over a single channel it comes back. */
  lemma LoneZeroLost()
    ensures Returned(LanesOf([SENTINEL], 2), [[SENTINEL], [SENTINEL]])
    ensures Flatten(Gathered([[SENTINEL], [SENTINEL]])) == [] && Flatten(Gathered([[SENTINEL]])) == [0]
  {
    var lanes, sizes := LanesOf([SENTINEL], 2), PartitionSizes(1, 2);
    assert sizes == [1, 0] && sizes[..0] == [] && sizes[..1] == [1] && sizes[..2] == sizes;
    SumStep(sizes, 0);
    SumStep(sizes, 1);
    assert lanes[0] == [SENTINEL] && lanes[1] == [];
    FlattenOne(SENTINEL);
    var one, parts: seq<seq<Bytes>> := [[SENTINEL]], [[SENTINEL], [SENTINEL]];
    assert Front([SENTINEL]) == [] && Real([SENTINEL]) == [];
    assert Front(one) == [] && Merged(one) == [];
    assert Front(parts) == one && Merged(parts) == [];
  }

  /** The bytes cut at a fixed size. */
  function Chunked(data: Bytes, size: nat): seq<Bytes>
    requires size > 0
  {
    Stripes(data, size, StripeCount(|data|, size))
  }

  /** The last chunk is one byte, and that byte is zero. */
  predicate EndsInLoneZero(data: Bytes, size: nat)
    requires size > 0
  {
    |data| % size == 1 && data[|data| - 1] == 0
  }

  /** Cut at a size above one, bytes yield a lone zero byte exactly when they end in one. */
  lemma LoneZeroIff(data: Bytes, size: nat)
    requires size > 1
    ensures SENTINEL in Chunked(data, size) <==> EndsInLoneZero(data, size)
  {
    var n := StripeCount(|data|, size);
    if SENTINEL in Chunked(data, size) {
      var i :| 0 <= i < n && Chunked(data, size)[i] == SENTINEL;
      StripesAt(data, size, n, i);
      OneByteStripe(data, size, i);
    }
    if EndsInLoneZero(data, size) {
      LastStripe(data, size, |data| / size);
      StripesAt(data, size, n, |data| / size);
    }
  }

  lemma LastStripe(data: Bytes, size: nat, q: nat)
    requires size > 1 && EndsInLoneZero(data, size) && q == |data| / size
    ensures q < StripeCount(|data|, size) && q * size <= |data| && Stripe(data, size, q) == SENTINEL
  {
    assert |data| == q * size + 1;
    StripeStarts(|data|, size, q);
  }

  lemma OneByteStripe(data: Bytes, size: nat, i: nat)
    requires size > 1 && i * size <= |data| && Stripe(data, size, i) == SENTINEL
    ensures EndsInLoneZero(data, size)
  {
    assert |data| == i * size + 1;
    QuotientUnique(|data|, size, i);
    assert |data| == (|data| / size) * size + |data| % size;
    assert data[|data| - 1] == Stripe(data, size, i)[0];
  }

  /** What comes back when every channel cuts what it stores at a fixed size. */
  function CutLanes(lanes: seq<seq<Bytes>>, size: nat): (parts: seq<seq<Bytes>>)
    requires size > 0
    ensures |parts| == |lanes|
  {
    seq(|lanes|, i requires 0 <= i < |lanes| => Chunked(Flatten(StoredLanes(lanes)[i]), size))
  }

  /**
   * The same said of what is stored. With channels that cut at a fixed size above one, the stored
   * bytes come back exactly when there is a single channel or no lane's share ends in a lone zero byte.
   */
  lemma StoredRoundTripIff(segments: seq<Bytes>, lanes: nat, size: nat)
    requires lanes > 0 && size > 1
    ensures Flatten(Gathered(CutLanes(LanesOf(segments, lanes), size))) == Flatten(segments) <==>
      lanes == 1 || forall lane <- LanesOf(segments, lanes) :: !EndsInLoneZero(Flatten(lane), size)
  {
    var all, parts := LanesOf(segments, lanes), CutLanes(LanesOf(segments, lanes), size);
    forall i | 0 <= i < lanes
      ensures Flatten(parts[i]) == Flatten(StoredLanes(all)[i])
      ensures lanes > 1 ==>
        ((all[i] != [] ==> SENTINEL !in parts[i]) <==> !EndsInLoneZero(Flatten(all[i]), size))
    {
      StripesRejoin(Flatten(StoredLanes(all)[i]), size);
      LoneZeroIff(Flatten(StoredLanes(all)[i]), size);
    }
    LanesRoundTripIff(segments, lanes, parts);
    if lanes > 1 {
      NoneEndsIff(all, parts, size);
    }
  }

  lemma NoneEndsIff(all: seq<seq<Bytes>>, parts: seq<seq<Bytes>>, size: nat)
    requires size > 1 && |all| == |parts|
    requires forall i :: 0 <= i < |all| ==>
      ((all[i] != [] ==> SENTINEL !in parts[i]) <==> !EndsInLoneZero(Flatten(all[i]), size))
    ensures NoFalseSentinel(all, parts) <==> forall lane <- all :: !EndsInLoneZero(Flatten(lane), size)
  {
    if forall lane <- all :: !EndsInLoneZero(Flatten(lane), size) {
      forall i | 0 <= i < |parts| && all[i] != []
        ensures SENTINEL !in parts[i]
      {
        assert all[i] in all;
      }
    }
  }

  /** Stored segments are at most 4 MiB. */
  const SEGMENT: nat := 4 * 1024 * 1024

  function Segments(data: Bytes): seq<Bytes> {
    Chunked(data, SEGMENT)
  }

  /** A missing channel is a miss; so is a result without chunks. */
  function Collect(parts: seq<Option<seq<Bytes>>>): Option<seq<Bytes>> {
    if exists p <- parts :: p.None? then None
    else
      var chunks := Gathered(seq(|parts|, i requires 0 <= i < |parts| => assert parts[i] in parts; parts[i].value));
      if chunks == [] then None else Some(chunks)
  }

  /** Every channel has answered. */
  function Arrived(parts: seq<seq<Bytes>>): (r: seq<Option<seq<Bytes>>>)
    ensures |r| == |parts| && forall i :: 0 <= i < |r| ==> r[i] == Some(parts[i])
  {
    seq(|parts|, i requires 0 <= i < |parts| => Some(parts[i]))
  }

  lemma CollectArrived(parts: seq<seq<Bytes>>)
    ensures Collect(Arrived(parts)) == if Gathered(parts) == [] then None else Some(Gathered(parts))
  {
    var all := Arrived(parts);
    assert seq(|all|, i requires 0 <= i < |all| => assert all[i] in all; all[i].value) == parts;
  }

  /**
   * The whole way: blocks gathered, cut into segments, spread over lanes, read back with any chunk
   * boundaries, merged and scattered. Every target block equals its source block in every plane of
   * every layer, and no other block changes, provided a single channel is used or no chunk of a lane
   * that holds segments comes back as a lone zero byte.
   */
  lemma StoreThenLoad(source: seq<Layer>, from: seq<nat>, before: seq<Layer>, to: seq<nat>, blocks: nat,
                      targetBlocks: nat, lanes: nat, parts: seq<seq<Bytes>>, i: nat, p: nat)
    requires SameShape(source, before) && i < |source| && p < |source[i].planes| && |from| == |to| && Distinct(to)
    requires ValidLayers(source, blocks) && ValidLayers(before, targetBlocks)
    requires ValidIds(from, blocks) && ValidIds(to, targetBlocks) && lanes > 0
    requires Returned(LanesOf(Segments(Gather(source, blocks, from)), lanes), parts)
    requires lanes == 1 || NoFalseSentinel(LanesOf(Segments(Gather(source, blocks, from)), lanes), parts)
    ensures var loaded := Collect(Arrived(parts));
      && (loaded.None? ==> Gather(source, blocks, from) == [])
      && (loaded.Some? ==>
            && |Flatten(loaded.value)| == LayersBytes(before, |to|)
            && var after := Scatter(before, targetBlocks, to, Flatten(loaded.value));
               && |after[i].planes| == |before[i].planes|
               && Transferred(source[i].planes[p], from, before[i].planes[p], to, after[i].planes[p]))
  {
    var data := Gather(source, blocks, from);
    CollectArrived(parts);
    LanesRoundTripIff(Segments(data), lanes, parts);
    StripesRejoin(data, SEGMENT);
    BlocksRoundTrip(source, from, before, to, blocks, targetBlocks, i, p);
  }

  // ---------------------------------------------------------------------------------------------
  // The storage backend's lanes

  /** One channel stores the segments directly; more split them contiguously and each stores something. */
  method PutLanes(segments: seq<Bytes>, lanes: nat) returns (stored: seq<seq<Bytes>>)
    requires lanes > 0
    ensures stored == StoredLanes(LanesOf(segments, lanes))
    ensures lanes == 1 ==> stored == [segments]
    ensures lanes > 1 ==> forall lane <- stored :: lane != []
  {
    if lanes == 1 {
      SingleLane(segments);
      return [segments];
    }
    PartitionTotals(|segments|, lanes);
    stored := SplitLanes(segments, PartitionSizes(|segments|, lanes));
  }

  /** Contiguous parts of the given sizes, with the sentinel for an empty one. */
  method SplitLanes(segments: seq<Bytes>, sizes: seq<nat>) returns (stored: seq<seq<Bytes>>)
    requires Sum(sizes) == |segments|
    ensures |stored| == |sizes|
    ensures forall i :: 0 <= i < |sizes| ==> stored[i] == Stored(PartAt(segments, sizes, i))
  {
    stored := [];
    var start: nat := 0;
    for i := 0 to |sizes|
      invariant start == Sum(sizes[..i]) && SplitSoFar(segments, sizes, i, stored)
    {
      SumStep(sizes, i);
      var part := segments[start..start + sizes[i]];
      assert part == PartAt(segments, sizes, i);
      stored := stored + [if part == [] then [SENTINEL] else part];
      start := start + sizes[i];
    }
  }

  ghost predicate SplitSoFar(segments: seq<Bytes>, sizes: seq<nat>, n: nat, stored: seq<seq<Bytes>>)
    requires Sum(sizes) == |segments| && n <= |sizes|
  {
    |stored| == n && forall i :: 0 <= i < n ==> stored[i] == Stored(PartAt(segments, sizes, i))
  }

  method GetLanes(parts: seq<Option<seq<Bytes>>>) returns (chunks: Option<seq<Bytes>>)
    ensures chunks == Collect(parts)
    ensures (exists p <- parts :: p.None?) ==> chunks.None?
  {
    if exists p <- parts :: p.None? {
      return None;
    }
    ghost var lists := seq(|parts|, i requires 0 <= i < |parts| => assert parts[i] in parts; parts[i].value);
    if |parts| == 1 {
      assert parts[0] in parts && lists[0] == parts[0].value;
      return if parts[0].value == [] then None else Some(parts[0].value);
    }
    var merged := MergeLanes(parts, lists);
    chunks := if merged == [] then None else Some(merged);
  }

  /** Concatenates the lanes' chunks in lane order, skipping sentinels. */
  method MergeLanes(parts: seq<Option<seq<Bytes>>>, ghost lists: seq<seq<Bytes>>) returns (merged: seq<Bytes>)
    requires |lists| == |parts| && forall i :: 0 <= i < |parts| ==> parts[i] == Some(lists[i])
    ensures merged == Merged(lists)
  {
    merged := [];
    assert lists[..0] == [];
    for i := 0 to |parts|
      invariant merged == Merged(lists[..i])
    {
      var part := parts[i].value;
      ghost var base := merged;
      for k := 0 to |part|
        invariant merged == base + Real(part[..k])
      {
        assert Front(part[..k + 1]) == part[..k];
        if part[k] != SENTINEL {
          merged := merged + [part[k]];
        }
      }
      assert part[..|part|] == part && Front(lists[..i + 1]) == lists[..i];
    }
    assert lists[..|lists|] == lists;
  }

  // ---------------------------------------------------------------------------------------------
  // The worker

  /** Every layer has the element type of the first. */
  predicate Uniform(layers: seq<Layer>) {
    forall l <- layers :: l.dtype == layers[0].dtype
  }

  /** The size of a layer's part as the layout computes it, with the first layer's element size. */
  function PlannedBytes(l: Layer, n: nat, elemSize: nat): nat {
    |l.planes| * l.numel * n * elemSize
  }

  lemma PlannedIsActual(l: Layer, n: nat, elemSize: nat)
    requires l.dtype.size == elemSize
    ensures PlannedBytes(l, n, elemSize) == LayerBytes(l, n)
  {
    TimesIsProduct(l.numel, elemSize);
    TimesIsProduct(n, BlockBytes(l));
    TimesIsProduct(|l.planes|, n * BlockBytes(l));
    Rearrange(|l.planes|, l.numel, n, elemSize);
  }

  lemma Rearrange(a: nat, b: nat, c: nat, d: nat)
    ensures a * b * c * d == a * (c * (b * d))
  {
    assert a * b * c * d == a * (b * c * d);
    assert b * c * d == c * (b * d);
  }

  /** Every layer's part is as large as the layer's own bytes. */
  predicate Fitting(layers: seq<Layer>, sizes: seq<nat>, n: nat) {
    |sizes| == |layers| && forall i :: 0 <= i < |layers| ==> sizes[i] == LayerBytes(layers[i], n)
  }

  lemma {:induction false} FittingTotals(layers: seq<Layer>, sizes: seq<nat>, n: nat)
    requires Fitting(layers, sizes, n)
    ensures Sum(sizes) == LayersBytes(layers, n)
  {
    if layers != [] {
      FittingTotals(Front(layers), Front(sizes), n);
    }
  }

  /** The sizes of all layers' parts as the layout computes them. */
  function PlannedSizes(layers: seq<Layer>, n: nat): (r: seq<nat>)
    ensures |r| == |layers|
  {
    seq(|layers|, i requires 0 <= i < |layers| => PlannedBytes(layers[i], n, layers[0].dtype.size))
  }

  /** The parts are as large as the layers of the first layer's type. */
  predicate FitsFirstType(layers: seq<Layer>, sizes: seq<nat>, n: nat) {
    && |sizes| == |layers|
    && forall i :: 0 <= i < |layers| && layers[i].dtype == layers[0].dtype ==> sizes[i] == LayerBytes(layers[i], n)
  }

  lemma PlannedFits(layers: seq<Layer>, n: nat)
    ensures FitsFirstType(layers, PlannedSizes(layers, n), n)
  {
    forall i | 0 <= i < |layers| && layers[i].dtype == layers[0].dtype
      ensures PlannedSizes(layers, n)[i] == LayerBytes(layers[i], n)
    {
      PlannedIsActual(layers[i], n, layers[0].dtype.size);
    }
  }

  lemma UniformFits(layers: seq<Layer>, n: nat)
    requires Uniform(layers)
    ensures Fitting(layers, PlannedSizes(layers, n), n)
  {
    PlannedFits(layers, n);
    assert forall i :: 0 <= i < |layers| ==> layers[i] in layers;
  }

  /** Sizes of the layers' parts and their sum; they fit in a uniform cache. */
  method ByteLayout(layers: seq<Layer>, n: nat) returns (sizes: seq<nat>, total: nat)
    ensures sizes == PlannedSizes(layers, n) && total == Sum(sizes)
    ensures Uniform(layers) ==> Fitting(layers, sizes, n)
  {
    sizes, total := [], 0;
    ghost var planned := PlannedSizes(layers, n);
    for i := 0 to |layers|
      invariant sizes == planned[..i] && total == Sum(sizes)
    {
      var size := PlannedBytes(layers[i], n, layers[0].dtype.size);
      assert size == planned[i];
      TakeNext(planned, i);
      assert Front(sizes + [size]) == sizes;
      sizes, total := sizes + [size], total + size;
    }
    TakeAll(planned);
    if Uniform(layers) {
      UniformFits(layers, n);
    }
  }

  /** Copies bytes into a buffer at an offset. */
  method CopyInto(buffer: array<byte>, at: nat, bytes: Bytes)
    requires at + |bytes| <= buffer.Length
    modifies buffer
    ensures buffer[..at] == old(buffer[..at]) && buffer[at..at + |bytes|] == bytes
  {
    for k := 0 to |bytes|
      invariant buffer[..at] == old(buffer[..at]) && buffer[at..at + k] == bytes[..k]
    {
      buffer[at + k] := bytes[k];
    }
  }

  lemma GatherSnoc(front: seq<Layer>, l: Layer, blocks: nat, ids: seq<nat>)
    requires ValidLayers(front, blocks) && ValidPlanes(l.planes, blocks, BlockBytes(l)) && ValidIds(ids, blocks)
    ensures ValidLayers(front + [l], blocks)
    ensures Gather(front + [l], blocks, ids) == Gather(front, blocks, ids) + GatherLayer(l, blocks, ids)
    ensures |GatherLayer(l, blocks, ids)| == LayerBytes(l, |ids|)
  {
    assert Front(front + [l]) == front;
    PlanesLength(l.planes, blocks, BlockBytes(l), ids);
  }

  /** The gather loop: each layer's blocks go to the part planned for them, which they must fill. */
  method CopyLayers(layers: seq<Layer>, blocks: nat, ids: seq<nat>, sizes: seq<nat>, pinned: array<byte>)
    returns (ok: bool)
    requires ValidLayers(layers, blocks) && ValidIds(ids, blocks) && |sizes| == |layers| && pinned.Length == Sum(sizes)
    modifies pinned
    ensures ok ==> pinned[..] == Gather(layers, blocks, ids)
    ensures ok <==> Fitting(layers, sizes, |ids|)
  {
    var offset: nat := 0;
    for i := 0 to |layers|
      invariant offset == Sum(sizes[..i]) <= pinned.Length
      invariant Copied(layers[..i], sizes[..i], blocks, ids, pinned[..offset])
    {
      var src := GatherLayer(layers[i], blocks, ids);
      SumStep(sizes, i);
      CopiedNext(layers, sizes, blocks, ids, i, pinned[..offset]);
      if |src| != sizes[i] {
        return false;
      }
      CopyInto(pinned, offset, src);
      TakeSome(pinned[..], offset, offset + |src|);
      offset := offset + |src|;
    }
    TakeAll(layers);
    TakeAll(sizes);
    ok := true;
  }

  /** The layers fit their parts, and the bytes are what they gather to. */
  ghost predicate Copied(layers: seq<Layer>, sizes: seq<nat>, blocks: nat, ids: seq<nat>, bytes: Bytes) {
    && ValidLayers(layers, blocks) && ValidIds(ids, blocks)
    && Fitting(layers, sizes, |ids|) && bytes == Gather(layers, blocks, ids)
  }

  lemma CopiedNext(layers: seq<Layer>, sizes: seq<nat>, blocks: nat, ids: seq<nat>, i: nat, bytes: Bytes)
    requires ValidLayers(layers, blocks) && i < |layers| == |sizes|
    requires Copied(layers[..i], sizes[..i], blocks, ids, bytes)
    ensures |GatherLayer(layers[i], blocks, ids)| == LayerBytes(layers[i], |ids|)
    ensures sizes[i] == LayerBytes(layers[i], |ids|) ==>
      Copied(layers[..i + 1], sizes[..i + 1], blocks, ids, bytes + GatherLayer(layers[i], blocks, ids))
  {
    GatherSnoc(layers[..i], layers[i], blocks, ids);
    TakeNext(layers, i);
    TakeNext(sizes, i);
  }

  lemma ScatterSnoc(front: seq<Layer>, l: Layer, blocks: nat, ids: seq<nat>, rest: Bytes, part: Bytes)
    requires ValidLayers(front, blocks) && ValidPlanes(l.planes, blocks, BlockBytes(l)) && ValidIds(ids, blocks)
    requires |rest| == LayersBytes(front, |ids|) && |part| == LayerBytes(l, |ids|)
    ensures ValidLayers(front + [l], blocks) && LayersBytes(front + [l], |ids|) == |rest| + |part|
    ensures Scatter(front + [l], blocks, ids, rest + part) ==
      Scatter(front, blocks, ids, rest) + [ScatterLayer(l, blocks, ids, part)]
  {
    var all, bytes := front + [l], rest + part;
    assert Front(all) == front && Last(all) == l;
    assert bytes[..|rest|] == rest && bytes[|rest|..] == part;
  }

  class Worker {
    const blocks: nat
    var layers: seq<Layer>

    ghost predicate Valid()
      reads this
    {
      ValidLayers(layers, blocks)
    }

    /**
     * Copies the blocks of every layer, one layer after another, into a fresh buffer. A layer whose
     * own bytes do not fill the part planned for it is an error, and the only one; there is none in a
     * uniform cache.
     */
    method CopyToPinned(ids: seq<nat>) returns (ok: bool, pinned: array<byte>)
      requires Valid() && ValidIds(ids, blocks)
      ensures fresh(pinned)
      ensures ok ==> pinned[..] == Gather(layers, blocks, ids)
      ensures ok <==> Fitting(layers, PlannedSizes(layers, |ids|), |ids|)
      ensures Uniform(layers) ==> ok
    {
      var sizes, total := ByteLayout(layers, |ids|);
      pinned := new byte[total];
      ok := CopyLayers(layers, blocks, ids, sizes, pinned);
    }

    /**
     * Fills a buffer from the chunks and scatters it, layer by layer, to the block ids. Nothing to
     * load leaves the cache alone; a total other than the layout's is an error and does too. A layer
     * of another element type than the first stops the scatter with the layers before it written.
     */
    method LoadChunks(ids: seq<nat>, chunks: seq<Bytes>, total: nat) returns (ok: bool)
      requires Valid() && ValidIds(ids, blocks) && total == |Flatten(chunks)|
      modifies this
      ensures Valid()
      ensures ids == [] || old(layers) == [] || total == 0 ==> ok && layers == old(layers)
      ensures ids != [] && old(layers) != [] && total > 0 ==>
        var sizes := PlannedSizes(old(layers), |ids|);
        if total != Sum(sizes) then !ok && layers == old(layers)
        else if Uniform(old(layers)) then
          && ok && total == LayersBytes(old(layers), |ids|)
          && layers == Scatter(old(layers), blocks, ids, Flatten(chunks))
        else !ok && exists i :: StoppedAt(old(layers), sizes, blocks, ids, Flatten(chunks), i, layers)
      ensures ids != [] && old(layers) != [] && total > 0 && Uniform(old(layers)) ==>
        && (ok <==> total == LayersBytes(old(layers), |ids|))
        && layers == if ok then Scatter(old(layers), blocks, ids, Flatten(chunks)) else old(layers)
    {
      if ids == [] || layers == [] || chunks == [] || total == 0 {
        return true;
      }
      var sizes, expected := ByteLayout(layers, |ids|);
      if Uniform(layers) {
        FittingTotals(layers, sizes, |ids|);
      }
      if total != expected {
        return false;
      }
      var pinned := FillPinned(chunks, total);
      PlannedFits(layers, |ids|);
      ok, layers := ScatterParts(layers, blocks, ids, sizes, pinned);
    }
  }

  /** The first `n` layers have the element type of the first. */
  predicate SameType(layers: seq<Layer>, n: nat)
    requires n <= |layers|
  {
    forall j :: 0 <= j < n ==> layers[j].dtype == layers[0].dtype
  }

  lemma UniformUpTo(layers: seq<Layer>, n: nat)
    requires n <= |layers| && SameType(layers, n)
    ensures n == |layers| ==> Uniform(layers)
    ensures n < |layers| && layers[n].dtype != layers[0].dtype ==> !Uniform(layers)
    ensures n < |layers| && layers[n].dtype == layers[0].dtype ==> SameType(layers, n + 1)
  {
    if n < |layers| {
      assert layers[n] in layers;
    }
  }

  /** Layer `i` is the first of another element type; the layers before it are written, the rest are not. */
  ghost predicate StoppedAt(layers: seq<Layer>, sizes: seq<nat>, blocks: nat, ids: seq<nat>, pinned: Bytes, i: int,
                            updated: seq<Layer>)
  {
    && 0 <= i < |layers| == |sizes|
    && layers[i].dtype != layers[0].dtype && SameType(layers, i)
    && Sum(sizes[..i]) <= |pinned| && i <= |updated| && updated[i..] == layers[i..]
    && Scattered(layers[..i], sizes[..i], blocks, ids, pinned[..Sum(sizes[..i])], updated[..i])
  }

  /**
   * The scatter loop. Each part is taken as elements of the first layer's type, so it always has the
   * planned size; a layer of another type refuses it and stops the loop with the layers before it
   * already written.
   */
  method ScatterParts(layers: seq<Layer>, blocks: nat, ids: seq<nat>, sizes: seq<nat>, pinned: Bytes)
    returns (ok: bool, updated: seq<Layer>)
    requires ValidLayers(layers, blocks) && ValidIds(ids, blocks)
    requires FitsFirstType(layers, sizes, |ids|) && |pinned| == Sum(sizes)
    ensures ValidLayers(updated, blocks)
    ensures ok <==> Uniform(layers)
    ensures ok ==> |pinned| == LayersBytes(layers, |ids|) && updated == Scatter(layers, blocks, ids, pinned)
    ensures !ok ==> exists i :: StoppedAt(layers, sizes, blocks, ids, pinned, i, updated)
  {
    updated := [];
    var offset: nat := 0;
    ScatteredStart(layers, sizes, blocks, ids, pinned);
    for i := 0 to |layers|
      invariant ScatteredTo(layers, sizes, blocks, ids, pinned, i, offset, updated)
    {
      if layers[i].dtype != layers[0].dtype {
        ScatteredOn(layers, sizes, blocks, ids, pinned, i, offset, updated);
        return false, updated + layers[i..];
      }
      updated := ScatterOne(layers, blocks, ids, sizes, pinned, i, offset, updated);
      offset := offset + sizes[i];
    }
    ScatteredAll(layers, sizes, blocks, ids, pinned, offset, updated);
    ok := true;
  }

  /** One turn of the scatter loop. */
  method ScatterOne(layers: seq<Layer>, blocks: nat, ids: seq<nat>, sizes: seq<nat>, pinned: Bytes,
                    i: nat, offset: nat, before: seq<Layer>) returns (updated: seq<Layer>)
    requires ValidLayers(layers, blocks) && FitsFirstType(layers, sizes, |ids|) && |pinned| == Sum(sizes)
    requires ScatteredTo(layers, sizes, blocks, ids, pinned, i, offset, before)
    requires i < |layers| && layers[i].dtype == layers[0].dtype
    ensures ScatteredTo(layers, sizes, blocks, ids, pinned, i + 1, offset + sizes[i], updated)
  {
    ScatteredOn(layers, sizes, blocks, ids, pinned, i, offset, before);
    updated := before + [ScatterLayer(layers[i], blocks, ids, pinned[offset..offset + sizes[i]])];
  }

  /** The first `i` layers are of the first one's type and written. */
  ghost predicate ScatteredTo(layers: seq<Layer>, sizes: seq<nat>, blocks: nat, ids: seq<nat>, pinned: Bytes,
                              i: nat, offset: nat, updated: seq<Layer>)
  {
    && i <= |layers| == |sizes| && offset == Sum(sizes[..i]) <= |pinned| && SameType(layers, i)
    && Scattered(layers[..i], sizes[..i], blocks, ids, pinned[..offset], updated)
  }

  /** The next layer is of the same type and can be written, or the loop stops before it. */
  lemma ScatteredOn(layers: seq<Layer>, sizes: seq<nat>, blocks: nat, ids: seq<nat>, pinned: Bytes,
                    i: nat, offset: nat, updated: seq<Layer>)
    requires ValidLayers(layers, blocks) && FitsFirstType(layers, sizes, |ids|) && |pinned| == Sum(sizes)
    requires ScatteredTo(layers, sizes, blocks, ids, pinned, i, offset, updated) && i < |layers|
    ensures offset + sizes[i] <= |pinned| && ValidIds(ids, blocks)
    ensures if layers[i].dtype == layers[0].dtype then
        && sizes[i] == LayerBytes(layers[i], |ids|) && ValidPlanes(layers[i].planes, blocks, BlockBytes(layers[i]))
        && ScatteredTo(layers, sizes, blocks, ids, pinned, i + 1, offset + sizes[i],
                       updated + [ScatterLayer(layers[i], blocks, ids, pinned[offset..offset + sizes[i]])])
      else
        && !Uniform(layers) && ValidLayers(updated + layers[i..], blocks)
        && StoppedAt(layers, sizes, blocks, ids, pinned, i, updated + layers[i..])
  {
    SumStep(sizes, i);
    UniformUpTo(layers, i);
    if layers[i].dtype == layers[0].dtype {
      ScatteredNext(layers, sizes, blocks, ids, pinned, i, offset, updated);
    } else {
      ScatteredSoFar(layers, sizes, blocks, ids, pinned, i, offset, updated);
    }
  }

  lemma ScatteredNext(layers: seq<Layer>, sizes: seq<nat>, blocks: nat, ids: seq<nat>, pinned: Bytes,
                      i: nat, offset: nat, updated: seq<Layer>)
    requires ValidLayers(layers, blocks) && i < |layers| == |sizes| && offset + sizes[i] <= |pinned|
    requires Scattered(layers[..i], sizes[..i], blocks, ids, pinned[..offset], updated)
    requires sizes[i] == LayerBytes(layers[i], |ids|)
    ensures Scattered(layers[..i + 1], sizes[..i + 1], blocks, ids, pinned[..offset + sizes[i]],
                      updated + [ScatterLayer(layers[i], blocks, ids, pinned[offset..offset + sizes[i]])])
  {
    ScatteredStep(layers[..i], sizes[..i], blocks, ids, pinned[..offset], updated, layers[i],
                  pinned[offset..offset + sizes[i]]);
    TakeNext(layers, i);
    TakeNext(sizes, i);
    TakeSome(pinned, offset, offset + sizes[i]);
  }

  lemma ScatteredSoFar(layers: seq<Layer>, sizes: seq<nat>, blocks: nat, ids: seq<nat>, pinned: Bytes,
                       i: nat, offset: nat, updated: seq<Layer>)
    requires ValidLayers(layers, blocks) && i < |layers| == |sizes| && offset == Sum(sizes[..i]) <= |pinned|
    requires Scattered(layers[..i], sizes[..i], blocks, ids, pinned[..offset], updated)
    requires layers[i].dtype != layers[0].dtype && SameType(layers, i)
    ensures ValidLayers(updated + layers[i..], blocks)
    ensures StoppedAt(layers, sizes, blocks, ids, pinned, i, updated + layers[i..])
  {
    ScatterValid(layers[..i], blocks, ids, pinned[..offset]);
    var stopped := updated + layers[i..];
    assert |updated| == i && stopped[..i] == updated && stopped[i..] == layers[i..];
  }

  lemma ScatteredStart(layers: seq<Layer>, sizes: seq<nat>, blocks: nat, ids: seq<nat>, pinned: Bytes)
    requires ValidIds(ids, blocks) && |sizes| == |layers|
    ensures ScatteredTo(layers, sizes, blocks, ids, pinned, 0, 0, [])
  {
    assert layers[..0] == [] && sizes[..0] == [] && pinned[..0] == [];
  }

  lemma ScatteredAll(layers: seq<Layer>, sizes: seq<nat>, blocks: nat, ids: seq<nat>, pinned: Bytes,
                     offset: nat, updated: seq<Layer>)
    requires ScatteredTo(layers, sizes, blocks, ids, pinned, |layers|, offset, updated) && |pinned| == Sum(sizes)
    ensures ValidLayers(layers, blocks) && ValidIds(ids, blocks) && |pinned| == LayersBytes(layers, |ids|)
    ensures updated == Scatter(layers, blocks, ids, pinned) && ValidLayers(updated, blocks) && Uniform(layers)
  {
    TakeAll(sizes);
    TakeAll(layers);
    TakeAll(pinned);
    UniformUpTo(layers, |layers|);
    ScatterValid(layers, blocks, ids, pinned);
  }

  /** The layers fit their parts, and the bytes of the parts are scattered to them. */
  ghost predicate Scattered(layers: seq<Layer>, sizes: seq<nat>, blocks: nat, ids: seq<nat>, bytes: Bytes,
                            updated: seq<Layer>)
  {
    && ValidLayers(layers, blocks) && ValidIds(ids, blocks) && Fitting(layers, sizes, |ids|)
    && |bytes| == LayersBytes(layers, |ids|)
    && updated == Scatter(layers, blocks, ids, bytes)
  }

  lemma ScatteredStep(front: seq<Layer>, sizes: seq<nat>, blocks: nat, ids: seq<nat>, bytes: Bytes,
                      updated: seq<Layer>, l: Layer, part: Bytes)
    requires Scattered(front, sizes, blocks, ids, bytes, updated)
    requires ValidPlanes(l.planes, blocks, BlockBytes(l)) && |part| == LayerBytes(l, |ids|)
    ensures Scattered(front + [l], sizes + [|part|], blocks, ids, bytes + part,
                      updated + [ScatterLayer(l, blocks, ids, part)])
  {
    ScatterSnoc(front, l, blocks, ids, bytes, part);
  }

  lemma {:induction false} ScatterValid(layers: seq<Layer>, blocks: nat, ids: seq<nat>, bytes: Bytes)
    requires ValidLayers(layers, blocks) && ValidIds(ids, blocks) && |bytes| == LayersBytes(layers, |ids|)
    ensures ValidLayers(Scatter(layers, blocks, ids, bytes), blocks)
  {
    if layers != [] {
      var at := |bytes| - LayerBytes(Last(layers), |ids|);
      ScatterValid(Front(layers), blocks, ids, bytes[..at]);
      ScatterLayerValid(Last(layers), blocks, ids, bytes[at..]);
    }
  }

  /** Copies the chunks one after another into a fresh buffer, skipping empty ones. */
  method FillPinned(chunks: seq<Bytes>, total: nat) returns (filled: Bytes)
    requires total == |Flatten(chunks)|
    ensures filled == Flatten(chunks)
  {
    var pinned := new byte[total];
    var cursor := 0;
    for k := 0 to |chunks|
      invariant pinned.Length == total && cursor == |Flatten(chunks[..k])| <= total
      invariant pinned[..cursor] == Flatten(chunks[..k])
    {
      FlattenSnoc(chunks[..k], chunks[k]);
      assert chunks[..k + 1] == chunks[..k] + [chunks[k]];
      FlattenAppend(chunks[..k + 1], chunks[k + 1..]);
      assert chunks[..k + 1] + chunks[k + 1..] == chunks;
      if |chunks[k]| != 0 {
        CopyInto(pinned, cursor, chunks[k]);
        assert pinned[..cursor + |chunks[k]|] == pinned[..cursor] + pinned[cursor..cursor + |chunks[k]|];
        cursor := cursor + |chunks[k]|;
      }
    }
    assert chunks[..|chunks|] == chunks;
    filled := pinned[..];
  }

  lemma {:induction false} PlaceValid(plane: Plane, ids: seq<nat>, pieces: seq<Bytes>, size: nat)
    requires |ids| == |pieces| && ValidIds(ids, |plane|)
    requires ValidPlane(plane, |plane|, size) && ValidPlane(pieces, |pieces|, size)
    ensures ValidPlane(Place(plane, ids, pieces), |plane|, size)
  {
    if ids != [] {
      PlaceValid(plane, Front(ids), Front(pieces), size);
    }
  }

  lemma {:induction false} ScatterPlanesValid(planes: seq<Plane>, blocks: nat, size: nat, ids: seq<nat>, bytes: Bytes)
    requires ValidPlanes(planes, blocks, size) && ValidIds(ids, blocks)
    requires |bytes| == Times(|planes|, Times(|ids|, size))
    ensures ValidPlanes(ScatterPlanes(planes, blocks, size, ids, bytes), blocks, size)
  {
    if planes != [] {
      var n := Times(|ids|, size);
      PlaceValid(planes[0], ids, Cut(bytes[..n], size, |ids|), size);
      ScatterPlanesValid(planes[1..], blocks, size, ids, bytes[n..]);
    }
  }

  lemma ScatterLayerValid(l: Layer, blocks: nat, ids: seq<nat>, bytes: Bytes)
    requires ValidPlanes(l.planes, blocks, BlockBytes(l)) && ValidIds(ids, blocks) && |bytes| == LayerBytes(l, |ids|)
    ensures var r := ScatterLayer(l, blocks, ids, bytes); ValidPlanes(r.planes, blocks, BlockBytes(r))
  {
    ScatterPlanesValid(l.planes, blocks, BlockBytes(l), ids, bytes);
  }
}
