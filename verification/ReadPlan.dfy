/**
 * The streaming read plan: each requested stripe file is read in sub-ranges of a fixed step into
 * one staging buffer. Direct I/O pads a read's destination window to a multiple of 4096 bytes.
 */
module ReadPlan {
  import opened Types
  import opened Striping

  const ALIGNMENT := 4096

  function AlignUp(n: nat): nat {
    (n + ALIGNMENT - 1) / ALIGNMENT * ALIGNMENT
  }

  lemma AlignUpIsLeast(n: nat, m: nat)
    ensures AlignUp(n) % ALIGNMENT == 0 && n <= AlignUp(n) < n + ALIGNMENT
    ensures m % ALIGNMENT == 0 && n <= m ==> AlignUp(n) <= m
    ensures AlignUp(n) == n <==> n % ALIGNMENT == 0
  {
  }

  /** The sub-range step: the configured size, at least one block, rounded down to whole blocks. */
  function StreamStep(configured: nat): (step: nat)
    ensures step >= ALIGNMENT && step % ALIGNMENT == 0
    ensures configured >= ALIGNMENT ==> configured - ALIGNMENT < step <= configured
  {
    var size := if configured > ALIGNMENT then configured else ALIGNMENT;
    size / ALIGNMENT * ALIGNMENT
  }

  /** Read `length` bytes of a stripe file at `fileOffset` to offset `dest` of the staging buffer. */
  datatype Range = Range(stripe: nat, fileOffset: nat, dest: nat, objectOffset: nat, length: nat)

  function Window(r: Range): nat {
    AlignUp(r.length)
  }

  function StripeLen(total: nat, chunkSize: nat, i: nat): nat
    requires i * chunkSize <= total
  {
    StripeEnd(total, chunkSize, i) - i * chunkSize
  }

  /** The first `n` sub-ranges of one stripe. */
  function Pieces(stripe: nat, dest: nat, origin: nat, len: nat, step: nat, n: nat): (rs: seq<Range>)
    requires step > 0 && n <= StripeCount(len, step)
    ensures |rs| == n
  {
    if n == 0 then []
    else
      StripeStarts(len, step, n - 1);
      var at := (n - 1) * step;
      Pieces(stripe, dest, origin, len, step, n - 1)
      + [Range(stripe, at, dest + at, origin + at, Min(len - at, step))]
  }

  /** The stripe starts inside the object. */
  predicate Starts(i: nat, total: nat, chunkSize: nat) {
    i * chunkSize < total
  }

  predicate Requestable(indices: seq<nat>, total: nat, chunkSize: nat) {
    forall i <- indices :: Starts(i, total, chunkSize)
  }

  /** Staging bytes the requested stripes take. */
  function Staged(indices: seq<nat>, total: nat, chunkSize: nat): nat
    requires Requestable(indices, total, chunkSize)
  {
    if indices == [] then 0
    else
      var front, last := Front(indices), Last(indices);
      Staged(front, total, chunkSize) + StripeLen(total, chunkSize, last)
  }

  /** The sub-ranges of one whole stripe. */
  function StripePlan(i: nat, dest: nat, total: nat, chunkSize: nat, step: nat): seq<Range>
    requires step > 0 && Starts(i, total, chunkSize)
  {
    var len := StripeLen(total, chunkSize, i);
    Pieces(i, dest, i * chunkSize, len, step, StripeCount(len, step))
  }

  /** The sub-ranges of the requested stripes, packed in the requested order. */
  function Plan(indices: seq<nat>, total: nat, chunkSize: nat, step: nat): seq<Range>
    requires step > 0 && Requestable(indices, total, chunkSize)
  {
    if indices == [] then []
    else
      var front, last := Front(indices), Last(indices);
      Plan(front, total, chunkSize, step) + StripePlan(last, Staged(front, total, chunkSize), total, chunkSize, step)
  }

  // ---------------------------------------------------------------------------------------------
  // The plan tiles the staging buffer

  /** Non-empty ranges, each starting where the one before ends, from `lo` to `hi`. */
  ghost predicate Contiguous(rs: seq<Range>, lo: nat, hi: nat) {
    && (forall r <- rs :: r.length > 0)
    && (if rs == [] then lo == hi else rs[0].dest == lo && rs[|rs| - 1].dest + rs[|rs| - 1].length == hi)
    && forall j :: 0 <= j < |rs| - 1 ==> rs[j + 1].dest == rs[j].dest + rs[j].length
  }

  lemma Concatenate(a: seq<Range>, b: seq<Range>, lo: nat, mid: nat, hi: nat)
    requires Contiguous(a, lo, mid) && Contiguous(b, mid, hi)
    ensures Contiguous(a + b, lo, hi)
  {
    var rs := a + b;
    forall j | 0 <= j < |rs| - 1
      ensures rs[j + 1].dest == rs[j].dest + rs[j].length
    {
      if j < |a| - 1 {
        assert rs[j] == a[j] && rs[j + 1] == a[j + 1];
      } else if j >= |a| {
        assert rs[j] == b[j - |a|] && rs[j + 1] == b[j - |a| + 1];
      }
    }
  }

  /** `n` sub-ranges of one stripe tile its first `n` steps. */
  lemma {:induction false} PiecesTile(stripe: nat, dest: nat, origin: nat, len: nat, step: nat, n: nat)
    requires step > 0 && n <= StripeCount(len, step)
    ensures Contiguous(Pieces(stripe, dest, origin, len, step, n), dest, dest + Boundary(len, step, n))
  {
    if n > 0 {
      PiecesTile(stripe, dest, origin, len, step, n - 1);
      BoundaryStep(len, step, n - 1);
      StripeStarts(len, step, n - 1);
      var at := (n - 1) * step;
      var last := Range(stripe, at, dest + at, origin + at, Min(len - at, step));
      Concatenate(Pieces(stripe, dest, origin, len, step, n - 1), [last],
                  dest, dest + at, dest + Boundary(len, step, n));
    }
  }

  lemma StripeTiled(i: nat, dest: nat, total: nat, chunkSize: nat, step: nat)
    requires step > 0 && Starts(i, total, chunkSize)
    ensures Contiguous(StripePlan(i, dest, total, chunkSize, step), dest, dest + StripeLen(total, chunkSize, i))
  {
    var len := StripeLen(total, chunkSize, i);
    PiecesTile(i, dest, i * chunkSize, len, step, StripeCount(len, step));
    StripeCountIsTight(len, step);
  }

  /** The plan tiles the staging area exactly: back to back from offset zero to the staged size. */
  lemma {:induction false} PlanTiles(indices: seq<nat>, total: nat, chunkSize: nat, step: nat)
    requires step > 0 && Requestable(indices, total, chunkSize)
    ensures Contiguous(Plan(indices, total, chunkSize, step), 0, Staged(indices, total, chunkSize))
  {
    if indices != [] {
      var front, last := Front(indices), Last(indices);
      var base := Staged(front, total, chunkSize);
      PlanTiles(front, total, chunkSize, step);
      StripeTiled(last, base, total, chunkSize, step);
      Concatenate(Plan(front, total, chunkSize, step), StripePlan(last, base, total, chunkSize, step),
                  0, base, Staged(indices, total, chunkSize));
    }
  }

  ghost predicate Covers(r: Range, x: nat) {
    r.dest <= x < r.dest + r.length
  }

  lemma {:induction false} Ascending(rs: seq<Range>, lo: nat, hi: nat, i: nat, j: nat)
    requires Contiguous(rs, lo, hi) && i < j < |rs|
    ensures rs[i].dest + rs[i].length <= rs[j].dest
    decreases j - i
  {
    if i < j - 1 {
      Ascending(rs, lo, hi, i, j - 1);
    }
  }

  lemma {:induction false} FindCover(rs: seq<Range>, lo: nat, hi: nat, x: nat) returns (j: nat)
    requires Contiguous(rs, lo, hi) && lo <= x < hi
    ensures j < |rs| && Covers(rs[j], x)
  {
    var last := |rs| - 1;
    if Covers(rs[last], x) {
      j := last;
    } else {
      j := FindCover(rs[..last], lo, rs[last].dest, x);
    }
  }

  lemma CoverIsUnique(rs: seq<Range>, lo: nat, hi: nat, x: nat, i: nat, j: nat)
    requires Contiguous(rs, lo, hi) && i < |rs| && j < |rs| && Covers(rs[i], x) && Covers(rs[j], x)
    ensures i == j
  {
    if i < j {
      Ascending(rs, lo, hi, i, j);
    } else if j < i {
      Ascending(rs, lo, hi, j, i);
    }
  }

  /** Every staged byte is covered by exactly one sub-range of the plan. */
  lemma EveryByteOnce(indices: seq<nat>, total: nat, chunkSize: nat, step: nat, x: nat) returns (j: nat)
    requires step > 0 && Requestable(indices, total, chunkSize) && x < Staged(indices, total, chunkSize)
    ensures j < |Plan(indices, total, chunkSize, step)| && Covers(Plan(indices, total, chunkSize, step)[j], x)
    ensures forall k :: 0 <= k < |Plan(indices, total, chunkSize, step)| && k != j ==>
      !Covers(Plan(indices, total, chunkSize, step)[k], x)
  {
    var rs, size := Plan(indices, total, chunkSize, step), Staged(indices, total, chunkSize);
    PlanTiles(indices, total, chunkSize, step);
    j := FindCover(rs, 0, size, x);
    forall k | 0 <= k < |rs| && Covers(rs[k], x)
      ensures k == j
    {
      CoverIsUnique(rs, 0, size, x, k, j);
    }
  }

  // ---------------------------------------------------------------------------------------------
  // The plan reads the right bytes

  /** The range lies within its stripe and names the object offset it serves. */
  ghost predicate WellPlaced(r: Range, total: nat, chunkSize: nat) {
    && Starts(r.stripe, total, chunkSize)
    && r.fileOffset + r.length <= StripeLen(total, chunkSize, r.stripe)
    && r.objectOffset == r.stripe * chunkSize + r.fileOffset
  }

  lemma {:induction false} PiecesPlaced(stripe: nat, dest: nat, total: nat, chunkSize: nat, step: nat, n: nat)
    requires step > 0 && stripe * chunkSize < total
    requires n <= StripeCount(StripeLen(total, chunkSize, stripe), step)
    ensures forall r <- Pieces(stripe, dest, stripe * chunkSize, StripeLen(total, chunkSize, stripe), step, n) ::
      WellPlaced(r, total, chunkSize) && r.stripe == stripe && r.dest - dest == r.fileOffset
  {
    if n > 0 {
      StripeStarts(StripeLen(total, chunkSize, stripe), step, n - 1);
      PiecesPlaced(stripe, dest, total, chunkSize, step, n - 1);
    }
  }

  lemma {:induction false} PlanPlaced(indices: seq<nat>, total: nat, chunkSize: nat, step: nat)
    requires step > 0 && Requestable(indices, total, chunkSize)
    ensures forall r <- Plan(indices, total, chunkSize, step) :: WellPlaced(r, total, chunkSize)
  {
    if indices != [] {
      var front, last := Front(indices), Last(indices);
      PlanPlaced(front, total, chunkSize, step);
      PiecesPlaced(last, Staged(front, total, chunkSize), total, chunkSize, step,
                   StripeCount(StripeLen(total, chunkSize, last), step));
    }
  }

  /** A well-placed range reads, from its stripe file, the object's bytes at its object offset. */
  lemma ReadsObjectBytes(data: Bytes, chunkSize: nat, r: Range)
    requires WellPlaced(r, |data|, chunkSize)
    ensures r.objectOffset + r.length <= |data|
    ensures Stripe(data, chunkSize, r.stripe)[r.fileOffset..r.fileOffset + r.length]
      == data[r.objectOffset..r.objectOffset + r.length]
  {
    var origin, end := r.stripe * chunkSize, StripeEnd(|data|, chunkSize, r.stripe);
    SliceAt(data, origin, end, r.fileOffset, r.length, r.objectOffset);
  }

  lemma SliceAt(data: Bytes, origin: nat, end: nat, offset: nat, length: nat, objectOffset: nat)
    requires origin + offset + length <= end <= |data| && objectOffset == origin + offset
    ensures data[origin..end][offset..offset + length] == data[objectOffset..objectOffset + length]
  {
    SliceOfSlice(data, origin, end, offset, offset + length);
  }

  // ---------------------------------------------------------------------------------------------
  // Alignment and disjointness of the padded windows

  ghost predicate AllAligned(rs: seq<Range>) {
    forall r <- rs :: r.dest % ALIGNMENT == 0
  }

  ghost predicate WindowsDisjoint(rs: seq<Range>) {
    forall i, j :: 0 <= i < j < |rs| ==>
      rs[i].dest + Window(rs[i]) <= rs[j].dest || rs[j].dest + Window(rs[j]) <= rs[i].dest
  }

  ghost predicate WholeBlocks(rs: seq<Range>) {
    forall r <- rs :: r.length % ALIGNMENT == 0
  }

  ghost predicate WholeBlocksButLast(rs: seq<Range>) {
    forall j :: 0 <= j < |rs| - 1 ==> rs[j].length % ALIGNMENT == 0
  }

  lemma {:induction false} AlignedUpTo(rs: seq<Range>, hi: nat, n: nat)
    requires Contiguous(rs, 0, hi) && WholeBlocksButLast(rs) && n < |rs|
    ensures rs[n].dest % ALIGNMENT == 0
  {
    if n > 0 {
      AlignedUpTo(rs, hi, n - 1);
      assert rs[n].dest == rs[n - 1].dest + rs[n - 1].length;
    }
  }

  /** Back-to-back ranges are all aligned exactly when every one but the last is whole blocks long. */
  lemma AlignedIffWholeBlocks(rs: seq<Range>, hi: nat)
    requires Contiguous(rs, 0, hi)
    ensures AllAligned(rs) <==> WholeBlocksButLast(rs)
  {
    if WholeBlocksButLast(rs) {
      forall r <- rs ensures r.dest % ALIGNMENT == 0 {
        var n :| 0 <= n < |rs| && rs[n] == r;
        AlignedUpTo(rs, hi, n);
      }
    }
    if AllAligned(rs) {
      forall j | 0 <= j < |rs| - 1 ensures rs[j].length % ALIGNMENT == 0 {
        assert rs[j] in rs && rs[j + 1] in rs;
        DropBlocks(rs[j + 1].dest, rs[j].dest);
      }
    }
  }

  /** And under the same condition, and no other, are their padded windows disjoint. */
  lemma DisjointIffWholeBlocks(rs: seq<Range>, hi: nat)
    requires Contiguous(rs, 0, hi)
    ensures WindowsDisjoint(rs) <==> WholeBlocksButLast(rs)
  {
    if WholeBlocksButLast(rs) {
      forall i, j | 0 <= i < j < |rs| ensures rs[i].dest + Window(rs[i]) <= rs[j].dest {
        Ascending(rs, 0, hi, i, j);
        AlignUpIsLeast(rs[i].length, rs[i].length);
      }
    }
    if WindowsDisjoint(rs) {
      forall j | 0 <= j < |rs| - 1 ensures rs[j].length % ALIGNMENT == 0 {
        AlignUpIsLeast(rs[j].length, rs[j].length);
        assert rs[j + 1].dest == rs[j].dest + rs[j].length;
      }
    }
  }

  lemma {:induction false} FullSteps(stripe: nat, dest: nat, origin: nat, len: nat, step: nat, n: nat)
    requires step > 0 && step % ALIGNMENT == 0 && n < StripeCount(len, step)
    ensures WholeBlocks(Pieces(stripe, dest, origin, len, step, n))
  {
    if n > 0 {
      FullSteps(stripe, dest, origin, len, step, n - 1);
      StripeStarts(len, step, n);
      assert n * step == (n - 1) * step + step;
    }
  }

  lemma MultipleOfBlocks(n: nat, step: nat)
    requires step % ALIGNMENT == 0
    ensures n * step % ALIGNMENT == 0
  {
    var q := step / ALIGNMENT;
    assert n * step == ALIGNMENT * (n * q);
    TimesBlock(n * q);
  }

  lemma TimesBlock(k: nat)
    ensures ALIGNMENT * k % ALIGNMENT == 0
  {
  }

  lemma LastPiece(stripe: nat, dest: nat, origin: nat, len: nat, step: nat)
    requires step > 0 && step % ALIGNMENT == 0 && len > 0
    ensures var n := StripeCount(len, step);
      n > 0 && Pieces(stripe, dest, origin, len, step, n)[n - 1].length % ALIGNMENT == len % ALIGNMENT
  {
    var n := StripeCount(len, step);
    StripeStarts(len, step, 0);
    assert 0 * step == 0;
    StripeStarts(len, step, n - 1);
    StripeCountIsTight(len, step);
    var at := (n - 1) * step;
    assert n * step == at + step;
    MultipleOfBlocks(n - 1, step);
    DropBlocks(len, at);
  }

  lemma DropBlocks(a: nat, b: nat)
    requires b % ALIGNMENT == 0 && b <= a
    ensures (a - b) % ALIGNMENT == a % ALIGNMENT
  {
  }

  /** Only the last sub-range of a stripe can be ragged, and it is exactly when the stripe is. */
  lemma StripeBlocks(i: nat, dest: nat, total: nat, chunkSize: nat, step: nat)
    requires step > 0 && step % ALIGNMENT == 0 && Starts(i, total, chunkSize) && chunkSize > 0
    ensures var rs := StripePlan(i, dest, total, chunkSize, step);
      && rs != [] && WholeBlocksButLast(rs)
      && (WholeBlocks(rs) <==> StripeLen(total, chunkSize, i) % ALIGNMENT == 0)
  {
    var len := StripeLen(total, chunkSize, i);
    var n := StripeCount(len, step);
    LastPiece(i, dest, i * chunkSize, len, step);
    FullSteps(i, dest, i * chunkSize, len, step, n - 1);
    var rs, front := StripePlan(i, dest, total, chunkSize, step), Pieces(i, dest, i * chunkSize, len, step, n - 1);
    assert rs == front + [rs[n - 1]];
    BlocksOfSum(front, [rs[n - 1]]);
  }

  lemma BlocksOfSum(a: seq<Range>, b: seq<Range>)
    ensures WholeBlocks(a + b) <==> WholeBlocks(a) && WholeBlocks(b)
    ensures b != [] ==> (WholeBlocksButLast(a + b) <==> WholeBlocks(a) && WholeBlocksButLast(b))
  {
    forall j | 0 <= j < |a| ensures (a + b)[j] == a[j] {}
    forall j | 0 <= j < |b| ensures (a + b)[|a| + j] == b[j] {}
  }

  /** Every requested stripe is a whole number of blocks long. */
  ghost predicate WholeStripes(indices: seq<nat>, total: nat, chunkSize: nat)
    requires Requestable(indices, total, chunkSize)
  {
    forall i <- indices :: StripeLen(total, chunkSize, i) % ALIGNMENT == 0
  }

  lemma WholeStripesSnoc(indices: seq<nat>, total: nat, chunkSize: nat)
    requires indices != [] && Requestable(indices, total, chunkSize)
    ensures WholeStripes(indices, total, chunkSize) <==>
      WholeStripes(Front(indices), total, chunkSize) && StripeLen(total, chunkSize, Last(indices)) % ALIGNMENT == 0
  {
    assert indices == Front(indices) + [Last(indices)];
  }

  lemma {:induction false} PlanBlocks(indices: seq<nat>, total: nat, chunkSize: nat, step: nat)
    requires step > 0 && step % ALIGNMENT == 0 && chunkSize > 0 && Requestable(indices, total, chunkSize)
    ensures WholeBlocks(Plan(indices, total, chunkSize, step)) <==> WholeStripes(indices, total, chunkSize)
  {
    if indices != [] {
      var front, last := Front(indices), Last(indices);
      var base := Staged(front, total, chunkSize);
      PlanBlocks(front, total, chunkSize, step);
      WholeStripesSnoc(indices, total, chunkSize);
      StripeBlocks(last, base, total, chunkSize, step);
      BlocksOfSum(Plan(front, total, chunkSize, step), StripePlan(last, base, total, chunkSize, step));
    }
  }

  /**
   * The plan's windows are all block-aligned, and pairwise disjoint, exactly when every requested
   * stripe but the last is a whole number of blocks long.
   */
  lemma WindowsSoundIff(indices: seq<nat>, total: nat, chunkSize: nat, step: nat)
    requires step > 0 && step % ALIGNMENT == 0 && chunkSize > 0
    requires indices != [] && Requestable(indices, total, chunkSize)
    ensures AllAligned(Plan(indices, total, chunkSize, step)) <==> WholeStripes(Front(indices), total, chunkSize)
    ensures WindowsDisjoint(Plan(indices, total, chunkSize, step)) <==> WholeStripes(Front(indices), total, chunkSize)
  {
    var front, last := Front(indices), Last(indices);
    var base := Staged(front, total, chunkSize);
    PlanTiles(indices, total, chunkSize, step);
    PlanBlocks(front, total, chunkSize, step);
    StripeBlocks(last, base, total, chunkSize, step);
    BlocksOfSum(Plan(front, total, chunkSize, step), StripePlan(last, base, total, chunkSize, step));
    AlignedIffWholeBlocks(Plan(indices, total, chunkSize, step), Staged(indices, total, chunkSize));
    DisjointIffWholeBlocks(Plan(indices, total, chunkSize, step), Staged(indices, total, chunkSize));
  }

  /** A stripe with another after it is full. */
  lemma InnerStripe(i: nat, later: nat, total: nat, chunkSize: nat)
    requires i < later && Starts(later, total, chunkSize)
    ensures Starts(i, total, chunkSize) && StripeLen(total, chunkSize, i) == chunkSize
  {
    MulMonotone(i + 1, later, chunkSize);
    assert (i + 1) * chunkSize == i * chunkSize + chunkSize;
  }

  /** Stripes that all have another after them are whole blocks exactly when the stripe size is, if there are any. */
  lemma InnerStripes(indices: seq<nat>, later: nat, total: nat, chunkSize: nat)
    requires Starts(later, total, chunkSize) && forall i <- indices :: i < later
    ensures Requestable(indices, total, chunkSize)
    ensures WholeStripes(indices, total, chunkSize) <==> indices == [] || chunkSize % ALIGNMENT == 0
  {
    forall i <- indices ensures Starts(i, total, chunkSize) && StripeLen(total, chunkSize, i) == chunkSize {
      InnerStripe(i, later, total, chunkSize);
    }
    assert indices != [] ==> indices[0] in indices;
  }

  /** Block-sized stripes requested in increasing order meet the condition. */
  lemma IncreasingIndicesAreSound(indices: seq<nat>, total: nat, chunkSize: nat, step: nat)
    requires step > 0 && step % ALIGNMENT == 0 && chunkSize > 0 && chunkSize % ALIGNMENT == 0
    requires indices != [] && Requestable(indices, total, chunkSize)
    requires forall t, u :: 0 <= t < u < |indices| ==> indices[t] < indices[u]
    ensures AllAligned(Plan(indices, total, chunkSize, step)) && WindowsDisjoint(Plan(indices, total, chunkSize, step))
  {
    WindowsSoundIff(indices, total, chunkSize, step);
    InnerStripes(Front(indices), Last(indices), total, chunkSize);
  }

  // ---------------------------------------------------------------------------------------------
  // The whole-object plan

  /** `[0, 1, ..., n - 1]`. */
  function UpTo(n: nat): (xs: seq<nat>)
    ensures |xs| == n && forall i :: 0 <= i < n ==> xs[i] == i
  {
    seq(n, i => i)
  }

  lemma UpToFront(n: nat)
    requires n > 0
    ensures Front(UpTo(n)) == UpTo(n - 1) && Last(UpTo(n)) == n - 1
  {
  }

  lemma AllRequestable(total: nat, chunkSize: nat, n: nat)
    requires chunkSize > 0 && n <= StripeCount(total, chunkSize)
    ensures Requestable(UpTo(n), total, chunkSize)
  {
    forall i <- UpTo(n) ensures Starts(i, total, chunkSize) { StripeStarts(total, chunkSize, i); }
  }

  /** Packed one after another, the object's stripes land at their own object offsets. */
  lemma {:induction false} StagedUpTo(total: nat, chunkSize: nat, n: nat)
    requires chunkSize > 0 && n <= StripeCount(total, chunkSize)
    ensures Requestable(UpTo(n), total, chunkSize)
    ensures Staged(UpTo(n), total, chunkSize) == Boundary(total, chunkSize, n)
  {
    AllRequestable(total, chunkSize, n);
    if n > 0 {
      UpToFront(n);
      StagedUpTo(total, chunkSize, n - 1);
      BoundaryStep(total, chunkSize, n - 1);
    }
  }

  lemma {:induction false} DestIsObjectOffset(total: nat, chunkSize: nat, step: nat, n: nat)
    requires step > 0 && chunkSize > 0 && n <= StripeCount(total, chunkSize)
    requires Requestable(UpTo(n), total, chunkSize)
    ensures forall r <- Plan(UpTo(n), total, chunkSize, step) :: r.dest == r.objectOffset
  {
    if n > 0 {
      UpToFront(n);
      StagedUpTo(total, chunkSize, n - 1);
      BoundaryStep(total, chunkSize, n - 1);
      DestIsObjectOffset(total, chunkSize, step, n - 1);
      PiecesPlaced(n - 1, (n - 1) * chunkSize, total, chunkSize, step,
                   StripeCount(StripeLen(total, chunkSize, n - 1), step));
    }
  }

  /** The plan of all stripes of the object. */
  function FullPlan(total: nat, chunkSize: nat, step: nat): seq<Range>
    requires step > 0 && chunkSize > 0
  {
    AllRequestable(total, chunkSize, StripeCount(total, chunkSize));
    Plan(UpTo(StripeCount(total, chunkSize)), total, chunkSize, step)
  }

  /** The whole-object plan is sound exactly when stripes are whole blocks, or there is only one. */
  lemma FullPlanSoundIff(total: nat, chunkSize: nat, step: nat)
    requires step > 0 && step % ALIGNMENT == 0 && chunkSize > 0 && total > 0
    ensures var rs := FullPlan(total, chunkSize, step);
      && (AllAligned(rs) <==> chunkSize % ALIGNMENT == 0 || total <= chunkSize)
      && (WindowsDisjoint(rs) <==> chunkSize % ALIGNMENT == 0 || total <= chunkSize)
  {
    var n := StripeCount(total, chunkSize);
    AllRequestable(total, chunkSize, n);
    MoreThanOne(total, chunkSize);
    WindowsSoundIff(UpTo(n), total, chunkSize, step);
    UpToFront(n);
    InnerStripes(UpTo(n - 1), n - 1, total, chunkSize);
  }

  lemma MoreThanOne(total: nat, chunkSize: nat)
    requires chunkSize > 0 && total > 0
    ensures StripeCount(total, chunkSize) > 0
    ensures StripeCount(total, chunkSize) > 1 <==> total > chunkSize
  {
    StripeStarts(total, chunkSize, 0);
    StripeStarts(total, chunkSize, 1);
    assert 0 * chunkSize == 0 && 1 * chunkSize == chunkSize;
  }

  // ---------------------------------------------------------------------------------------------
  // Building the plan

  /** Every padded window lies within the staging buffer. */
  predicate Fits(rs: seq<Range>, capacity: nat) {
    forall r <- rs :: r.dest + Window(r) <= capacity
  }

  lemma {:induction false} PiecesPrefix(stripe: nat, dest: nat, origin: nat, len: nat, step: nat, k: nat, n: nat)
    requires step > 0 && k <= n <= StripeCount(len, step)
    ensures Pieces(stripe, dest, origin, len, step, k) <= Pieces(stripe, dest, origin, len, step, n)
    decreases n
  {
    if k < n {
      PiecesPrefix(stripe, dest, origin, len, step, k, n - 1);
    }
  }

  lemma {:induction false} PlanPrefix(indices: seq<nat>, total: nat, chunkSize: nat, step: nat, k: nat)
    requires step > 0 && k <= |indices| && Requestable(indices, total, chunkSize)
    ensures Plan(indices[..k], total, chunkSize, step) <= Plan(indices, total, chunkSize, step)
    decreases |indices|
  {
    if k == |indices| {
      assert indices[..k] == indices;
    } else {
      PlanPrefix(Front(indices), total, chunkSize, step, k);
      assert Front(indices)[..k] == indices[..k];
    }
  }

  /** The first `n` sub-ranges of a stripe are planned and fit. */
  ghost predicate PiecesFit(i: nat, base: nat, origin: nat, len: nat, step: nat, capacity: nat, n: nat, offset: nat,
                            ranges: seq<Range>)
    requires step > 0
  {
    && n <= StripeCount(len, step) && offset == n * step
    && ranges == Pieces(i, base, origin, len, step, n) && Fits(ranges, capacity)
  }

  lemma PiecesFitNext(i: nat, base: nat, origin: nat, len: nat, step: nat, capacity: nat, n: nat, offset: nat,
                      ranges: seq<Range>)
    requires step > 0 && PiecesFit(i, base, origin, len, step, capacity, n, offset, ranges) && offset < len
    ensures var range := Range(i, offset, base + offset, origin + offset, Min(len - offset, step));
      if base + offset + Window(range) <= capacity
      then PiecesFit(i, base, origin, len, step, capacity, n + 1, offset + step, ranges + [range])
      else !Fits(Pieces(i, base, origin, len, step, StripeCount(len, step)), capacity)
  {
    NextPiece(i, base, origin, len, step, n, offset);
    var range := Range(i, offset, base + offset, origin + offset, Min(len - offset, step));
    if base + offset + Window(range) > capacity {
      MisfitPiece(i, base, origin, len, step, capacity, n + 1, range);
    }
  }

  lemma NextPiece(i: nat, base: nat, origin: nat, len: nat, step: nat, n: nat, offset: nat)
    requires step > 0 && n <= StripeCount(len, step) && offset == n * step < len
    ensures n + 1 <= StripeCount(len, step) && (n + 1) * step == offset + step
    ensures Pieces(i, base, origin, len, step, n + 1) ==
      Pieces(i, base, origin, len, step, n) +
      [Range(i, offset, base + offset, origin + offset, Min(len - offset, step))]
  {
    StripeStarts(len, step, n);
    assert (n + 1) * step == n * step + step;
  }

  lemma MisfitPiece(i: nat, base: nat, origin: nat, len: nat, step: nat, capacity: nat, n: nat, range: Range)
    requires step > 0 && n <= StripeCount(len, step) && range in Pieces(i, base, origin, len, step, n)
    requires range.dest + Window(range) > capacity
    ensures !Fits(Pieces(i, base, origin, len, step, StripeCount(len, step)), capacity)
  {
    PiecesPrefix(i, base, origin, len, step, n, StripeCount(len, step));
    var k :| 0 <= k < n && Pieces(i, base, origin, len, step, n)[k] == range;
    assert Pieces(i, base, origin, len, step, StripeCount(len, step))[k] == range;
  }

  /** The sub-range loop over one stripe; stops at the first window that does not fit. */
  method PlanStripe(i: nat, base: nat, total: nat, chunkSize: nat, step: nat, capacity: nat)
    returns (ok: bool, ranges: seq<Range>)
    requires step > 0 && Starts(i, total, chunkSize)
    ensures ok <==> Fits(StripePlan(i, base, total, chunkSize, step), capacity)
    ensures ok ==> ranges == StripePlan(i, base, total, chunkSize, step)
  {
    var origin := i * chunkSize;
    var len := Min(total - origin, chunkSize);
    ghost var n := 0;
    ranges := [];
    var offset := 0;
    while offset < len
      invariant PiecesFit(i, base, origin, len, step, capacity, n, offset, ranges)
    {
      var streamLen := Min(len - offset, step);
      PiecesFitNext(i, base, origin, len, step, capacity, n, offset, ranges);
      if base + offset + AlignUp(streamLen) > capacity {
        return false, [];
      }
      ranges := ranges + [Range(i, offset, base + offset, origin + offset, streamLen)];
      n := n + 1;
      offset := offset + step;
    }
    StripeStarts(len, step, n);
    ok := true;
  }

  /** `BeyondEnd` is the unsigned subtraction for a stripe file that would start past the object's end. */
  datatype Planned = Planned(ranges: seq<Range>) | Refused | BeyondEnd

  /** Every index names a stripe file and starts inside the object, and every window fits. */
  ghost predicate Plannable(pathCount: nat, total: nat, chunkSize: nat, step: nat, indices: seq<nat>, capacity: nat)
    requires step > 0
  {
    && (forall i <- indices :: i < pathCount)
    && Requestable(indices, total, chunkSize)
    && Fits(Plan(indices, total, chunkSize, step), capacity)
  }

  lemma PlannableSnoc(pathCount: nat, total: nat, chunkSize: nat, step: nat, front: seq<nat>, i: nat, capacity: nat)
    requires step > 0 && Plannable(pathCount, total, chunkSize, step, front, capacity)
    ensures Plannable(pathCount, total, chunkSize, step, front + [i], capacity) <==>
      && i < pathCount && Starts(i, total, chunkSize)
      && Fits(StripePlan(i, Staged(front, total, chunkSize), total, chunkSize, step), capacity)
  {
    var indices := front + [i];
    assert Front(indices) == front && Last(indices) == i;
    if Requestable(indices, total, chunkSize) {
      var a := Plan(front, total, chunkSize, step);
      var b := StripePlan(i, Staged(front, total, chunkSize), total, chunkSize, step);
      assert Plan(indices, total, chunkSize, step) == a + b;
      assert Fits(a + b, capacity) <==> Fits(a, capacity) && Fits(b, capacity);
    } else {
      assert !Starts(i, total, chunkSize);
    }
  }

  lemma PlannablePrefix(pathCount: nat, total: nat, chunkSize: nat, step: nat, indices: seq<nat>, capacity: nat, k: nat)
    requires step > 0 && k <= |indices| && Plannable(pathCount, total, chunkSize, step, indices, capacity)
    ensures Plannable(pathCount, total, chunkSize, step, indices[..k], capacity)
  {
    assert Requestable(indices[..k], total, chunkSize);
    assert Fits(Plan(indices[..k], total, chunkSize, step), capacity) by {
      PlanPrefix(indices, total, chunkSize, step, k);
      FitsMonotone(Plan(indices[..k], total, chunkSize, step), Plan(indices, total, chunkSize, step), capacity);
    }
    assert forall i <- indices[..k] :: i in indices;
  }

  lemma FitsMonotone(a: seq<Range>, b: seq<Range>, capacity: nat)
    requires a <= b && Fits(b, capacity)
    ensures Fits(a, capacity)
  {
    forall r <- a ensures r in b { var j :| 0 <= j < |a| && a[j] == r; assert b[j] == r; }
  }

  /** A plan that fits stages no more bytes than the buffer holds. */
  lemma FitsHasRoom(indices: seq<nat>, total: nat, chunkSize: nat, step: nat, capacity: nat)
    requires step > 0 && Requestable(indices, total, chunkSize) && Fits(Plan(indices, total, chunkSize, step), capacity)
    ensures Staged(indices, total, chunkSize) <= capacity
  {
    var rs := Plan(indices, total, chunkSize, step);
    PlanTiles(indices, total, chunkSize, step);
    if rs != [] {
      AlignUpIsLeast(Last(rs).length, 0);
    }
  }

  /**
   * The subset plan: refused exactly when an index names no stripe file, starts beyond the object,
   * or a padded window would leave the staging buffer.
   */
  method PlanSubset(pathCount: nat, total: nat, chunkSize: nat, step: nat, indices: seq<nat>, capacity: nat)
    returns (plan: Planned)
    requires step > 0
    ensures plan.Planned? <==> Plannable(pathCount, total, chunkSize, step, indices, capacity)
    ensures plan.Planned? ==> plan.ranges == Plan(indices, total, chunkSize, step)
    ensures !plan.BeyondEnd?
  {
    var cursor := 0;
    var ranges: seq<Range> := [];
    for k := 0 to |indices|
      invariant Plannable(pathCount, total, chunkSize, step, indices[..k], capacity)
      invariant cursor == Staged(indices[..k], total, chunkSize)
      invariant ranges == Plan(indices[..k], total, chunkSize, step)
    {
      var i := indices[k];
      ghost var upTo := indices[..k + 1];
      assert upTo == indices[..k] + [i] && Front(upTo) == indices[..k];
      PlannableSnoc(pathCount, total, chunkSize, step, indices[..k], i, capacity);
      assert Plannable(pathCount, total, chunkSize, step, indices, capacity) ==>
          Plannable(pathCount, total, chunkSize, step, upTo, capacity) by {
        if Plannable(pathCount, total, chunkSize, step, indices, capacity) {
          PlannablePrefix(pathCount, total, chunkSize, step, indices, capacity, k + 1);
        }
      }
      if i >= pathCount || !Starts(i, total, chunkSize) {
        return Refused;
      }
      var base := cursor;
      cursor := cursor + StripeLen(total, chunkSize, i);
      if cursor > capacity {
        assert !Plannable(pathCount, total, chunkSize, step, upTo, capacity) by {
          if Plannable(pathCount, total, chunkSize, step, upTo, capacity) {
            FitsHasRoom(upTo, total, chunkSize, step, capacity);
          }
        }
        return Refused;
      }
      var ok, more := PlanStripe(i, base, total, chunkSize, step, capacity);
      if !ok {
        return Refused;
      }
      ranges := ranges + more;
    }
    assert indices[..|indices|] == indices;
    plan := Planned(ranges);
  }

  /** Stripes of the object that have a stripe file. */
  function Backed(total: nat, chunkSize: nat, pathCount: nat): nat
    requires chunkSize > 0
  {
    Min(pathCount, StripeCount(total, chunkSize))
  }

  /** The plan of the stripes that have a file; with a file for every stripe it is the whole-object plan. */
  function BackedPlan(total: nat, chunkSize: nat, step: nat, pathCount: nat): (rs: seq<Range>)
    requires step > 0 && chunkSize > 0
    ensures pathCount >= StripeCount(total, chunkSize) ==> rs == FullPlan(total, chunkSize, step)
  {
    AllRequestable(total, chunkSize, Backed(total, chunkSize, pathCount));
    Plan(UpTo(Backed(total, chunkSize, pathCount)), total, chunkSize, step)
  }

  /**
   * The whole-object plan for any number of stripe files. Too small a buffer or a window that does
   * not fit refuses it; a file past the end of the object breaks it; otherwise it is the plan of the
   * stripes that have a file.
   */
  method PlanFull(total: nat, chunkSize: nat, step: nat, pathCount: nat, capacity: nat) returns (plan: Planned)
    requires step > 0
    ensures chunkSize == 0 ==> plan == if capacity < total then Refused else Planned([])
    ensures chunkSize > 0 ==>
      var ranges := BackedPlan(total, chunkSize, step, pathCount);
      plan == if capacity < total || !Fits(ranges, capacity) then Refused
              else if pathCount > 0 && (pathCount - 1) * chunkSize > total then BeyondEnd
              else Planned(ranges)
  {
    if capacity < total {
      return Refused;
    }
    if chunkSize == 0 {
      return Planned([]);
    }
    var ranges: seq<Range> := [];
    for i := 0 to pathCount
      invariant PlannedUpTo(total, chunkSize, step, capacity, i, ranges)
    {
      StripeStarts(total, chunkSize, i);
      if i * chunkSize > total {
        MulMonotone(i, pathCount - 1, chunkSize);
        return BeyondEnd;
      }
      if Starts(i, total, chunkSize) {
        var ok, more := PlanStripe(i, i * chunkSize, total, chunkSize, step, capacity);
        PlannedStripe(total, chunkSize, step, capacity, i, ranges);
        if !ok {
          MisfitStays(total, chunkSize, step, capacity, i, pathCount);
          return Refused;
        }
        ranges := ranges + more;
      }
    }
    plan := Planned(ranges);
  }

  /** The files before `i` start within the object, and their windows fit. */
  ghost predicate PlannedUpTo(total: nat, chunkSize: nat, step: nat, capacity: nat, i: nat, ranges: seq<Range>)
    requires step > 0 && chunkSize > 0
  {
    && (i > 0 ==> (i - 1) * chunkSize <= total)
    && ranges == BackedPlan(total, chunkSize, step, i) && Fits(ranges, capacity)
  }

  /** One more stripe adds its own ranges, at its own object offset. */
  lemma PlannedStripe(total: nat, chunkSize: nat, step: nat, capacity: nat, i: nat, ranges: seq<Range>)
    requires step > 0 && chunkSize > 0 && Starts(i, total, chunkSize)
    requires PlannedUpTo(total, chunkSize, step, capacity, i, ranges)
    ensures var more := StripePlan(i, i * chunkSize, total, chunkSize, step);
      && BackedPlan(total, chunkSize, step, i + 1) == ranges + more
      && (Fits(ranges + more, capacity) <==> Fits(more, capacity))
  {
    StripeStarts(total, chunkSize, i);
    StagedUpTo(total, chunkSize, i);
    StagedUpTo(total, chunkSize, i + 1);
    UpToFront(i + 1);
    BoundaryStep(total, chunkSize, i);
  }

  /** A stripe that does not fit does not fit with more stripes after it. */
  lemma MisfitStays(total: nat, chunkSize: nat, step: nat, capacity: nat, i: nat, pathCount: nat)
    requires step > 0 && chunkSize > 0 && i < pathCount && Starts(i, total, chunkSize)
    requires !Fits(BackedPlan(total, chunkSize, step, i + 1), capacity)
    ensures !Fits(BackedPlan(total, chunkSize, step, pathCount), capacity)
  {
    StripeStarts(total, chunkSize, i);
    var all := UpTo(Backed(total, chunkSize, pathCount));
    AllRequestable(total, chunkSize, |all|);
    PlanPrefix(all, total, chunkSize, step, i + 1);
    assert all[..i + 1] == UpTo(i + 1);
    if Fits(Plan(all, total, chunkSize, step), capacity) {
      FitsMonotone(Plan(UpTo(i + 1), total, chunkSize, step), Plan(all, total, chunkSize, step), capacity);
    }
  }

  // ---------------------------------------------------------------------------------------------
  // Carrying out the plan

  /** One completed read: the object's bytes, then up to a window of padding, overwrite the buffer. */
  ghost predicate Deliverable(r: Range, data: Bytes, padding: Bytes, capacity: nat) {
    r.objectOffset + r.length <= |data| && r.length + |padding| <= Window(r) && r.dest + Window(r) <= capacity
  }

  ghost function Deliver(buffer: Bytes, r: Range, data: Bytes, padding: Bytes): (after: Bytes)
    requires Deliverable(r, data, padding, |buffer|)
    ensures |after| == |buffer|
  {
    var end := r.dest + r.length + |padding|;
    buffer[..r.dest] + data[r.objectOffset..r.objectOffset + r.length] + padding + buffer[end..]
  }

  ghost predicate Holds(buffer: Bytes, r: Range, data: Bytes) {
    && r.objectOffset + r.length <= |data| && r.dest + r.length <= |buffer|
    && buffer[r.dest..r.dest + r.length] == data[r.objectOffset..r.objectOffset + r.length]
  }

  lemma DeliverHolds(buffer: Bytes, r: Range, data: Bytes, padding: Bytes)
    requires Deliverable(r, data, padding, |buffer|)
    ensures Holds(Deliver(buffer, r, data, padding), r, data)
  {
    var payload := data[r.objectOffset..r.objectOffset + r.length];
    var rest := padding + buffer[r.dest + r.length + |padding|..];
    assert Deliver(buffer, r, data, padding) == buffer[..r.dest] + payload + rest;
  }

  lemma DeliverElsewhere(buffer: Bytes, r: Range, data: Bytes, padding: Bytes, other: Range)
    requires Deliverable(r, data, padding, |buffer|) && Holds(buffer, other, data)
    requires r.dest + Window(r) <= other.dest || other.dest + Window(other) <= r.dest
    ensures Holds(Deliver(buffer, r, data, padding), other, data)
  {
    var after := Deliver(buffer, r, data, padding);
    AlignUpIsLeast(other.length, 0);
    forall x | other.dest <= x < other.dest + other.length ensures after[x] == buffer[x] {}
    assert after[other.dest..other.dest + other.length] == buffer[other.dest..other.dest + other.length];
  }

  /** The buffer once the reads complete in the given order, each with its own padding. */
  ghost function DeliverAll(buffer: Bytes, rs: seq<Range>, data: Bytes, order: seq<nat>, padding: seq<Bytes>)
    : (after: Bytes)
    requires |order| == |padding|
    requires forall k :: 0 <= k < |order| ==>
      order[k] < |rs| && Deliverable(rs[order[k]], data, padding[k], |buffer|)
    ensures |after| == |buffer|
  {
    if order == [] then buffer
    else Deliver(DeliverAll(buffer, rs, data, Front(order), Front(padding)), rs[Last(order)], data, Last(padding))
  }

  /** With disjoint windows, every completed read stays in place, whatever the order and the padding. */
  lemma {:induction false} AnyOrderHolds(buffer: Bytes, rs: seq<Range>, data: Bytes, order: seq<nat>,
                                         padding: seq<Bytes>, j: nat)
    requires WindowsDisjoint(rs) && |order| == |padding| && j in order
    requires forall k :: 0 <= k < |order| ==>
      order[k] < |rs| && Deliverable(rs[order[k]], data, padding[k], |buffer|)
    ensures j < |rs| && Holds(DeliverAll(buffer, rs, data, order, padding), rs[j], data)
  {
    var before := DeliverAll(buffer, rs, data, Front(order), Front(padding));
    if j == Last(order) {
      DeliverHolds(before, rs[j], data, Last(padding));
    } else {
      assert order == Front(order) + [Last(order)];
      AnyOrderHolds(buffer, rs, data, Front(order), Front(padding), j);
      DeliverElsewhere(before, rs[Last(order)], data, Last(padding), rs[j]);
    }
  }

  /** Once every read of a sound whole-object plan has completed, in any order, the buffer holds the object. */
  lemma FullReadFillsBuffer(buffer: Bytes, data: Bytes, chunkSize: nat, step: nat, order: seq<nat>, padding: seq<Bytes>)
    requires step > 0 && step % ALIGNMENT == 0 && chunkSize > 0 && data != []
    requires chunkSize % ALIGNMENT == 0 || |data| <= chunkSize
    requires |order| == |padding|
    requires var rs := FullPlan(|data|, chunkSize, step);
      && (forall k :: 0 <= k < |order| ==>
            order[k] < |rs| && Deliverable(rs[order[k]], data, padding[k], |buffer|))
      && forall j :: 0 <= j < |rs| ==> j in order
    ensures |data| <= |buffer|
    ensures DeliverAll(buffer, FullPlan(|data|, chunkSize, step), data, order, padding)[..|data|] == data
  {
    var n := StripeCount(|data|, chunkSize);
    FullPlanSoundIff(|data|, chunkSize, step);
    StagedUpTo(|data|, chunkSize, n);
    PlanTiles(UpTo(n), |data|, chunkSize, step);
    StripeCountIsTight(|data|, chunkSize);
    DestIsObjectOffset(|data|, chunkSize, step, n);
    TilesFillBuffer(buffer, FullPlan(|data|, chunkSize, step), data, order, padding);
  }

  lemma TilesFillBuffer(buffer: Bytes, rs: seq<Range>, data: Bytes, order: seq<nat>, padding: seq<Bytes>)
    requires Contiguous(rs, 0, |data|) && WindowsDisjoint(rs) && forall r <- rs :: r.dest == r.objectOffset
    requires |order| == |padding|
    requires forall k :: 0 <= k < |order| ==>
      order[k] < |rs| && Deliverable(rs[order[k]], data, padding[k], |buffer|)
    requires forall j :: 0 <= j < |rs| ==> j in order
    ensures |data| <= |buffer| && DeliverAll(buffer, rs, data, order, padding)[..|data|] == data
  {
    var after := DeliverAll(buffer, rs, data, order, padding);
    forall x | 0 <= x < |data|
      ensures x < |after| && after[x] == data[x]
    {
      var j := FindCover(rs, 0, |data|, x);
      AnyOrderHolds(buffer, rs, data, order, padding, j);
      AtOffset(after, rs[j], data, x);
    }
    assert |data| <= |after| by {
      assert data != [] ==> data[|data| - 1] == after[|data| - 1];
    }
  }

  lemma AtOffset(buffer: Bytes, r: Range, data: Bytes, x: nat)
    requires Holds(buffer, r, data) && Covers(r, x) && r.dest == r.objectOffset
    ensures x < |buffer| && x < |data| && buffer[x] == data[x]
  {
    assert buffer[x] == buffer[r.dest..r.dest + r.length][x - r.dest];
    assert data[x] == data[r.objectOffset..r.objectOffset + r.length][x - r.dest];
  }
}
