/**
 * A stripe-subset read as the server serves it: the request is validated before any file is touched,
 * the stripes are planned, and the gate releases sub-ranges. Validation is what keeps a stripe from
 * being requested twice, which the gate relies on.
 */
module SubsetReads {
  import opened Types
  import opened Striping
  import opened ReadPlan
  import opened StripeGate

  /** What the request is checked against: the object's shape and, per stripe, whether this node holds it. */
  datatype Target = Target(pathCount: nat, total: nat, chunkSize: nat, local: seq<bool>)

  datatype Request = Request(stripes: seq<nat>, maxSize: nat)

  /** `Underflow` is the unsigned subtraction for a stripe that starts beyond the object. */
  datatype Admission = Admitted(staged: nat) | Declined | Underflow

  /** The bytes of stripe `i` that a request stages. */
  function StagedLen(target: Target, i: nat): nat
    requires i * target.chunkSize <= target.total
  {
    Min(target.chunkSize, target.total - i * target.chunkSize)
  }

  /** What is wrong at position `p`, looking at the positions before it for duplicates only. */
  function FaultAt(target: Target, request: Request, p: nat): (r: Option<Admission>)
    requires p < |request.stripes|
    ensures r.Some? ==> !r.value.Admitted?
  {
    var i := request.stripes[p];
    if i in request.stripes[..p] then Some(Declined)
    else if i >= target.pathCount then Some(Declined)
    else if i * target.chunkSize > target.total then Some(Underflow)
    else if i * target.chunkSize + StagedLen(target, i) > request.maxSize then Some(Declined)
    else if |target.local| == target.pathCount && !target.local[i] then Some(Declined)
    else None
  }

  /** The stripe exists, ends within the client's window and is held by this node. */
  predicate Servable(target: Target, i: nat, maxSize: nat) {
    && i < target.pathCount && i * target.chunkSize <= target.total
    && i * target.chunkSize + StagedLen(target, i) <= maxSize
    && (|target.local| == target.pathCount ==> target.local[i])
  }

  ghost predicate Acceptable(target: Target, request: Request) {
    && target.chunkSize > 0 && Distinct(request.stripes)
    && forall i <- request.stripes :: Servable(target, i, request.maxSize)
  }

  /** No position is at fault exactly when the stripes are distinct and each can be served. */
  lemma NoFaultIffAcceptable(target: Target, request: Request)
    requires target.chunkSize > 0
    ensures Acceptable(target, request) <==>
      forall p :: 0 <= p < |request.stripes| ==> FaultAt(target, request, p).None?
  {
    var stripes := request.stripes;
    if forall p :: 0 <= p < |stripes| ==> FaultAt(target, request, p).None? {
      forall p, q | 0 <= p < q < |stripes|
        ensures stripes[p] != stripes[q]
      {
        assert FaultAt(target, request, q).None? && stripes[p] == stripes[..q][p];
      }
      forall i <- stripes
        ensures Servable(target, i, request.maxSize)
      {
        var p :| 0 <= p < |stripes| && stripes[p] == i;
        assert FaultAt(target, request, p).None?;
      }
    }
    if Acceptable(target, request) {
      forall p | 0 <= p < |stripes|
        ensures FaultAt(target, request, p).None?
      {
        assert stripes[p] in stripes;
        assert stripes[p] !in stripes[..p];
      }
    }
  }

  /** The staging bytes of the first stripes of the request. */
  function StagedSum(target: Target, stripes: seq<nat>): nat
    requires Within(target, stripes)
  {
    if stripes == [] then 0
    else
      assert Last(stripes) in stripes && forall i <- Front(stripes) :: i in stripes;
      StagedSum(target, Front(stripes)) + StagedLen(target, Last(stripes))
  }

  /** What the first fault, if any, is. */
  ghost predicate FirstFaultIs(target: Target, request: Request, p: int, admission: Admission) {
    && 0 <= p < |request.stripes| && FaultAt(target, request, p) == Some(admission)
    && forall q :: 0 <= q < p ==> FaultAt(target, request, q).None?
  }

  /**
   * The validation loop. A request is admitted exactly when its stripes are distinct and each can be
   * served; otherwise the first fault decides.
   */
  method Admit(target: Target, request: Request) returns (admission: Admission)
    ensures admission.Admitted? <==> Acceptable(target, request)
    ensures admission.Admitted? ==> admission.staged == StagedSum(target, request.stripes)
    ensures !admission.Admitted? && target.chunkSize > 0 ==> exists p :: FirstFaultIs(target, request, p, admission)
  {
    if target.chunkSize == 0 {
      return Declined;
    }
    NoFaultIffAcceptable(target, request);
    var stripes := request.stripes;
    var staged: nat := 0;
    for p := 0 to |stripes|
      invariant Checked(target, request, p, staged)
    {
      var fault := FaultAt(target, request, p);
      if fault.Some? {
        assert FirstFaultIs(target, request, p, fault.value);
        return fault.value;
      }
      CheckedNext(target, request, p, staged);
      staged := staged + StagedLen(target, stripes[p]);
    }
    assert stripes[..|stripes|] == stripes;
    admission := Admitted(staged);
  }

  ghost predicate Within(target: Target, stripes: seq<nat>) {
    forall i <- stripes :: i * target.chunkSize <= target.total
  }

  /** The first `p` positions are without fault and stage that many bytes. */
  ghost predicate Checked(target: Target, request: Request, p: nat, staged: nat) {
    && p <= |request.stripes| && (forall q :: 0 <= q < p ==> FaultAt(target, request, q).None?)
    && Within(target, request.stripes[..p]) && staged == StagedSum(target, request.stripes[..p])
  }

  lemma CheckedNext(target: Target, request: Request, p: nat, staged: nat)
    requires p < |request.stripes| && Checked(target, request, p, staged) && FaultAt(target, request, p).None?
    ensures Checked(target, request, p + 1, staged + StagedLen(target, request.stripes[p]))
  {
    WithinNext(target, request.stripes, p);
  }

  lemma WithinNext(target: Target, stripes: seq<nat>, p: nat)
    requires p < |stripes| && Within(target, stripes[..p]) && stripes[p] * target.chunkSize <= target.total
    ensures Within(target, stripes[..p + 1])
    ensures StagedSum(target, stripes[..p + 1]) == StagedSum(target, stripes[..p]) + StagedLen(target, stripes[p])
  {
    assert stripes[..p + 1] == stripes[..p] + [stripes[p]];
    assert Front(stripes[..p + 1]) == stripes[..p];
  }

  /** Validation, then the plan: a read starts exactly when both pass. */
  method ServeSubset(target: Target, request: Request, step: nat, capacity: nat) returns (plan: Option<seq<Range>>)
    requires step > 0
    ensures plan.Some? <==>
      && Acceptable(target, request)
      && Plannable(target.pathCount, target.total, target.chunkSize, step, request.stripes, capacity)
    ensures plan.Some? ==> plan.value == Plan(request.stripes, target.total, target.chunkSize, step)
  {
    var admission := Admit(target, request);
    if !admission.Admitted? {
      return None;
    }
    var planned := PlanSubset(target.pathCount, target.total, target.chunkSize, step, request.stripes, capacity);
    plan := if planned.Planned? then Some(planned.ranges) else None;
  }

  /** What validation stages is what the plan fills. */
  lemma {:induction false} StagedAgrees(target: Target, stripes: seq<nat>)
    requires Requestable(stripes, target.total, target.chunkSize)
    ensures Within(target, stripes) && StagedSum(target, stripes) == Staged(stripes, target.total, target.chunkSize)
  {
    if stripes != [] {
      StagedAgrees(target, Front(stripes));
      assert stripes == Front(stripes) + [Last(stripes)];
    }
  }

  /**
   * Every subset read the server starts releases only bytes that were written: whatever arrives, in
   * whatever order, over any request.
   */
  lemma ServedReadsAreVerified(data: Bytes, target: Target, request: Request, step: nat, capacity: nat)
    requires step > 0 && target.total == |data| && Acceptable(target, request)
    requires Plannable(target.pathCount, target.total, target.chunkSize, step, request.stripes, capacity)
    ensures ReleasesOnlyWritten(data, target.chunkSize, step, request.stripes)
    ensures StagedSum(target, request.stripes) == Staged(request.stripes, |data|, target.chunkSize) <= capacity
  {
    SoundIffDistinct(data, target.chunkSize, step, request.stripes);
    StagedAgrees(target, request.stripes);
    FitsHasRoom(request.stripes, |data|, target.chunkSize, step, capacity);
  }

  // ---------------------------------------------------------------------------------------------
  // From the release to the end of the read

  /** Position `x` lies in the padded window of a sub-range that has not arrived. */
  ghost predicate StillWritten(plan: seq<Range>, seen: set<nat>, x: nat) {
    exists j :: 0 <= j < |plan| && j !in seen && plan[j].dest <= x < plan[j].dest + Window(plan[j])
  }

  /** Between two arrivals only reads that have not arrived write, each within its own window. */
  ghost predicate Settles(plan: seq<Range>, seen: set<nat>, before: Bytes, after: Bytes) {
    && |before| == |after|
    && forall x :: 0 <= x < |before| && before[x] != after[x] ==> StillWritten(plan, seen, x)
  }

  ghost predicate Evolves(plan: seq<Range>, arrivals: seq<Arrival>) {
    |arrivals| > 1 ==>
      && Evolves(plan, Front(arrivals))
      && Settles(plan, Indices(Front(arrivals)), Last(Front(arrivals)).buffer, Last(arrivals).buffer)
  }

  lemma NotWritten(plan: seq<Range>, seen: set<nat>, j: nat, x: nat)
    requires WindowsDisjoint(plan) && j < |plan| && j in seen && plan[j].dest <= x < plan[j].dest + Window(plan[j])
    ensures !StillWritten(plan, seen, x)
  {
    forall other | 0 <= other < |plan| && other !in seen
      ensures !(plan[other].dest <= x < plan[other].dest + Window(plan[other]))
    {
    }
  }

  /** Disjoint windows: what has arrived is not written again. */
  lemma SettledKeeps(plan: seq<Range>, seen: set<nat>, before: Bytes, after: Bytes, j: nat, data: Bytes)
    requires WindowsDisjoint(plan) && j < |plan| && j in seen && Settles(plan, seen, before, after)
    requires Holds(before, plan[j], data)
    ensures Holds(after, plan[j], data)
  {
    var r := plan[j];
    AlignUpIsLeast(r.length, 0);
    forall x | r.dest <= x < r.dest + r.length
      ensures after[x] == before[x]
    {
      NotWritten(plan, seen, j, x);
    }
    assert after[r.dest..r.dest + r.length] == before[r.dest..r.dest + r.length];
  }

  /** A sub-range that was right when its stripe was judged is right at the end. */
  lemma {:induction false} StaysHeld(plan: seq<Range>, arrivals: seq<Arrival>, j: nat, data: Bytes)
    requires WindowsDisjoint(plan) && Evolves(plan, arrivals) && j < |plan|
    requires var own := Own(plan, arrivals, plan[j].stripe);
      own != [] && j in Indices(own) && Holds(Last(own).buffer, plan[j], data)
    ensures arrivals != [] && Holds(Last(arrivals).buffer, plan[j], data)
  {
    var i := plan[j].stripe;
    var front, last := Front(arrivals), Last(arrivals);
    if !(last.index < |plan| && plan[last.index].stripe == i) {
      StaysHeld(plan, front, j, data);
      var e :| e in Own(plan, front, i) && e.index == j;
      assert e in front;
      SettledKeeps(plan, Indices(front), Last(front).buffer, last.buffer, j, data);
    }
  }

  /**
   * A sub-range a subset read releases holds what was written from the release to the end of the
   * read, if every requested stripe but the last is a whole number of blocks long.
   */
  lemma ReleasedToTheEnd(data: Bytes, chunkSize: nat, step: nat, indices: seq<nat>, arrivals: seq<Arrival>,
                         j: nat, n: nat)
    requires step > 0 && step % ALIGNMENT == 0 && chunkSize > 0
    requires Requestable(indices, |data|, chunkSize) && Distinct(indices) && DeliveredOnce(arrivals)
    requires indices != [] && WholeStripes(Front(indices), |data|, chunkSize)
    requires Evolves(Plan(indices, |data|, chunkSize, step), arrivals)
    requires Pass(j, n) in Emitted(JobOf(data, chunkSize, step, indices, false), arrivals)
    ensures var plan := Plan(indices, |data|, chunkSize, step);
      j < |plan| && arrivals != [] && Holds(Last(arrivals).buffer, plan[j], data)
  {
    var job := JobOf(data, chunkSize, step, indices, false);
    WindowsSoundIff(indices, |data|, chunkSize, step);
    ReleasedBytes(data, chunkSize, step, indices, arrivals, j, n);
    ReleasedIsVerified(job, arrivals, j, n);
    assert j in Members(job.plan, job.plan[j].stripe);
    StaysHeld(job.plan, arrivals, j, data);
  }

  /** The same for a whole-object read, if stripes are whole blocks or there is only one. */
  lemma ReleasedToTheEndWhole(data: Bytes, chunkSize: nat, step: nat, arrivals: seq<Arrival>, j: nat, n: nat)
    requires step > 0 && step % ALIGNMENT == 0 && chunkSize > 0 && DeliveredOnce(arrivals)
    requires data != [] && (chunkSize % ALIGNMENT == 0 || |data| <= chunkSize)
    requires Evolves(FullPlan(|data|, chunkSize, step), arrivals)
    requires Pass(j, n) in Emitted(WholeJob(data, chunkSize, step), arrivals)
    ensures var plan := FullPlan(|data|, chunkSize, step);
      j < |plan| && arrivals != [] && Holds(Last(arrivals).buffer, plan[j], data)
  {
    var job := WholeJob(data, chunkSize, step);
    FullPlanSoundIff(|data|, chunkSize, step);
    ReleasedBytesWhole(data, chunkSize, step, arrivals, j, n);
    ReleasedIsVerified(job, arrivals, j, n);
    assert j in Members(job.plan, job.plan[j].stripe);
    StaysHeld(job.plan, arrivals, j, data);
  }

  // ---------------------------------------------------------------------------------------------
  // The converse: a window that reaches into the next stripe

  /** The last sub-range of each requested position ends where the next position's copy begins. */
  lemma {:induction false} LastOfCopy(indices: seq<nat>, total: nat, chunkSize: nat, step: nat, t: nat) returns (j: nat)
    requires step > 0 && step % ALIGNMENT == 0 && chunkSize > 0
    requires t < |indices| && Requestable(indices, total, chunkSize)
    ensures var rs := Plan(indices, total, chunkSize, step);
      && j < |rs| && rs[j].stripe == indices[t] && Starts(indices[t], total, chunkSize)
      && Requestable(indices[..t + 1], total, chunkSize)
      && rs[j].dest + rs[j].length == Staged(indices[..t + 1], total, chunkSize) && rs[j].length > 0
      && rs[j].length % ALIGNMENT == StripeLen(total, chunkSize, indices[t]) % ALIGNMENT
    decreases |indices|
  {
    var front, last := Front(indices), Last(indices);
    if t == |indices| - 1 {
      assert indices[..t + 1] == indices;
      LastOfStripe(last, Staged(front, total, chunkSize), total, chunkSize, step);
      j := |Plan(indices, total, chunkSize, step)| - 1;
    } else {
      j := LastOfCopy(front, total, chunkSize, step, t);
      assert front[..t + 1] == indices[..t + 1];
    }
  }

  lemma LastOfStripe(i: nat, dest: nat, total: nat, chunkSize: nat, step: nat)
    requires step > 0 && step % ALIGNMENT == 0 && chunkSize > 0 && Starts(i, total, chunkSize)
    ensures var rs := StripePlan(i, dest, total, chunkSize, step);
      && rs != [] && Last(rs).stripe == i && Last(rs).length > 0
      && Last(rs).dest + Last(rs).length == dest + StripeLen(total, chunkSize, i)
      && Last(rs).length % ALIGNMENT == StripeLen(total, chunkSize, i) % ALIGNMENT
  {
    var len := StripeLen(total, chunkSize, i);
    StripeTiled(i, dest, total, chunkSize, step);
    LastPiece(i, dest, i * chunkSize, len, step);
    PiecesPlaced(i, dest, total, chunkSize, step, StripeCount(len, step));
  }

  /** Sub-range `a` is padded into the first byte of sub-range `b`, the start of another stripe. */
  ghost predicate ReachesInto(plan: seq<Range>, chunkSize: nat, a: nat, b: nat) {
    && a < |plan| && b < |plan| && plan[a].stripe != plan[b].stripe
    && plan[a].dest <= plan[b].dest < plan[a].dest + Window(plan[a])
    && plan[b].fileOffset == 0 && plan[b].length > 0 && plan[b].objectOffset == plan[b].stripe * chunkSize
  }

  /** A requested stripe that is not whole blocks, with another after it, reaches into that one. */
  lemma ShortReaches(indices: seq<nat>, total: nat, chunkSize: nat, step: nat, t: nat) returns (a: nat, b: nat)
    requires step > 0 && step % ALIGNMENT == 0 && chunkSize > 0 && Distinct(indices)
    requires t + 1 < |indices| && Requestable(indices, total, chunkSize)
    requires Starts(indices[t], total, chunkSize) && StripeLen(total, chunkSize, indices[t]) % ALIGNMENT != 0
    ensures ReachesInto(Plan(indices, total, chunkSize, step), chunkSize, a, b)
    ensures var plan := Plan(indices, total, chunkSize, step);
      plan[b].stripe == indices[t + 1] && plan[b].dest == Staged(indices[..t + 1], total, chunkSize)
  {
    a := LastOfCopy(indices, total, chunkSize, step, t);
    b := CopyAt(indices, total, chunkSize, step, t + 1);
    AlignUpIsLeast(Plan(indices, total, chunkSize, step)[a].length, 0);
  }

  lemma {:induction false} OwnOnce(plan: seq<Range>, arrivals: seq<Arrival>, i: nat)
    requires DeliveredOnce(arrivals)
    ensures DeliveredOnce(Own(plan, arrivals, i)) && Own(plan, Own(plan, arrivals, i), i) == Own(plan, arrivals, i)
  {
    if arrivals != [] {
      var front, last := Front(arrivals), Last(arrivals);
      OwnOnce(plan, front, i);
      if last.index < |plan| && plan[last.index].stripe == i {
        LastIsNew(plan, arrivals, i);
        AppendOnce(Own(plan, front, i), last);
        assert Front(Own(plan, front, i) + [last]) == Own(plan, front, i);
      }
    }
  }

  lemma AppendOnce(own: seq<Arrival>, last: Arrival)
    requires DeliveredOnce(own) && last.index !in Indices(own)
    ensures DeliveredOnce(own + [last])
  {
    forall k | 0 <= k < |own|
      ensures own[k].index != last.index
    {
      assert own[k] in own && own[k].index in Indices(own);
    }
  }

  lemma {:induction false} SameBufferEvolves(plan: seq<Range>, arrivals: seq<Arrival>, buffer: Bytes)
    requires forall a <- arrivals :: a.buffer == buffer
    ensures Evolves(plan, arrivals)
  {
    if |arrivals| > 1 {
      assert arrivals == Front(arrivals) + [Last(arrivals)] && Last(Front(arrivals)) in arrivals;
      SameBufferEvolves(plan, Front(arrivals), buffer);
    }
  }

  /** With only one stripe's completions in, that stripe is released if its checked window matches. */
  lemma StripeReleased(job: Job, buffer: Bytes, j: nat)
    requires ValidJob(job) && j < |job.plan|
    requires var i := job.plan[j].stripe; var own := Own(job.plan, InOrder(job.plan, buffer), i);
      && i < |job.checksums| && own != [] && job.checksums[i] ==
         Some(Slice(buffer, CheckedBase(job, i, own), StripeLen(job.total, job.chunkSize, i)))
    ensures var own := Own(job.plan, InOrder(job.plan, buffer), job.plan[j].stripe);
      DeliveredOnce(own) && Pass(j, job.plan[j].length) in Emitted(job, own)
  {
    var i, all := job.plan[j].stripe, InOrder(job.plan, buffer);
    var own := Own(job.plan, all, i);
    assert job.plan[j] in job.plan;
    OwnOnce(job.plan, all, i);
    AllArrive(job.plan, buffer, i);
    OwnHas(job.plan, all, i, j);
    assert FirstFault(job.plan, own).None? by { NoFaultIff(job.plan, own); }
    WholeStripePasses(job, own, i, all[j]);
  }

  lemma WholeStripePasses(job: Job, own: seq<Arrival>, i: nat, e: Arrival)
    requires ValidJob(job) && DeliveredOnce(own) && Starts(i, job.total, job.chunkSize) && e in own && e.result.Got?
    requires Own(job.plan, own, i) == own && |own| == |Members(job.plan, i)| && Judge(job, i, own).None?
    ensures Pass(e.index, e.result.bytes) in Emitted(job, own)
  {
    StripeEmissions(job, own, i);
    var k :| 0 <= k < |own| && own[k] == e;
    assert Passes(own)[k] == Pass(e.index, e.result.bytes);
    AboutIsEmitted(job.plan, Emitted(job, own), i, Pass(e.index, e.result.bytes));
  }

  /** Exactly the stripe's sub-ranges have arrived. */
  ghost predicate AllIn(plan: seq<Range>, own: seq<Arrival>, i: nat) {
    own != [] && Indices(own) == Members(plan, i) && forall e <- own :: e.index < |plan| && plan[e.index].stripe == i
  }

  /** With all of it in, the stripe is checked at `base`. */
  ghost predicate CheckedAt(job: Job, i: nat, base: nat) {
    forall own: seq<Arrival> :: AllIn(job.plan, own, i) ==> CheckedBase(job, i, own) == base
  }

  /** The stripe's copy at `base`, and nothing before it. */
  function Copied(stripe: Bytes, base: nat): (buffer: Bytes)
    ensures |buffer| == base + |stripe| && Slice(buffer, base, |stripe|) == stripe
  {
    var buffer := seq(base, _ => 0 as byte) + stripe;
    assert buffer[base..base + |stripe|] == stripe;
    buffer
  }

  function Other(b: byte): byte {
    if b == 0 then 1 else 0
  }

  /**
   * The stripe of `b` arrives whole, is checked and released; then the read of `a` completes and its
   * padding has overwritten the first byte.
   */
  lemma PaddingOverwrites(data: Bytes, job: Job, a: nat, b: nat) returns (arrivals: seq<Arrival>)
    requires ValidJob(job) && job.total == |data| && job.chunkSize > 0
    requires job.checksums == Checksums(data, job.chunkSize)
    requires ReachesInto(job.plan, job.chunkSize, a, b)
    requires CheckedAt(job, job.plan[b].stripe, job.plan[b].dest)
    ensures DeliveredOnce(arrivals) && Evolves(job.plan, arrivals) && arrivals != []
    ensures Pass(b, job.plan[b].length) in Emitted(job, arrivals)
    ensures !Holds(Last(arrivals).buffer, job.plan[b], data)
  {
    var i, base := job.plan[b].stripe, job.plan[b].dest;
    assert job.plan[b] in job.plan;
    var stripe := Stripe(data, job.chunkSize, i);
    var good := Copied(stripe, base);
    var own := Own(job.plan, InOrder(job.plan, good), i);
    OwnIsAll(job.plan, good, b);
    ChecksumOf(data, job.chunkSize, i);
    StripeReleased(job, good, b);
    var bad := good[base := Other(good[base])];
    arrivals := own + [Arrival(a, Got(job.plan[a].length), bad)];
    LateWindow(job, own, good, bad, a, b);
    assert Front(arrivals) == own;
    FirstByte(bad, job.plan[b], data);
  }

  lemma OwnIsAll(plan: seq<Range>, buffer: Bytes, b: nat)
    requires b < |plan|
    ensures AllIn(plan, Own(plan, InOrder(plan, buffer), plan[b].stripe), plan[b].stripe)
  {
    OwnHas(plan, InOrder(plan, buffer), plan[b].stripe, b);
    AllArrive(plan, buffer, plan[b].stripe);
    OwnBound(plan, InOrder(plan, buffer), plan[b].stripe);
  }

  lemma LateWindow(job: Job, own: seq<Arrival>, good: Bytes, bad: Bytes, a: nat, b: nat)
    requires ReachesInto(job.plan, job.chunkSize, a, b) && own != [] && DeliveredOnce(own)
    requires forall e <- own ::
      e.index < |job.plan| && job.plan[e.index].stripe == job.plan[b].stripe && e.buffer == good
    requires |bad| == |good| && forall x :: 0 <= x < |good| && good[x] != bad[x] ==> x == job.plan[b].dest
    ensures var arrivals := own + [Arrival(a, Got(job.plan[a].length), bad)];
      DeliveredOnce(arrivals) && Evolves(job.plan, arrivals)
  {
    var arrivals := own + [Arrival(a, Got(job.plan[a].length), bad)];
    SameBufferEvolves(job.plan, own, good);
    assert Front(arrivals) == own && Last(own) in own;
    assert a !in Indices(own);
    forall x | 0 <= x < |good| && good[x] != bad[x]
      ensures StillWritten(job.plan, Indices(own), x)
    {
      assert job.plan[a].dest <= x < job.plan[a].dest + Window(job.plan[a]);
    }
    AppendOnce(own, Last(arrivals));
  }

  /** Whatever arrives in whatever order, a released sub-range holds what was written at every later moment. */
  ghost predicate StaysReleased(data: Bytes, job: Job)
    requires ValidJob(job)
  {
    forall arrivals: seq<Arrival>, j: nat, n: nat ::
      DeliveredOnce(arrivals) && Evolves(job.plan, arrivals) && Pass(j, n) in Emitted(job, arrivals) ==>
        j < |job.plan| && arrivals != [] && Holds(Last(arrivals).buffer, job.plan[j], data)
  }

  /** A subset read keeps what it released exactly when every requested stripe but the last is whole blocks. */
  lemma StaysReleasedIff(data: Bytes, chunkSize: nat, step: nat, indices: seq<nat>)
    requires step > 0 && step % ALIGNMENT == 0 && chunkSize > 0
    requires Requestable(indices, |data|, chunkSize) && Distinct(indices) && indices != []
    ensures StaysReleased(data, JobOf(data, chunkSize, step, indices, false)) <==>
      WholeStripes(Front(indices), |data|, chunkSize)
  {
    var job := JobOf(data, chunkSize, step, indices, false);
    if WholeStripes(Front(indices), |data|, chunkSize) {
      forall arrivals: seq<Arrival>, j: nat, n: nat |
        DeliveredOnce(arrivals) && Evolves(job.plan, arrivals) && Pass(j, n) in Emitted(job, arrivals)
        ensures j < |job.plan| && arrivals != [] && Holds(Last(arrivals).buffer, job.plan[j], data)
      {
        ReleasedToTheEnd(data, chunkSize, step, indices, arrivals, j, n);
      }
    } else {
      var i :| i in Front(indices) && StripeLen(|data|, chunkSize, i) % ALIGNMENT != 0;
      var t :| 0 <= t < |indices| - 1 && indices[t] == i;
      var a, b := ShortReaches(indices, |data|, chunkSize, step, t);
      OneCopy(indices, |data|, chunkSize, step, t + 1);
      SubsetBase(job, indices[t + 1], b);
      var arrivals := PaddingOverwrites(data, job, a, b);
      assert !StaysReleased(data, job);
    }
  }

  /** A complete stripe of a subset read is checked where its one copy begins. */
  lemma SubsetBase(job: Job, i: nat, b: nat)
    requires !job.wholeObject && b < |job.plan| && job.plan[b].stripe == i && job.plan[b].fileOffset == 0
    requires forall r <- job.plan :: r.stripe == i ==> r.dest == job.plan[b].dest + r.fileOffset
    ensures CheckedAt(job, i, job.plan[b].dest)
  {
    forall own: seq<Arrival> | AllIn(job.plan, own, i)
      ensures CheckedBase(job, i, own) == job.plan[b].dest
    {
      assert b in Indices(own);
      BaseOfCopy(job, i, own, job.plan[b].dest);
    }
  }

  /** A whole-object read does exactly when stripes are whole blocks or there is only one. */
  lemma StaysReleasedWholeIff(data: Bytes, chunkSize: nat, step: nat)
    requires step > 0 && step % ALIGNMENT == 0 && chunkSize > 0 && data != []
    ensures StaysReleased(data, WholeJob(data, chunkSize, step)) <==> chunkSize % ALIGNMENT == 0 || |data| <= chunkSize
  {
    var job := WholeJob(data, chunkSize, step);
    if chunkSize % ALIGNMENT == 0 || |data| <= chunkSize {
      forall arrivals: seq<Arrival>, j: nat, n: nat |
        DeliveredOnce(arrivals) && Evolves(job.plan, arrivals) && Pass(j, n) in Emitted(job, arrivals)
        ensures j < |job.plan| && arrivals != [] && Holds(Last(arrivals).buffer, job.plan[j], data)
      {
        ReleasedToTheEndWhole(data, chunkSize, step, arrivals, j, n);
      }
    } else {
      var a, b := FirstReaches(|data|, chunkSize, step);
      var arrivals := PaddingOverwrites(data, job, a, b);
      assert !StaysReleased(data, job);
    }
  }

  /** The first of several stripes that are not whole blocks reaches into the second. */
  lemma FirstReaches(total: nat, chunkSize: nat, step: nat) returns (a: nat, b: nat)
    requires step > 0 && step % ALIGNMENT == 0 && chunkSize % ALIGNMENT != 0 && chunkSize < total
    ensures ReachesInto(FullPlan(total, chunkSize, step), chunkSize, a, b)
    ensures FullPlan(total, chunkSize, step)[b].dest == FullPlan(total, chunkSize, step)[b].stripe * chunkSize
  {
    var n := StripeCount(total, chunkSize);
    MoreThanOne(total, chunkSize);
    AllRequestable(total, chunkSize, n);
    assert 0 * chunkSize == 0 && 1 * chunkSize == chunkSize;
    InnerStripe(0, 1, total, chunkSize);
    a, b := ShortReaches(UpTo(n), total, chunkSize, step, 0);
    DestIsObjectOffset(total, chunkSize, step, n);
    assert FullPlan(total, chunkSize, step)[b] in FullPlan(total, chunkSize, step);
  }
}
