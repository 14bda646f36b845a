/**
 * Integrity gating of a streaming read. Completions of sub-ranges arrive in any order; those of a
 * stripe are held back until all have arrived, and are then released together if every read had
 * full length and the staged bytes match the stripe's checksum, or replaced by one error. A checksum
 * is collision-free, so it is modelled as the bytes it was taken of.
 */
module StripeGate {
  import opened Types
  import opened Striping
  import opened ReadPlan

  datatype ReadResult = Got(bytes: nat) | Missing | IoError

  /** A completion as received: which sub-range, how it ended, and the staging buffer at that time. */
  datatype Arrival = Arrival(index: nat, result: ReadResult, buffer: Bytes)

  datatype Fault = ShortRead | MissingChunk | ReadFailed | ChecksumMismatch | NoChecksum

  datatype Emission = Pass(index: nat, bytes: nat) | Reject(stripe: nat, fault: Fault)

  /** What is being read: the plan, the object's shape, and the stored checksums. */
  datatype Job = Job(plan: seq<Range>, total: nat, chunkSize: nat, checksums: seq<Option<Bytes>>, wholeObject: bool)

  // ---------------------------------------------------------------------------------------------
  // Specification

  /** Arrivals of stripe `i`, in arrival order. */
  function Own(plan: seq<Range>, arrivals: seq<Arrival>, i: nat): (own: seq<Arrival>)
    ensures forall a <- own :: a in arrivals && a.index < |plan| && plan[a.index].stripe == i
  {
    if arrivals == [] then []
    else
      var front, last := Front(arrivals), Last(arrivals);
      if last.index < |plan| && plan[last.index].stripe == i then Own(plan, front, i) + [last] else Own(plan, front, i)
  }

  /** The sub-ranges of stripe `i`. */
  function Members(plan: seq<Range>, i: nat): set<nat> {
    set j | 0 <= j < |plan| && plan[j].stripe == i
  }

  /** The first fault among the events, in arrival order. */
  function FirstFault(plan: seq<Range>, events: seq<Arrival>): Option<Fault>
    requires forall e <- events :: e.index < |plan|
  {
    if events == [] then None
    else match events[0].result
      case Got(n) => if n == plan[events[0].index].length then FirstFault(plan, events[1..]) else Some(ShortRead)
      case Missing => Some(MissingChunk)
      case IoError => Some(ReadFailed)
  }

  lemma {:induction false} NoFaultIff(plan: seq<Range>, events: seq<Arrival>)
    requires forall e <- events :: e.index < |plan|
    ensures FirstFault(plan, events).None? <==> forall e <- events :: e.result == Got(plan[e.index].length)
  {
    if events != [] {
      NoFaultIff(plan, events[1..]);
      assert events == [events[0]] + events[1..];
    }
  }

  function LowestDest(plan: seq<Range>, events: seq<Arrival>): nat
    requires events != [] && forall e <- events :: e.index < |plan|
  {
    var here := plan[events[0].index].dest;
    if |events| == 1 then here else Min(here, LowestDest(plan, events[1..]))
  }

  lemma {:induction false} LowestDestIsLeast(plan: seq<Range>, events: seq<Arrival>, e: Arrival)
    requires e in events && forall a <- events :: a.index < |plan|
    ensures LowestDest(plan, events) <= plan[e.index].dest
    ensures exists a <- events :: plan[a.index].dest == LowestDest(plan, events)
  {
    assert events == [events[0]] + events[1..];
    if |events| > 1 {
      LowestDestIsLeast(plan, events[1..], if e in events[1..] then e else events[1]);
    }
    assert events[0] in events;
  }

  /** The bytes the checksum is computed over; nothing if the window leaves the buffer. */
  function Slice(buffer: Bytes, base: nat, len: nat): Bytes {
    if base + len <= |buffer| then buffer[base..base + len] else []
  }

  /** Where the staged copy of the stripe begins. */
  function CheckedBase(job: Job, i: nat, events: seq<Arrival>): nat
    requires events != [] && forall e <- events :: e.index < |job.plan|
  {
    if job.wholeObject then i * job.chunkSize else LowestDest(job.plan, events)
  }

  function Judge(job: Job, i: nat, events: seq<Arrival>): Option<Fault>
    requires events != [] && Starts(i, job.total, job.chunkSize) && forall e <- events :: e.index < |job.plan|
  {
    var fault := FirstFault(job.plan, events);
    if fault.Some? then fault
    else if i < |job.checksums| && job.checksums[i].Some? then
      var staged := Slice(Last(events).buffer, CheckedBase(job, i, events), StripeLen(job.total, job.chunkSize, i));
      if staged == job.checksums[i].value then None else Some(ChecksumMismatch)
    else Some(NoChecksum)
  }

  function Passes(events: seq<Arrival>): (out: seq<Emission>)
    ensures |out| == |events|
    ensures forall k :: 0 <= k < |out| ==> out[k].Pass? && out[k].index == events[k].index
  {
    seq(|events|, k requires 0 <= k < |events| =>
      Pass(events[k].index, if events[k].result.Got? then events[k].result.bytes else 0))
  }

  /** What a complete stripe emits: all its sub-ranges, or one error. */
  function Verdict(job: Job, i: nat, events: seq<Arrival>): seq<Emission>
    requires events != [] && Starts(i, job.total, job.chunkSize) && forall e <- events :: e.index < |job.plan|
  {
    match Judge(job, i, events)
    case None => Passes(events)
    case Some(fault) => [Reject(i, fault)]
  }

  ghost predicate ValidJob(job: Job) {
    forall r <- job.plan :: Starts(r.stripe, job.total, job.chunkSize)
  }

  /** The stripe of the arrival, if it names a sub-range, is complete with it. */
  predicate Completes(plan: seq<Range>, arrivals: seq<Arrival>)
    requires arrivals != []
  {
    && Last(arrivals).index < |plan|
    && var i := plan[Last(arrivals).index].stripe;
       |Own(plan, arrivals, i)| == |Members(plan, i)|
  }

  /** Everything emitted over a sequence of arrivals. */
  function Emitted(job: Job, arrivals: seq<Arrival>): seq<Emission>
    requires ValidJob(job)
  {
    if arrivals == [] then []
    else
      var before := Emitted(job, Front(arrivals));
      if Completes(job.plan, arrivals) then
        var i := job.plan[Last(arrivals).index].stripe;
        before + Verdict(job, i, Own(job.plan, arrivals, i))
      else before
  }

  predicate Concerns(plan: seq<Range>, e: Emission, i: nat) {
    match e
    case Pass(index, _) => index < |plan| && plan[index].stripe == i
    case Reject(stripe, _) => stripe == i
  }

  /** The emissions about stripe `i`. */
  function About(plan: seq<Range>, out: seq<Emission>, i: nat): seq<Emission> {
    if out == [] then []
    else About(plan, Front(out), i) + if Concerns(plan, Last(out), i) then [Last(out)] else []
  }

  lemma {:induction false} AboutAppend(plan: seq<Range>, a: seq<Emission>, b: seq<Emission>, i: nat)
    ensures About(plan, a + b, i) == About(plan, a, i) + About(plan, b, i)
  {
    if b == [] {
      assert a + b == a;
    } else {
      assert Front(a + b) == a + Front(b);
      AboutAppend(plan, a, Front(b), i);
    }
  }

  lemma {:induction false} AboutUniform(plan: seq<Range>, out: seq<Emission>, owner: nat, i: nat)
    requires forall e <- out :: Concerns(plan, e, owner)
    ensures About(plan, out, i) == if i == owner then out else []
  {
    if out != [] {
      AboutUniform(plan, Front(out), owner, i);
      assert out == Front(out) + [Last(out)];
    }
  }

  // ---------------------------------------------------------------------------------------------
  // Each sub-range completes once

  ghost predicate DeliveredOnce(arrivals: seq<Arrival>) {
    forall i, j :: 0 <= i < j < |arrivals| ==> arrivals[i].index != arrivals[j].index
  }

  function Indices(events: seq<Arrival>): set<nat> {
    set e <- events :: e.index
  }

  lemma {:induction false} OwnIndices(plan: seq<Range>, arrivals: seq<Arrival>, i: nat)
    requires DeliveredOnce(arrivals)
    ensures Indices(Own(plan, arrivals, i)) <= Members(plan, i)
    ensures |Indices(Own(plan, arrivals, i))| == |Own(plan, arrivals, i)|
  {
    if arrivals != [] {
      var front, last := Front(arrivals), Last(arrivals);
      OwnIndices(plan, front, i);
      if last.index < |plan| && plan[last.index].stripe == i {
        assert Indices(Own(plan, arrivals, i)) == Indices(Own(plan, front, i)) + {last.index};
        LastIsNew(plan, arrivals, i);
      }
    }
  }

  lemma LastIsNew(plan: seq<Range>, arrivals: seq<Arrival>, i: nat)
    requires arrivals != [] && DeliveredOnce(arrivals)
    ensures Last(arrivals).index !in Indices(Own(plan, Front(arrivals), i))
  {
    var front := Front(arrivals);
    forall e <- Own(plan, front, i) ensures e.index != Last(arrivals).index {
      var k :| 0 <= k < |front| && front[k] == e;
      assert arrivals[k] == e;
    }
  }

  /** No stripe receives more arrivals than it has sub-ranges; with that many, every one has arrived. */
  lemma OwnBound(plan: seq<Range>, arrivals: seq<Arrival>, i: nat)
    requires DeliveredOnce(arrivals)
    ensures |Own(plan, arrivals, i)| <= |Members(plan, i)|
    ensures |Own(plan, arrivals, i)| == |Members(plan, i)| ==> Indices(Own(plan, arrivals, i)) == Members(plan, i)
  {
    OwnIndices(plan, arrivals, i);
    SubsetSize(Indices(Own(plan, arrivals, i)), Members(plan, i));
  }

  lemma VerdictConcerns(job: Job, i: nat, events: seq<Arrival>)
    requires events != [] && Starts(i, job.total, job.chunkSize)
    requires forall e <- events :: e.index < |job.plan| && job.plan[e.index].stripe == i
    ensures forall e <- Verdict(job, i, events) :: Concerns(job.plan, e, i)
  {
  }

  /**
   * All that is ever emitted about a stripe: nothing while a sub-range is outstanding, and once all
   * have arrived, in whatever order, its verdict.
   */
  lemma {:induction false} StripeEmissions(job: Job, arrivals: seq<Arrival>, i: nat)
    requires ValidJob(job) && DeliveredOnce(arrivals) && Starts(i, job.total, job.chunkSize)
    ensures var own := Own(job.plan, arrivals, i);
      About(job.plan, Emitted(job, arrivals), i) ==
      if own != [] && |own| == |Members(job.plan, i)| then Verdict(job, i, own) else []
  {
    if arrivals != [] {
      StripeEmissions(job, Front(arrivals), i);
      OwnBound(job.plan, arrivals, i);
      EmissionsStep(job, arrivals, i);
    }
  }

  /** An arrival adds its stripe's verdict if it completes the stripe, and nothing about any other. */
  lemma EmissionsStep(job: Job, arrivals: seq<Arrival>, i: nat)
    requires ValidJob(job) && arrivals != [] && Starts(i, job.total, job.chunkSize)
    ensures var own := Own(job.plan, arrivals, i);
      About(job.plan, Emitted(job, arrivals), i) ==
      About(job.plan, Emitted(job, Front(arrivals)), i) +
      if Completes(job.plan, arrivals) && job.plan[Last(arrivals).index].stripe == i then Verdict(job, i, own) else []
  {
    if Completes(job.plan, arrivals) {
      var owner := job.plan[Last(arrivals).index].stripe;
      var events := Own(job.plan, arrivals, owner);
      assert job.plan[Last(arrivals).index] in job.plan;
      var released := Verdict(job, owner, events);
      VerdictConcerns(job, owner, events);
      AboutAppend(job.plan, Emitted(job, Front(arrivals)), released, i);
      AboutUniform(job.plan, released, owner, i);
    }
  }

  /** Every emission concerns some stripe of the plan. */
  lemma {:induction false} EmittedConcerns(job: Job, arrivals: seq<Arrival>, e: Emission)
    requires ValidJob(job) && e in Emitted(job, arrivals)
    ensures exists r <- job.plan :: Concerns(job.plan, e, r.stripe)
  {
    var front := Front(arrivals);
    if e in Emitted(job, front) {
      EmittedConcerns(job, front, e);
    } else {
      var r := job.plan[Last(arrivals).index];
      VerdictConcerns(job, r.stripe, Own(job.plan, arrivals, r.stripe));
      assert r in job.plan;
    }
  }

  lemma {:induction false} AboutKeeps(plan: seq<Range>, out: seq<Emission>, i: nat, e: Emission)
    requires e in out && Concerns(plan, e, i)
    ensures e in About(plan, out, i)
  {
    assert out == Front(out) + [Last(out)];
    if e in Front(out) {
      AboutKeeps(plan, Front(out), i, e);
    }
  }

  /**
   * A released sub-range: every sub-range of its stripe had arrived at full length, and the staged
   * copy matched the stored checksum when the last one arrived.
   */
  lemma ReleasedIsVerified(job: Job, arrivals: seq<Arrival>, j: nat, n: nat)
    requires ValidJob(job) && DeliveredOnce(arrivals) && Pass(j, n) in Emitted(job, arrivals)
    ensures j < |job.plan|
    ensures var i := job.plan[j].stripe; var own := Own(job.plan, arrivals, i);
      && own != [] && Indices(own) == Members(job.plan, i)
      && (forall e <- own :: e.result == Got(job.plan[e.index].length))
      && i < |job.checksums| && job.checksums[i] ==
         Some(Slice(Last(own).buffer, CheckedBase(job, i, own), StripeLen(job.total, job.chunkSize, i)))
  {
    EmittedConcerns(job, arrivals, Pass(j, n));
    var i := job.plan[j].stripe;
    assert job.plan[j] in job.plan;
    var own := Own(job.plan, arrivals, i);
    StripeEmissions(job, arrivals, i);
    AboutKeeps(job.plan, Emitted(job, arrivals), i, Pass(j, n));
    OwnBound(job.plan, arrivals, i);
    NoFaultIff(job.plan, own);
  }

  // ---------------------------------------------------------------------------------------------
  // What is emitted about a stripe

  /** `base` is where the staged copy begins: the stripe's own offset, or the lowest place its sub-ranges go to. */
  ghost predicate StagedAt(job: Job, i: nat, events: seq<Arrival>, base: nat)
    requires forall e <- events :: e.index < |job.plan|
  {
    if job.wholeObject then base == i * job.chunkSize
    else
      && (forall e <- events :: base <= job.plan[e.index].dest)
      && (exists e <- events :: base == job.plan[e.index].dest)
  }

  ghost predicate FullLength(plan: seq<Range>, e: Arrival)
    requires e.index < |plan|
  {
    e.result == Got(plan[e.index].length)
  }

  /** Every sub-range was read in full, and the bytes staged at the last arrival are those of the stored checksum. */
  ghost predicate Intact(job: Job, i: nat, events: seq<Arrival>, base: nat)
    requires events != [] && Starts(i, job.total, job.chunkSize) && forall e <- events :: e.index < |job.plan|
  {
    && (forall e <- events :: FullLength(job.plan, e))
    && i < |job.checksums|
    && job.checksums[i] == Some(Slice(Last(events).buffer, base, StripeLen(job.total, job.chunkSize, i)))
  }

  /** The `k`-th event is the first that was not read in full, and `fault` says what went wrong with it. */
  ghost predicate FirstBad(plan: seq<Range>, events: seq<Arrival>, k: nat, fault: Fault)
    requires forall e <- events :: e.index < |plan|
  {
    && k < |events| && !FullLength(plan, events[k]) && (forall m :: 0 <= m < k ==> FullLength(plan, events[m]))
    && match events[k].result
       case Got(_) => fault == ShortRead
       case Missing => fault == MissingChunk
       case IoError => fault == ReadFailed
  }

  /** The fault reported: that of the first bad event, or else the checksum's. */
  ghost predicate Blamed(job: Job, i: nat, events: seq<Arrival>, fault: Fault)
    requires forall e <- events :: e.index < |job.plan|
  {
    if forall e <- events :: FullLength(job.plan, e)
    then fault == if i < |job.checksums| && job.checksums[i].Some? then ChecksumMismatch else NoChecksum
    else exists k: nat :: FirstBad(job.plan, events, k, fault)
  }

  /** An intact stripe is released, one `Pass` per arrival in arrival order; any other is one `Reject`. */
  ghost predicate Answers(job: Job, i: nat, events: seq<Arrival>, base: nat, out: seq<Emission>)
    requires events != [] && Starts(i, job.total, job.chunkSize) && forall e <- events :: e.index < |job.plan|
  {
    if Intact(job, i, events, base) then
      && |out| == |events|
      && forall k :: 0 <= k < |out| ==> out[k] == Pass(events[k].index, job.plan[events[k].index].length)
    else |out| == 1 && out[0].Reject? && out[0].stripe == i && Blamed(job, i, events, out[0].fault)
  }

  lemma {:induction false} FirstFaultIsFirst(plan: seq<Range>, events: seq<Arrival>)
    requires forall e <- events :: e.index < |plan|
    ensures FirstFault(plan, events).None? ==> forall e <- events :: FullLength(plan, e)
    ensures FirstFault(plan, events).Some? ==>
      exists k: nat :: FirstBad(plan, events, k, FirstFault(plan, events).value)
  {
    if events != [] {
      FirstFaultIsFirst(plan, events[1..]);
      assert events == [events[0]] + events[1..];
      var fault := FirstFault(plan, events);
      if fault.Some? {
        var k: nat := 0;
        if FullLength(plan, events[0]) {
          k :| FirstBad(plan, events[1..], k, fault.value);
          assert forall m :: 0 < m < |events| ==> events[m] == events[1..][m - 1];
          k := k + 1;
        }
        assert FirstBad(plan, events, k, fault.value);
      }
    }
  }

  lemma BaseIsChecked(job: Job, i: nat, events: seq<Arrival>, base: nat)
    requires events != [] && (forall e <- events :: e.index < |job.plan|) && StagedAt(job, i, events, base)
    ensures CheckedBase(job, i, events) == base
  {
    if !job.wholeObject {
      var e :| e in events && base == job.plan[e.index].dest;
      LowestDestIsLeast(job.plan, events, e);
    }
  }

  lemma VerdictAnswers(job: Job, i: nat, events: seq<Arrival>, base: nat)
    requires events != [] && Starts(i, job.total, job.chunkSize) && (forall e <- events :: e.index < |job.plan|)
    requires StagedAt(job, i, events, base)
    ensures Answers(job, i, events, base, Verdict(job, i, events))
  {
    FirstFaultIsFirst(job.plan, events);
    BaseIsChecked(job, i, events, base);
  }

  /**
   * Whatever the order of arrival, a stripe none or not all of whose sub-ranges have arrived has
   * nothing said about it; a complete one is released if intact and otherwise rejected once.
   */
  lemma GateAnswers(job: Job, arrivals: seq<Arrival>, i: nat, base: nat)
    requires ValidJob(job) && DeliveredOnce(arrivals) && Starts(i, job.total, job.chunkSize)
    requires StagedAt(job, i, Own(job.plan, arrivals, i), base) || Own(job.plan, arrivals, i) == []
    ensures var own, about := Own(job.plan, arrivals, i), About(job.plan, Emitted(job, arrivals), i);
      if own != [] && Members(job.plan, i) == Indices(own) then Answers(job, i, own, base, about) else about == []
  {
    StripeEmissions(job, arrivals, i);
    OwnBound(job.plan, arrivals, i);
    OwnIndices(job.plan, arrivals, i);
    var own := Own(job.plan, arrivals, i);
    if own != [] {
      VerdictAnswers(job, i, own, base);
    }
  }

  /** `ys` are the elements of `xs` at the positions `at`, in order. */
  ghost predicate Picks<T>(xs: seq<T>, at: seq<nat>, ys: seq<T>) {
    && |at| == |ys|
    && (forall k, m :: 0 <= k < m < |at| ==> at[k] < at[m])
    && (forall k :: 0 <= k < |at| ==> at[k] < |xs| && ys[k] == xs[at[k]])
  }

  lemma PickNext<T>(xs: seq<T>, at: seq<nat>, ys: seq<T>, x: T)
    requires Picks(xs, at, ys)
    ensures Picks(xs + [x], at, ys) && Picks(xs + [x], at + [|xs|], ys + [x])
    ensures |xs| !in at
  {
  }

  /** The arrivals of a stripe are all of them, in arrival order. */
  lemma {:induction false} OwnInOrder(plan: seq<Range>, arrivals: seq<Arrival>, i: nat) returns (at: seq<nat>)
    ensures Picks(arrivals, at, Own(plan, arrivals, i))
    ensures forall k :: 0 <= k < |arrivals| ==>
      (k in at <==> arrivals[k].index < |plan| && plan[arrivals[k].index].stripe == i)
  {
    if arrivals == [] {
      at := [];
    } else {
      var last := Last(arrivals);
      at := OwnInOrder(plan, Front(arrivals), i);
      PickNext(Front(arrivals), at, Own(plan, Front(arrivals), i), last);
      assert arrivals == Front(arrivals) + [last];
      if last.index < |plan| && plan[last.index].stripe == i {
        at := at + [|arrivals| - 1];
      }
    }
  }

  /** The emissions about a stripe are all of them, in order. */
  lemma {:induction false} AboutInOrder(plan: seq<Range>, out: seq<Emission>, i: nat) returns (at: seq<nat>)
    ensures Picks(out, at, About(plan, out, i))
    ensures forall k :: 0 <= k < |out| ==> (k in at <==> Concerns(plan, out[k], i))
  {
    if out == [] {
      at := [];
    } else {
      at := AboutInOrder(plan, Front(out), i);
      PickNext(Front(out), at, About(plan, Front(out), i), Last(out));
      assert out == Front(out) + [Last(out)];
      if Concerns(plan, Last(out), i) {
        at := at + [|out| - 1];
      }
    }
  }

  // ---------------------------------------------------------------------------------------------
  // What a released sub-range guarantees about its bytes

  /** The read of a value by its own stored checksums. */
  function JobOf(data: Bytes, chunkSize: nat, step: nat, indices: seq<nat>, wholeObject: bool): (job: Job)
    requires step > 0 && chunkSize > 0 && Requestable(indices, |data|, chunkSize)
    ensures ValidJob(job)
  {
    PlannedStripes(indices, |data|, chunkSize, step);
    Job(Plan(indices, |data|, chunkSize, step), |data|, chunkSize, Checksums(data, chunkSize), wholeObject)
  }

  function Checksums(data: Bytes, chunkSize: nat): seq<Option<Bytes>>
    requires chunkSize > 0
  {
    var parts := Stripes(data, chunkSize, StripeCount(|data|, chunkSize));
    seq(|parts|, i requires 0 <= i < |parts| => Some(parts[i]))
  }

  lemma ChecksumOf(data: Bytes, chunkSize: nat, i: nat)
    requires chunkSize > 0 && Starts(i, |data|, chunkSize)
    ensures i < |Checksums(data, chunkSize)| && Checksums(data, chunkSize)[i] == Some(Stripe(data, chunkSize, i))
  {
    StripeStarts(|data|, chunkSize, i);
    StripesAt(data, chunkSize, StripeCount(|data|, chunkSize), i);
  }

  lemma {:induction false} PlannedStripes(indices: seq<nat>, total: nat, chunkSize: nat, step: nat)
    requires step > 0 && Requestable(indices, total, chunkSize)
    ensures forall r <- Plan(indices, total, chunkSize, step) :: r.stripe in indices
  {
    if indices != [] {
      var front, last := Front(indices), Last(indices);
      PlannedStripes(front, total, chunkSize, step);
      PiecesPlaced(last, Staged(front, total, chunkSize), total, chunkSize, step,
                   StripeCount(StripeLen(total, chunkSize, last), step));
      assert indices == front + [last];
    }
  }

  /** The stripe's first sub-range starts at the beginning of its file and of its staged copy. */
  lemma FirstPiece(i: nat, dest: nat, total: nat, chunkSize: nat, step: nat)
    requires step > 0 && chunkSize > 0 && Starts(i, total, chunkSize)
    ensures var rs := StripePlan(i, dest, total, chunkSize, step);
      rs != [] && rs[0].stripe == i && rs[0].fileOffset == 0 && rs[0].dest == dest
      && rs[0].objectOffset == i * chunkSize && rs[0].length > 0
  {
    var len := StripeLen(total, chunkSize, i);
    StripeStarts(len, step, 0);
    assert 0 * step == 0;
    PiecesPrefix(i, dest, i * chunkSize, len, step, 1, StripeCount(len, step));
    assert Pieces(i, dest, i * chunkSize, len, step, 1)[0] == StripePlan(i, dest, total, chunkSize, step)[0];
  }

  /** Every requested position has its own copy, staged right after the positions before it. */
  lemma {:induction false} CopyAt(indices: seq<nat>, total: nat, chunkSize: nat, step: nat, t: nat) returns (j: nat)
    requires step > 0 && chunkSize > 0 && t < |indices| && Requestable(indices, total, chunkSize)
    ensures var rs := Plan(indices, total, chunkSize, step);
      && j < |rs| && rs[j].stripe == indices[t] && rs[j].fileOffset == 0
      && rs[j].dest == Staged(indices[..t], total, chunkSize)
      && rs[j].objectOffset == indices[t] * chunkSize && rs[j].length > 0
    decreases |indices|
  {
    var front, last := Front(indices), Last(indices);
    if t == |indices| - 1 {
      FirstPiece(last, Staged(front, total, chunkSize), total, chunkSize, step);
      j := |Plan(front, total, chunkSize, step)|;
    } else {
      j := CopyAt(front, total, chunkSize, step, t);
      assert front[..t] == indices[..t];
    }
  }

  /** If the stripe is requested at one position only, all its sub-ranges sit in that position's copy. */
  lemma {:induction false} OneCopy(indices: seq<nat>, total: nat, chunkSize: nat, step: nat, t: nat)
    requires step > 0 && t < |indices| && Requestable(indices, total, chunkSize)
    requires forall u :: 0 <= u < |indices| && u != t ==> indices[u] != indices[t]
    ensures forall r <- Plan(indices, total, chunkSize, step) :: r.stripe == indices[t] ==>
      r.dest == Staged(indices[..t], total, chunkSize) + r.fileOffset
    decreases |indices|
  {
    var front, last := Front(indices), Last(indices);
    PiecesPlaced(last, Staged(front, total, chunkSize), total, chunkSize, step,
                 StripeCount(StripeLen(total, chunkSize, last), step));
    if t == |indices| - 1 {
      PlannedStripes(front, total, chunkSize, step);
    } else {
      OneCopy(front, total, chunkSize, step, t);
      assert front[..t] == indices[..t];
    }
  }

  /** The checked window is where the stripe's one copy begins. */
  lemma BaseOfCopy(job: Job, i: nat, own: seq<Arrival>, base: nat)
    requires own != [] && !job.wholeObject
    requires forall e <- own :: e.index < |job.plan| && job.plan[e.index].stripe == i
    requires forall r <- job.plan :: r.stripe == i ==> r.dest == base + r.fileOffset
    requires exists e <- own :: job.plan[e.index].fileOffset == 0
    ensures CheckedBase(job, i, own) == base
  {
    var e :| e in own && job.plan[e.index].fileOffset == 0;
    LowestDestIsLeast(job.plan, own, e);
  }

  /** A matching copy holds the bytes of each of its sub-ranges. */
  lemma CopyHolds(data: Bytes, chunkSize: nat, buffer: Bytes, base: nat, r: Range)
    requires WellPlaced(r, |data|, chunkSize) && chunkSize > 0 && r.dest == base + r.fileOffset
    requires Slice(buffer, base, StripeLen(|data|, chunkSize, r.stripe)) == Stripe(data, chunkSize, r.stripe)
    ensures Holds(buffer, r, data)
  {
    ReadsObjectBytes(data, chunkSize, r);
    var len := StripeLen(|data|, chunkSize, r.stripe);
    SliceOfSlice(buffer, base, base + len, r.fileOffset, r.fileOffset + r.length);
  }

  /** Reading stripes each requested once: what is released is, in the buffer, what was written. */
  lemma ReleasedBytes(data: Bytes, chunkSize: nat, step: nat, indices: seq<nat>, arrivals: seq<Arrival>, j: nat, n: nat)
    requires step > 0 && chunkSize > 0 && Requestable(indices, |data|, chunkSize) && Distinct(indices)
    requires DeliveredOnce(arrivals)
    requires Pass(j, n) in Emitted(JobOf(data, chunkSize, step, indices, false), arrivals)
    ensures var plan := Plan(indices, |data|, chunkSize, step);
      && j < |plan| && var own := Own(plan, arrivals, plan[j].stripe);
      && own != [] && Holds(Last(own).buffer, plan[j], data)
  {
    var job := JobOf(data, chunkSize, step, indices, false);
    ReleasedIsVerified(job, arrivals, j, n);
    var r := job.plan[j];
    PlannedStripes(indices, |data|, chunkSize, step);
    PlanPlaced(indices, |data|, chunkSize, step);
    assert r in job.plan;
    var t :| 0 <= t < |indices| && indices[t] == r.stripe;
    var base := Staged(indices[..t], |data|, chunkSize);
    OneCopy(indices, |data|, chunkSize, step, t);
    var first := CopyAt(indices, |data|, chunkSize, step, t);
    var own := Own(job.plan, arrivals, r.stripe);
    assert first in Indices(own);
    BaseOfCopy(job, r.stripe, own, base);
    ChecksumOf(data, chunkSize, r.stripe);
    CopyHolds(data, chunkSize, Last(own).buffer, base, r);
  }

  /** The same for a whole-object read, whose stripes are all distinct and staged at their own offsets. */
  lemma ReleasedBytesWhole(data: Bytes, chunkSize: nat, step: nat, arrivals: seq<Arrival>, j: nat, n: nat)
    requires step > 0 && chunkSize > 0 && DeliveredOnce(arrivals)
    requires Pass(j, n) in Emitted(WholeJob(data, chunkSize, step), arrivals)
    ensures var plan := FullPlan(|data|, chunkSize, step);
      && j < |plan| && var own := Own(plan, arrivals, plan[j].stripe);
      && own != [] && Holds(Last(own).buffer, plan[j], data)
  {
    var all := UpTo(StripeCount(|data|, chunkSize));
    var job := WholeJob(data, chunkSize, step);
    ReleasedIsVerified(job, arrivals, j, n);
    var r := job.plan[j];
    assert r in job.plan;
    AllRequestable(|data|, chunkSize, |all|);
    PlanPlaced(all, |data|, chunkSize, step);
    DestIsObjectOffset(|data|, chunkSize, step, |all|);
    ChecksumOf(data, chunkSize, r.stripe);
    CopyHolds(data, chunkSize, Last(Own(job.plan, arrivals, r.stripe)).buffer, r.stripe * chunkSize, r);
  }

  function WholeJob(data: Bytes, chunkSize: nat, step: nat): (job: Job)
    requires step > 0 && chunkSize > 0
    ensures ValidJob(job)
  {
    AllRequestable(|data|, chunkSize, StripeCount(|data|, chunkSize));
    JobOf(data, chunkSize, step, UpTo(StripeCount(|data|, chunkSize)), true)
  }

  // ---------------------------------------------------------------------------------------------
  // A stripe requested twice

  lemma {:induction false} StagedGrows(indices: seq<nat>, total: nat, chunkSize: nat, t: nat, u: nat)
    requires t <= u <= |indices| && Requestable(indices, total, chunkSize)
    ensures Staged(indices[..t], total, chunkSize) <= Staged(indices[..u], total, chunkSize)
    ensures t < u ==>
      && Starts(indices[t], total, chunkSize)
      && Staged(indices[..t], total, chunkSize) + StripeLen(total, chunkSize, indices[t])
         <= Staged(indices[..u], total, chunkSize)
    decreases u - t
  {
    if t < u {
      StagedGrows(indices, total, chunkSize, t, u - 1);
      assert Front(indices[..u]) == indices[..u - 1];
    }
  }

  /** No copy of the stripe is staged before its first request. */
  lemma {:induction false} NoneBefore(indices: seq<nat>, total: nat, chunkSize: nat, step: nat, t: nat)
    requires step > 0 && t < |indices| && Requestable(indices, total, chunkSize) && indices[t] !in indices[..t]
    ensures forall r <- Plan(indices, total, chunkSize, step) :: r.stripe == indices[t] ==>
      r.dest >= Staged(indices[..t], total, chunkSize)
    decreases |indices|
  {
    var front, last := Front(indices), Last(indices);
    PiecesPlaced(last, Staged(front, total, chunkSize), total, chunkSize, step,
                 StripeCount(StripeLen(total, chunkSize, last), step));
    StagedGrows(indices, total, chunkSize, t, |indices| - 1);
    if t == |indices| - 1 {
      PlannedStripes(front, total, chunkSize, step);
    } else {
      assert front[..t] == indices[..t];
      NoneBefore(front, total, chunkSize, step, t);
    }
  }

  lemma {:induction false} OwnHas(plan: seq<Range>, arrivals: seq<Arrival>, i: nat, k: nat)
    requires k < |arrivals| && arrivals[k].index < |plan| && plan[arrivals[k].index].stripe == i
    ensures arrivals[k] in Own(plan, arrivals, i)
    decreases |arrivals|
  {
    if k < |arrivals| - 1 {
      OwnHas(plan, Front(arrivals), i, k);
    }
  }

  lemma {:induction false} AboutIsEmitted(plan: seq<Range>, out: seq<Emission>, i: nat, e: Emission)
    requires e in About(plan, out, i)
    ensures e in out
  {
    assert out == Front(out) + [Last(out)];
    if e in About(plan, Front(out), i) {
      AboutIsEmitted(plan, Front(out), i, e);
    }
  }

  /** Full-length completions of the whole plan, in plan order, all seen with one buffer. */
  function InOrder(plan: seq<Range>, buffer: Bytes): (arrivals: seq<Arrival>)
    ensures DeliveredOnce(arrivals)
  {
    seq(|plan|, k requires 0 <= k < |plan| => Arrival(k, Got(plan[k].length), buffer))
  }

  /** With every completion in, a stripe whose checked window matches is released. */
  lemma AllReleased(job: Job, buffer: Bytes, j: nat)
    requires ValidJob(job) && j < |job.plan|
    requires var i := job.plan[j].stripe; var own := Own(job.plan, InOrder(job.plan, buffer), i);
      && i < |job.checksums| && own != [] && job.checksums[i] ==
         Some(Slice(buffer, CheckedBase(job, i, own), StripeLen(job.total, job.chunkSize, i)))
    ensures Pass(j, job.plan[j].length) in Emitted(job, InOrder(job.plan, buffer))
  {
    var i := job.plan[j].stripe;
    var arrivals := InOrder(job.plan, buffer);
    var own := Own(job.plan, arrivals, i);
    var released := Pass(j, job.plan[j].length);
    assert job.plan[j] in job.plan;
    assert |own| == |Members(job.plan, i)| by { AllArrive(job.plan, buffer, i); }
    StripeEmissions(job, arrivals, i);
    assert FirstFault(job.plan, own).None? by { NoFaultIff(job.plan, own); }
    assert released in Passes(own) by {
      OwnHas(job.plan, arrivals, i, j);
      var k :| 0 <= k < |own| && own[k] == arrivals[j];
      assert Passes(own)[k] == released;
    }
    AboutIsEmitted(job.plan, Emitted(job, arrivals), i, released);
  }

  lemma AllArrive(plan: seq<Range>, buffer: Bytes, i: nat)
    ensures |Own(plan, InOrder(plan, buffer), i)| == |Members(plan, i)|
  {
    var arrivals := InOrder(plan, buffer);
    var own := Own(plan, arrivals, i);
    forall k | k in Members(plan, i) ensures k in Indices(own) {
      OwnHas(plan, arrivals, i, k);
    }
    OwnIndices(plan, arrivals, i);
    assert Indices(own) == Members(plan, i);
  }

  /** A buffer whose first copy of the stripe is right and all else wrong. */
  function HalfRight(stripe: Bytes, base: nat, size: nat): Bytes
    requires stripe != []
  {
    var wrong: byte := if stripe[0] == 0 then 1 else 0;
    seq(size, x => if base <= x < base + |stripe| then stripe[x - base] else wrong)
  }

  lemma FirstCopyChecked(job: Job, buffer: Bytes, i: nat, first: nat, base: nat)
    requires ValidJob(job) && !job.wholeObject && first < |job.plan|
    requires job.plan[first].stripe == i && job.plan[first].dest == base
    requires forall r <- job.plan :: r.stripe == i ==> r.dest >= base
    ensures var own := Own(job.plan, InOrder(job.plan, buffer), i); own != [] && CheckedBase(job, i, own) == base
  {
    var arrivals := InOrder(job.plan, buffer);
    var own := Own(job.plan, arrivals, i);
    OwnHas(job.plan, arrivals, i, first);
    LowestDestIsLeast(job.plan, own, arrivals[first]);
  }

  /**
   * Only the first copy of a stripe requested twice is checked: a run exists in which a sub-range of
   * the later copy is released although the buffer holds something else there.
   */
  lemma DuplicateEscapes(data: Bytes, chunkSize: nat, step: nat, indices: seq<nat>, t: nat, u: nat)
    returns (buffer: Bytes, j: nat)
    requires step > 0 && chunkSize > 0 && Requestable(indices, |data|, chunkSize)
    requires t < u < |indices| && indices[t] == indices[u] && indices[t] !in indices[..t]
    ensures var plan := Plan(indices, |data|, chunkSize, step);
      && j < |plan|
      && Pass(j, plan[j].length) in Emitted(JobOf(data, chunkSize, step, indices, false), InOrder(plan, buffer))
      && !Holds(buffer, plan[j], data)
  {
    var first;
    first, j := LaterCopy(indices, |data|, chunkSize, step, t, u);
    buffer := FakeLater(data, JobOf(data, chunkSize, step, indices, false), indices[t], first, j);
  }

  /** The first sub-ranges of the first and of a later copy of one stripe. */
  lemma LaterCopy(indices: seq<nat>, total: nat, chunkSize: nat, step: nat, t: nat, u: nat) returns (first: nat, j: nat)
    requires step > 0 && chunkSize > 0 && Requestable(indices, total, chunkSize)
    requires t < u < |indices| && indices[t] == indices[u] && indices[t] !in indices[..t]
    ensures TwoCopies(Plan(indices, total, chunkSize, step), total, chunkSize, indices[t], first, j)
  {
    first := CopyAt(indices, total, chunkSize, step, t);
    j := CopyAt(indices, total, chunkSize, step, u);
    StagedGrows(indices, total, chunkSize, t, u);
    NoneBefore(indices, total, chunkSize, step, t);
  }

  ghost predicate TwoCopies(plan: seq<Range>, total: nat, chunkSize: nat, i: nat, first: nat, j: nat) {
    && Starts(i, total, chunkSize) && first < |plan| && j < |plan|
    && plan[first].stripe == i == plan[j].stripe
    && (forall r <- plan :: r.stripe == i ==> r.dest >= plan[first].dest)
    && plan[first].dest + StripeLen(total, chunkSize, i) <= plan[j].dest
    && plan[j].objectOffset == i * chunkSize && plan[j].length > 0
  }

  lemma FakeLater(data: Bytes, job: Job, i: nat, first: nat, j: nat) returns (buffer: Bytes)
    requires ValidJob(job) && !job.wholeObject && job.total == |data| && job.chunkSize > 0
    requires job.checksums == Checksums(data, job.chunkSize)
    requires TwoCopies(job.plan, |data|, job.chunkSize, i, first, j)
    ensures Pass(j, job.plan[j].length) in Emitted(job, InOrder(job.plan, buffer))
    ensures !Holds(buffer, job.plan[j], data)
  {
    var stripe, base, r := Stripe(data, job.chunkSize, i), job.plan[first].dest, job.plan[j];
    buffer := HalfRight(stripe, base, r.dest + r.length);
    FirstCopyMatches(stripe, base, r.dest + r.length, r.dest);
    assert Pass(j, r.length) in Emitted(job, InOrder(job.plan, buffer)) by {
      FakePasses(data, job, i, first, j, buffer);
    }
    FirstByte(buffer, r, data);
  }

  /** Whatever the later copy holds, it is released if the first one matches. */
  lemma FakePasses(data: Bytes, job: Job, i: nat, first: nat, j: nat, buffer: Bytes)
    requires ValidJob(job) && !job.wholeObject && job.total == |data| && job.chunkSize > 0
    requires job.checksums == Checksums(data, job.chunkSize)
    requires TwoCopies(job.plan, |data|, job.chunkSize, i, first, j)
    requires Slice(buffer, job.plan[first].dest, StripeLen(|data|, job.chunkSize, i)) == Stripe(data, job.chunkSize, i)
    ensures Pass(j, job.plan[j].length) in Emitted(job, InOrder(job.plan, buffer))
  {
    FirstCopyChecked(job, buffer, i, first, job.plan[first].dest);
    ChecksumOf(data, job.chunkSize, i);
    AllReleased(job, buffer, j);
  }

  lemma FirstByte(buffer: Bytes, r: Range, data: Bytes)
    requires r.length > 0 && r.dest < |buffer| && r.objectOffset < |data| && buffer[r.dest] != data[r.objectOffset]
    ensures !Holds(buffer, r, data)
  {
    if r.dest + r.length <= |buffer| && r.objectOffset + r.length <= |data| {
      assert buffer[r.dest] == buffer[r.dest..r.dest + r.length][0];
      assert data[r.objectOffset] == data[r.objectOffset..r.objectOffset + r.length][0];
    }
  }

  lemma FirstCopyMatches(stripe: Bytes, base: nat, size: nat, at: nat)
    requires stripe != [] && base + |stripe| <= at < size
    ensures Slice(HalfRight(stripe, base, size), base, |stripe|) == stripe
    ensures HalfRight(stripe, base, size)[at] != stripe[0]
  {
  }

  /** Whatever arrives and in whatever order, a released sub-range holds what was written. */
  ghost predicate ReleasesOnlyWritten(data: Bytes, chunkSize: nat, step: nat, indices: seq<nat>)
    requires step > 0 && chunkSize > 0 && Requestable(indices, |data|, chunkSize)
  {
    var plan := Plan(indices, |data|, chunkSize, step);
    forall arrivals: seq<Arrival>, j: nat, n: nat ::
      DeliveredOnce(arrivals) && Pass(j, n) in Emitted(JobOf(data, chunkSize, step, indices, false), arrivals) ==>
      && j < |plan| && var own := Own(plan, arrivals, plan[j].stripe);
      && own != [] && Holds(Last(own).buffer, plan[j], data)
  }

  /** The subset gate meets its promise exactly when no stripe is requested twice. */
  lemma SoundIffDistinct(data: Bytes, chunkSize: nat, step: nat, indices: seq<nat>)
    requires step > 0 && chunkSize > 0 && Requestable(indices, |data|, chunkSize)
    ensures ReleasesOnlyWritten(data, chunkSize, step, indices) <==> Distinct(indices)
  {
    var job := JobOf(data, chunkSize, step, indices, false);
    if Distinct(indices) {
      forall arrivals: seq<Arrival>, j: nat, n: nat | DeliveredOnce(arrivals) && Pass(j, n) in Emitted(job, arrivals)
        ensures j < |job.plan| && var own := Own(job.plan, arrivals, job.plan[j].stripe);
          own != [] && Holds(Last(own).buffer, job.plan[j], data)
      {
        ReleasedBytes(data, chunkSize, step, indices, arrivals, j, n);
      }
    } else {
      var t, u := FirstRepeat(indices);
      var buffer, j := DuplicateEscapes(data, chunkSize, step, indices, t, u);
      var arrivals := InOrder(job.plan, buffer);
      assert Pass(j, job.plan[j].length) in Emitted(job, arrivals);
      assert forall a <- Own(job.plan, arrivals, job.plan[j].stripe) :: a.buffer == buffer;
    }
  }

  lemma {:induction false} FirstRepeat(xs: seq<nat>) returns (t: nat, u: nat)
    requires !Distinct(xs)
    ensures t < u < |xs| && xs[t] == xs[u] && xs[t] !in xs[..t]
  {
    if Distinct(Front(xs)) {
      u := |xs| - 1;
      t :| t < u && xs[t] == xs[u];
    } else {
      t, u := FirstRepeat(Front(xs));
      assert Front(xs)[..t] == xs[..t];
    }
  }

  // ---------------------------------------------------------------------------------------------
  // The gating loop

  method CountMembers(plan: seq<Range>, stripeCount: nat) returns (expected: seq<nat>)
    requires forall r <- plan :: r.stripe < stripeCount
    ensures |expected| == stripeCount && forall i :: 0 <= i < stripeCount ==> expected[i] == |Members(plan, i)|
  {
    expected := seq(stripeCount, _ => 0);
    for k := 0 to |plan|
      invariant |expected| == stripeCount
      invariant forall i :: 0 <= i < stripeCount ==> expected[i] == |Members(plan[..k], i)|
    {
      MembersStep(plan, k);
      expected := expected[plan[k].stripe := expected[plan[k].stripe] + 1];
    }
    assert plan[..|plan|] == plan;
  }

  lemma MembersStep(plan: seq<Range>, k: nat)
    requires k < |plan|
    ensures forall i: nat ::
      |Members(plan[..k + 1], i)| == |Members(plan[..k], i)| + if plan[k].stripe == i then 1 else 0
  {
    forall i: nat
      ensures |Members(plan[..k + 1], i)| == |Members(plan[..k], i)| + if plan[k].stripe == i then 1 else 0
    {
      assert Members(plan[..k + 1], i) == Members(plan[..k], i) + if plan[k].stripe == i then {k} else {};
    }
  }

  ghost predicate AnyReject(out: seq<Emission>) {
    exists e <- out :: e.Reject?
  }

  /** Held-back arrivals of the stripes that are still incomplete. */
  ghost predicate HeldBack(plan: seq<Range>, seen: seq<Arrival>, pending: seq<seq<Arrival>>) {
    forall i :: 0 <= i < |pending| && |Own(plan, seen, i)| < |Members(plan, i)| ==> pending[i] == Own(plan, seen, i)
  }

  lemma SeeOne(plan: seq<Range>, seen: seq<Arrival>, pending: seq<seq<Arrival>>, pending': seq<seq<Arrival>>)
    requires seen != [] && DeliveredOnce(seen) && HeldBack(plan, Front(seen), pending) && |pending'| == |pending|
    requires var a := Last(seen); a.index < |plan| ==>
      && plan[a.index].stripe < |pending|
      && (forall i :: 0 <= i < |pending| && i != plan[a.index].stripe ==> pending'[i] == pending[i])
      && (pending'[plan[a.index].stripe] == pending[plan[a.index].stripe] + [a] || Completes(plan, seen))
    requires Last(seen).index >= |plan| ==> pending' == pending
    ensures HeldBack(plan, seen, pending')
    ensures Last(seen).index < |plan| ==> var i := plan[Last(seen).index].stripe;
      pending[i] + [Last(seen)] == Own(plan, seen, i)
  {
    var a := Last(seen);
    if a.index < |plan| {
      OwnBound(plan, seen, plan[a.index].stripe);
    }
  }

  /** A complete stripe is judged: its arrivals are released, or one error takes their place. */
  method Settle(job: Job, i: nat, events: seq<Arrival>, out: seq<Emission>, deletions: nat)
    returns (out': seq<Emission>, deletions': nat, drained: bool)
    requires events != [] && Starts(i, job.total, job.chunkSize) && forall e <- events :: e.index < |job.plan|
    requires deletions == Deletions(job, out)
    ensures out' == out + Verdict(job, i, events) && deletions' == Deletions(job, out')
    ensures forall base :: StagedAt(job, i, events, base) ==> Answers(job, i, events, base, out'[|out|..])
  {
    forall base | StagedAt(job, i, events, base)
      ensures Answers(job, i, events, base, Verdict(job, i, events))
    {
      VerdictAnswers(job, i, events, base);
    }
    var fault := Judge(job, i, events);
    if fault.None? {
      return out + Passes(events), deletions, true;
    }
    out', deletions', drained := out + [Reject(i, fault.value)], deletions, !job.wholeObject;
    assert Reject(i, fault.value) in out';
    if job.wholeObject && deletions' == 0 {
      deletions' := 1;
    }
  }

  /** A whole-object read drops the object's metadata once, at its first error. */
  ghost function Deletions(job: Job, out: seq<Emission>): nat {
    if job.wholeObject && AnyReject(out) then 1 else 0
  }

  /** The gate: counts what each stripe expects, holds its arrivals back, and judges it when the last one is in. */
  method RunGate(job: Job, stripeCount: nat, arrivals: seq<Arrival>) returns (out: seq<Emission>, deletions: nat)
    requires ValidJob(job) && DeliveredOnce(arrivals) && forall r <- job.plan :: r.stripe < stripeCount
    ensures out == Emitted(job, arrivals) && deletions == Deletions(job, out)
  {
    var expected := CountMembers(job.plan, stripeCount);
    var pending: seq<seq<Arrival>> := seq(stripeCount, _ => []);
    out, deletions := [], 0;
    for k := 0 to |arrivals|
      invariant |pending| == stripeCount && HeldBack(job.plan, arrivals[..k], pending)
      invariant out == Emitted(job, arrivals[..k]) && deletions == Deletions(job, out)
    {
      var a := arrivals[k];
      ghost var seen, before := arrivals[..k + 1], pending;
      assert Front(seen) == arrivals[..k] && Last(seen) == a && DeliveredOnce(seen);
      if a.index < |job.plan| {
        var i := job.plan[a.index].stripe;
        assert job.plan[a.index] in job.plan;
        var events := pending[i] + [a];
        pending := pending[i := events];
        SeeOne(job.plan, seen, before, pending);
        if |events| == expected[i] {
          var drained;
          out, deletions, drained := Settle(job, i, events, out, deletions);
          if drained {
            pending := pending[i := []];
          }
        }
      }
      SeeOne(job.plan, seen, before, pending);
    }
    assert arrivals[..|arrivals|] == arrivals;
  }
}
