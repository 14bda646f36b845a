/**
 * Reads that fail although the files are there. The cleanup meant for missing files also runs on
 * failed and short reads, on checksum mismatches and on stripes without a checksum, and it removes the
 * metadata of the version that was being read. Here is exactly when an acknowledged write goes that way.
 */
module ReadFaults {
  import opened Types
  import opened Metadata
  import opened Protocol
  import opened Durability
  import opened WholePuts
  import opened Grace

  /** The reader met a fault while reading version `v`. */
  predicate FaultedOn(s: State, r: nat, v: Vid) {
    r in s.readers && s.readers[r].phase.Faulted? && VidOfReader(s.readers[r]) == v
  }

  /** The step is the cleanup of such a reader, and the version is still current. */
  ghost predicate FaultDrops(s: State, step: Step, v: Vid) {
    step.ByReader? && step.read.CleanUp? && FaultedOn(s, step.r, v) && Live(s.store.blocks, v)
  }

  // ---------------------------------------------------------------------------------------------
  // What a step does to readers and to the record of faulted drops

  lemma PublishKeepsFaults(s: State, w: nat, askedAt: int, outcome: Outcome)
    requires w in s.writers
    ensures var t := DoPublish(s, w, askedAt, outcome); t.hist.faulted == s.hist.faulted && t.readers == s.readers
  {
  }

  lemma RetryKeepsFaults(s: State, w: nat, outcome: Outcome)
    requires w in s.writers && s.writers[w].phase.Retrying?
    ensures var t := DoRetry(s, w, outcome); t.hist.faulted == s.hist.faulted && t.readers == s.readers
  {
  }

  lemma WriteKeepsFaults(s: State, w: nat, write: WriterAction)
    requires WriterEnabled(s, w, write)
    ensures var t := DoWrite(s, w, write); t.hist.faulted == s.hist.faulted && t.readers == s.readers
  {
    match write
    case StartPut(_, _, _, _, _, _) =>
    case WriteFile(_) =>
    case WriteFails(_) =>
    case Publish(askedAt, outcome) => PublishKeepsFaults(s, w, askedAt, outcome);
    case Retry(outcome) => RetryKeepsFaults(s, w, outcome);
    case Disconnect =>
    case UndoFile(_, _) =>
    case FinishRollback =>
  }

  lemma WorkKeepsFaults(s: State, g: nat, work: WorkerAction)
    requires WorkerEnabled(s, g, work)
    ensures var t := DoWork(s, g, work); t.hist.faulted == s.hist.faulted && t.readers == s.readers
  {
  }

  lemma OthersKeepFaults(s: State, step: Step)
    requires Enabled(s, step) && !step.ByReader?
    ensures Do(s, step).hist.faulted == s.hist.faulted && Do(s, step).readers == s.readers
  {
    match step
    case Tick(_) =>
    case ByWriter(w, write) => WriteKeepsFaults(s, w, write);
    case ByWorker(g, work) => WorkKeepsFaults(s, g, work);
    case Delete(_, _) =>
    case Expire(_, _, _) =>
  }

  /** Only reader `x` may differ; once it has read metadata it keeps to it, and a fault is followed by the end. */
  ghost predicate OnlyReader(s: State, t: State, x: nat) {
    && x in t.readers
    && (forall r :: r != x ==>
          (r in t.readers <==> r in s.readers) && (r in s.readers ==> t.readers[r] == s.readers[r]))
    && (x in s.readers ==>
          && VidOfReader(t.readers[x]) == VidOfReader(s.readers[x]) && t.readers[x].key == s.readers[x].key
          && (s.readers[x].phase.Faulted? ==> t.readers[x].phase.Done?)
          && !s.readers[x].phase.Done?)
  }

  lemma ReadOnlyOwn(s: State, x: nat, read: ReaderAction)
    requires ReaderEnabled(s, x, read)
    ensures OnlyReader(s, DoRead(s, x, read), x)
  {
  }

  /** A version enters the record exactly by the cleanup of a reader that met a fault on it while it is current. */
  lemma ReadRecords(s: State, x: nat, read: ReaderAction, v: Vid)
    requires ReaderEnabled(s, x, read)
    ensures v in DoRead(s, x, read).hist.faulted <==> v in s.hist.faulted || FaultDrops(s, ByReader(x, read), v)
  {
  }

  lemma StepRecords(s: State, step: Step, v: Vid)
    requires Enabled(s, step)
    ensures v in Do(s, step).hist.faulted <==> v in s.hist.faulted || FaultDrops(s, step, v)
  {
    if step.ByReader? {
      ReadRecords(s, step.r, step.read, v);
    } else {
      OthersKeepFaults(s, step);
    }
  }

  lemma {:induction false} RecordedIff(grace: nat, states: seq<State>, steps: seq<Step>, k: nat, v: Vid)
    requires IsRun(grace, states, steps) && k < |states|
    ensures v in states[k].hist.faulted <==> exists i :: 0 <= i < k && FaultDrops(states[i], steps[i], v)
    decreases k
  {
    if k > 0 {
      RecordedIff(grace, states, steps, k - 1, v);
      StepRecords(states[k - 1], steps[k - 1], v);
    }
  }

  // ---------------------------------------------------------------------------------------------
  // The story of a reader

  lemma ReaderKept(s: State, step: Step, r: nat)
    requires Enabled(s, step) && r in s.readers
    ensures var t := Do(s, step);
      && r in t.readers && VidOfReader(t.readers[r]) == VidOfReader(s.readers[r])
      && (s.readers[r].phase.Faulted? || s.readers[r].phase.Done? ==>
            t.readers[r].phase.Faulted? || t.readers[r].phase.Done?)
      && (t.readers[r].phase.Faulted? && !s.readers[r].phase.Faulted? ==>
            step.ByReader? && step.r == r && step.read.MeetFault?)
  {
    if step.ByReader? {
      ReadOnlyOwn(s, step.r, step.read);
    } else {
      OthersKeepFaults(s, step);
    }
  }

  lemma ReaderBegins(s: State, step: Step, r: nat)
    requires Enabled(s, step) && r !in s.readers && r in Do(s, step).readers
    ensures step.ByReader? && step.r == r && step.read.ReadMeta?
    ensures var v := VidOfReader(Do(s, step).readers[r]); v.key == step.read.key && Live(s.store.blocks, v)
    ensures Do(s, step).readers[r].phase.Reading?
  {
    if step.ByReader? {
      ReadOnlyOwn(s, step.r, step.read);
    } else {
      OthersKeepFaults(s, step);
    }
  }

  /** Step `m` is reader `r` reading the metadata of `v`, which is current. */
  ghost predicate Begins(s: State, step: Step, r: nat, v: Vid) {
    step == ByReader(r, ReadMeta(v.key)) && Live(s.store.blocks, v)
  }

  predicate Meets(step: Step, r: nat) {
    step.ByReader? && step.r == r && step.read.MeetFault?
  }

  /** Every reader once read the metadata of a version that was current then. */
  lemma {:induction false} ReaderStart(grace: nat, states: seq<State>, steps: seq<Step>, k: nat, r: nat)
    returns (m: nat)
    requires IsRun(grace, states, steps) && k < |states| && r in states[k].readers
    ensures m < k && Begins(states[m], steps[m], r, VidOfReader(states[k].readers[r]))
    decreases k
  {
    if r in states[k - 1].readers {
      m := ReaderStart(grace, states, steps, k - 1, r);
      ReaderKept(states[k - 1], steps[k - 1], r);
    } else {
      m := k - 1;
      ReaderBegins(states[k - 1], steps[k - 1], r);
    }
  }

  lemma FaultedBefore(s: State, step: Step, r: nat)
    requires Enabled(s, step) && r in Do(s, step).readers && Do(s, step).readers[r].phase.Faulted?
    ensures r in s.readers && (s.readers[r].phase.Faulted? || Meets(step, r))
  {
    if r in s.readers {
      ReaderKept(s, step, r);
    } else {
      ReaderBegins(s, step, r);
    }
  }

  predicate InFault(s: State, r: nat) {
    r in s.readers && s.readers[r].phase.Faulted?
  }

  lemma {:induction false} FirstFault(states: seq<State>, steps: seq<Step>, k: nat, r: nat) returns (j: nat)
    requires |states| == |steps| + 1 && k < |states| && !InFault(states[0], r) && InFault(states[k], r)
    requires forall n, p :: 0 <= n < p < |states| && p == n + 1 && InFault(states[p], r) ==>
      r in states[n].readers && (InFault(states[n], r) || Meets(steps[n], r))
    ensures j < k && Meets(steps[j], r) && r in states[j].readers
  {
    if InFault(states[k - 1], r) {
      j := FirstFault(states, steps, k - 1, r);
    } else {
      j := k - 1;
    }
  }

  /** A faulted reader met its fault after it began. */
  lemma FaultStart(grace: nat, states: seq<State>, steps: seq<Step>, k: nat, r: nat) returns (j: nat)
    requires IsRun(grace, states, steps) && k < |states| && InFault(states[k], r)
    ensures j < k && Meets(steps[j], r) && r in states[j].readers
  {
    forall n, p | 0 <= n < p < |states| && p == n + 1 && InFault(states[p], r)
      ensures r in states[n].readers && (InFault(states[n], r) || Meets(steps[n], r))
    {
      FaultedBefore(states[n], steps[n], r);
    }
    j := FirstFault(states, steps, k, r);
  }

  /** Readers stay, with the version they read. */
  lemma {:induction false} ReaderStays(grace: nat, states: seq<State>, steps: seq<Step>, i: nat, j: nat, r: nat)
    requires IsRun(grace, states, steps) && i <= j < |states| && r in states[i].readers
    ensures r in states[j].readers && VidOfReader(states[j].readers[r]) == VidOfReader(states[i].readers[r])
    ensures states[i].readers[r].phase.Faulted? || states[i].readers[r].phase.Done? ==>
      states[j].readers[r].phase.Faulted? || states[j].readers[r].phase.Done?
    decreases j - i
  {
    if i < j {
      ReaderStays(grace, states, steps, i, j - 1, r);
      ReaderKept(states[j - 1], steps[j - 1], r);
    }
  }

  /**
   * A faulted read in three steps: reader `r` reads the metadata of the current version `v`, meets a
   * fault, and cleans up while `v` is still current.
   */
  ghost predicate FaultedRead(states: seq<State>, steps: seq<Step>, r: nat, m: int, j: int, i: int, v: Vid) {
    && 0 <= m < j < i < |steps| < |states|
    && Begins(states[m], steps[m], r, v) && Meets(steps[j], r)
    && steps[i] == ByReader(r, CleanUp) && Live(states[i].store.blocks, v)
  }

  /** Such a read ends in a faulted drop. */
  lemma FaultedReadDrops(grace: nat, states: seq<State>, steps: seq<Step>, r: nat, m: nat, j: nat, i: nat, v: Vid)
    requires IsRun(grace, states, steps) && FaultedRead(states, steps, r, m, j, i, v)
    ensures FaultDrops(states[i], steps[i], v)
  {
    RunSafe(grace, states, steps, m);
    assert Known(states[m].versions, v.key, states[m].store.blocks[v.key]);
    ReaderStays(grace, states, steps, m + 1, i, r);
    MeetStep(states[j], steps[j], r);
    ReaderStays(grace, states, steps, j + 1, i, r);
  }

  lemma MeetStep(s: State, step: Step, r: nat)
    requires Enabled(s, step) && Meets(step, r)
    ensures r in Do(s, step).readers && Do(s, step).readers[r].phase.Faulted?
  {
  }

  /** And every faulted drop is the end of one. */
  lemma FaultDropStory(grace: nat, states: seq<State>, steps: seq<Step>, i: nat, v: Vid)
    requires IsRun(grace, states, steps) && i < |steps| && FaultDrops(states[i], steps[i], v)
    ensures exists r: nat, m, j :: FaultedRead(states, steps, r, m, j, i, v)
  {
    var r := steps[i].r;
    var j := FaultStart(grace, states, steps, i, r);
    var m := ReaderStart(grace, states, steps, j, r);
    ReaderStays(grace, states, steps, j, i, r);
    assert FaultedRead(states, steps, r, m, j, i, v);
  }

  /**
   * An acknowledged write has been dropped if and only if some reader read its metadata while it was
   * current, met a fault, and cleaned up while it was still current.
   */
  lemma DroppedIffFaulted(grace: nat, states: seq<State>, steps: seq<Step>, k: nat, w: nat)
    requires IsRun(grace, states, steps) && AtMostOnce(states, steps) && k < |states| && Acknowledged(states[k], w)
    ensures var v := VidOfWriter(states[k].writers[w]);
      v in states[k].hist.dropped <==>
      exists r: nat, m, j, i :: i < k && FaultedRead(states, steps, r, m, j, i, v)
  {
    var v := VidOfWriter(states[k].writers[w]);
    AcknowledgedWritesAreDurable(grace, states, steps, k, w);
    RecordedIff(grace, states, steps, k, v);
    if v in states[k].hist.faulted {
      var i :| 0 <= i < k && FaultDrops(states[i], steps[i], v);
      FaultDropStory(grace, states, steps, i, v);
    }
    if r: nat, m, j, i :| i < k && FaultedRead(states, steps, r, m, j, i, v) {
      FaultedReadDrops(grace, states, steps, r, m, j, i, v);
    }
  }

  // ---------------------------------------------------------------------------------------------
  // What comes after

  lemma RecordStays(grace: nat, states: seq<State>, steps: seq<Step>, i: nat, j: nat, v: Vid)
    requires IsRun(grace, states, steps) && i <= j < |states| && v in states[i].hist.faulted
    ensures v in states[j].hist.faulted
  {
    RecordedIff(grace, states, steps, i, v);
    RecordedIff(grace, states, steps, j, v);
  }

  /** An acknowledged write that was dropped stays so: not current, never queued for reclaim, its files left behind. */
  lemma DroppedForGood(grace: nat, states: seq<State>, steps: seq<Step>, i: nat, j: nat, w: nat)
    requires IsRun(grace, states, steps) && AtMostOnce(states, steps) && i <= j < |states| && Acknowledged(states[i], w)
    requires VidOfWriter(states[i].writers[w]) in states[i].hist.dropped
    ensures var s, v := states[j], VidOfWriter(states[i].writers[w]);
      && v in s.hist.dropped && !Live(s.store.blocks, v) && !Queued(s.versions, s.store.tasks, v)
      && Present(s.versions, s.files, v)
  {
    var v := VidOfWriter(states[i].writers[w]);
    AcknowledgedWritesAreDurable(grace, states, steps, i, w);
    RecordStays(grace, states, steps, i, j, v);
    FinishedStays(grace, states, steps, i, j, w);
    AcknowledgedWritesAreDurable(grace, states, steps, j, w);
    Conservation(grace, states, steps, j, v);
  }

  /** No reader meets a fault on `v` from step `from` on. */
  ghost predicate FaultFree(states: seq<State>, steps: seq<Step>, from: nat, v: Vid)
    requires |states| == |steps| + 1
  {
    forall k, r :: from <= k < |steps| && Meets(steps[k], r) && r in states[k].readers ==>
      VidOfReader(states[k].readers[r]) != v
  }

  /** No reader is about to clean up after a fault on `v`. */
  predicate NoneFaulted(s: State, v: Vid) {
    forall r <- s.readers :: !FaultedOn(s, r, v)
  }

  lemma FaultFreeStep(s: State, step: Step, v: Vid)
    requires Enabled(s, step) && NoneFaulted(s, v) && v !in s.hist.faulted
    requires forall r :: Meets(step, r) && r in s.readers ==> VidOfReader(s.readers[r]) != v
    ensures NoneFaulted(Do(s, step), v) && v !in Do(s, step).hist.faulted
  {
    var t := Do(s, step);
    StepRecords(s, step, v);
    forall r <- t.readers
      ensures !FaultedOn(t, r, v)
    {
      if r in s.readers {
        ReaderKept(s, step, r);
      } else {
        ReaderBegins(s, step, r);
      }
    }
  }

  lemma {:induction false} FaultFreeRun(grace: nat, states: seq<State>, steps: seq<Step>, i: nat, j: nat, v: Vid)
    requires IsRun(grace, states, steps) && i <= j < |states| && FaultFree(states, steps, i, v)
    requires NoneFaulted(states[i], v) && v !in states[i].hist.faulted
    ensures NoneFaulted(states[j], v) && v !in states[j].hist.faulted
    decreases j - i
  {
    if i < j {
      FaultFreeRun(grace, states, steps, i, j - 1, v);
      FaultFreeStep(states[j - 1], steps[j - 1], v);
    }
  }

  /** In every continuation without another fault on the version, it is not dropped. */
  ghost predicate StaysWithoutFaults(grace: nat, states: seq<State>, steps: seq<Step>, v: Vid)
    requires |states| == |steps| + 1
  {
    forall longer: seq<State>, more: seq<Step> ::
      Continues(grace, states, steps, longer, more) && AtMostOnce(longer, more)
      && FaultFree(longer, more, |steps|, v) ==>
        v !in longer[|more|].hist.dropped
  }

  /**
   * An acknowledged write that is current is safe from now on, as long as no further read of it meets
   * a fault, if and only if no reader has met one on it and is still to clean up.
   */
  lemma SafeFromNowIff(grace: nat, states: seq<State>, steps: seq<Step>, w: nat)
    requires IsRun(grace, states, steps) && AtMostOnce(states, steps) && Acknowledged(states[|steps|], w)
    requires Live(states[|steps|].store.blocks, VidOfWriter(states[|steps|].writers[w]))
    ensures var v := VidOfWriter(states[|steps|].writers[w]);
      StaysWithoutFaults(grace, states, steps, v) <==> NoneFaulted(states[|steps|], v)
  {
    var n, s, v := |steps|, states[|steps|], VidOfWriter(states[|steps|].writers[w]);
    if NoneFaulted(s, v) {
      forall longer: seq<State>, more: seq<Step> |
        Continues(grace, states, steps, longer, more) && AtMostOnce(longer, more) && FaultFree(longer, more, n, v)
        ensures v !in longer[|more|].hist.dropped
      {
        StaysUndropped(grace, states, steps, w, longer, more);
      }
    } else {
      var r :| r in s.readers && FaultedOn(s, r, v);
      var longer, more := DropNow(grace, states, steps, r, v);
      assert !StaysWithoutFaults(grace, states, steps, v);
    }
  }

  lemma StaysUndropped(grace: nat, states: seq<State>, steps: seq<Step>, w: nat, longer: seq<State>, more: seq<Step>)
    requires IsRun(grace, states, steps) && AtMostOnce(states, steps) && Acknowledged(states[|steps|], w)
    requires Live(states[|steps|].store.blocks, VidOfWriter(states[|steps|].writers[w]))
    requires NoneFaulted(states[|steps|], VidOfWriter(states[|steps|].writers[w]))
    requires Continues(grace, states, steps, longer, more) && AtMostOnce(longer, more)
    requires FaultFree(longer, more, |steps|, VidOfWriter(states[|steps|].writers[w]))
    ensures VidOfWriter(states[|steps|].writers[w]) !in longer[|more|].hist.dropped
  {
    var n, v := |steps|, VidOfWriter(states[|steps|].writers[w]);
    assert longer[n] == states[n];
    AcknowledgedWritesAreDurable(grace, states, steps, n, w);
    Conservation(grace, states, steps, n, v);
    FaultFreeRun(grace, longer, more, n, |more|, v);
    FinishedStays(grace, longer, more, n, |more|, w);
    AcknowledgedWritesAreDurable(grace, longer, more, |more|, w);
  }

  /** A reader that met a fault on the current version drops it with its next step. */
  lemma DropNow(grace: nat, states: seq<State>, steps: seq<Step>, r: nat, v: Vid)
    returns (longer: seq<State>, more: seq<Step>)
    requires IsRun(grace, states, steps) && AtMostOnce(states, steps)
    requires FaultedOn(states[|steps|], r, v) && Live(states[|steps|].store.blocks, v)
    ensures Continues(grace, states, steps, longer, more) && AtMostOnce(longer, more)
    ensures FaultFree(longer, more, |steps|, v)
    ensures longer == states + [Do(states[|steps|], ByReader(r, CleanUp))] && more == steps + [ByReader(r, CleanUp)]
    ensures v in longer[|more|].hist.dropped && v.key !in longer[|more|].store.blocks
    ensures longer[|more|].files == states[|steps|].files && longer[|more|].versions == states[|steps|].versions
    ensures longer[|more|].writers == states[|steps|].writers
  {
    longer := Extend(grace, states, steps, ByReader(r, CleanUp));
    more := steps + [ByReader(r, CleanUp)];
  }

  // ---------------------------------------------------------------------------------------------
  // A run from the empty store

  /** A put of one byte is acknowledged; its one file is whole or a stripe. */
  lemma OnePut(key: Key, grace: nat, striped: bool) returns (states: seq<State>, steps: seq<Step>)
    ensures IsRun(grace, states, steps) && AtMostOnce(states, steps)
    ensures var s, meta := states[|steps|], NewMeta(Init(grace), key, striped);
      && s.writers == map[0 := Writer(key, Version(meta, [[1]]), false, Published)] && s.readers == map[]
      && s.store.blocks == map[key := meta]
  {
    states, steps := [Init(grace)], [];
    states, steps := Stage(grace, states, steps, 0, key, 1, striped);
    states := Extend(grace, states, steps, ByWriter(0, Publish(0, Answered)));
    steps := steps + [ByWriter(0, Publish(0, Answered))];
  }

  /** A reader reads its metadata and meets the fault. */
  lemma OneFault(key: Key, grace: nat, striped: bool, fault: Fault) returns (states: seq<State>, steps: seq<Step>)
    requires striped || fault.NotSeen?
    ensures IsRun(grace, states, steps) && AtMostOnce(states, steps) && Acknowledged(states[|steps|], 0)
    ensures var s, v := states[|steps|], VidOfWriter(states[|steps|].writers[0]);
      v.key == key && FaultedOn(s, 0, v) && Live(s.store.blocks, v)
  {
    states, steps := OnePut(key, grace, striped);
    states := Extend(grace, states, steps, ByReader(0, ReadMeta(key)));
    steps := steps + [ByReader(0, ReadMeta(key))];
    states := Extend(grace, states, steps, ByReader(0, MeetFault(0, fault)));
    steps := steps + [ByReader(0, MeetFault(0, fault))];
  }

  /**
   * For every fault on a stripe, and for a failed existence test on any file: a run in which an
   * acknowledged write is gone, all its files are there, and nothing will ever reclaim them.
   */
  lemma FaultedReadDropsWrite(key: Key, grace: nat, striped: bool, fault: Fault)
    returns (states: seq<State>, steps: seq<Step>)
    requires striped || fault.NotSeen?
    ensures IsRun(grace, states, steps) && AtMostOnce(states, steps) && Acknowledged(states[|steps|], 0)
    ensures var s, v := states[|steps|], VidOfWriter(states[|steps|].writers[0]);
      && v in s.hist.dropped && key !in s.store.blocks
      && Present(s.versions, s.files, v) && !Queued(s.versions, s.store.tasks, v)
  {
    states, steps := OneFault(key, grace, striped, fault);
    states, steps := DropNow(grace, states, steps, 0, VidOfWriter(states[|steps|].writers[0]));
    DroppedForGood(grace, states, steps, |steps|, |steps|, 0);
  }
}
