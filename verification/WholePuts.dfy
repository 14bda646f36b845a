/**
 * Puts from their first step to their last: what a failed put leaves behind, and the order in which
 * serialized puts of one key publish their generations.
 */
module WholePuts {
  import opened Types
  import opened Metadata
  import opened Protocol
  import opened Durability

  /** Step `k` of the run is a step of writer `w`. */
  predicate By(steps: seq<Step>, k: nat, w: nat)
    requires k < |steps|
  {
    steps[k].ByWriter? && steps[k].w == w
  }

  /** Step `k` starts writer `w`'s put. */
  predicate Starts(steps: seq<Step>, k: nat, w: nat)
    requires k < |steps|
  {
    By(steps, k, w) && steps[k].write.StartPut?
  }

  /** A publish command of writer `w` takes effect at step `k`. */
  predicate TakesEffect(states: seq<State>, steps: seq<Step>, k: nat, w: nat)
    requires k < |steps| < |states|
  {
    && By(steps, k, w) && (steps[k].write.Publish? || steps[k].write.Retry?)
    && steps[k].write.outcome != NotApplied && w in states[k].writers && Applies(states[k], states[k].writers[w])
  }

  /** No publish of writer `w` takes effect between `i` and `j`. */
  ghost predicate NeverApplied(grace: nat, states: seq<State>, steps: seq<Step>, i: nat, j: nat, w: nat)
    requires IsRun(grace, states, steps) && i <= j < |states|
  {
    forall k :: i <= k < j ==> !TakesEffect(states, steps, k, w)
  }

  /** None of a put's steps that is not an effective publish touches another version. */
  lemma PutStepSpares(grace: nat, states: seq<State>, steps: seq<Step>, k: nat, w: nat)
    requires IsRun(grace, states, steps) && k < |steps| && By(steps, k, w) && !TakesEffect(states, steps, k, w)
    ensures w in states[k + 1].writers
    ensures states[k + 1].store.blocks == states[k].store.blocks && states[k + 1].store.tasks == states[k].store.tasks
    ensures SameButFor(states[k].files, states[k + 1].files, VidOfWriter(states[k + 1].writers[w]))
  {
    RunSafe(grace, states, steps, k);
    SparesOthers(states[k], w, steps[k].write);
    if !steps[k].write.StartPut? {
      StepOnward(states[k], steps[k]);
    }
  }

  /**
   * A whole put that fails unapplied. From its start to its end none of its steps changes what is
   * current, what is queued or a file of another version, and its own version never becomes current.
   */
  lemma FailedPutSparesOthers(grace: nat, states: seq<State>, steps: seq<Step>, i: nat, j: nat, w: nat)
    requires IsRun(grace, states, steps) && i < j < |states| && Starts(steps, i, w)
    requires w in states[j].writers && states[j].writers[w].phase.GaveUp?
    requires NeverApplied(grace, states, steps, i, j, w)
    ensures forall k :: i <= k < j && By(steps, k, w) ==>
      && states[k + 1].store.blocks == states[k].store.blocks && states[k + 1].store.tasks == states[k].store.tasks
      && SameButFor(states[k].files, states[k + 1].files, VidOfWriter(states[j].writers[w]))
    ensures forall k :: i <= k <= j ==> !Live(states[k].store.blocks, VidOfWriter(states[j].writers[w]))
  {
    RunOnward(grace, states, steps, i + 1, j);
    forall k | i <= k < j && By(steps, k, w)
      ensures
        && states[k + 1].store.blocks == states[k].store.blocks && states[k + 1].store.tasks == states[k].store.tasks
        && SameButFor(states[k].files, states[k + 1].files, VidOfWriter(states[j].writers[w]))
    {
      PutStepSpares(grace, states, steps, k, w);
      RunOnward(grace, states, steps, i + 1, k + 1);
    }
    forall k | i <= k <= j
      ensures !Live(states[k].store.blocks, VidOfWriter(states[j].writers[w]))
    {
      NeverCurrent(grace, states, steps, i, k, w);
      if i < k {
        RunOnward(grace, states, steps, k, j);
      }
    }
  }

  /** The version writer `w` starts at step `i`. */
  function Started(states: seq<State>, steps: seq<Step>, i: nat, w: nat): Vid
    requires i < |steps| < |states| && Starts(steps, i, w)
  {
    Vid(steps[i].write.key, CurrentGeneration(states[i].store, steps[i].write.key) + 1)
  }

  /** A version becomes current only by its own writer's publish. */
  lemma {:induction false} NeverCurrent(grace: nat, states: seq<State>, steps: seq<Step>, i: nat, j: nat, w: nat)
    requires IsRun(grace, states, steps) && i <= j < |states| && i < |steps| && Starts(steps, i, w)
    requires NeverApplied(grace, states, steps, i, j, w)
    ensures !Live(states[j].store.blocks, Started(states, steps, i, w))
    ensures i < j ==> w in states[j].writers && VidOfWriter(states[j].writers[w]) == Started(states, steps, i, w)
    decreases j - i
  {
    if i == j {
      RunSafe(grace, states, steps, i);
      FreshGeneration(states[i], steps[i].write.key);
    } else {
      NeverCurrent(grace, states, steps, i, j - 1, w);
      RunSafe(grace, states, steps, j - 1);
      if i < j - 1 {
        StepOnward(states[j - 1], steps[j - 1]);
        if By(steps, j - 1, w) {
          PutStepSpares(grace, states, steps, j - 1, w);
        } else {
          OthersPublishTheirOwn(states[j - 1], steps[j - 1], w);
        }
      }
    }
  }

  /** No step but `w`'s own makes `w`'s version current. */
  lemma OthersPublishTheirOwn(s: State, step: Step, w: nat)
    requires Safe(s) && Enabled(s, step) && w in s.writers && !(step.ByWriter? && step.w == w)
    requires !Live(s.store.blocks, VidOfWriter(s.writers[w]))
    ensures !Live(Do(s, step).store.blocks, VidOfWriter(s.writers[w]))
  {
    match step
    case Tick(_) =>
    case ByWriter(x, write) =>
      if write.Publish? {
        PublishesOwn(s, x, write.askedAt, write.outcome, VidOfWriter(s.writers[w]));
      } else if write.Retry? {
        RetriesOwn(s, x, write.outcome, VidOfWriter(s.writers[w]));
      } else {
        SparesOthers(s, x, write);
      }
    case ByReader(r, read) => ReadPublishesNothing(s, r, read, VidOfWriter(s.writers[w]));
    case ByWorker(g, work) => WorkKeepsBlocks(s, g, work);
    case Delete(_, _) =>
    case Expire(_, _, _) =>
  }

  /** A run of a publish command makes at most its own version current. */
  lemma PublishesOwn(s: State, x: nat, askedAt: int, outcome: Outcome, v: Vid)
    requires x in s.writers && VidOfWriter(s.writers[x]) != v && !Live(s.store.blocks, v)
    ensures !Live(DoPublish(s, x, askedAt, outcome).store.blocks, v)
  {
  }

  lemma RetriesOwn(s: State, x: nat, outcome: Outcome, v: Vid)
    requires x in s.writers && s.writers[x].phase.Retrying?
    requires VidOfWriter(s.writers[x]) != v && !Live(s.store.blocks, v)
    ensures !Live(DoRetry(s, x, outcome).store.blocks, v)
  {
  }

  lemma ReadPublishesNothing(s: State, r: nat, read: ReaderAction, v: Vid)
    requires ReaderEnabled(s, r, read) && !Live(s.store.blocks, v)
    ensures !Live(DoRead(s, r, read).store.blocks, v)
  {
  }

  lemma WorkKeepsBlocks(s: State, g: nat, work: WorkerAction)
    requires WorkerEnabled(s, g, work)
    ensures DoWork(s, g, work).store.blocks == s.store.blocks
  {
  }

  /** What a read of the key would return: nothing unless every file of the current version is there. */
  ghost function ReadBack(s: State, key: Key): Option<Bytes> {
    if key in s.store.blocks && forall p <- s.store.blocks[key].paths :: p in s.files
    then var paths := s.store.blocks[key].paths;
         Some(Flatten(seq(|paths|, i requires 0 <= i < |paths| => s.files[paths[i]])))
    else None
  }

  /** A current version that nobody disowned reads back as what was put under it. */
  lemma CurrentReadsBack(s: State, key: Key)
    requires Strong(s) && key in s.store.blocks
    requires Vid(key, s.store.blocks[key].generation) !in s.hist.disowned
    ensures ReadBack(s, key) == Some(Flatten(s.versions[Vid(key, s.store.blocks[key].generation)].files))
  {
    var v := Vid(key, s.store.blocks[key].generation);
    var paths := s.store.blocks[key].paths;
    assert Present(s.versions, s.files, v) && VersionOk(v, s.versions[v]);
    forall i | 0 <= i < |paths|
      ensures s.files[paths[i]] == s.versions[v].files[i]
    {
      assert paths[i] in paths;
      assert FileOk(s.versions, paths[i], s.files[paths[i]]);
    }
    assert seq(|paths|, i requires 0 <= i < |paths| => s.files[paths[i]]) == s.versions[v].files;
  }

  /** A version current at two instants, and not disowned at the later one, reads back the same at both. */
  lemma StillCurrentReadsSame(grace: nat, states: seq<State>, steps: seq<Step>, i: nat, j: nat, key: Key)
    requires IsRun(grace, states, steps) && AtMostOnce(states, steps) && i <= j < |states|
    requires key in states[i].store.blocks && key in states[j].store.blocks
    requires states[j].store.blocks[key].generation == states[i].store.blocks[key].generation
    requires Vid(key, states[j].store.blocks[key].generation) !in states[j].hist.disowned
    ensures states[j].store.blocks[key] == states[i].store.blocks[key]
    ensures ReadBack(states[i], key).Some? && ReadBack(states[j], key) == ReadBack(states[i], key)
  {
    var v := Vid(key, states[i].store.blocks[key].generation);
    RunStrong(grace, states, steps, i);
    RunStrong(grace, states, steps, j);
    assert Known(states[i].versions, key, states[i].store.blocks[key]);
    assert Known(states[j].versions, key, states[j].store.blocks[key]);
    VersionFixed(grace, states, steps, i, j, v);
    RunOnward(grace, states, steps, i, j);
    CurrentReadsBack(states[i], key);
    CurrentReadsBack(states[j], key);
  }

  /** The step publishes, deletes, expires or drops the key, or tries to. */
  predicate Concerns(s: State, step: Step, key: Key)
    requires Enabled(s, step)
  {
    match step
    case Tick(_) => false
    case ByWriter(w, write) => (write.Publish? || write.Retry?) && s.writers[w].key == key
    case ByReader(r, read) => read.CleanUp? && s.readers[r].key == key
    case ByWorker(_, _) => false
    case Delete(k, _) => k == key
    case Expire(k, _, _) => k == key
  }

  /** What the key resolves to is the same in both. */
  ghost predicate SameAt(s: State, t: State, key: Key) {
    && (key in t.store.blocks <==> key in s.store.blocks)
    && (key in s.store.blocks ==> t.store.blocks[key] == s.store.blocks[key])
  }

  lemma PublishElsewhere(s: State, w: nat, askedAt: int, outcome: Outcome, key: Key)
    requires w in s.writers && s.writers[w].key != key
    ensures SameAt(s, DoPublish(s, w, askedAt, outcome), key)
  {
  }

  lemma RetryElsewhere(s: State, w: nat, outcome: Outcome, key: Key)
    requires w in s.writers && s.writers[w].key != key && s.writers[w].phase.Retrying?
    ensures SameAt(s, DoRetry(s, w, outcome), key)
  {
  }

  lemma WriteElsewhere(s: State, w: nat, write: WriterAction, key: Key)
    requires Safe(s) && WriterEnabled(s, w, write)
    requires write.Publish? || write.Retry? ==> s.writers[w].key != key
    ensures SameAt(s, DoWrite(s, w, write), key)
  {
    if write.Publish? {
      PublishElsewhere(s, w, write.askedAt, write.outcome, key);
    } else if write.Retry? {
      RetryElsewhere(s, w, write.outcome, key);
    } else {
      SparesOthers(s, w, write);
    }
  }

  lemma RetireElsewhere(s: State, k: Key, askedAt: int, key: Key)
    requires k != key
    ensures SameAt(s, RetireCurrent(s, k, askedAt), key)
  {
  }

  lemma DropElsewhere(s: State, k: Key, meta: BlockMeta, faulted: bool, key: Key)
    requires k != key
    ensures SameAt(s, DropCurrent(s, k, meta, faulted), key)
  {
  }

  lemma ReadElsewhere(s: State, r: nat, read: ReaderAction, key: Key)
    requires Safe(s) && ReaderEnabled(s, r, read) && !(read.CleanUp? && s.readers[r].key == key)
    ensures SameAt(s, DoRead(s, r, read), key)
  {
    if read.CleanUp? {
      DropElsewhere(s, s.readers[r].key, s.readers[r].meta, s.readers[r].phase.Faulted?, key);
    } else {
      ReadStore(s, r, read);
    }
  }

  /** A step that does not concern the key leaves what it resolves to. */
  lemma Unconcerned(s: State, step: Step, key: Key)
    requires Safe(s) && Enabled(s, step) && !Concerns(s, step, key)
    ensures SameAt(s, Do(s, step), key)
  {
    match step
    case Tick(_) =>
    case ByWriter(w, write) => WriteElsewhere(s, w, write, key);
    case ByReader(r, read) => ReadElsewhere(s, r, read, key);
    case ByWorker(g, work) => WorkKeepsBlocks(s, g, work);
    case Delete(k, askedAt) => RetireElsewhere(s, k, askedAt, key);
    case Expire(k, _, askedAt) => RetireElsewhere(s, k, askedAt, key);
  }

  /** Between `i` and `j` only writer `w` publishes, deletes, expires or drops the key. */
  ghost predicate OnlyBy(grace: nat, states: seq<State>, steps: seq<Step>, i: nat, j: nat, w: nat, key: Key)
    requires IsRun(grace, states, steps) && i <= j < |states|
  {
    forall k :: i <= k < j && Concerns(states[k], steps[k], key) ==> By(steps, k, w)
  }

  lemma {:induction false} KeyUnchanged(grace: nat, states: seq<State>, steps: seq<Step>, i: nat, j: nat, w: nat,
                                        key: Key)
    requires IsRun(grace, states, steps) && i <= j < |states|
    requires NeverApplied(grace, states, steps, i, j, w) && OnlyBy(grace, states, steps, i, j, w, key)
    ensures SameAt(states[i], states[j], key)
    decreases j - i
  {
    if i < j {
      KeyUnchanged(grace, states, steps, i, j - 1, w, key);
      if By(steps, j - 1, w) {
        PutStepSpares(grace, states, steps, j - 1, w);
      } else {
        RunSafe(grace, states, steps, j - 1);
        Unconcerned(states[j - 1], steps[j - 1], key);
      }
    }
  }

  /**
   * A put that fails, from its start to its end, with no publish of its own applied. If nobody else
   * publishes, deletes, expires or drops the key meanwhile, the key resolves to what it did before,
   * and reads back the same bytes if the writer of that version was not told it failed. If its
   * removals succeeded, nothing is left of the failed put.
   */
  lemma FailedPutKeepsPrevious(grace: nat, states: seq<State>, steps: seq<Step>, i: nat, j: nat, w: nat)
    requires IsRun(grace, states, steps) && AtMostOnce(states, steps) && i < j < |states| && Starts(steps, i, w)
    requires w in states[j].writers && states[j].writers[w].phase.GaveUp?
    requires NeverApplied(grace, states, steps, i, j, w)
    requires OnlyBy(grace, states, steps, i, j, w, steps[i].write.key)
    ensures SameAt(states[i], states[j], steps[i].write.key)
    ensures var key := steps[i].write.key;
      key in states[i].store.blocks && Vid(key, states[i].store.blocks[key].generation) !in states[j].hist.disowned ==>
        ReadBack(states[i], key).Some? && ReadBack(states[j], key) == ReadBack(states[i], key)
    ensures states[j].writers[w].phase == GaveUp({}) ==>
      forall p <- states[j].files :: Vid(p.key, p.generation) != VidOfWriter(states[j].writers[w])
  {
    var key := steps[i].write.key;
    if states[j].writers[w].phase == GaveUp({}) {
      forall p <- states[j].files
        ensures Vid(p.key, p.generation) != VidOfWriter(states[j].writers[w])
      {
        if Vid(p.key, p.generation) == VidOfWriter(states[j].writers[w]) {
          FailedPutLeavesNoFile(grace, states, steps, j, w, p);
        }
      }
    }
    KeyUnchanged(grace, states, steps, i, j, w, key);
    if key in states[i].store.blocks && Vid(key, states[i].store.blocks[key].generation) !in states[j].hist.disowned {
      StillCurrentReadsSame(grace, states, steps, i, j, key);
    }
  }

  // ---------------------------------------------------------------------------------------------
  // Puts of one key, one after the other

  /** The put is over: its caller has its answer. */
  predicate Finished(writer: Writer) {
    writer.phase.Published? || writer.phase.GaveUp?
  }

  /** Each put of the key starts after every earlier put of it is over, as under the per-key lock. */
  ghost predicate Serialized(grace: nat, states: seq<State>, steps: seq<Step>, key: Key)
    requires IsRun(grace, states, steps)
  {
    forall a, b :: 0 <= a < b < |steps| && Allocates(steps[a], key) && Allocates(steps[b], key) ==>
      steps[a].w in states[b].writers && Finished(states[b].writers[steps[a].w])
  }

  /** Only writer `x`, if any, may differ. */
  ghost predicate OnlyWriter(s: State, t: State, x: nat) {
    && x in t.writers
    && forall w :: w != x ==> (w in t.writers <==> w in s.writers) && (w in s.writers ==> t.writers[w] == s.writers[w])
  }

  lemma PublishOnlyOwn(s: State, x: nat, askedAt: int, outcome: Outcome)
    requires x in s.writers
    ensures OnlyWriter(s, DoPublish(s, x, askedAt, outcome), x)
  {
  }

  lemma RetryOnlyOwn(s: State, x: nat, outcome: Outcome)
    requires x in s.writers && s.writers[x].phase.Retrying?
    ensures OnlyWriter(s, DoRetry(s, x, outcome), x)
  {
  }

  lemma WriteOnlyOwn(s: State, x: nat, write: WriterAction)
    requires WriterEnabled(s, x, write)
    ensures OnlyWriter(s, DoWrite(s, x, write), x)
  {
    match write
    case StartPut(_, _, _, _, _, _) =>
    case WriteFile(_) =>
    case WriteFails(_) =>
    case Publish(askedAt, outcome) => PublishOnlyOwn(s, x, askedAt, outcome);
    case Retry(outcome) => RetryOnlyOwn(s, x, outcome);
    case Disconnect =>
    case UndoFile(_, _) =>
    case FinishRollback =>
  }

  lemma OthersKeepWriters(s: State, step: Step)
    requires Enabled(s, step) && !step.ByWriter?
    ensures Do(s, step).writers == s.writers
  {
    match step
    case Tick(_) =>
    case ByReader(r, read) =>
    case ByWorker(g, work) => WorkKeepsWriters(s, g, work);
    case Delete(_, _) =>
    case Expire(_, _, _) =>
  }

  lemma WorkKeepsWriters(s: State, g: nat, work: WorkerAction)
    requires WorkerEnabled(s, g, work)
    ensures DoWork(s, g, work).writers == s.writers
  {
  }

  lemma FinishedStep(s: State, step: Step, w: nat)
    requires Enabled(s, step) && w in s.writers && Finished(s.writers[w])
    ensures w in Do(s, step).writers && Do(s, step).writers[w] == s.writers[w]
  {
    if step.ByWriter? {
      WriteOnlyOwn(s, step.w, step.write);
    } else {
      OthersKeepWriters(s, step);
    }
  }

  lemma {:induction false} FinishedStays(grace: nat, states: seq<State>, steps: seq<Step>, i: nat, j: nat, w: nat)
    requires IsRun(grace, states, steps) && i <= j < |states|
    requires w in states[i].writers && Finished(states[i].writers[w])
    ensures w in states[j].writers && states[j].writers[w] == states[i].writers[w]
    decreases j - i
  {
    if i < j {
      FinishedStays(grace, states, steps, i, j - 1, w);
      FinishedStep(states[j - 1], steps[j - 1], w);
    }
  }

  /** Every writer was started by a step of its own, which fixed the version it publishes. */
  lemma {:induction false} PutStart(grace: nat, states: seq<State>, steps: seq<Step>, k: nat, w: nat) returns (a: nat)
    requires IsRun(grace, states, steps) && k < |states| && w in states[k].writers
    ensures a < k && Starts(steps, a, w) && Started(states, steps, a, w) == VidOfWriter(states[k].writers[w])
    decreases k
  {
    if w in states[k - 1].writers {
      a := PutStart(grace, states, steps, k - 1, w);
      RunStepOnward(grace, states, steps, k - 1);
    } else {
      a := k - 1;
      NewWriter(states[k - 1], steps[k - 1], w);
    }
  }

  lemma NewWriter(s: State, step: Step, w: nat)
    requires Enabled(s, step) && w !in s.writers && w in Do(s, step).writers
    ensures step.ByWriter? && step.w == w && step.write.StartPut?
    ensures VidOfWriter(Do(s, step).writers[w]) == Vid(step.write.key, CurrentGeneration(s.store, step.write.key) + 1)
  {
    if step.ByWriter? {
      WriteOnlyOwn(s, step.w, step.write);
    } else {
      OthersKeepWriters(s, step);
    }
  }

  /** A publish that takes effect makes its version current and marks it published. */
  lemma EffectiveStep(s: State, w: nat, write: WriterAction)
    requires WriterEnabled(s, w, write) && (write.Publish? || write.Retry?)
    requires write.outcome != NotApplied && Applies(s, s.writers[w])
    ensures var t := DoWrite(s, w, write);
      Live(t.store.blocks, VidOfWriter(s.writers[w])) && VidOfWriter(s.writers[w]) in t.hist.committed
  {
  }

  /** A published version's writer publishes again only by repeating its command. */
  lemma NoSecondEffect(s: State, w: nat, write: WriterAction)
    requires Strong(s) && WriterEnabled(s, w, write) && (write.Publish? || write.Retry?)
    requires VidOfWriter(s.writers[w]) in s.hist.committed && !Reapplies(s, ByWriter(w, write))
    ensures write.outcome == NotApplied || !Applies(s, s.writers[w])
  {
    assert WriterHolds(s.files, s.writers[w], s.hist);
  }

  /** In runs without repeated publishes a put's publish takes effect at most once. */
  lemma PublishesOnce(grace: nat, states: seq<State>, steps: seq<Step>, i: nat, j: nat, w: nat)
    requires IsRun(grace, states, steps) && AtMostOnce(states, steps) && i < j < |steps|
    requires TakesEffect(states, steps, i, w)
    ensures !TakesEffect(states, steps, j, w)
  {
    EffectiveStep(states[i], w, steps[i].write);
    RunOnward(grace, states, steps, i, j);
    RunOnward(grace, states, steps, i + 1, j);
    RunStrong(grace, states, steps, j);
    if By(steps, j, w) && (steps[j].write.Publish? || steps[j].write.Retry?) {
      NoSecondEffect(states[j], w, steps[j].write);
    }
  }

  /** The earlier of two effective publishes belongs to the put that started earlier. */
  lemma StartsInOrder(grace: nat, states: seq<State>, steps: seq<Step>, i: nat, j: nat, a: nat, b: nat, w: nat, x: nat)
    requires IsRun(grace, states, steps) && i < j < |steps| && a < i && b < j && w != x
    requires Starts(steps, a, w) && Starts(steps, b, x) && steps[a].write.key == steps[b].write.key
    requires Serialized(grace, states, steps, steps[a].write.key)
    requires TakesEffect(states, steps, j, x)
    ensures a < b
  {
    if b < a && Finished(states[a].writers[x]) {
      FinishedStays(grace, states, steps, a, j, x);
    }
  }

  /**
   * Along puts of a key that follow one another, as under the per-key lock, the generations that
   * actually become current strictly increase.
   */
  lemma LockedPutsIncrease(grace: nat, states: seq<State>, steps: seq<Step>, i: nat, j: nat, w: nat, x: nat)
    requires IsRun(grace, states, steps) && AtMostOnce(states, steps) && i < j < |steps|
    requires TakesEffect(states, steps, i, w) && TakesEffect(states, steps, j, x)
    requires states[i].writers[w].key == states[j].writers[x].key
    requires Serialized(grace, states, steps, states[i].writers[w].key)
    ensures var key := states[i].writers[w].key;
      && key in states[i + 1].store.blocks && key in states[j + 1].store.blocks
      && states[i + 1].store.blocks[key].generation < states[j + 1].store.blocks[key].generation
  {
    if w == x {
      PublishesOnce(grace, states, steps, i, j, w);
    }
    var a := PutStart(grace, states, steps, i, w);
    var b := PutStart(grace, states, steps, j, x);
    StartsInOrder(grace, states, steps, i, j, a, b, w, x);
    AllocatedInOrder(grace, states, steps, a, b, w, x);
    EffectiveStep(states[i], w, steps[i].write);
    EffectiveStep(states[j], x, steps[j].write);
  }

  lemma AllocatedInOrder(grace: nat, states: seq<State>, steps: seq<Step>, a: nat, b: nat, w: nat, x: nat)
    requires IsRun(grace, states, steps) && a < b < |steps|
    requires Starts(steps, a, w) && Starts(steps, b, x) && steps[a].write.key == steps[b].write.key
    ensures Started(states, steps, a, w).generation < Started(states, steps, b, x).generation
  {
    GenerationsNeverReused(grace, states, steps, a, b);
  }
}
