/**
 * How long a retired version keeps its files, and what the collector's last look at the metadata
 * protects. Both are stated exactly, over every continuation of a run.
 */
module Grace {
  import opened Types
  import opened Metadata
  import opened Protocol
  import opened Durability
  import opened WholePuts

  /** `longer` takes the steps `more` and begins with the given run. */
  ghost predicate Continues(grace: nat, states: seq<State>, steps: seq<Step>, longer: seq<State>, more: seq<Step>) {
    && IsRun(grace, longer, more) && |states| == |steps| + 1
    && |steps| <= |more| && more[..|steps|] == steps && longer[..|states|] == states
  }

  /** Writer `w` was told its put succeeded. */
  predicate Acknowledged(s: State, w: nat) {
    w in s.writers && s.writers[w].phase.Published?
  }

  // ---------------------------------------------------------------------------------------------
  // Queue leases belong to queued tasks

  ghost predicate LeasesQueued(s: State) {
    forall id <- s.store.leases :: id in s.store.tasks
  }

  lemma PublishLeases(s: State, w: nat, askedAt: int, outcome: Outcome)
    requires LeasesQueued(s) && w in s.writers
    ensures LeasesQueued(DoPublish(s, w, askedAt, outcome))
  {
  }

  lemma RetryLeases(s: State, w: nat, outcome: Outcome)
    requires LeasesQueued(s) && w in s.writers && s.writers[w].phase.Retrying?
    ensures LeasesQueued(DoRetry(s, w, outcome))
  {
  }

  lemma WorkLeases(s: State, g: nat, work: WorkerAction)
    requires LeasesQueued(s) && WorkerEnabled(s, g, work)
    ensures LeasesQueued(DoWork(s, g, work))
  {
  }

  lemma StepLeases(s: State, step: Step)
    requires LeasesQueued(s) && Enabled(s, step)
    ensures LeasesQueued(Do(s, step))
  {
    match step
    case Tick(_) =>
    case ByWriter(w, write) =>
      if write.Publish? {
        PublishLeases(s, w, write.askedAt, write.outcome);
      } else if write.Retry? {
        RetryLeases(s, w, write.outcome);
      }
    case ByReader(_, _) =>
    case ByWorker(g, work) => WorkLeases(s, g, work);
    case Delete(_, _) =>
    case Expire(_, _, _) =>
  }

  /** A publish waiting to be repeated was asked for in the past. */
  ghost predicate AskedBefore(s: State) {
    forall w <- s.writers :: s.writers[w].phase.Retrying? ==> s.writers[w].phase.askedAt <= s.clock
  }

  lemma StepAsked(s: State, step: Step)
    requires AskedBefore(s) && Enabled(s, step)
    ensures AskedBefore(Do(s, step))
  {
    if step.ByWriter? {
      WriteOnlyOwn(s, step.w, step.write);
      WriteAsked(s, step.w, step.write);
    } else {
      OthersKeepWriters(s, step);
    }
  }

  lemma PublishAsked(s: State, w: nat, askedAt: int, outcome: Outcome)
    requires w in s.writers
    ensures var t := DoPublish(s, w, askedAt, outcome);
      w in t.writers && (t.writers[w].phase.Retrying? ==> t.writers[w].phase.askedAt == askedAt)
  {
  }

  lemma RetryAsked(s: State, w: nat, outcome: Outcome)
    requires w in s.writers && s.writers[w].phase.Retrying?
    ensures var t := DoRetry(s, w, outcome); w in t.writers && !t.writers[w].phase.Retrying?
  {
  }

  lemma WriteAsked(s: State, w: nat, write: WriterAction)
    requires AskedBefore(s) && WriterEnabled(s, w, write)
    ensures var t := DoWrite(s, w, write);
      w in t.writers && (t.writers[w].phase.Retrying? ==> t.writers[w].phase.askedAt <= s.clock)
  {
    match write
    case StartPut(_, _, _, _, _, _) =>
    case WriteFile(_) =>
    case WriteFails(_) =>
    case Publish(askedAt, outcome) => PublishAsked(s, w, askedAt, outcome);
    case Retry(outcome) => RetryAsked(s, w, outcome);
    case Disconnect =>
    case UndoFile(_, _) =>
    case FinishRollback =>
  }

  lemma {:induction false} RunQueue(grace: nat, states: seq<State>, steps: seq<Step>, k: nat)
    requires IsRun(grace, states, steps) && k < |states|
    ensures LeasesQueued(states[k]) && AskedBefore(states[k])
    decreases k
  {
    if k > 0 {
      RunQueue(grace, states, steps, k - 1);
      StepLeases(states[k - 1], steps[k - 1]);
      StepAsked(states[k - 1], steps[k - 1]);
    }
  }

  // ---------------------------------------------------------------------------------------------
  // A retired version stays retired, and its reclaim time stays what it was

  /** When a version's retirement was asked for and when it took effect. */
  datatype Retirement = Retirement(askedAt: int, retiredAt: int)

  /** Version `v` is not current, and `when` is on record for it. */
  ghost predicate RetiredSince(s: State, v: Vid, when: Retirement) {
    && !Live(s.store.blocks, v)
    && v in s.hist.askedAt && s.hist.askedAt[v] == when.askedAt
    && v in s.hist.retiredAt && s.hist.retiredAt[v] == when.retiredAt
  }

  lemma ApplyRetired(s: State, writer: Writer, at: int, v: Vid, when: Retirement)
    requires VidOfWriter(writer) != v && RetiredSince(s, v, when) && Applies(s, writer)
    ensures RetiredSince(Apply(s, writer, at), v, when)
  {
  }

  lemma PublishRetired(s: State, x: nat, at: int, outcome: Outcome, v: Vid, when: Retirement)
    requires x in s.writers && VidOfWriter(s.writers[x]) != v && RetiredSince(s, v, when)
    ensures RetiredSince(DoPublish(s, x, at, outcome), v, when)
  {
    if Applies(s, s.writers[x]) {
      ApplyRetired(s, s.writers[x], at, v, when);
    }
  }

  lemma RetryRetired(s: State, x: nat, outcome: Outcome, v: Vid, when: Retirement)
    requires x in s.writers && s.writers[x].phase.Retrying?
    requires VidOfWriter(s.writers[x]) != v && RetiredSince(s, v, when)
    ensures RetiredSince(DoRetry(s, x, outcome), v, when)
  {
    if Applies(s, s.writers[x]) {
      ApplyRetired(s, s.writers[x], s.writers[x].phase.askedAt, v, when);
    }
  }

  lemma WorkRetired(s: State, g: nat, work: WorkerAction, v: Vid, when: Retirement)
    requires WorkerEnabled(s, g, work) && RetiredSince(s, v, when)
    ensures RetiredSince(DoWork(s, g, work), v, when)
  {
  }

  lemma ReadRetired(s: State, r: nat, read: ReaderAction, v: Vid, when: Retirement)
    requires ReaderEnabled(s, r, read) && RetiredSince(s, v, when)
    ensures RetiredSince(DoRead(s, r, read), v, when)
  {
  }

  lemma OtherRetired(s: State, key: Key, at: int, v: Vid, when: Retirement)
    requires RetiredSince(s, v, when)
    ensures RetiredSince(RetireCurrent(s, key, at), v, when)
  {
  }

  lemma WriteRetired(s: State, x: nat, write: WriterAction, v: Vid, when: Retirement)
    requires WriterEnabled(s, x, write) && RetiredSince(s, v, when)
    requires x in s.writers ==> VidOfWriter(s.writers[x]) != v
    ensures RetiredSince(DoWrite(s, x, write), v, when)
  {
    match write
    case StartPut(_, _, _, _, _, _) =>
    case WriteFile(_) =>
    case WriteFails(_) =>
    case Publish(at, outcome) => PublishRetired(s, x, at, outcome, v, when);
    case Retry(outcome) => RetryRetired(s, x, outcome, v, when);
    case Disconnect =>
    case UndoFile(_, _) =>
    case FinishRollback =>
  }

  /** An acknowledged version, once retired, is not published again and keeps its reclaim time. */
  lemma RetiredStep(s: State, step: Step, w: nat, when: Retirement)
    requires Safe(s) && Enabled(s, step) && Acknowledged(s, w) && RetiredSince(s, VidOfWriter(s.writers[w]), when)
    ensures RetiredSince(Do(s, step), VidOfWriter(s.writers[w]), when)
  {
    var v := VidOfWriter(s.writers[w]);
    match step
    case Tick(_) =>
    case ByWriter(x, write) => WriteRetired(s, x, write, v, when);
    case ByReader(r, read) => ReadRetired(s, r, read, v, when);
    case ByWorker(g, work) => WorkRetired(s, g, work, v, when);
    case Delete(key, at) => OtherRetired(s, key, at, v, when);
    case Expire(key, _, at) => OtherRetired(s, key, at, v, when);
  }

  lemma {:induction false} RetiredStays(grace: nat, states: seq<State>, steps: seq<Step>, i: nat, j: nat, w: nat,
                                        when: Retirement)
    requires IsRun(grace, states, steps) && i <= j < |states| && Acknowledged(states[i], w)
    requires RetiredSince(states[i], VidOfWriter(states[i].writers[w]), when)
    ensures Acknowledged(states[j], w) && states[j].writers[w] == states[i].writers[w]
    ensures RetiredSince(states[j], VidOfWriter(states[i].writers[w]), when)
    decreases j - i
  {
    if i < j {
      RetiredStays(grace, states, steps, i, j - 1, w, when);
      RunSafe(grace, states, steps, j - 1);
      RetiredStep(states[j - 1], steps[j - 1], w, when);
      FinishedStays(grace, states, steps, i, j, w);
    }
  }

  lemma {:induction false} ClockGrows(grace: nat, states: seq<State>, steps: seq<Step>, i: nat, j: nat)
    requires IsRun(grace, states, steps) && i <= j < |states|
    ensures states[i].clock <= states[j].clock
    decreases j - i
  {
    if i < j {
      ClockGrows(grace, states, steps, i, j - 1);
    }
  }

  // ---------------------------------------------------------------------------------------------
  // The step that retires a version

  /** What retiring leaves behind: a task due one grace period after the asking, and not leased. */
  ghost predicate JustRetired(s: State, v: Vid) {
    && v in s.versions && v in s.hist.askedAt && s.hist.askedAt[v] <= s.clock
    && v in s.hist.retiredAt && s.hist.retiredAt[v] == s.clock
    && var id := TaskIdOf(v.key, s.versions[v].meta);
       && id in s.store.tasks && id !in s.store.leases
       && s.store.tasks[id] == TaskOf(v.key, s.versions[v].meta, s.hist.askedAt[v] + s.grace)
  }

  /** Where the version is current and its task neither queued nor leased. */
  ghost predicate Current(s: State, v: Vid) {
    && Live(s.store.blocks, v) && v in s.versions && s.store.blocks[v.key] == s.versions[v].meta
    && TaskIdOf(v.key, s.versions[v].meta) !in s.store.leases
  }

  lemma RetireLeaves(s: State, v: Vid, askedAt: int)
    requires Current(s, v) && askedAt <= s.clock
    ensures JustRetired(RetireCurrent(s, v.key, askedAt), v)
  {
  }

  lemma ApplyLeaves(s: State, writer: Writer, v: Vid, askedAt: int)
    requires Current(s, v) && askedAt <= s.clock && Applies(s, writer)
    requires !Live(Apply(s, writer, askedAt).store.blocks, v)
    ensures JustRetired(Apply(s, writer, askedAt), v)
  {
  }

  lemma PublishLeaves(s: State, x: nat, askedAt: int, outcome: Outcome, v: Vid)
    requires Current(s, v) && askedAt <= s.clock && x in s.writers
    requires !Live(DoPublish(s, x, askedAt, outcome).store.blocks, v)
    ensures JustRetired(DoPublish(s, x, askedAt, outcome), v)
  {
    if Applies(s, s.writers[x]) && outcome != NotApplied {
      ApplyLeaves(s, s.writers[x], v, askedAt);
    }
  }

  lemma RetryLeaves(s: State, x: nat, outcome: Outcome, v: Vid)
    requires Current(s, v) && x in s.writers && s.writers[x].phase.Retrying? && s.writers[x].phase.askedAt <= s.clock
    requires !Live(DoRetry(s, x, outcome).store.blocks, v)
    ensures JustRetired(DoRetry(s, x, outcome), v)
  {
    if Applies(s, s.writers[x]) && outcome != NotApplied {
      ApplyLeaves(s, s.writers[x], v, s.writers[x].phase.askedAt);
    }
  }

  lemma WriteLeaves(s: State, x: nat, write: WriterAction, v: Vid)
    requires Safe(s) && AskedBefore(s) && WriterEnabled(s, x, write) && Current(s, v)
    requires !Live(DoWrite(s, x, write).store.blocks, v)
    ensures JustRetired(DoWrite(s, x, write), v)
  {
    if write.Publish? {
      PublishLeaves(s, x, write.askedAt, write.outcome, v);
    } else if write.Retry? {
      RetryLeaves(s, x, write.outcome, v);
    } else {
      SparesOthers(s, x, write);
    }
  }

  /** Cleanup that takes a version out of service marks it dropped. */
  lemma ReadDrops(s: State, r: nat, read: ReaderAction, v: Vid)
    requires ReaderEnabled(s, r, read) && Live(s.store.blocks, v)
    ensures Live(DoRead(s, r, read).store.blocks, v) || v in DoRead(s, r, read).hist.dropped
  {
  }

  /** A version stops being current by a retiring command or by missing-file cleanup. */
  lemma RetiringStep(s: State, step: Step, v: Vid)
    requires Safe(s) && AskedBefore(s) && Enabled(s, step) && Current(s, v)
    requires !Live(Do(s, step).store.blocks, v) && v !in Do(s, step).hist.dropped
    ensures JustRetired(Do(s, step), v)
  {
    match step
    case Tick(_) =>
    case ByWriter(x, write) => WriteLeaves(s, x, write, v);
    case ByReader(r, read) => ReadDrops(s, r, read, v);
    case ByWorker(g, work) => WorkKeepsBlocks(s, g, work);
    case Delete(_, askedAt) => RetireLeaves(s, v, askedAt);
    case Expire(_, _, askedAt) => RetireLeaves(s, v, askedAt);
  }

  /** An acknowledged version that the last step took out of service without dropping it was retired by that step. */
  lemma RetiredByLastStep(grace: nat, states: seq<State>, steps: seq<Step>, w: nat)
    requires IsRun(grace, states, steps) && AtMostOnce(states, steps) && |steps| > 0
    requires Acknowledged(states[|steps|], w)
    requires var v := VidOfWriter(states[|steps|].writers[w]);
      && Live(states[|steps| - 1].store.blocks, v) && !Live(states[|steps|].store.blocks, v)
      && v !in states[|steps|].hist.dropped
    ensures JustRetired(states[|steps|], VidOfWriter(states[|steps|].writers[w]))
  {
    var n := |steps|;
    var v := VidOfWriter(states[n].writers[w]);
    RunStrong(grace, states, steps, n - 1);
    RunQueue(grace, states, steps, n - 1);
    LiveIsCurrent(states[n - 1], v);
    RetiringStep(states[n - 1], steps[n - 1], v);
  }

  lemma LiveIsCurrent(s: State, v: Vid)
    requires Strong(s) && LeasesQueued(s) && Live(s.store.blocks, v)
    ensures Current(s, v)
  {
    assert Known(s.versions, v.key, s.store.blocks[v.key]);
    assert v in s.hist.committed;
    assert OnePlace(s, v);
  }

  // ---------------------------------------------------------------------------------------------
  // The whole grace period, exactly

  lemma Unused(used: set<nat>) returns (g: nat)
    ensures g !in used
  {
    g := 0;
    var below: set<nat> := {};
    while g in used
      invariant below <= used && forall x <- below :: x < g
      decreases used - below
    {
      below := below + {g};
      g := g + 1;
    }
  }

  /** The version is not current, has a file, and its task can be claimed. */
  ghost predicate Reclaimable(s: State, v: Vid) {
    && v in s.versions && |s.versions[v].meta.paths| > 0 && !Live(s.store.blocks, v)
    && s.versions[v].meta.generation == v.generation
    && var id := TaskIdOf(v.key, s.versions[v].meta);
       && Eligible(s.store, s.clock, id)
       && s.store.tasks[id].key == v.key && s.store.tasks[id].retired == s.versions[v].meta
  }

  lemma DueAfter(s: State, v: Vid, now: int)
    requires JustRetired(s, v) && !Live(s.store.blocks, v) && |s.versions[v].meta.paths| > 0
    requires s.versions[v].meta.generation == v.generation && s.hist.askedAt[v] + s.grace <= now
    ensures Reclaimable(s.(clock := now), v)
  {
  }

  /** The first file of a reclaimable version can be gone three steps later. */
  lemma ReclaimNow(grace: nat, states: seq<State>, steps: seq<Step>, v: Vid)
    returns (longer: seq<State>, more: seq<Step>)
    requires IsRun(grace, states, steps) && AtMostOnce(states, steps)
    requires Reclaimable(states[|steps|], v)
    ensures Continues(grace, states, steps, longer, more) && AtMostOnce(longer, more)
    ensures longer[|more|].clock == states[|steps|].clock
    ensures !Present(longer[|more|].versions, longer[|more|].files, v)
  {
    var s := states[|steps|];
    var id := TaskIdOf(v.key, s.versions[v].meta);
    var g := Unused(s.workers.Keys);
    longer := Extend(grace, states, steps, ByWorker(g, ClaimTask(id, 60)));
    more := steps + [ByWorker(g, ClaimTask(id, 60))];
    var claimed := longer[|more|];
    assert claimed.workers[g].task == s.store.tasks[id];
    longer := Extend(grace, longer, more, ByWorker(g, CheckCurrent));
    more := more + [ByWorker(g, CheckCurrent)];
    var checked := longer[|more|];
    assert checked.workers[g].phase == Deleting({}) && checked.workers[g].task == s.store.tasks[id];
    longer := Extend(grace, longer, more, ByWorker(g, ReclaimFile(0)));
    more := more + [ByWorker(g, ReclaimFile(0))];
    assert s.versions[v].meta.paths[0] !in longer[|more|].files;
  }

  lemma WaitThenReclaim(grace: nat, states: seq<State>, steps: seq<Step>, v: Vid, now: int)
    returns (longer: seq<State>, more: seq<Step>)
    requires IsRun(grace, states, steps) && AtMostOnce(states, steps) && states[|steps|].clock <= now
    requires Reclaimable(states[|steps|].(clock := now), v)
    ensures Continues(grace, states, steps, longer, more) && AtMostOnce(longer, more)
    ensures longer[|more|].clock == now && !Present(longer[|more|].versions, longer[|more|].files, v)
  {
    longer := Extend(grace, states, steps, Tick(now));
    longer, more := ReclaimNow(grace, longer, steps + [Tick(now)], v);
    assert more[..|steps|] == more[..|steps| + 1][..|steps|];
    assert longer[..|states|] == longer[..|states| + 1][..|states|];
  }

  /** The version keeps its files for one grace period from the end of the run, whatever comes next. */
  ghost predicate WholeGraceKept(grace: nat, states: seq<State>, steps: seq<Step>, v: Vid)
    requires |states| == |steps| + 1
  {
    forall longer: seq<State>, more: seq<Step> ::
      Continues(grace, states, steps, longer, more) && AtMostOnce(longer, more)
      && longer[|more|].clock < states[|steps|].clock + grace ==>
        Present(longer[|more|].versions, longer[|more|].files, v)
  }

  /** The last step of the run retires writer `w`'s acknowledged version. */
  ghost predicate Retires(grace: nat, states: seq<State>, steps: seq<Step>, w: nat) {
    && IsRun(grace, states, steps) && AtMostOnce(states, steps) && |steps| > 0 && Acknowledged(states[|steps|], w)
    && var v := VidOfWriter(states[|steps|].writers[w]);
       && Live(states[|steps| - 1].store.blocks, v) && !Live(states[|steps|].store.blocks, v)
       && v !in states[|steps|].hist.dropped
  }

  /** Asked for early, carried out late: the files can go before the grace period after retirement is over. */
  lemma GraceCutShort(grace: nat, states: seq<State>, steps: seq<Step>, w: nat)
    returns (longer: seq<State>, more: seq<Step>)
    requires Retires(grace, states, steps, w) && |states[|steps|].writers[w].version.meta.paths| > 0
    requires var v := VidOfWriter(states[|steps|].writers[w]);
      grace > 0 && v in states[|steps|].hist.askedAt && states[|steps|].hist.askedAt[v] < states[|steps|].clock
    ensures Continues(grace, states, steps, longer, more) && AtMostOnce(longer, more)
    ensures longer[|more|].clock < states[|steps|].clock + grace
    ensures !Present(longer[|more|].versions, longer[|more|].files, VidOfWriter(states[|steps|].writers[w]))
  {
    var s := states[|steps|];
    var v := VidOfWriter(s.writers[w]);
    RetiredByLastStep(grace, states, steps, w);
    RunSafe(grace, states, steps, |steps|);
    RunGrace(grace, states, steps, |steps|);
    assert WriterOk(s.versions, s.files, s.writers[w]);
    var due := s.hist.askedAt[v] + grace;
    var now := if due < s.clock then s.clock else due;
    DueAfter(s, v, now);
    longer, more := WaitThenReclaim(grace, states, steps, v, now);
  }

  /** With the command carried out the moment it was asked for, the whole grace period is kept. */
  lemma PromptGraceKept(grace: nat, states: seq<State>, steps: seq<Step>, w: nat, longer: seq<State>, more: seq<Step>)
    requires Retires(grace, states, steps, w)
    requires var v := VidOfWriter(states[|steps|].writers[w]);
      v in states[|steps|].hist.askedAt && states[|steps|].hist.askedAt[v] == states[|steps|].clock
    requires Continues(grace, states, steps, longer, more) && AtMostOnce(longer, more)
    requires longer[|more|].clock < states[|steps|].clock + grace
    ensures Present(longer[|more|].versions, longer[|more|].files, VidOfWriter(states[|steps|].writers[w]))
  {
    assert longer[|steps|] == states[|steps|];
    RetiredByLastStep(grace, states, steps, w);
    RetiredStays(grace, longer, more, |steps|, |more|, w, Retirement(states[|steps|].clock, states[|steps|].clock));
    RunGrace(grace, longer, more, |more|);
    AcknowledgedWritesAreDurable(grace, longer, more, |more|, w);
  }

  /**
   * Counted from the moment an acknowledged version stops being current, its whole grace period is
   * kept in every continuation exactly when the retiring command took effect the moment it was asked
   * for. Any delay in between, waiting for the connection or for a second run, is taken off it.
   */
  lemma GraceFromRetirementIff(grace: nat, states: seq<State>, steps: seq<Step>, w: nat)
    requires Retires(grace, states, steps, w) && |states[|steps|].writers[w].version.meta.paths| > 0
    ensures var s, v := states[|steps|], VidOfWriter(states[|steps|].writers[w]);
      && v in s.hist.askedAt && v in s.hist.retiredAt && s.hist.askedAt[v] <= s.hist.retiredAt[v] == s.clock
      && (WholeGraceKept(grace, states, steps, v) <==> grace == 0 || s.hist.askedAt[v] == s.clock)
  {
    var s, v := states[|steps|], VidOfWriter(states[|steps|].writers[w]);
    RetiredByLastStep(grace, states, steps, w);
    if grace > 0 && s.hist.askedAt[v] < s.clock {
      var longer, more := GraceCutShort(grace, states, steps, w);
      assert !WholeGraceKept(grace, states, steps, v);
    } else {
      forall longer: seq<State>, more: seq<Step> |
        Continues(grace, states, steps, longer, more) && AtMostOnce(longer, more)
        && longer[|more|].clock < s.clock + grace
        ensures Present(longer[|more|].versions, longer[|more|].files, v)
      {
        assert longer[|steps|] == s;
        ClockGrows(grace, longer, more, |steps|, |more|);
        if s.hist.askedAt[v] == s.clock {
          PromptGraceKept(grace, states, steps, w, longer, more);
        }
      }
    }
  }

  /** One put acknowledged; a second put's publish, asked for at time 0, did not get through. */
  ghost predicate Overwriting(s: State, key: Key) {
    && s.clock == 0
    && 0 in s.writers && s.writers[0] == Writer(key, Version(OneByte(key, 1), [[1]]), false, Published)
    && 1 in s.writers && s.writers[1] == Writer(key, Version(OneByte(key, 2), [[2]]), false, Retrying(0))
    && s.store.blocks == map[key := OneByte(key, 1)] && s.hist.committed == {Vid(key, 1)} && s.hist.dropped == {}
  }

  lemma FirstPut(key: Key, grace: nat) returns (states: seq<State>, steps: seq<Step>)
    ensures IsRun(grace, states, steps) && AtMostOnce(states, steps)
    ensures var s := states[|steps|];
      && s.clock == 0 && s.writers == map[0 := Writer(key, Version(OneByte(key, 1), [[1]]), false, Published)]
      && s.store.blocks == map[key := OneByte(key, 1)] && s.hist.committed == {Vid(key, 1)} && s.hist.dropped == {}
      && CurrentGeneration(s.store, key) == 1
  {
    states, steps := [Init(grace)], [];
    states, steps := Stage(grace, states, steps, 0, key, 1, false);
    states := Extend(grace, states, steps, ByWriter(0, Publish(0, Answered)));
    steps := steps + [ByWriter(0, Publish(0, Answered))];
  }

  lemma LostReplace(key: Key, grace: nat) returns (states: seq<State>, steps: seq<Step>)
    ensures IsRun(grace, states, steps) && AtMostOnce(states, steps) && Overwriting(states[|steps|], key)
  {
    states, steps := FirstPut(key, grace);
    states, steps := Stage(grace, states, steps, 1, key, 2, false);
    states := Extend(grace, states, steps, ByWriter(1, Publish(0, NotApplied)));
    steps := steps + [ByWriter(1, Publish(0, NotApplied))];
  }

  /** The second put's publish gets through `late` seconds after it was asked for. */
  lemma LateReplace(key: Key, grace: nat, late: nat) returns (states: seq<State>, steps: seq<Step>)
    ensures Retires(grace, states, steps, 0)
    ensures var s, v := states[|steps|], VidOfWriter(states[|steps|].writers[0]);
      && s.clock == late && v in s.hist.askedAt && s.hist.askedAt[v] == 0
      && |s.writers[0].version.meta.paths| > 0
  {
    states, steps := LostReplace(key, grace);
    states := Extend(grace, states, steps, Tick(late));
    steps := steps + [Tick(late)];
    states := Extend(grace, states, steps, ByWriter(1, Retry(Answered)));
    steps := steps + [ByWriter(1, Retry(Answered))];
  }

  /**
   * A run for every grace period and every delay: an acknowledged version is overwritten, the
   * overwriting command takes effect `late` seconds after it was asked for, and the version's file
   * is gone before the grace period after its retirement is over.
   */
  lemma LateReplaceCutsGrace(key: Key, grace: nat, late: nat) returns (states: seq<State>, steps: seq<Step>)
    requires grace > 0 && late > 0
    ensures IsRun(grace, states, steps) && AtMostOnce(states, steps)
    ensures var s := states[|steps|];
      && Acknowledged(s, 0)
      && var v := VidOfWriter(s.writers[0]);
         && v in s.hist.retiredAt && s.clock < s.hist.retiredAt[v] + grace && !Present(s.versions, s.files, v)
  {
    states, steps := LateReplace(key, grace, late);
    var n, v := |steps|, VidOfWriter(states[|steps|].writers[0]);
    RetiredByLastStep(grace, states, steps, 0);
    var longer, more := GraceCutShort(grace, states, steps, 0);
    FinishedStays(grace, longer, more, n, |more|, 0);
    RetiredStays(grace, longer, more, n, |more|, 0, Retirement(0, late));
    states, steps := longer, more;
  }

  // ---------------------------------------------------------------------------------------------
  // The collector's last look at the metadata, with publish commands repeated or not

  /** A collector has passed its check and may be deleting the version's files. */
  ghost predicate PastCheck(s: State, v: Vid) {
    exists g <- s.workers :: s.workers[g].phase.Deleting? && VidOfTask(s.workers[g].task) == v
  }

  /** All files there and no collector about to delete them. */
  ghost predicate Guarded(s: State, v: Vid) {
    Present(s.versions, s.files, v) && !PastCheck(s, v)
  }

  lemma FilesOfOthers(s: State, v: Vid, x: Vid, p: Path)
    requires Safe(s) && Present(s.versions, s.files, v) && x in s.versions && x != v && p in s.versions[x].meta.paths
    ensures Present(s.versions, s.files - {p}, v)
  {
    forall q <- s.versions[v].meta.paths
      ensures q != p
    {
      PathsApart(s.versions, s.store.generations, v, x, q);
    }
  }

  /** A claimed task of a current version does not pass the check. */
  lemma CheckStops(s: State, g: nat, v: Vid)
    requires Safe(s) && g in s.workers && VidOfTask(s.workers[g].task) == v && Live(s.store.blocks, v)
    ensures DoCheckCurrent(s, g) == Requeue(s, g)
  {
    assert TaskOk(s.versions, s.workers[g].task) && Known(s.versions, v.key, s.store.blocks[v.key]);
  }

  lemma CheckGuards(s: State, g: nat, v: Vid)
    requires Safe(s) && g in s.workers && Guarded(s, v) && Live(s.store.blocks, v)
    ensures Guarded(DoCheckCurrent(s, g), v)
  {
    RequeueGuards(s, g, v);
    if VidOfTask(s.workers[g].task) == v {
      CheckStops(s, g, v);
    } else {
      PassGuards(s, g, v);
    }
  }

  lemma RequeueGuards(s: State, g: nat, v: Vid)
    requires g in s.workers && Guarded(s, v)
    ensures Guarded(Requeue(s, g), v)
  {
  }

  lemma PassGuards(s: State, g: nat, v: Vid)
    requires g in s.workers && Guarded(s, v) && VidOfTask(s.workers[g].task) != v
    ensures Guarded(SetWorker(s, g, s.workers[g].(phase := Deleting({}))), v)
  {
  }

  lemma ReclaimGuards(s: State, g: nat, i: nat, v: Vid)
    requires Safe(s) && WorkerEnabled(s, g, ReclaimFile(i)) && Guarded(s, v)
    ensures Guarded(DoReclaimFile(s, g, i), v)
  {
    var task := s.workers[g].task;
    assert TaskOk(s.versions, task);
    FilesOfOthers(s, v, VidOfTask(task), task.retired.paths[i]);
  }

  lemma WorkGuards(s: State, g: nat, work: WorkerAction, v: Vid)
    requires Safe(s) && WorkerEnabled(s, g, work) && Guarded(s, v) && Live(s.store.blocks, v)
    ensures Guarded(DoWork(s, g, work), v)
  {
    match work
    case ClaimTask(_, _) =>
    case CheckCurrent => CheckGuards(s, g, v);
    case ReclaimFile(i) => ReclaimGuards(s, g, i, v);
    case FinishTask =>
    case PutBack =>
    case Crash =>
  }

  /** Collectors, files and versions are as they were. */
  predicate SameGuard(s: State, t: State) {
    t.workers == s.workers && t.files == s.files && t.versions == s.versions
  }

  lemma PublishGuards(s: State, x: nat, askedAt: int, outcome: Outcome)
    requires x in s.writers
    ensures SameGuard(s, DoPublish(s, x, askedAt, outcome))
    ensures s.writers[x].phase.Retrying? ==> SameGuard(s, DoRetry(s, x, outcome))
  {
  }

  lemma UndoGuards(s: State, x: nat, i: nat, removed: bool, v: Vid)
    requires Safe(s) && WriterEnabled(s, x, UndoFile(i, removed)) && Guarded(s, v) && VidOfWriter(s.writers[x]) != v
    ensures Guarded(DoUndoFile(s, x, i, removed), v)
  {
    assert WriterOk(s.versions, s.files, s.writers[x]);
    FilesOfOthers(s, v, VidOfWriter(s.writers[x]), s.writers[x].version.meta.paths[i]);
  }

  lemma StartGuards(s: State, x: nat, put: WriterAction, v: Vid)
    requires Safe(s) && put.StartPut? && WriterEnabled(s, x, put) && Guarded(s, v)
    ensures Guarded(DoWrite(s, x, put), v)
  {
    FreshGeneration(s, put.key);
  }

  lemma WriteGuards(s: State, x: nat, write: WriterAction, v: Vid)
    requires Safe(s) && WriterEnabled(s, x, write) && Guarded(s, v)
    requires x in s.writers ==> VidOfWriter(s.writers[x]) != v
    ensures Guarded(DoWrite(s, x, write), v)
  {
    match write
    case StartPut(_, _, _, _, _, _) => StartGuards(s, x, write, v);
    case WriteFile(_) =>
    case WriteFails(_) =>
    case Publish(askedAt, outcome) => PublishGuards(s, x, askedAt, outcome);
    case Retry(outcome) => PublishGuards(s, x, 0, outcome);
    case Disconnect =>
    case UndoFile(i, removed) => UndoGuards(s, x, i, removed, v);
    case FinishRollback =>
  }

  lemma ReadGuards(s: State, r: nat, read: ReaderAction)
    requires ReaderEnabled(s, r, read)
    ensures SameGuard(s, DoRead(s, r, read))
  {
  }

  /** While its version is current, an acknowledged writer's files stay guarded. */
  lemma StepGuards(s: State, step: Step, w: nat)
    requires Safe(s) && Enabled(s, step) && Acknowledged(s, w)
    requires var v := VidOfWriter(s.writers[w]); Guarded(s, v) && Live(s.store.blocks, v)
    ensures Guarded(Do(s, step), VidOfWriter(s.writers[w]))
  {
    var v := VidOfWriter(s.writers[w]);
    match step
    case Tick(_) =>
    case ByWriter(x, write) => WriteGuards(s, x, write, v);
    case ByReader(r, read) => ReadGuards(s, r, read);
    case ByWorker(g, work) => WorkGuards(s, g, work, v);
    case Delete(key, askedAt) => assert SameGuard(s, RetireCurrent(s, key, askedAt));
    case Expire(key, _, askedAt) => assert SameGuard(s, RetireCurrent(s, key, askedAt));
  }

  /** The version is current from state `from` on. */
  ghost predicate StaysLive(states: seq<State>, from: nat, v: Vid) {
    forall k :: from <= k < |states| ==> Live(states[k].store.blocks, v)
  }

  lemma {:induction false} GuardHolds(grace: nat, states: seq<State>, steps: seq<Step>, i: nat, j: nat, w: nat)
    requires IsRun(grace, states, steps) && i <= j < |states| && Acknowledged(states[i], w)
    requires var v := VidOfWriter(states[i].writers[w]); Guarded(states[i], v) && StaysLive(states, i, v)
    ensures Guarded(states[j], VidOfWriter(states[i].writers[w]))
    decreases j - i
  {
    if i < j {
      GuardHolds(grace, states, steps, i, j - 1, w);
      FinishedStays(grace, states, steps, i, j - 1, w);
      RunSafe(grace, states, steps, j - 1);
      StepGuards(states[j - 1], steps[j - 1], w);
    }
  }

  /** However the run goes on, the version has all its files for as long as it is current. */
  ghost predicate KeepsFiles(grace: nat, states: seq<State>, steps: seq<Step>, v: Vid)
    requires |states| == |steps| + 1
  {
    forall longer: seq<State>, more: seq<Step> ::
      Continues(grace, states, steps, longer, more) && StaysLive(longer, |steps|, v) ==>
        Present(longer[|more|].versions, longer[|more|].files, v)
  }

  /** A collector past its check deletes the first file of the version it works on, current or not. */
  lemma PastCheckDeletes(grace: nat, states: seq<State>, steps: seq<Step>, g: nat)
    returns (longer: seq<State>, more: seq<Step>)
    requires IsRun(grace, states, steps) && g in states[|steps|].workers
    requires var worker := states[|steps|].workers[g]; worker.phase.Deleting? && |worker.task.retired.paths| > 0
    ensures Continues(grace, states, steps, longer, more)
    ensures |longer| == |states| + 1 && longer[|more|].store == states[|steps|].store
    ensures states[|steps|].workers[g].task.retired.paths[0] !in longer[|more|].files
    ensures longer[|more|].versions == states[|steps|].versions
  {
    longer := Extend(grace, states, steps, ByWorker(g, ReclaimFile(0)));
    more := steps + [ByWorker(g, ReclaimFile(0))];
  }

  lemma GuardedKeeps(grace: nat, states: seq<State>, steps: seq<Step>, w: nat, longer: seq<State>, more: seq<Step>)
    requires |states| == |steps| + 1 && Acknowledged(states[|steps|], w)
    requires Guarded(states[|steps|], VidOfWriter(states[|steps|].writers[w]))
    requires Continues(grace, states, steps, longer, more)
    requires StaysLive(longer, |steps|, VidOfWriter(states[|steps|].writers[w]))
    ensures Present(longer[|more|].versions, longer[|more|].files, VidOfWriter(states[|steps|].writers[w]))
  {
    assert longer[|steps|] == states[|steps|];
    GuardHolds(grace, longer, more, |steps|, |more|, w);
  }

  lemma UnguardedLoses(grace: nat, states: seq<State>, steps: seq<Step>, v: Vid)
    returns (longer: seq<State>, more: seq<Step>)
    requires IsRun(grace, states, steps) && Live(states[|steps|].store.blocks, v) && !Guarded(states[|steps|], v)
    requires v in states[|steps|].versions && |states[|steps|].versions[v].meta.paths| > 0
    ensures Continues(grace, states, steps, longer, more) && StaysLive(longer, |steps|, v)
    ensures !Present(longer[|more|].versions, longer[|more|].files, v)
  {
    var n, s := |steps|, states[|steps|];
    if PastCheck(s, v) {
      var g :| g in s.workers && s.workers[g].phase.Deleting? && VidOfTask(s.workers[g].task) == v;
      RunSafe(grace, states, steps, n);
      assert TaskOk(s.versions, s.workers[g].task);
      longer, more := PastCheckDeletes(grace, states, steps, g);
      assert longer[n] == s;
      assert s.versions[v].meta.paths[0] in s.versions[v].meta.paths;
    } else {
      longer, more := states, steps;
    }
  }

  /**
   * Durability with publish commands repeated any number of times, exactly: an acknowledged version
   * that is current keeps its files while it stays current if and only if they are all there now and
   * no collector is past its check for it.
   */
  lemma KeepsFilesIff(grace: nat, states: seq<State>, steps: seq<Step>, w: nat)
    requires IsRun(grace, states, steps) && Acknowledged(states[|steps|], w)
    requires Live(states[|steps|].store.blocks, VidOfWriter(states[|steps|].writers[w]))
    requires |states[|steps|].writers[w].version.meta.paths| > 0
    ensures var v := VidOfWriter(states[|steps|].writers[w]);
      KeepsFiles(grace, states, steps, v) <==> Guarded(states[|steps|], v)
  {
    var v := VidOfWriter(states[|steps|].writers[w]);
    if Guarded(states[|steps|], v) {
      forall longer: seq<State>, more: seq<Step> |
        Continues(grace, states, steps, longer, more) && StaysLive(longer, |steps|, v)
        ensures Present(longer[|more|].versions, longer[|more|].files, v)
      {
        GuardedKeeps(grace, states, steps, w, longer, more);
      }
    } else {
      WriterHasVersion(grace, states, steps, w);
      var longer, more := UnguardedLoses(grace, states, steps, v);
    }
  }

  lemma WriterHasVersion(grace: nat, states: seq<State>, steps: seq<Step>, w: nat)
    requires IsRun(grace, states, steps) && w in states[|steps|].writers
    ensures var s, v := states[|steps|], VidOfWriter(states[|steps|].writers[w]);
      v in s.versions && s.versions[v] == s.writers[w].version
  {
    RunSafe(grace, states, steps, |steps|);
    assert WriterOk(states[|steps|].versions, states[|steps|].files, states[|steps|].writers[w]);
  }
}
