/**
 * The protocol run against the scripted backend. Every metadata command of a run is carried out by
 * its script; the structures then hold exactly the store of the protocol and stay consistent, since
 * a version is retired only while it is current and its task is then neither queued nor in flight.
 */
module ProtocolOnRedis {
  import opened Types
  import opened Metadata
  import opened Protocol
  import opened Durability
  import opened GcLease
  import RM = RedisMetadata

  /** The command a writer publishes with, asked for at `askedAt`. */
  function PublishCommand(s: State, writer: Writer, askedAt: int): BlockCommand {
    if writer.ifAbsent then CommitCmd(writer.key, writer.version.meta)
    else ReplaceCmd(writer.key, writer.version.meta, askedAt + s.grace)
  }

  /** The metadata command a step carries out, if any, other than a queue command. */
  function CommandOf(s: State, step: Step): Option<BlockCommand>
    requires Enabled(s, step)
  {
    match step
    case Tick(_) => None
    case ByWriter(w, write) =>
      (match write
       case StartPut(key, _, _, _, _, _) => Some(GenerationCmd(key))
       case Publish(askedAt, outcome) =>
         if outcome.NotApplied? then None else Some(PublishCommand(s, s.writers[w], askedAt))
       case Retry(outcome) =>
         if outcome.NotApplied? then None else Some(PublishCommand(s, s.writers[w], s.writers[w].phase.askedAt))
       case _ => None)
    case ByReader(r, read) =>
      if read.CleanUp? then Some(DeleteIfCmd(s.readers[r].key, s.readers[r].meta)) else None
    case ByWorker(_, _) => None
    case Delete(key, askedAt) => Some(RetireCmd(key, askedAt + s.grace))
    case Expire(key, observed, askedAt) => Some(RetireIfCmd(key, observed, askedAt + s.grace))
  }

  /** The claim script ran and leased exactly this task. */
  ghost predicate TakesOne(r: RM.Redis, now: int, leaseSeconds: nat, id: TaskId, t: RM.Redis) {
    exists limit: nat, picked: seq<TaskId> ::
      && RM.IsRange(RM.RequeueLapsed(r, now).due, now, limit, picked) && RM.Leased(r, picked) == {id}
      && t == RM.TakeScript(r, now, leaseSeconds, picked)
  }

  /** What a worker's step does to the three queue structures. */
  ghost predicate WorkOnRedis(r: RM.Redis, s: State, g: nat, work: WorkerAction, t: RM.Redis)
    requires WorkerEnabled(s, g, work)
  {
    match work
    case ClaimTask(id, leaseSeconds) => TakesOne(r, s.clock, leaseSeconds, id, t)
    case CheckCurrent =>
      var task := s.workers[g].task;
      t == if task.key in r.blocks && SameVersion(r.blocks[task.key], task.retired) then PutBackOnRedis(r, s, g) else r
    case ReclaimFile(_) => t == r
    case FinishTask => t == RM.CompleteCommands(r, s.workers[g].task.id, 2)
    case PutBack => t == PutBackOnRedis(r, s, g)
    case Crash => t == r
  }

  function PutBackOnRedis(r: RM.Redis, s: State, g: nat): RM.Redis
    requires g in s.workers
  {
    var worker := s.workers[g];
    var attempts := worker.task.attempts + 1;
    RM.RescheduleCommands(r, worker.task.(attempts := attempts, notBefore := worker.claimedAt + Backoff(attempts)), 3)
  }

  ghost predicate StepOnRedis(r: RM.Redis, s: State, step: Step, t: RM.Redis)
    requires Enabled(s, step)
  {
    if step.ByWorker? then WorkOnRedis(r, s, step.g, step.work, t)
    else t == if CommandOf(s, step).Some? then RM.BlockScript(r, CommandOf(s, step).value) else r
  }

  /** The structures hold the store and are consistent. */
  ghost predicate Matches(r: RM.Redis, s: State) {
    RM.View(r) == s.store && RM.Consistent(r, s.clock)
  }

  // ---------------------------------------------------------------------------------------------
  // One step

  /** A step's metadata command has the step's effect on the store. */
  lemma CommandHasEffect(s: State, step: Step)
    requires Enabled(s, step) && !step.ByWorker?
    ensures Do(s, step).store ==
      if CommandOf(s, step).Some? then RunBlock(s.store, CommandOf(s, step).value) else s.store
  {
    match step
    case Tick(_) =>
    case ByWriter(w, write) => WriteHasEffect(s, w, write);
    case ByReader(_, _) =>
    case Delete(_, _) =>
    case Expire(_, _, _) =>
  }

  lemma PublishHasEffect(s: State, w: nat, askedAt: int, outcome: Outcome)
    requires w in s.writers
    ensures DoPublish(s, w, askedAt, outcome).store ==
      if outcome.NotApplied? then s.store else RunBlock(s.store, PublishCommand(s, s.writers[w], askedAt))
  {
  }

  lemma RetryHasEffect(s: State, w: nat, outcome: Outcome)
    requires w in s.writers && s.writers[w].phase.Retrying?
    ensures DoRetry(s, w, outcome).store ==
      if outcome.NotApplied? then s.store
      else RunBlock(s.store, PublishCommand(s, s.writers[w], s.writers[w].phase.askedAt))
  {
  }

  lemma WriteHasEffect(s: State, w: nat, write: WriterAction)
    requires WriterEnabled(s, w, write)
    ensures var command := CommandOf(s, ByWriter(w, write));
      DoWrite(s, w, write).store == if command.Some? then RunBlock(s.store, command.value) else s.store
  {
    match write
    case StartPut(_, _, _, _, _, _) =>
    case WriteFile(_) =>
    case WriteFails(_) =>
    case Publish(askedAt, outcome) => PublishHasEffect(s, w, askedAt, outcome);
    case Retry(outcome) => RetryHasEffect(s, w, outcome);
    case Disconnect =>
    case UndoFile(_, _) =>
    case FinishRollback =>
  }

  /** A command queues the current version only, and a current version's task is not in flight. */
  lemma NotInFlight(r: RM.Redis, s: State, c: BlockCommand)
    requires Core(s) && Matches(r, s)
    ensures !RM.QueuesInFlight(r, c)
  {
    if Queues(s.store, c) {
      var v := Vid(c.key, s.store.blocks[c.key].generation);
      assert Known(s.versions, c.key, s.store.blocks[c.key]) && v in s.hist.committed;
      assert OnePlace(s, v);
      assert !Queued(s.versions, s.store.tasks, v);
    }
  }

  lemma {:induction false} LaterConsistent(r: RM.Redis, clock: int, later: int)
    requires RM.Consistent(r, clock) && clock <= later
    ensures RM.Consistent(r, later)
  {
  }

  lemma WorkMatches(r: RM.Redis, s: State, g: nat, work: WorkerAction, t: RM.Redis)
    requires Safe(s) && Matches(r, s) && WorkerEnabled(s, g, work) && WorkOnRedis(r, s, g, work, t)
    ensures Matches(t, DoWork(s, g, work))
  {
    match work
    case ClaimTask(id, leaseSeconds) => ClaimMatches(r, s, g, id, leaseSeconds, t);
    case CheckCurrent => PutBackMatches(r, s, g);
    case ReclaimFile(_) =>
    case FinishTask => RM.CompleteSimulates(r, s.clock, s.workers[g].task.id);
    case PutBack => PutBackMatches(r, s, g);
    case Crash =>
  }

  lemma ClaimMatches(r: RM.Redis, s: State, g: nat, id: TaskId, leaseSeconds: nat, t: RM.Redis)
    requires Matches(r, s) && id in s.store.tasks && TakesOne(r, s.clock, leaseSeconds, id, t)
    ensures Matches(t, LeaseTask(s, g, id, leaseSeconds))
  {
    var limit: nat, picked: seq<TaskId> :|
      && RM.IsRange(RM.RequeueLapsed(r, s.clock).due, s.clock, limit, picked) && RM.Leased(r, picked) == {id}
      && t == RM.TakeScript(r, s.clock, leaseSeconds, picked);
    RM.TakeSimulates(r, s.clock, s.clock, limit, leaseSeconds, picked);
    RM.TakeConsistent(r, s.clock, s.clock, limit, leaseSeconds, picked);
  }

  lemma PutBackMatches(r: RM.Redis, s: State, g: nat)
    requires Matches(r, s) && g in s.workers
    ensures Matches(PutBackOnRedis(r, s, g), Requeue(s, g))
  {
    var worker := s.workers[g];
    var attempts := worker.task.attempts + 1;
    var task := worker.task.(attempts := attempts, notBefore := worker.claimedAt + Backoff(attempts));
    RM.RescheduleSimulates(r, s.clock, task);
  }

  lemma StepMatches(r: RM.Redis, s: State, step: Step, t: RM.Redis)
    requires Core(s) && Matches(r, s) && Enabled(s, step) && StepOnRedis(r, s, step, t)
    ensures Matches(t, Do(s, step))
  {
    if step.ByWorker? {
      WorkMatches(r, s, step.g, step.work, t);
    } else {
      CommandMatches(r, s, step, t);
      CommandHasEffect(s, step);
      LaterConsistent(t, s.clock, Do(s, step).clock);
    }
  }

  lemma CommandMatches(r: RM.Redis, s: State, step: Step, t: RM.Redis)
    requires Core(s) && Matches(r, s) && Enabled(s, step) && !step.ByWorker? && StepOnRedis(r, s, step, t)
    ensures RM.Consistent(t, s.clock)
    ensures RM.View(t) == if CommandOf(s, step).Some? then RunBlock(s.store, CommandOf(s, step).value) else s.store
  {
    if CommandOf(s, step).Some? {
      NotInFlight(r, s, CommandOf(s, step).value);
      RM.BlockSimulates(r, s.clock, CommandOf(s, step).value);
    }
  }

  // ---------------------------------------------------------------------------------------------
  // Runs

  /** `redis` carries out the run: it starts empty and follows every step with that step's scripts. */
  ghost predicate CarriesOut(redis: seq<RM.Redis>, grace: nat, states: seq<State>, steps: seq<Step>)
    requires IsRun(grace, states, steps)
  {
    && |redis| == |states| && redis[0] == RM.Redis(map[], map[], map[], map[], map[])
    && forall k :: 0 <= k < |steps| ==> StepOnRedis(redis[k], states[k], steps[k], redis[k + 1])
  }

  /**
   * Every run of the protocol in which no publish takes effect twice, carried out on the Redis
   * structures: they hold the protocol's store at every moment and stay consistent.
   */
  lemma {:induction false} ProtocolRunsOnRedis(redis: seq<RM.Redis>, grace: nat, states: seq<State>, steps: seq<Step>,
                                               k: nat)
    requires IsRun(grace, states, steps) && AtMostOnce(states, steps) && CarriesOut(redis, grace, states, steps)
    requires k < |states|
    ensures Matches(redis[k], states[k])
    decreases k
  {
    if k > 0 {
      ProtocolRunsOnRedis(redis, grace, states, steps, k - 1);
      RunStrong(grace, states, steps, k - 1);
      StepMatches(redis[k - 1], states[k - 1], steps[k - 1], redis[k]);
    }
  }

  /** So no command of such a run queues a task that is in flight. */
  lemma ProtocolNeverQueuesInFlight(redis: seq<RM.Redis>, grace: nat, states: seq<State>, steps: seq<Step>, k: nat)
    requires IsRun(grace, states, steps) && AtMostOnce(states, steps) && CarriesOut(redis, grace, states, steps)
    requires k < |steps| && CommandOf(states[k], steps[k]).Some?
    ensures !RM.QueuesInFlight(redis[k], CommandOf(states[k], steps[k]).value)
  {
    ProtocolRunsOnRedis(redis, grace, states, steps, k);
    RunStrong(grace, states, steps, k);
    NotInFlight(redis[k], states[k], CommandOf(states[k], steps[k]).value);
  }

  // ---------------------------------------------------------------------------------------------
  // With a publish applied twice, a task in flight is queued again

  /** Nothing in flight, and every due entry has its payload. */
  ghost predicate Tidy(r: RM.Redis) {
    r.inflight == map[] && r.due.Keys == r.payload.Keys
  }

  lemma BlockTidy(r: RM.Redis, c: BlockCommand)
    requires Tidy(r)
    ensures Tidy(RM.BlockScript(r, c))
  {
  }

  /** The scripts of a run in which no collector takes part. */
  lemma {:induction false} CarryOut(grace: nat, states: seq<State>, steps: seq<Step>) returns (redis: seq<RM.Redis>)
    requires IsRun(grace, states, steps) && NoWork(steps)
    ensures CarriesOut(redis, grace, states, steps) && Tidy(redis[|steps|])
    decreases |steps|
  {
    if steps == [] {
      redis := [RM.Redis(map[], map[], map[], map[], map[])];
    } else {
      var n := |steps| - 1;
      var before, done := states[..n + 1], steps[..n];
      redis := CarryOut(grace, before, done);
      redis := CarryOn(redis, grace, before, done, steps[n]);
      assert before + [Do(before[n], steps[n])] == states && done + [steps[n]] == steps;
    }
  }

  /** One more step, with what the structures are after it. */
  lemma CarryStep(redis: seq<RM.Redis>, grace: nat, states: seq<State>, steps: seq<Step>, step: Step, t: RM.Redis)
    requires IsRun(grace, states, steps) && CarriesOut(redis, grace, states, steps)
    requires Enabled(states[|steps|], step) && StepOnRedis(redis[|steps|], states[|steps|], step, t)
    ensures IsRun(grace, states + [Do(states[|steps|], step)], steps + [step])
    ensures CarriesOut(redis + [t], grace, states + [Do(states[|steps|], step)], steps + [step])
  {
    var longer := Extend(grace, states, steps, step);
    forall k | 0 <= k < |steps| + 1
      ensures StepOnRedis((redis + [t])[k], longer[k], (steps + [step])[k], (redis + [t])[k + 1])
    {
      if k < |steps| {
        assert StepOnRedis(redis[k], states[k], steps[k], redis[k + 1]);
      }
    }
  }

  /** One more step, not a collector's. */
  lemma CarryOn(redis: seq<RM.Redis>, grace: nat, states: seq<State>, steps: seq<Step>, step: Step)
    returns (longer: seq<RM.Redis>)
    requires IsRun(grace, states, steps) && CarriesOut(redis, grace, states, steps)
    requires Enabled(states[|steps|], step) && !step.ByWorker?
    ensures IsRun(grace, states + [Do(states[|steps|], step)], steps + [step])
    ensures CarriesOut(longer, grace, states + [Do(states[|steps|], step)], steps + [step])
    ensures longer[..|redis|] == redis && (Tidy(redis[|steps|]) ==> Tidy(longer[|steps| + 1]))
    ensures StepOnRedis(redis[|steps|], states[|steps|], step, longer[|steps| + 1])
  {
    var r, c := redis[|steps|], CommandOf(states[|steps|], step);
    if c.Some? && Tidy(r) {
      BlockTidy(r, c.value);
    }
    var t := if c.Some? then RM.BlockScript(r, c.value) else r;
    CarryStep(redis, grace, states, steps, step, t);
    longer := redis + [t];
  }

  /** A claim of the only task there is. */
  lemma ClaimOnly(r: RM.Redis, s: State, id: TaskId, leaseSeconds: nat) returns (t: RM.Redis)
    requires Matches(r, s) && Tidy(r) && s.store.tasks.Keys == {id} && s.store.tasks[id].notBefore <= s.clock
    ensures TakesOne(r, s.clock, leaseSeconds, id, t)
  {
    var z := RM.RequeueLapsed(r, s.clock).due;
    assert RM.Lapsed(r.inflight, s.clock) == map[] && z == r.due;
    assert id in r.payload && id in r.due && r.due[id] <= s.clock;
    assert RM.IsRange(z, s.clock, 1, [id]) && RM.Leased(r, [id]) == {id};
    t := RM.TakeScript(r, s.clock, leaseSeconds, [id]);
  }

  /** A collector's claim of the only task there is, carried out. */
  lemma CarryClaim(redis: seq<RM.Redis>, grace: nat, states: seq<State>, steps: seq<Step>, id: TaskId)
    returns (longer: seq<RM.Redis>)
    requires IsRun(grace, states, steps) && CarriesOut(redis, grace, states, steps)
    requires var r, s := redis[|steps|], states[|steps|];
      Matches(r, s) && Tidy(r) && s.store.tasks.Keys == {id} && Enabled(s, ByWorker(0, ClaimTask(id, 60)))
    ensures var claim := ByWorker(0, ClaimTask(id, 60));
      && IsRun(grace, states + [Do(states[|steps|], claim)], steps + [claim])
      && CarriesOut(longer, grace, states + [Do(states[|steps|], claim)], steps + [claim])
  {
    var t := ClaimOnly(redis[|steps|], states[|steps|], id, 60);
    CarryStep(redis, grace, states, steps, ByWorker(0, ClaimTask(id, 60)), t);
    longer := redis + [t];
  }

  /** A version overwritten and being reclaimed, while its writer still waits for a reply. */
  ghost predicate Reclaiming(s: State, key: Key) {
    && s.clock == 0 && s.grace == 0 && s.store.blocks == map[key := OneByte(key, 2)]
    && TaskIdOf(key, OneByte(key, 1)) in s.store.tasks && TaskIdOf(key, OneByte(key, 1)) in s.store.leases
    && 0 in s.writers && s.writers[0] == Writer(key, Version(OneByte(key, 1), [[1]]), false, Retrying(0))
  }

  lemma ClaimRaced(key: Key) returns (states: seq<State>, steps: seq<Step>, redis: seq<RM.Redis>)
    ensures IsRun(0, states, steps) && AtMostOnce(states, steps) && CarriesOut(redis, 0, states, steps)
    ensures Reclaiming(states[|steps|], key)
  {
    states, steps := RacedPuts(key);
    redis := CarryOut(0, states, steps);
    ProtocolRunsOnRedis(redis, 0, states, steps, |steps|);
    var claim := ByWorker(0, ClaimTask(TaskIdOf(key, OneByte(key, 1)), 60));
    redis := CarryClaim(redis, 0, states, steps, claim.work.id);
    states := Extend(0, states, steps, claim);
    steps := steps + [claim];
  }

  /** A version with a queued task was published. */
  lemma PublishedAlready(s: State, key: Key)
    requires Core(s) && Reclaiming(s, key)
    ensures Reapplies(s, ByWriter(0, Retry(Answered)))
  {
    assert WriterOk(s.versions, s.files, s.writers[0]);
    QueuedIsPublished(s, VidOfWriter(s.writers[0]));
  }

  lemma ReapplyEffect(s: State, key: Key)
    requires Reclaiming(s, key)
    ensures var t := DoRetry(s, 0, Answered);
      && t.clock == 0 && t.grace == 0 && t.store.blocks == map[key := OneByte(key, 1)]
      && TaskIdOf(key, OneByte(key, 1)) in t.store.leases
  {
  }

  /** The writer's second run makes the version current again. */
  lemma ReapplyRaced(key: Key) returns (states: seq<State>, steps: seq<Step>, redis: seq<RM.Redis>)
    ensures IsRun(0, states, steps) && CarriesOut(redis, 0, states, steps)
    ensures |steps| > 0 && Reapplies(states[|steps| - 1], steps[|steps| - 1])
    ensures var s := states[|steps|];
      && Matches(redis[|steps|], s) && s.clock == 0 && s.grace == 0 && s.store.blocks == map[key := OneByte(key, 1)]
      && TaskIdOf(key, OneByte(key, 1)) in s.store.leases
  {
    states, steps, redis := ClaimRaced(key);
    var n, retry := |steps|, ByWriter(0, Retry(Answered));
    RunStrong(0, states, steps, n);
    PublishedAlready(states[n], key);
    ReapplyEffect(states[n], key);
    ProtocolRunsOnRedis(redis, 0, states, steps, n);
    redis := CarryOn(redis, 0, states, steps, retry);
    states := Extend(0, states, steps, retry);
    steps := steps + [retry];
    StepMatches(redis[n], states[n], retry, redis[n + 1]);
  }

  /**
   * With a publish applied twice, a run whose next delete queues a task that is in flight, and leaves
   * the structures inconsistent.
   */
  lemma RepeatedPublishQueuesInFlight(key: Key) returns (states: seq<State>, steps: seq<Step>, redis: seq<RM.Redis>)
    ensures IsRun(0, states, steps) && CarriesOut(redis, 0, states, steps)
    ensures |steps| > 1 && Reapplies(states[|steps| - 2], steps[|steps| - 2]) && steps[|steps| - 1] == Delete(key, 0)
    ensures RM.QueuesInFlight(redis[|steps| - 1], RetireCmd(key, 0))
    ensures !RM.Consistent(redis[|steps|], states[|steps|].clock)
  {
    states, steps, redis := ReapplyRaced(key);
    var n := |steps|;
    RM.BlockSimulates(redis[n], 0, RetireCmd(key, 0));
    redis := CarryOn(redis, 0, states, steps, Delete(key, 0));
    states := Extend(0, states, steps, Delete(key, 0));
    steps := steps + [Delete(key, 0)];
  }
}
