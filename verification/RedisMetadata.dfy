/**
 * The Redis metadata backend. Reclaim tasks live in three structures: a payload per task, a sorted
 * set of due tasks and a sorted set of in-flight ones, moved between by server-side scripts. The
 * lemmas relate them to the queue of `Metadata`: payloads are its tasks, in-flight scores its leases.
 */
module RedisMetadata {
  import opened Types
  import opened Metadata
  import opened GcLease

  /** A sorted set: member to score. */
  type ZSet = map<TaskId, int>

  datatype Redis = Redis(
    blocks: map<Key, BlockMeta>,
    generations: map<Key, nat>,
    payload: map<TaskId, GcTask>,
    due: ZSet,
    inflight: ZSet)

  function View(r: Redis): Store {
    Store(r.blocks, r.generations, r.payload, r.inflight)
  }

  ghost predicate Keyed(payload: map<TaskId, GcTask>) {
    forall id <- payload :: payload[id].id == id
  }

  /** Every payload is under its own id, and in flight or due; a due score decides like the task's not-before time. */
  ghost predicate Consistent(r: Redis, clock: int) {
    && Keyed(r.payload)
    && r.inflight.Keys <= r.payload.Keys
    && (forall id <- r.payload :: id in r.due <==> id !in r.inflight)
    && (forall id <- r.payload :: id in r.due ==>
          r.due[id] == r.payload[id].notBefore || (r.due[id] <= clock && r.payload[id].notBefore <= clock))
    && (forall id <- r.inflight :: r.payload[id].notBefore <= clock)
  }

  // ---------------------------------------------------------------------------------------------
  // Scripts

  /** `HSET` of the payload and `ZADD` to the due set. */
  function EnqueueScript(r: Redis, key: Key, retired: BlockMeta, notBefore: int): Redis {
    var id := TaskIdOf(key, retired);
    r.(payload := r.payload[id := TaskOf(key, retired, notBefore)], due := r.due[id := notBefore])
  }

  /** The metadata commands and scripts. */
  function BlockScript(r: Redis, c: BlockCommand): Redis {
    var current := if c.key in r.blocks then Some(r.blocks[c.key]) else None;
    match c
    case CommitCmd(key, meta) => if current.None? then r.(blocks := r.blocks[key := meta]) else r
    case ReplaceCmd(key, meta, notBefore) =>
      var published := r.(blocks := r.blocks[key := meta]);
      if current.None? then published else EnqueueScript(published, key, current.value, notBefore)
    case RetireCmd(key, notBefore) =>
      if current.None? then r else EnqueueScript(r.(blocks := r.blocks - {key}), key, current.value, notBefore)
    case RetireIfCmd(key, expected, notBefore) =>
      if current.None? || !SameVersion(current.value, expected) then r
      else EnqueueScript(r.(blocks := r.blocks - {key}), key, current.value, notBefore)
    case DeleteIfCmd(key, expected) =>
      if current.None? || current.value.generation != expected.generation then r else r.(blocks := r.blocks - {key})
    case GenerationCmd(key) => r.(generations := r.generations[key := CurrentGeneration(View(r), key) + 1])
  }

  /** The command queues a version whose task is in flight. */
  predicate QueuesInFlight(r: Redis, c: BlockCommand) {
    Queues(View(r), c) && TaskIdOf(c.key, r.blocks[c.key]) in r.inflight
  }

  /** Lapsed leases, due at `now`. */
  function Lapsed(inflight: ZSet, now: int): ZSet {
    map id | id in inflight && inflight[id] <= now :: now
  }

  /** First half of a claim: lapsed leases go back to the due set, due now. */
  function RequeueLapsed(r: Redis, now: int): Redis {
    r.(inflight := Running(r.inflight, now),
       due := r.due + Lapsed(r.inflight, now))
  }

  function Leases(payload: map<TaskId, GcTask>, ids: set<TaskId>, until: int): ZSet {
    map id | id in ids && id in payload :: until
  }

  /** Second half: the picked members leave the due set; those that still have a payload are leased. */
  function LeasePicked(r: Redis, now: int, leaseSeconds: nat, picked: seq<TaskId>): Redis {
    r.(due := r.due - Elements(picked),
       inflight := r.inflight + Leases(r.payload, Elements(picked), now + leaseSeconds))
  }

  function TakeScript(r: Redis, now: int, leaseSeconds: nat, picked: seq<TaskId>): Redis {
    LeasePicked(RequeueLapsed(r, now), now, leaseSeconds, picked)
  }

  /** `ZRANGEBYSCORE z -inf max LIMIT 0 limit`: members up to the score, lowest first, cut at the limit. */
  ghost predicate IsRange(z: ZSet, max: int, limit: nat, picked: seq<TaskId>) {
    && Distinct(picked) && |picked| <= limit
    && (forall id <- picked :: id in z && z[id] <= max)
    && (forall i, j :: 0 <= i < j < |picked| ==> z[picked[i]] <= z[picked[j]])
    && (forall x <- z :: z[x] <= max && x !in picked ==> |picked| == limit && forall id <- picked :: z[id] <= z[x])
  }

  /** Completion is two commands, `ZREM` and `DEL`; `done` of them have run. */
  function CompleteCommands(r: Redis, id: TaskId, done: nat): Redis {
    if done == 0 then r
    else if done == 1 then r.(inflight := r.inflight - {id})
    else r.(inflight := r.inflight - {id}, payload := r.payload - {id})
  }

  /** Rescheduling is three, `ZREM`, `HSET` and `ZADD`. */
  function RescheduleCommands(r: Redis, task: GcTask, done: nat): Redis {
    if done == 0 then r
    else if done == 1 then r.(inflight := r.inflight - {task.id})
    else if done == 2 then r.(inflight := r.inflight - {task.id}, payload := r.payload[task.id := task])
    else r.(inflight := r.inflight - {task.id}, payload := r.payload[task.id := task],
            due := r.due[task.id := task.notBefore])
  }

  // ---------------------------------------------------------------------------------------------
  // Simulation

  /**
   * Enqueuing always has the queue's effect on tasks and leases. It keeps the structures consistent
   * exactly when the task is not in flight.
   */
  lemma EnqueueSimulates(r: Redis, clock: int, key: Key, retired: BlockMeta, notBefore: int)
    requires Consistent(r, clock)
    ensures View(EnqueueScript(r, key, retired, notBefore)) == Enqueue(View(r), key, retired, notBefore)
    ensures Consistent(EnqueueScript(r, key, retired, notBefore), clock) <==> TaskIdOf(key, retired) !in r.inflight
  {
    var id := TaskIdOf(key, retired);
    var after := EnqueueScript(r, key, retired, notBefore);
    assert id in after.payload && id in after.due;
  }

  lemma SameQueue(r: Redis, t: Redis, clock: int)
    requires t.payload == r.payload && t.due == r.due && t.inflight == r.inflight
    ensures Consistent(t, clock) <==> Consistent(r, clock)
  {
  }

  lemma BlockView(r: Redis, c: BlockCommand)
    ensures View(BlockScript(r, c)) == RunBlock(View(r), c)
  {
  }

  /** The script is a change of the blocks, then an enqueue if it takes one. */
  lemma BlockShape(r: Redis, c: BlockCommand)
    ensures var t, before := BlockScript(r, c), r.(blocks := BlockScript(r, c).blocks);
      if Queues(View(r), c) then t == EnqueueScript(before, c.key, r.blocks[c.key], c.notBefore)
      else t.payload == r.payload && t.due == r.due && t.inflight == r.inflight
  {
  }

  /**
   * Every metadata command has its effect on blocks, generations, tasks and leases. It keeps the
   * structures consistent exactly when it does not queue a task that is in flight.
   */
  lemma BlockSimulates(r: Redis, clock: int, c: BlockCommand)
    requires Consistent(r, clock)
    ensures View(BlockScript(r, c)) == RunBlock(View(r), c)
    ensures Consistent(BlockScript(r, c), clock) <==> !QueuesInFlight(r, c)
  {
    var t := BlockScript(r, c);
    BlockView(r, c);
    BlockShape(r, c);
    if Queues(View(r), c) {
      var before := r.(blocks := t.blocks);
      SameQueue(r, before, clock);
      EnqueueSimulates(before, clock, c.key, r.blocks[c.key], c.notBefore);
    } else {
      SameQueue(r, t, clock);
    }
  }

  /** Otherwise the next claim with room to spare hands the task out while its lease is still running. */
  lemma EnqueueInFlightBreaksLease(r: Redis, clock: int, key: Key, retired: BlockMeta, notBefore: int,
                                   now: int, limit: nat, leaseSeconds: nat, picked: seq<TaskId>)
    requires Consistent(r, clock) && TaskIdOf(key, retired) in r.inflight
    requires notBefore <= now < r.inflight[TaskIdOf(key, retired)]
    requires IsRange(RequeueLapsed(EnqueueScript(r, key, retired, notBefore), now).due, now, limit, picked)
    requires |picked| < limit
    ensures TaskIdOf(key, retired) in picked
    ensures !Eligible(View(EnqueueScript(r, key, retired, notBefore)), now, TaskIdOf(key, retired))
  {
    var id := TaskIdOf(key, retired);
    var z := RequeueLapsed(EnqueueScript(r, key, retired, notBefore), now).due;
    assert id in z && z[id] <= now;
  }

  /** The members a claim leases: picked ones whose payload is still there. */
  function Leased(r: Redis, picked: seq<TaskId>): set<TaskId> {
    set id | id in picked && id in r.payload
  }

  lemma PickedIsEligible(r: Redis, clock: int, now: int, id: TaskId)
    requires Consistent(r, clock) && clock <= now && id in r.payload
    ensures var z := RequeueLapsed(r, now).due;
      (id in z && z[id] <= now) <==> Eligible(View(r), now, id)
  {
  }

  lemma LeasedCount(r: Redis, picked: seq<TaskId>)
    requires Distinct(picked)
    ensures |Leased(r, picked)| <= |picked|
  {
    DistinctCount(picked);
    SubsetSize(Leased(r, picked), Elements(picked));
  }

  lemma LeasedAreEligible(r: Redis, clock: int, now: int, limit: nat, picked: seq<TaskId>)
    requires Consistent(r, clock) && clock <= now
    requires IsRange(RequeueLapsed(r, now).due, now, limit, picked)
    ensures forall id <- Leased(r, picked) :: Eligible(View(r), now, id)
    ensures |picked| < limit ==> forall id :: Eligible(View(r), now, id) ==> id in Leased(r, picked)
  {
    forall id <- r.payload
      ensures id in picked ==> Eligible(View(r), now, id)
      ensures |picked| < limit && Eligible(View(r), now, id) ==> id in picked
    {
      PickedIsEligible(r, clock, now, id);
    }
  }

  /**
   * One claim script is one claim of the queue: what it returns is eligible and within the limit,
   * dangling due entries, lapsed leases and all. With room to spare it returns everything eligible.
   */
  lemma TakeSimulates(r: Redis, clock: int, now: int, limit: nat, leaseSeconds: nat, picked: seq<TaskId>)
    requires Consistent(r, clock) && clock <= now
    requires IsRange(RequeueLapsed(r, now).due, now, limit, picked)
    ensures Claimable(View(r), now, limit, Leased(r, picked))
    ensures View(TakeScript(r, now, leaseSeconds, picked)) == Claim(View(r), now, leaseSeconds, Leased(r, picked))
    ensures |picked| < limit ==> forall id :: Eligible(View(r), now, id) ==> id in Leased(r, picked)
  {
    LeasedCount(r, picked);
    LeasedAreEligible(r, clock, now, limit, picked);
    ViewOfTake(r, now, leaseSeconds, picked);
  }

  lemma ViewOfTake(r: Redis, now: int, leaseSeconds: nat, picked: seq<TaskId>)
    ensures View(TakeScript(r, now, leaseSeconds, picked)) == Claim(View(r), now, leaseSeconds, Leased(r, picked))
  {
    var until := now + leaseSeconds;
    assert Leases(r.payload, Elements(picked), until) == map id | id in Leased(r, picked) :: until;
  }

  lemma TakeEntry(r: Redis, clock: int, now: int, limit: nat, leaseSeconds: nat, picked: seq<TaskId>, id: TaskId)
    requires Consistent(r, clock) && clock <= now && id in r.payload
    requires IsRange(RequeueLapsed(r, now).due, now, limit, picked)
    ensures var after := TakeScript(r, now, leaseSeconds, picked);
      && (id in after.due <==> id !in after.inflight)
      && (id in after.due ==>
            after.due[id] == r.payload[id].notBefore || (after.due[id] <= now && r.payload[id].notBefore <= now))
      && (id in after.inflight ==> r.payload[id].notBefore <= now)
  {
    PickedIsEligible(r, clock, now, id);
  }

  lemma TakeConsistent(r: Redis, clock: int, now: int, limit: nat, leaseSeconds: nat, picked: seq<TaskId>)
    requires Consistent(r, clock) && clock <= now
    requires IsRange(RequeueLapsed(r, now).due, now, limit, picked)
    ensures Consistent(TakeScript(r, now, leaseSeconds, picked), now)
  {
    var after := TakeScript(r, now, leaseSeconds, picked);
    forall id <- r.payload
      ensures id in after.due <==> id !in after.inflight
      ensures id in after.due ==>
        after.due[id] == r.payload[id].notBefore || (after.due[id] <= now && r.payload[id].notBefore <= now)
      ensures id in after.inflight ==> r.payload[id].notBefore <= now
    {
      TakeEntry(r, clock, now, limit, leaseSeconds, picked, id);
    }
  }

  /** Completing a task, even after its lease lapsed or another worker claimed it. */
  lemma CompleteSimulates(r: Redis, clock: int, id: TaskId)
    requires Consistent(r, clock)
    ensures View(CompleteCommands(r, id, 2)) == Complete(View(r), id) && Consistent(CompleteCommands(r, id, 2), clock)
  {
  }

  /** Rescheduling a task, even one that was completed meanwhile. */
  lemma RescheduleSimulates(r: Redis, clock: int, task: GcTask)
    requires Consistent(r, clock)
    ensures View(RescheduleCommands(r, task, 3)) == Reschedule(View(r), task)
    ensures Consistent(RescheduleCommands(r, task, 3), clock)
  {
  }

  // ---------------------------------------------------------------------------------------------
  // Whole histories

  datatype RedisOp =
    | RBlock(command: BlockCommand)
    | RTake(now: int, limit: nat, leaseSeconds: nat, picked: seq<TaskId>)
    | RComplete(id: TaskId)
    | RReschedule(task: GcTask)

  ghost predicate RAllowed(r: Redis, clock: int, op: RedisOp) {
    match op
    case RBlock(_) => true
    case RTake(now, limit, _, picked) => clock <= now && IsRange(RequeueLapsed(r, now).due, now, limit, picked)
    case RComplete(_) => true
    case RReschedule(_) => true
  }

  function RPerform(r: Redis, op: RedisOp): Redis {
    match op
    case RBlock(command) => BlockScript(r, command)
    case RTake(now, _, leaseSeconds, picked) => TakeScript(r, now, leaseSeconds, picked)
    case RComplete(id) => CompleteCommands(r, id, 2)
    case RReschedule(task) => RescheduleCommands(r, task, 3)
  }

  function After(clock: int, op: RedisOp): int {
    if op.RTake? then op.now else clock
  }

  /** `clocks[k]` is the time of the last claim before step `k`. */
  ghost predicate IsRedisHistory(states: seq<Redis>, clocks: seq<int>, ops: seq<RedisOp>) {
    && |states| == |clocks| == |ops| + 1
    && Consistent(states[0], clocks[0])
    && forall k :: 0 <= k < |ops| ==>
         && RAllowed(states[k], clocks[k], ops[k])
         && states[k + 1] == RPerform(states[k], ops[k]) && clocks[k + 1] == After(clocks[k], ops[k])
  }

  /** The queue command a Redis command carries out. */
  function Abstract(r: Redis, op: RedisOp): QueueOp {
    match op
    case RBlock(command) => BlockOp(command)
    case RTake(now, limit, leaseSeconds, picked) => ClaimOp(now, limit, leaseSeconds, Leased(r, picked))
    case RComplete(id) => CompleteOp(id)
    case RReschedule(task) => RescheduleOp(task)
  }

  /** One command: the queue's effect always, consistency exactly when no task in flight is queued again. */
  lemma StepSimulates(r: Redis, clock: int, op: RedisOp)
    requires Consistent(r, clock) && RAllowed(r, clock, op)
    ensures Allowed(View(r), Abstract(r, op)) && View(RPerform(r, op)) == Perform(View(r), Abstract(r, op))
    ensures Consistent(RPerform(r, op), After(clock, op)) <==> !(op.RBlock? && QueuesInFlight(r, op.command))
  {
    match op
    case RBlock(command) => BlockSimulates(r, clock, command);
    case RTake(now, limit, leaseSeconds, picked) =>
      TakeSimulates(r, clock, now, limit, leaseSeconds, picked);
      TakeConsistent(r, clock, now, limit, leaseSeconds, picked);
    case RComplete(id) => CompleteSimulates(r, clock, id);
    case RReschedule(task) => RescheduleSimulates(r, clock, task);
  }

  /** No command of the history queues a task that is in flight. */
  ghost predicate NeverInFlight(states: seq<Redis>, ops: seq<RedisOp>)
    requires |states| == |ops| + 1
  {
    forall k :: 0 <= k < |ops| && ops[k].RBlock? ==> !QueuesInFlight(states[k], ops[k].command)
  }

  ghost predicate ConsistentThroughout(states: seq<Redis>, clocks: seq<int>)
    requires |states| == |clocks|
  {
    forall k :: 0 <= k < |states| ==> Consistent(states[k], clocks[k])
  }

  /**
   * Over every history of the Redis structures: they stay consistent throughout exactly when no
   * command queues a task in flight, and then the history, seen through `View`, is one of the queue.
   */
  lemma {:induction false} RedisRefinesQueue(states: seq<Redis>, clocks: seq<int>, ops: seq<RedisOp>)
    requires IsRedisHistory(states, clocks, ops)
    ensures ConsistentThroughout(states, clocks) <==> NeverInFlight(states, ops)
    ensures NeverInFlight(states, ops) ==> IsHistory(Views(states), AbstractAll(states, ops))
  {
    if NeverInFlight(states, ops) {
      forall k | 0 <= k < |states|
        ensures Consistent(states[k], clocks[k])
      {
        ConsistentAt(states, clocks, ops, k);
      }
      HistoryOfViews(states, clocks, ops);
    }
    if ConsistentThroughout(states, clocks) {
      forall k | 0 <= k < |ops| && ops[k].RBlock?
        ensures !QueuesInFlight(states[k], ops[k].command)
      {
        assert Consistent(states[k], clocks[k]) && Consistent(states[k + 1], clocks[k + 1]);
        StepSimulates(states[k], clocks[k], ops[k]);
      }
    }
  }

  lemma HistoryOfViews(states: seq<Redis>, clocks: seq<int>, ops: seq<RedisOp>)
    requires IsRedisHistory(states, clocks, ops) && ConsistentThroughout(states, clocks)
    ensures IsHistory(Views(states), AbstractAll(states, ops))
  {
    forall k | 0 <= k < |ops|
      ensures Allowed(View(states[k]), Abstract(states[k], ops[k]))
      ensures View(states[k + 1]) == Perform(View(states[k]), Abstract(states[k], ops[k]))
    {
      StepSimulates(states[k], clocks[k], ops[k]);
    }
    forall i, j | 0 <= i < j < |ops| && ops[i].RTake? && ops[j].RTake?
      ensures ops[i].now <= ops[j].now
    {
      ClockAdvances(states, clocks, ops, i + 1, j);
    }
  }

  lemma {:induction false} ConsistentAt(states: seq<Redis>, clocks: seq<int>, ops: seq<RedisOp>, k: nat)
    requires IsRedisHistory(states, clocks, ops) && NeverInFlight(states, ops) && k < |states|
    ensures Consistent(states[k], clocks[k])
  {
    if k > 0 {
      ConsistentAt(states, clocks, ops, k - 1);
      StepSimulates(states[k - 1], clocks[k - 1], ops[k - 1]);
    }
  }

  lemma {:induction false} ClockAdvances(states: seq<Redis>, clocks: seq<int>, ops: seq<RedisOp>, i: nat, j: nat)
    requires IsRedisHistory(states, clocks, ops) && i <= j < |states|
    ensures clocks[i] <= clocks[j]
    decreases j - i
  {
    if i < j {
      ClockAdvances(states, clocks, ops, i, j - 1);
    }
  }

  function Views(states: seq<Redis>): seq<Store> {
    seq(|states|, k requires 0 <= k < |states| => View(states[k]))
  }

  function AbstractAll(states: seq<Redis>, ops: seq<RedisOp>): seq<QueueOp>
    requires |states| == |ops| + 1
  {
    seq(|ops|, k requires 0 <= k < |ops| => Abstract(states[k], ops[k]))
  }

  /** So a task claimed from Redis is not handed out again until its lease has run out. */
  lemma RedisLeasesHold(states: seq<Redis>, clocks: seq<int>, ops: seq<RedisOp>, i: nat, j: nat, id: TaskId)
    requires IsRedisHistory(states, clocks, ops) && NeverInFlight(states, ops)
    requires i < j < |ops| && ops[i].RTake? && ops[j].RTake?
    requires id in Leased(states[i], ops[i].picked) && id in Leased(states[j], ops[j].picked)
    requires forall k :: i < k < j ==> !Touches(View(states[k]), Abstract(states[k], ops[k]), id)
    ensures ops[i].now + ops[i].leaseSeconds <= ops[j].now
  {
    RedisRefinesQueue(states, clocks, ops);
    ClaimsAreALeaseApart(Views(states), AbstractAll(states, ops), i, j, id);
  }

  // ---------------------------------------------------------------------------------------------
  // Interrupted commands

  /** The payload is there, but neither set leads to it. */
  predicate Stranded(r: Redis, id: TaskId) {
    id in r.payload && id !in r.due && id !in r.inflight
  }

  /** Cut after its first command, a completion strands the task exactly when it was in flight; repeating it heals. */
  lemma InterruptedComplete(r: Redis, clock: int, id: TaskId)
    requires Consistent(r, clock) && id in r.payload
    ensures Stranded(CompleteCommands(r, id, 1), id) <==> id in r.inflight
    ensures CompleteCommands(CompleteCommands(r, id, 1), id, 2) == CompleteCommands(r, id, 2)
  {
    assert r.inflight - {id} - {id} == r.inflight - {id};
  }

  /** A reschedule cut after one or two commands strands the task exactly when it has a payload and is not due. */
  lemma InterruptedReschedule(r: Redis, clock: int, task: GcTask, done: nat)
    requires Consistent(r, clock) && 1 <= done < 3
    ensures Stranded(RescheduleCommands(r, task, done), task.id) <==>
      task.id !in r.due && (done == 2 || task.id in r.payload)
    ensures RescheduleCommands(RescheduleCommands(r, task, done), task, 3) == RescheduleCommands(r, task, 3)
  {
    assert r.inflight - {task.id} - {task.id} == r.inflight - {task.id};
    assert r.payload[task.id := task][task.id := task] == r.payload[task.id := task];
  }

  /** One command of the history, which neither enqueues, completes nor reschedules the task. */
  ghost predicate StepsPast(r: Redis, op: RedisOp, t: Redis, id: TaskId) {
    && t == RPerform(r, op) && !Touches(View(r), Abstract(r, op), id)
    && (op.RTake? ==> IsRange(RequeueLapsed(r, op.now).due, op.now, op.limit, op.picked))
  }

  /** A stranded task is never claimed again unless it is enqueued, completed or rescheduled anew. */
  lemma {:induction false} StrandedForever(states: seq<Redis>, ops: seq<RedisOp>, i: nat, j: nat, id: TaskId)
    requires |states| == |ops| + 1 && i <= j < |states| && Stranded(states[i], id)
    requires forall k :: i <= k < j ==> StepsPast(states[k], ops[k], states[k + 1], id)
    ensures Stranded(states[j], id)
    ensures forall k :: i <= k < j && ops[k].RTake? ==> id !in Leased(states[k], ops[k].picked)
    decreases j - i
  {
    if i < j {
      StrandedForever(states, ops, i, j - 1, id);
      StrandedStep(states[j - 1], ops[j - 1], states[j], id);
    }
  }

  lemma StrandedStep(r: Redis, op: RedisOp, t: Redis, id: TaskId)
    requires Stranded(r, id) && StepsPast(r, op, t, id)
    ensures Stranded(t, id)
    ensures op.RTake? ==> id !in Leased(r, op.picked)
  {
    match op
    case RBlock(command) =>
      assert Queues(View(r), command) ==> TaskIdOf(command.key, r.blocks[command.key]) != id;
    case RTake(now, limit, _, picked) =>
      assert id !in RequeueLapsed(r, now).due;
      assert id !in picked;
    case RComplete(other) =>
    case RReschedule(task) =>
  }

  // ---------------------------------------------------------------------------------------------
  // The backend

  /** `ZRANGEBYSCORE`: repeatedly the lowest remaining member. */
  method RangeByScore(z: ZSet, max: int, limit: nat) returns (picked: seq<TaskId>)
    ensures IsRange(z, max, limit, picked)
  {
    picked := [];
    var pool := set id | id in z && z[id] <= max;
    while pool != {} && |picked| < limit
      invariant Distinct(picked) && |picked| <= limit
      invariant forall id <- picked :: id in z && z[id] <= max && id !in pool
      invariant forall i, j :: 0 <= i < j < |picked| ==> z[picked[i]] <= z[picked[j]]
      invariant forall x <- pool :: x in z && z[x] <= max && forall id <- picked :: z[id] <= z[x]
      invariant forall x <- z :: z[x] <= max ==> x in pool || x in picked
      decreases |pool|
    {
      var lowest := Lowest(z, pool);
      picked := picked + [lowest];
      pool := pool - {lowest};
    }
  }

  method Lowest(z: ZSet, pool: set<TaskId>) returns (lowest: TaskId)
    requires pool != {} && pool <= z.Keys
    ensures lowest in pool && forall x <- pool :: z[lowest] <= z[x]
  {
    lowest :| lowest in pool;
    var rest := pool - {lowest};
    while rest != {}
      invariant rest <= pool && lowest in pool
      invariant forall x <- pool - rest :: z[lowest] <= z[x]
      decreases |rest|
    {
      var x :| x in rest;
      rest := rest - {x};
      if z[x] < z[lowest] {
        lowest := x;
      }
    }
  }

  /** Members of `inflight` missing from `kept`, due at `now`. */
  function DueAgain(inflight: ZSet, kept: set<TaskId>, now: int): ZSet {
    map id | id in inflight && id !in kept :: now
  }

  lemma DueAgainStep(due: ZSet, inflight: ZSet, kept: set<TaskId>, now: int, id: TaskId)
    requires id in inflight
    ensures (due + DueAgain(inflight, kept, now))[id := now] == due + DueAgain(inflight, kept - {id}, now)
  {
  }

  lemma AllMoved(inflight: ZSet, now: int)
    ensures DueAgain(inflight, Running(inflight, now).Keys, now) == Lapsed(inflight, now)
  {
  }

  /** Moves every lapsed lease back to the due set. */
  method Requeue(due: ZSet, inflight: ZSet, now: int) returns (due': ZSet, inflight': ZSet)
    ensures inflight' == Running(inflight, now)
    ensures due' == due + Lapsed(inflight, now)
  {
    due', inflight' := due, inflight;
    var lapsed := set id | id in inflight && inflight[id] <= now;
    while lapsed != {}
      invariant forall id :: id in lapsed <==> id in inflight' && inflight'[id] <= now
      invariant forall id <- inflight' :: id in inflight && inflight'[id] == inflight[id]
      invariant forall id <- inflight :: id !in inflight' ==> inflight[id] <= now
      invariant due' == due + DueAgain(inflight, inflight'.Keys, now)
      decreases |lapsed|
    {
      var id :| id in lapsed;
      DueAgainStep(due, inflight, inflight'.Keys, now, id);
      lapsed := lapsed - {id};
      inflight' := inflight' - {id};
      due' := due'[id := now];
    }
    assert inflight' == Running(inflight, now);
    AllMoved(inflight, now);
  }

  /** `taken` are the payloads of the picked members that still have one, in order: `at` says where each was picked. */
  ghost predicate HandsOut(payload: map<TaskId, GcTask>, picked: seq<TaskId>, at: seq<nat>, taken: seq<GcTask>) {
    && |at| == |taken|
    && (forall i, j :: 0 <= i < j < |at| ==> at[i] < at[j])
    && (forall k :: 0 <= k < |at| ==>
          at[k] < |picked| && picked[at[k]] in payload && taken[k] == payload[picked[at[k]]])
    && (forall n :: 0 <= n < |picked| && picked[n] in payload ==> n in at)
  }

  lemma HandOutNext(payload: map<TaskId, GcTask>, picked: seq<TaskId>, at: seq<nat>, taken: seq<GcTask>, id: TaskId)
    requires HandsOut(payload, picked, at, taken)
    ensures id !in payload ==> HandsOut(payload, picked + [id], at, taken)
    ensures id in payload ==> HandsOut(payload, picked + [id], at + [|picked|], taken + [payload[id]])
  {
  }

  function Ids(tasks: seq<GcTask>): (ids: seq<TaskId>)
    ensures |ids| == |tasks| && forall k :: 0 <= k < |ids| ==> ids[k] == tasks[k].id
  {
    seq(|tasks|, k requires 0 <= k < |tasks| => tasks[k].id)
  }

  /** A worker gets each leased task once, as it is stored; nothing ineligible; with room, everything eligible. */
  ghost predicate AnswersClaim(r: Redis, now: int, limit: nat, picked: seq<TaskId>, taken: seq<GcTask>) {
    && Distinct(Ids(taken)) && Elements(Ids(taken)) == Leased(r, picked)
    && (forall task <- taken :: task.id in r.payload && task == r.payload[task.id])
    && (forall task <- taken :: Eligible(View(r), now, task.id))
    && (|picked| < limit ==> forall id :: Eligible(View(r), now, id) ==> r.payload[id] in taken)
  }

  lemma ClaimAnswered(r: Redis, clock: int, now: int, limit: nat, picked: seq<TaskId>, at: seq<nat>, taken: seq<GcTask>)
    requires Consistent(r, clock) && clock <= now
    requires IsRange(RequeueLapsed(r, now).due, now, limit, picked) && HandsOut(r.payload, picked, at, taken)
    ensures AnswersClaim(r, now, limit, picked, taken)
  {
    LeasedAreEligible(r, clock, now, limit, picked);
    forall id <- Leased(r, picked)
      ensures id in Ids(taken) && r.payload[id] in taken
    {
      var n :| 0 <= n < |picked| && picked[n] == id;
      var k :| 0 <= k < |at| && at[k] == n;
      assert taken[k] == r.payload[id] && Ids(taken)[k] == id;
    }
    forall k | 0 <= k < |taken|
      ensures taken[k] == r.payload[taken[k].id] && taken[k].id == picked[at[k]] && taken[k].id in Leased(r, picked)
    {
    }
    assert Elements(Ids(taken)) == Leased(r, picked);
  }

  lemma LeaseOneMore(payload: map<TaskId, GcTask>, inflight: ZSet, ids: set<TaskId>, id: TaskId, until: int)
    ensures inflight + Leases(payload, ids + {id}, until) ==
      var leased := inflight + Leases(payload, ids, until);
      if id in payload then leased[id := until] else leased
  {
  }

  /** Members without a payload only leave the due set. */
  method LeaseEach(payload: map<TaskId, GcTask>, due: ZSet, inflight: ZSet, ids: seq<TaskId>, until: int)
    returns (due': ZSet, inflight': ZSet, taken: seq<GcTask>, ghost at: seq<nat>)
    ensures due' == due - Elements(ids)
    ensures inflight' == inflight + Leases(payload, Elements(ids), until)
    ensures HandsOut(payload, ids, at, taken)
  {
    due', inflight', taken, at := due, inflight, [], [];
    for k := 0 to |ids|
      invariant due' == due - Elements(ids[..k])
      invariant inflight' == inflight + Leases(payload, Elements(ids[..k]), until)
      invariant HandsOut(payload, ids[..k], at, taken)
    {
      assert ids[..k + 1] == ids[..k] + [ids[k]];
      HandOutNext(payload, ids[..k], at, taken, ids[k]);
      assert Elements(ids[..k + 1]) == Elements(ids[..k]) + {ids[k]};
      LeaseOneMore(payload, inflight, Elements(ids[..k]), ids[k], until);
      due' := due' - {ids[k]};
      if ids[k] in payload {
        inflight' := inflight'[ids[k] := until];
        taken := taken + [payload[ids[k]]];
        at := at + [k];
      }
    }
    assert ids[..|ids|] == ids;
  }

  /** The claim script on the three structures. */
  method ClaimDue(payload: map<TaskId, GcTask>, due: ZSet, inflight: ZSet, now: int, limit: nat, leaseSeconds: nat)
    returns (due': ZSet, inflight': ZSet, taken: seq<GcTask>, ghost picked: seq<TaskId>, ghost at: seq<nat>)
    ensures IsRange(due + Lapsed(inflight, now), now, limit, picked)
    ensures due' == due + Lapsed(inflight, now) - Elements(picked)
    ensures inflight' == Running(inflight, now) + Leases(payload, Elements(picked), now + leaseSeconds)
    ensures HandsOut(payload, picked, at, taken)
  {
    var waiting, running := Requeue(due, inflight, now);
    var ids := RangeByScore(waiting, now, limit);
    picked := ids;
    due', inflight', taken, at := LeaseEach(payload, waiting, running, ids, now + leaseSeconds);
  }

  /** At any clock, the command keeps the structures consistent exactly when it queues no task in flight. */
  ghost predicate Keeps(r: Redis, c: BlockCommand) {
    forall clock :: Consistent(r, clock) ==> (Consistent(BlockScript(r, c), clock) <==> !QueuesInFlight(r, c))
  }

  lemma BlockKeeps(r: Redis, c: BlockCommand)
    ensures Keeps(r, c)
  {
    forall clock | Consistent(r, clock)
      ensures Consistent(BlockScript(r, c), clock) <==> !QueuesInFlight(r, c)
    {
      BlockSimulates(r, clock, c);
    }
  }

  class RedisMetadata {
    var blocks: map<Key, BlockMeta>
    var generations: map<Key, nat>
    var payload: map<TaskId, GcTask>
    var due: ZSet
    var inflight: ZSet

    ghost function State(): Redis
      reads this
    {
      Redis(blocks, generations, payload, due, inflight)
    }

    constructor ()
      ensures State() == Redis(map[], map[], map[], map[], map[]) && Consistent(State(), 0)
    {
      blocks, generations, payload, due, inflight := map[], map[], map[], map[], map[];
    }

    method Enqueue(key: Key, retired: BlockMeta, notBefore: int)
      modifies this`payload, this`due
      ensures State() == EnqueueScript(old(State()), key, retired, notBefore)
    {
      var id := TaskIdOf(key, retired);
      payload := payload[id := GcTask(id, key, retired, notBefore, 0)];
      due := due[id := notBefore];
    }

    /** `SET ... NX`. */
    method CommitIfAbsent(key: Key, meta: BlockMeta) returns (stored: bool)
      modifies this`blocks
      ensures State() == BlockScript(old(State()), CommitCmd(key, meta)) && Keeps(old(State()), CommitCmd(key, meta))
      ensures View(State()) == PutIfAbsent(old(View(State())), key, meta) && stored == (key !in old(blocks))
    {
      BlockKeeps(State(), CommitCmd(key, meta));
      stored := key !in blocks;
      if stored {
        blocks := blocks[key := meta];
      }
    }

    method ReplaceBlock(key: Key, meta: BlockMeta, notBefore: int) returns (previous: Option<BlockMeta>)
      modifies this`blocks, this`payload, this`due
      ensures State() == BlockScript(old(State()), ReplaceCmd(key, meta, notBefore))
      ensures Keeps(old(State()), ReplaceCmd(key, meta, notBefore))
      ensures View(State()) == Replace(old(View(State())), key, meta, notBefore)
      ensures previous == if key in old(blocks) then Some(old(blocks)[key]) else None
    {
      BlockKeeps(State(), ReplaceCmd(key, meta, notBefore));
      previous := if key in blocks then Some(blocks[key]) else None;
      blocks := blocks[key := meta];
      if previous.Some? {
        Enqueue(key, previous.value, notBefore);
      }
    }

    method RetireBlock(key: Key, notBefore: int) returns (retired: Option<BlockMeta>)
      modifies this`blocks, this`payload, this`due
      ensures State() == BlockScript(old(State()), RetireCmd(key, notBefore))
      ensures Keeps(old(State()), RetireCmd(key, notBefore))
      ensures View(State()) == Retire(old(View(State())), key, notBefore)
      ensures retired == if key in old(blocks) then Some(old(blocks)[key]) else None
    {
      BlockKeeps(State(), RetireCmd(key, notBefore));
      retired := if key in blocks then Some(blocks[key]) else None;
      if retired.Some? {
        blocks := blocks - {key};
        Enqueue(key, retired.value, notBefore);
      }
    }

    method RetireBlockIfMatches(key: Key, expected: BlockMeta, notBefore: int) returns (done: bool)
      modifies this`blocks, this`payload, this`due
      ensures State() == BlockScript(old(State()), RetireIfCmd(key, expected, notBefore))
      ensures Keeps(old(State()), RetireIfCmd(key, expected, notBefore))
      ensures View(State()) == RetireIfMatches(old(View(State())), key, expected, notBefore)
      ensures done <==> key in old(blocks) && SameVersion(old(blocks)[key], expected)
    {
      BlockKeeps(State(), RetireIfCmd(key, expected, notBefore));
      if key !in blocks || !SameVersion(blocks[key], expected) {
        return false;
      }
      var current := blocks[key];
      blocks := blocks - {key};
      Enqueue(key, current, notBefore);
      return true;
    }

    method DeleteBlockIfMatches(key: Key, expected: BlockMeta) returns (done: bool)
      modifies this`blocks
      ensures State() == BlockScript(old(State()), DeleteIfCmd(key, expected))
      ensures Keeps(old(State()), DeleteIfCmd(key, expected))
      ensures View(State()) == DeleteIfMatches(old(View(State())), key, expected)
      ensures done <==> key in old(blocks) && old(blocks)[key].generation == expected.generation
    {
      BlockKeeps(State(), DeleteIfCmd(key, expected));
      done := key in blocks && blocks[key].generation == expected.generation;
      if done {
        blocks := blocks - {key};
      }
    }

    method AllocateGeneration(key: Key) returns (next: nat)
      modifies this`generations
      ensures State() == BlockScript(old(State()), GenerationCmd(key)) && Keeps(old(State()), GenerationCmd(key))
      ensures View(State()) == NextGeneration(old(View(State())), key) && next == generations[key]
    {
      BlockKeeps(State(), GenerationCmd(key));
      var base := if key in generations then generations[key] else 0;
      if key in blocks && blocks[key].generation > base {
        base := blocks[key].generation;
      }
      next := base + 1;
      generations := generations[key := next];
    }

    /** The claim script. At any clock the structures are consistent for, the answer is the whole claim. */
    method TakeDue(now: int, limit: nat, leaseSeconds: nat)
      returns (taken: seq<GcTask>, ghost picked: seq<TaskId>, ghost at: seq<nat>)
      modifies this`due, this`inflight
      ensures IsRange(RequeueLapsed(old(State()), now).due, now, limit, picked)
      ensures State() == TakeScript(old(State()), now, leaseSeconds, picked)
      ensures HandsOut(old(payload), picked, at, taken)
      ensures forall clock :: Consistent(old(State()), clock) && clock <= now ==>
        && AnswersClaim(old(State()), now, limit, picked, taken)
        && Claimable(View(old(State())), now, limit, Elements(Ids(taken)))
        && View(State()) == Claim(View(old(State())), now, leaseSeconds, Elements(Ids(taken)))
        && Consistent(State(), now)
    {
      var due', inflight';
      ghost var r := State();
      due', inflight', taken, picked, at := ClaimDue(payload, due, inflight, now, limit, leaseSeconds);
      due, inflight := due', inflight';
      forall clock | Consistent(r, clock) && clock <= now
        ensures AnswersClaim(r, now, limit, picked, taken) && Consistent(State(), now)
        ensures Claimable(View(r), now, limit, Elements(Ids(taken)))
        ensures View(State()) == Claim(View(r), now, leaseSeconds, Elements(Ids(taken)))
      {
        ClaimAnswered(r, clock, now, limit, picked, at, taken);
        TakeSimulates(r, clock, now, limit, leaseSeconds, picked);
        TakeConsistent(r, clock, now, limit, leaseSeconds, picked);
      }
    }

    method CompleteTask(id: TaskId)
      modifies this`payload, this`inflight
      ensures State() == CompleteCommands(old(State()), id, 2)
    {
      inflight := inflight - {id};
      payload := payload - {id};
    }

    method RescheduleTask(task: GcTask)
      modifies this`payload, this`due, this`inflight
      ensures State() == RescheduleCommands(old(State()), task, 3)
    {
      inflight := inflight - {task.id};
      payload := payload[task.id := task];
      due := due[task.id := task.notBefore];
    }
  }
}
