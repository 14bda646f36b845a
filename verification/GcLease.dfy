/** Lease discipline of the reclaim queue over whole histories of metadata commands. */
module GcLease {
  import opened Types
  import opened Metadata

  /** The commands on an object's metadata. Those that take a version out of service queue it. */
  datatype BlockCommand =
    | CommitCmd(key: Key, meta: BlockMeta)
    | ReplaceCmd(key: Key, meta: BlockMeta, notBefore: int)
    | RetireCmd(key: Key, notBefore: int)
    | RetireIfCmd(key: Key, expected: BlockMeta, notBefore: int)
    | DeleteIfCmd(key: Key, expected: BlockMeta)
    | GenerationCmd(key: Key)

  function RunBlock(s: Store, c: BlockCommand): Store {
    match c
    case CommitCmd(key, meta) => PutIfAbsent(s, key, meta)
    case ReplaceCmd(key, meta, notBefore) => Replace(s, key, meta, notBefore)
    case RetireCmd(key, notBefore) => Retire(s, key, notBefore)
    case RetireIfCmd(key, expected, notBefore) => RetireIfMatches(s, key, expected, notBefore)
    case DeleteIfCmd(key, expected) => DeleteIfMatches(s, key, expected)
    case GenerationCmd(key) => NextGeneration(s, key)
  }

  /** The command queues the key's current version. */
  predicate Queues(s: Store, c: BlockCommand) {
    && c.key in s.blocks
    && (c.ReplaceCmd? || c.RetireCmd? || (c.RetireIfCmd? && SameVersion(s.blocks[c.key], c.expected)))
  }

  datatype QueueOp =
    | BlockOp(command: BlockCommand)
    | ClaimOp(now: int, limit: nat, leaseSeconds: nat, claimed: set<TaskId>)
    | CompleteOp(id: TaskId)
    | RescheduleOp(task: GcTask)

  predicate Allowed(s: Store, op: QueueOp) {
    op.ClaimOp? ==> Claimable(s, op.now, op.limit, op.claimed)
  }

  function Perform(s: Store, op: QueueOp): Store {
    match op
    case BlockOp(command) => RunBlock(s, command)
    case ClaimOp(now, _, leaseSeconds, claimed) => Claim(s, now, leaseSeconds, claimed)
    case CompleteOp(id) => Complete(s, id)
    case RescheduleOp(task) => Reschedule(s, task)
  }

  /** Claims carry a clock that never runs backwards. */
  ghost predicate Monotone(ops: seq<QueueOp>) {
    forall i, j :: 0 <= i < j < |ops| && ops[i].ClaimOp? && ops[j].ClaimOp? ==> ops[i].now <= ops[j].now
  }

  ghost predicate IsHistory(states: seq<Store>, ops: seq<QueueOp>) {
    && |states| == |ops| + 1
    && Monotone(ops)
    && forall k :: 0 <= k < |ops| ==> Allowed(states[k], ops[k]) && states[k + 1] == Perform(states[k], ops[k])
  }

  /** The command completes, reschedules or enqueues the task afresh. */
  predicate Touches(s: Store, op: QueueOp, id: TaskId) {
    match op
    case BlockOp(command) => Queues(s, command) && TaskIdOf(command.key, s.blocks[command.key]) == id
    case ClaimOp(_, _, _, _) => false
    case CompleteOp(done) => done == id
    case RescheduleOp(task) => task.id == id
  }

  predicate Claims(op: QueueOp, id: TaskId) {
    op.ClaimOp? && id in op.claimed
  }

  /** A queued task stays queued, whatever else happens, until it is completed. */
  lemma {:induction false} NeverLost(states: seq<Store>, ops: seq<QueueOp>, i: nat, j: nat, id: TaskId)
    requires IsHistory(states, ops) && i <= j < |states| && id in states[i].tasks
    requires forall k :: i <= k < j ==> ops[k] != CompleteOp(id)
    ensures id in states[j].tasks
    decreases j - i
  {
    if i < j {
      NeverLost(states, ops, i, j - 1, id);
    }
  }

  /** While nobody touches or claims the task again, its lease is running or has lapsed. */
  ghost predicate Held(s: Store, id: TaskId, until: int, latest: int) {
    && id in s.tasks && s.tasks[id].notBefore <= until
    && if id in s.leases then s.leases[id] == until else until <= latest
  }

  lemma HeldStep(s: Store, op: QueueOp, id: TaskId, until: int, latest: int)
    requires Held(s, id, until, latest) && Allowed(s, op)
    requires !Touches(s, op, id) && !Claims(op, id)
    requires op.ClaimOp? ==> latest <= op.now
    ensures Held(Perform(s, op), id, until, if op.ClaimOp? then op.now else latest)
  {
  }

  /** The clock of the last claim at or after `i` and before `j`. */
  function Latest(ops: seq<QueueOp>, i: nat, j: nat): int
    requires i < j <= |ops| && ops[i].ClaimOp?
    decreases j - i
  {
    if j == i + 1 then ops[i].now
    else if ops[j - 1].ClaimOp? then ops[j - 1].now
    else Latest(ops, i, j - 1)
  }

  lemma {:induction false} LatestIsClaim(ops: seq<QueueOp>, i: nat, j: nat) returns (k: nat)
    requires i < j <= |ops| && ops[i].ClaimOp?
    ensures i <= k < j && ops[k].ClaimOp? && ops[k].now == Latest(ops, i, j)
    decreases j - i
  {
    if j == i + 1 {
      k := i;
    } else if ops[j - 1].ClaimOp? {
      k := j - 1;
    } else {
      k := LatestIsClaim(ops, i, j - 1);
    }
  }

  lemma {:induction false} HeldSince(states: seq<Store>, ops: seq<QueueOp>, i: nat, j: nat, id: TaskId)
    requires IsHistory(states, ops) && i < j < |states| && Claims(ops[i], id)
    requires forall k :: i < k < j ==> !Touches(states[k], ops[k], id) && !Claims(ops[k], id)
    ensures Held(states[j], id, ops[i].now + ops[i].leaseSeconds, Latest(ops, i, j))
    decreases j - i
  {
    if j > i + 1 {
      HeldSince(states, ops, i, j - 1, id);
      var k := LatestIsClaim(ops, i, j - 1);
      HeldStep(states[j - 1], ops[j - 1], id, ops[i].now + ops[i].leaseSeconds, Latest(ops, i, j - 1));
    }
  }

  /**
   * After a claim, and until the task is next touched or claimed, the task can be claimed at a
   * later time exactly when the lease has run out: not earlier, and from then on always.
   */
  lemma LeaseIsExact(states: seq<Store>, ops: seq<QueueOp>, i: nat, j: nat, id: TaskId, now: int)
    requires IsHistory(states, ops) && i < j < |states| && Claims(ops[i], id)
    requires forall k :: i < k < j ==> !Touches(states[k], ops[k], id) && !Claims(ops[k], id)
    requires forall k :: i <= k < j && ops[k].ClaimOp? ==> ops[k].now <= now
    ensures Eligible(states[j], now, id) <==> ops[i].now + ops[i].leaseSeconds <= now
  {
    HeldSince(states, ops, i, j, id);
    var k := LatestIsClaim(ops, i, j);
  }

  /** Two claims of one task, with no completion, reschedule or enqueue of it in between, are a lease apart. */
  lemma {:induction false} ClaimsAreALeaseApart(states: seq<Store>, ops: seq<QueueOp>, i: nat, j: nat, id: TaskId)
    requires IsHistory(states, ops) && i < j < |ops| && Claims(ops[i], id) && Claims(ops[j], id)
    requires forall k :: i < k < j ==> !Touches(states[k], ops[k], id)
    ensures ops[i].now + ops[i].leaseSeconds <= ops[j].now
  {
    if m :| i < m < j && Claims(ops[m], id) {
      var first := FirstClaim(ops, i, m, id);
      LeaseIsExact(states, ops, i, first, id, ops[first].now);
    } else {
      LeaseIsExact(states, ops, i, j, id, ops[j].now);
    }
  }

  lemma {:induction false} FirstClaim(ops: seq<QueueOp>, i: nat, m: nat, id: TaskId) returns (first: nat)
    requires i < m < |ops| && Claims(ops[m], id)
    ensures i < first <= m && Claims(ops[first], id)
    ensures forall k :: i < k < first ==> !Claims(ops[k], id)
    decreases m - i
  {
    first := m;
    if k :| i < k < m && Claims(ops[k], id) {
      first := FirstClaim(ops, i, k, id);
    }
  }
}
