/**
 * The metadata service as one value: current metadata per key, the generation counters and the
 * garbage-collection queue with leases. `MemoryMetadata` is the service's own in-memory backend;
 * `RedisMetadata` (RedisMetadata.dfy) is the scripted one.
 */
module Metadata {
  import opened Types

  /** Identity of a reclaim task. */
  datatype TaskId = TaskId(key: Key, generation: nat, layout: nat, etag: Etag)

  datatype GcTask = GcTask(id: TaskId, key: Key, retired: BlockMeta, notBefore: int, attempts: nat)

  datatype Store = Store(
    blocks: map<Key, BlockMeta>,
    generations: map<Key, nat>,
    tasks: map<TaskId, GcTask>,
    leases: map<TaskId, int>)

  function TaskIdOf(key: Key, meta: BlockMeta): TaskId {
    TaskId(key, meta.generation, meta.layout, meta.etag)
  }

  function TaskOf(key: Key, retired: BlockMeta, notBefore: int): GcTask {
    GcTask(TaskIdOf(key, retired), key, retired, notBefore, 0)
  }

  function CurrentGeneration(s: Store, key: Key): nat {
    var counter := if key in s.generations then s.generations[key] else 0;
    var live := if key in s.blocks then s.blocks[key].generation else 0;
    if live > counter then live else counter
  }

  function NextGeneration(s: Store, key: Key): Store {
    s.(generations := s.generations[key := CurrentGeneration(s, key) + 1])
  }

  function Enqueue(s: Store, key: Key, retired: BlockMeta, notBefore: int): Store {
    s.(tasks := s.tasks[TaskIdOf(key, retired) := TaskOf(key, retired, notBefore)])
  }

  function PutIfAbsent(s: Store, key: Key, meta: BlockMeta): Store {
    if key in s.blocks then s else s.(blocks := s.blocks[key := meta])
  }

  function Replace(s: Store, key: Key, meta: BlockMeta, notBefore: int): Store {
    var published := s.(blocks := s.blocks[key := meta]);
    if key in s.blocks then Enqueue(published, key, s.blocks[key], notBefore) else published
  }

  function Retire(s: Store, key: Key, notBefore: int): Store {
    if key in s.blocks then Enqueue(s.(blocks := s.blocks - {key}), key, s.blocks[key], notBefore) else s
  }

  function RetireIfMatches(s: Store, key: Key, expected: BlockMeta, notBefore: int): Store {
    if key in s.blocks && SameVersion(s.blocks[key], expected) then Retire(s, key, notBefore) else s
  }

  /** Missing-file cleanup compares the generation only. */
  function DeleteIfMatches(s: Store, key: Key, expected: BlockMeta): Store {
    if key in s.blocks && s.blocks[key].generation == expected.generation
    then s.(blocks := s.blocks - {key}) else s
  }

  /** Leases still running at `now`. */
  function Running(leases: map<TaskId, int>, now: int): map<TaskId, int> {
    map id | id in leases && leases[id] > now :: leases[id]
  }

  predicate Eligible(s: Store, now: int, id: TaskId) {
    && id in s.tasks
    && s.tasks[id].notBefore <= now
    && (id in s.leases ==> s.leases[id] <= now)
  }

  /** What a claim may return: any eligible tasks, up to the limit. */
  predicate Claimable(s: Store, now: int, limit: nat, claimed: set<TaskId>) {
    && |claimed| <= limit
    && forall id <- claimed :: Eligible(s, now, id)
  }

  /** A claim drops every lapsed lease and leases what it returns. */
  function Claim(s: Store, now: int, leaseSeconds: nat, claimed: set<TaskId>): Store {
    s.(leases := Running(s.leases, now) + map id | id in claimed :: now + leaseSeconds)
  }

  function Complete(s: Store, id: TaskId): Store {
    s.(tasks := s.tasks - {id}, leases := s.leases - {id})
  }

  function Reschedule(s: Store, task: GcTask): Store {
    s.(tasks := s.tasks[task.id := task], leases := s.leases - {task.id})
  }

  /** A metadata command answers, or fails before it is applied. */
  datatype Reply<+T> = Ok(value: T) | Failed

  /** Unleased due tasks in the map's own iteration order, cut off at the limit. */
  method SelectDue(tasks: map<TaskId, GcTask>, running: map<TaskId, int>, now: int, limit: nat)
    returns (ids: seq<TaskId>)
    ensures Distinct(ids) && |ids| <= limit
    ensures forall id <- ids :: id in tasks && tasks[id].notBefore <= now && id !in running
    ensures |ids| < limit ==> forall id <- tasks :: tasks[id].notBefore <= now && id !in running ==> id in ids
  {
    ids := [];
    var pool := tasks.Keys;
    while pool != {} && |ids| < limit
      invariant pool <= tasks.Keys && Distinct(ids) && |ids| <= limit
      invariant forall id <- ids :: id !in pool && id in tasks && tasks[id].notBefore <= now && id !in running
      invariant forall id <- tasks :: tasks[id].notBefore <= now && id !in running ==> id in pool || id in ids
      decreases |pool|
    {
      var id :| id in pool;
      pool := pool - {id};
      if tasks[id].notBefore <= now && id !in running {
        ids := ids + [id];
      }
    }
  }

  method LeaseAll(leases: map<TaskId, int>, ids: seq<TaskId>, until: int) returns (leased: map<TaskId, int>)
    ensures leased == leases + map id | id in Elements(ids) :: until
  {
    leased := leases;
    for k := 0 to |ids|
      invariant leased == leases + map id | id in Elements(ids[..k]) :: until
    {
      assert Elements(ids[..k + 1]) == Elements(ids[..k]) + {ids[k]};
      leased := leased[ids[k] := until];
    }
    assert ids[..|ids|] == ids;
  }

  class MemoryMetadata {
    var blocks: map<Key, BlockMeta>
    var generations: map<Key, nat>
    var gcTasks: map<TaskId, GcTask>
    var gcLeases: map<TaskId, int>
    var failNextPuts: nat

    ghost function View(): Store
      reads this
    {
      Store(blocks, generations, gcTasks, gcLeases)
    }

    constructor ()
      ensures View() == Store(map[], map[], map[], map[]) && failNextPuts == 0
    {
      blocks, generations, gcTasks, gcLeases, failNextPuts := map[], map[], map[], map[], 0;
    }

    method EnqueueGc(key: Key, retired: BlockMeta, notBefore: int)
      modifies this`gcTasks
      ensures View() == Enqueue(old(View()), key, retired, notBefore)
    {
      var id := TaskIdOf(key, retired);
      gcTasks := gcTasks[id := GcTask(id, key, retired, notBefore, 0)];
    }

    method CommitIfAbsent(key: Key, meta: BlockMeta) returns (r: Reply<bool>)
      modifies this`blocks, this`failNextPuts
      ensures old(failNextPuts) > 0 ==> r.Failed? && View() == old(View()) && failNextPuts == old(failNextPuts) - 1
      ensures old(failNextPuts) == 0 ==>
        r == Ok(key !in old(blocks)) && View() == PutIfAbsent(old(View()), key, meta) && failNextPuts == 0
    {
      if failNextPuts > 0 {
        failNextPuts := failNextPuts - 1;
        return Failed;
      }
      if key in blocks {
        return Ok(false);
      }
      blocks := blocks[key := meta];
      return Ok(true);
    }

    method ReplaceBlock(key: Key, meta: BlockMeta, notBefore: int) returns (r: Reply<Option<BlockMeta>>)
      modifies this`blocks, this`gcTasks, this`failNextPuts
      ensures old(failNextPuts) > 0 ==> r.Failed? && View() == old(View()) && failNextPuts == old(failNextPuts) - 1
      ensures old(failNextPuts) == 0 ==>
        && r == Ok(if key in old(blocks) then Some(old(blocks)[key]) else None)
        && View() == Replace(old(View()), key, meta, notBefore) && failNextPuts == 0
    {
      if failNextPuts > 0 {
        failNextPuts := failNextPuts - 1;
        return Failed;
      }
      var previous := if key in blocks then Some(blocks[key]) else None;
      blocks := blocks[key := meta];
      if previous.Some? {
        EnqueueGc(key, previous.value, notBefore);
      }
      return Ok(previous);
    }

    method RetireBlock(key: Key, notBefore: int) returns (retired: Option<BlockMeta>)
      modifies this`blocks, this`gcTasks
      ensures View() == Retire(old(View()), key, notBefore)
      ensures retired == if key in old(blocks) then Some(old(blocks)[key]) else None
    {
      retired := if key in blocks then Some(blocks[key]) else None;
      blocks := blocks - {key};
      if retired.Some? {
        EnqueueGc(key, retired.value, notBefore);
      }
    }

    method RetireBlockIfMatches(key: Key, expected: BlockMeta, notBefore: int) returns (done: bool)
      modifies this`blocks, this`gcTasks
      ensures View() == RetireIfMatches(old(View()), key, expected, notBefore)
      ensures done <==> key in old(blocks) && SameVersion(old(blocks)[key], expected)
    {
      if key !in blocks || !SameVersion(blocks[key], expected) {
        return false;
      }
      var current := blocks[key];
      blocks := blocks - {key};
      EnqueueGc(key, current, notBefore);
      return true;
    }

    method DeleteBlockIfMatches(key: Key, expected: BlockMeta) returns (done: bool)
      modifies this`blocks
      ensures View() == DeleteIfMatches(old(View()), key, expected)
      ensures done <==> key in old(blocks) && old(blocks)[key].generation == expected.generation
    {
      if key in blocks && blocks[key].generation == expected.generation {
        blocks := blocks - {key};
        return true;
      }
      return false;
    }

    method AllocateGeneration(key: Key) returns (next: nat)
      modifies this`generations
      ensures View() == NextGeneration(old(View()), key)
      ensures next == generations[key]
    {
      var current := if key in generations then generations[key] else 0;
      var live := if key in blocks then blocks[key].generation else 0;
      next := (if current > live then current else live) + 1;
      generations := generations[key := next];
    }

    /** Claims eligible tasks: all of them, or as many as the limit allows. */
    method TakeDue(now: int, limit: nat, leaseSeconds: nat) returns (taken: seq<GcTask>, ghost ids: seq<TaskId>)
      modifies this`gcLeases
      ensures Distinct(ids) && Claimable(old(View()), now, limit, Elements(ids))
      ensures View() == Claim(old(View()), now, leaseSeconds, Elements(ids))
      ensures |taken| == |ids| && forall k :: 0 <= k < |ids| ==> ids[k] in gcTasks && taken[k] == gcTasks[ids[k]]
      ensures |ids| < limit ==> forall id :: Eligible(old(View()), now, id) ==> id in ids
    {
      gcLeases := Running(gcLeases, now);
      var due := SelectDue(gcTasks, gcLeases, now, limit);
      DistinctCount(due);
      ids := due;
      var tasks := gcTasks;
      taken := seq(|due|, k requires 0 <= k < |due| && due[k] in tasks => tasks[due[k]]);
      gcLeases := LeaseAll(gcLeases, due, now + leaseSeconds);
    }

    method CompleteTask(id: TaskId)
      modifies this`gcTasks, this`gcLeases
      ensures View() == Complete(old(View()), id)
    {
      gcTasks := gcTasks - {id};
      gcLeases := gcLeases - {id};
    }

    method RescheduleTask(task: GcTask)
      modifies this`gcTasks, this`gcLeases
      ensures View() == Reschedule(old(View()), task)
    {
      gcLeases := gcLeases - {task.id};
      gcTasks := gcTasks[task.id := task];
    }
  }
}
