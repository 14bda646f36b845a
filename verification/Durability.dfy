/**
 * What the protocol guarantees when no publish command takes effect twice: the fate of every
 * published version, the grace period of retired ones, and the durability of acknowledged writes.
 */
module Durability {
  import opened Types
  import opened Metadata
  import opened Protocol

  /** The version is what its key currently resolves to. */
  ghost predicate Live(blocks: map<Key, BlockMeta>, v: Vid) {
    v.key in blocks && blocks[v.key].generation == v.generation
  }

  /** A reclaim task for the version is queued. */
  ghost predicate Queued(versions: Versions, tasks: map<TaskId, GcTask>, v: Vid) {
    v in versions && TaskIdOf(v.key, versions[v].meta) in tasks
  }

  /** Every file of the version is there. */
  ghost predicate Present(versions: Versions, files: Files, v: Vid) {
    v in versions && forall p <- versions[v].meta.paths :: p in files
  }

  ghost predicate ExactlyOne(a: bool, b: bool, c: bool, d: bool) {
    && (a || b || c || d)
    && !(a && b) && !(a && c) && !(a && d) && !(b && c) && !(b && d) && !(c && d)
  }

  /**
   * Each published version is live, queued, reclaimed or dropped: one of these, never two. What was
   * dropped was disowned by its writer, or a reader met a fault.
   */
  ghost predicate Fates(versions: Versions, blocks: map<Key, BlockMeta>, tasks: map<TaskId, GcTask>, hist: History) {
    && (forall v <- hist.committed ::
          && v in versions
          && ExactlyOne(Live(blocks, v), Queued(versions, tasks, v), v in hist.reclaimed, v in hist.dropped))
    && (forall k <- blocks :: Vid(k, blocks[k].generation) in hist.committed)
    && (forall id <- tasks :: VidOfTask(tasks[id]) in hist.committed)
    && hist.reclaimed <= hist.committed
    && hist.disowned <= hist.committed
    && hist.faulted <= hist.dropped <= hist.committed
    && hist.dropped <= hist.disowned + hist.faulted
  }

  /** No queued task may be claimed before the grace period counted from when its retirement was asked for. */
  ghost predicate TasksTimed(grace: nat, tasks: map<TaskId, GcTask>, askedAt: map<Vid, int>) {
    forall id <- tasks ::
      VidOfTask(tasks[id]) in askedAt && askedAt[VidOfTask(tasks[id])] + grace <= tasks[id].notBefore
  }

  ghost predicate WorkersTimed(grace: nat, clock: int, workers: map<nat, Worker>, blocks: map<Key, BlockMeta>,
                               hist: History)
  {
    forall g <- workers ::
      var v := VidOfTask(workers[g].task);
      && v in hist.committed && !Live(blocks, v) && v !in hist.dropped
      && v in hist.askedAt && hist.askedAt[v] + grace <= workers[g].claimedAt <= clock
  }

  /** Current, or within the grace period of the command that retired it. */
  ghost predicate Sheltered(grace: nat, clock: int, blocks: map<Key, BlockMeta>, askedAt: map<Vid, int>, v: Vid) {
    Live(blocks, v) || (v in askedAt && clock < askedAt[v] + grace)
  }

  /** Versions nobody disowned keep all their files while live, throughout the grace period, and once dropped. */
  ghost predicate Durable(grace: nat, clock: int, versions: Versions, files: Files, blocks: map<Key, BlockMeta>,
                          hist: History)
  {
    forall v <- hist.committed ::
      v !in hist.disowned && (Sheltered(grace, clock, blocks, hist.askedAt, v) || v in hist.dropped) ==>
        Present(versions, files, v)
  }

  ghost predicate ReadersHold(versions: Versions, files: Files, readers: map<nat, Reader>, committed: set<Vid>) {
    forall r <- readers ::
      && VidOfReader(readers[r]) in committed
      && (readers[r].phase.Missing? ==> !Present(versions, files, VidOfReader(readers[r])))
  }

  ghost predicate WriterHolds(files: Files, writer: Writer, hist: History) {
    var v, paths := VidOfWriter(writer), writer.version.meta.paths;
    match writer.phase
    case Writing(written) => v !in hist.committed && forall i :: 0 <= i < |paths| && i in written ==> paths[i] in files
    case Retrying(_) => v !in hist.committed ==> forall p <- paths :: p in files
    case Published => v in hist.committed && v !in hist.disowned
    case RollingBack(_, _) => v in hist.committed ==> v in hist.disowned
    case GaveUp(_) => v in hist.committed ==> v in hist.disowned
  }

  ghost predicate WritersHold(files: Files, writers: map<nat, Writer>, hist: History) {
    forall w <- writers :: WriterHolds(files, writers[w], hist)
  }

  /** Everything but what writers still hold. */
  ghost predicate Core(s: State) {
    && Safe(s)
    && Fates(s.versions, s.store.blocks, s.store.tasks, s.hist)
    && TasksTimed(s.grace, s.store.tasks, s.hist.askedAt)
    && WorkersTimed(s.grace, s.clock, s.workers, s.store.blocks, s.hist)
    && Durable(s.grace, s.clock, s.versions, s.files, s.store.blocks, s.hist)
    && ReadersHold(s.versions, s.files, s.readers, s.hist.committed)
  }

  ghost predicate Strong(s: State) {
    Core(s) && WritersHold(s.files, s.writers, s.hist)
  }

  // ---------------------------------------------------------------------------------------------
  // Moves

  /** A task's version is queued while the task is. */
  lemma TaskQueues(s: State, id: TaskId)
    requires Safe(s) && id in s.store.tasks
    ensures Queued(s.versions, s.store.tasks, VidOfTask(s.store.tasks[id]))
  {
  }

  lemma RetireFates(s: State, key: Key, askedAt: int)
    requires Core(s)
    ensures var t := RetireCurrent(s, key, askedAt); Fates(t.versions, t.store.blocks, t.store.tasks, t.hist)
  {
    var t := RetireCurrent(s, key, askedAt);
    if key in s.store.blocks {
      assert Known(s.versions, key, s.store.blocks[key]);
      forall v <- s.hist.committed
        ensures ExactlyOne(Live(t.store.blocks, v), Queued(t.versions, t.store.tasks, v),
                           v in t.hist.reclaimed, v in t.hist.dropped)
      {
        RetireMoves(s, key, askedAt, v);
      }
    }
  }

  /** Retiring moves the current version from live to queued and leaves every other one where it is. */
  lemma RetireMoves(s: State, key: Key, askedAt: int, v: Vid)
    requires Safe(s) && key in s.store.blocks && v in s.versions
    ensures var t := RetireCurrent(s, key, askedAt);
      if v == Vid(key, s.store.blocks[key].generation)
      then !Live(t.store.blocks, v) && Queued(t.versions, t.store.tasks, v)
      else && (Live(t.store.blocks, v) <==> Live(s.store.blocks, v))
           && (Queued(t.versions, t.store.tasks, v) <==> Queued(s.versions, s.store.tasks, v))
  {
    assert Known(s.versions, key, s.store.blocks[key]) && VersionOk(v, s.versions[v]);
  }

  lemma RetireTimes(s: State, key: Key, askedAt: int)
    requires Core(s)
    ensures var t := RetireCurrent(s, key, askedAt);
      && TasksTimed(t.grace, t.store.tasks, t.hist.askedAt)
      && WorkersTimed(t.grace, t.clock, t.workers, t.store.blocks, t.hist)
  {
    forall id <- s.store.tasks {
      TaskQueues(s, id);
    }
  }

  lemma RetireCore(s: State, key: Key, askedAt: int)
    requires Core(s)
    ensures Core(RetireCurrent(s, key, askedAt))
  {
    RetireCurrentSafe(s, key, askedAt);
    RetireFates(s, key, askedAt);
    RetireTimes(s, key, askedAt);
  }

  /** Publishing on a key that currently resolves to nothing. */
  function PublishFresh(s: State, writer: Writer): State {
    s.(store := s.store.(blocks := s.store.blocks[writer.key := writer.version.meta]),
       hist := s.hist.(committed := s.hist.committed + {VidOfWriter(writer)}))
  }

  /** A publish command that takes effect retires the current version and publishes on the free key. */
  lemma ApplySplits(s: State, writer: Writer, askedAt: int)
    requires Applies(s, writer)
    ensures Apply(s, writer, askedAt) == PublishFresh(RetireCurrent(s, writer.key, askedAt), writer)
  {
    var key := writer.key;
    if key in s.store.blocks {
      assert (s.store.blocks - {key})[key := writer.version.meta] == s.store.blocks[key := writer.version.meta];
    }
  }

  lemma QueuedIsPublished(s: State, v: Vid)
    requires Core(s)
    ensures Queued(s.versions, s.store.tasks, v) ==> v in s.hist.committed
  {
    if Queued(s.versions, s.store.tasks, v) {
      var task := s.store.tasks[TaskIdOf(v.key, s.versions[v].meta)];
      assert TaskOk(s.versions, task);
      assert VidOfTask(task) == v;
    }
  }

  /** Publishing on a free key makes the one version live and leaves every other one where it is. */
  lemma PublishMoves(s: State, w: nat, v: Vid)
    requires Safe(s) && w in s.writers && s.writers[w].key !in s.store.blocks && v in s.versions
    ensures var t := PublishFresh(s, s.writers[w]);
      && (Live(t.store.blocks, v) <==> v == VidOfWriter(s.writers[w]) || Live(s.store.blocks, v))
      && (Queued(t.versions, t.store.tasks, v) <==> Queued(s.versions, s.store.tasks, v))
  {
  }

  lemma PublishFreshFates(s: State, w: nat)
    requires Core(s) && w in s.writers && s.writers[w].key !in s.store.blocks
    requires VidOfWriter(s.writers[w]) !in s.hist.committed
    ensures var t := PublishFresh(s, s.writers[w]); Fates(t.versions, t.store.blocks, t.store.tasks, t.hist)
  {
    var t := PublishFresh(s, s.writers[w]);
    assert WriterOk(s.versions, s.files, s.writers[w]);
    QueuedIsPublished(s, VidOfWriter(s.writers[w]));
    forall v <- t.hist.committed
      ensures v in t.versions
      ensures ExactlyOne(Live(t.store.blocks, v), Queued(t.versions, t.store.tasks, v),
                         v in t.hist.reclaimed, v in t.hist.dropped)
    {
      PublishMoves(s, w, v);
    }
  }

  lemma PublishFreshCore(s: State, w: nat)
    requires Core(s) && w in s.writers && s.writers[w].key !in s.store.blocks
    requires VidOfWriter(s.writers[w]) !in s.hist.committed
    requires Present(s.versions, s.files, VidOfWriter(s.writers[w]))
    ensures Core(PublishFresh(s, s.writers[w]))
  {
    PublishFreshFates(s, w);
    PublishFreshKeeps(s, w);
    assert WriterOk(s.versions, s.files, s.writers[w]);
    assert BlocksOk(s.versions, PublishFresh(s, s.writers[w]).store.blocks);
  }

  lemma PublishFreshKeeps(s: State, w: nat)
    requires Core(s) && w in s.writers
    requires VidOfWriter(s.writers[w]) !in s.hist.committed
    requires Present(s.versions, s.files, VidOfWriter(s.writers[w]))
    ensures var t := PublishFresh(s, s.writers[w]);
      && WorkersTimed(t.grace, t.clock, t.workers, t.store.blocks, t.hist)
      && Durable(t.grace, t.clock, t.versions, t.files, t.store.blocks, t.hist)
  {
  }

  lemma ApplyCore(s: State, w: nat, askedAt: int)
    requires Core(s) && w in s.writers && Applies(s, s.writers[w])
    requires VidOfWriter(s.writers[w]) !in s.hist.committed
    requires Present(s.versions, s.files, VidOfWriter(s.writers[w]))
    ensures Core(Apply(s, s.writers[w], askedAt))
  {
    ApplySplits(s, s.writers[w], askedAt);
    RetireCore(s, s.writers[w].key, askedAt);
    PublishFreshCore(RetireCurrent(s, s.writers[w].key, askedAt), w);
  }

  lemma SetPhaseCore(s: State, w: nat, phase: WriterPhase)
    requires Core(s) && w in s.writers && WriterOk(s.versions, s.files, s.writers[w].(phase := phase))
    ensures Core(SetPhase(s, w, phase))
  {
    SetPhaseSafe(s, w, phase);
  }

  lemma StartRollbackCore(s: State, w: nat)
    requires Core(s) && w in s.writers
    ensures Core(StartRollback(s, w))
  {
    StartRollbackSafe(s, w);
    RollbackFates(s, w);
    RollbackDurable(s, w);
  }

  lemma RollbackFates(s: State, w: nat)
    requires Fates(s.versions, s.store.blocks, s.store.tasks, s.hist) && w in s.writers
    ensures var t := StartRollback(s, w); Fates(t.versions, t.store.blocks, t.store.tasks, t.hist)
  {
  }

  lemma RollbackDurable(s: State, w: nat)
    requires Durable(s.grace, s.clock, s.versions, s.files, s.store.blocks, s.hist) && w in s.writers
    ensures var t := StartRollback(s, w); Durable(t.grace, t.clock, t.versions, t.files, t.store.blocks, t.hist)
  {
  }

  lemma AllocateCore(s: State, w: nat, key: Key, contents: seq<Bytes>, striped: bool,
                     createdAt: int, ttl: int, ifAbsent: bool)
    requires Core(s) && w !in s.writers && (!striped ==> |contents| == 1)
    ensures Core(Allocate(s, w, key, contents, striped, createdAt, ttl, ifAbsent))
  {
    AllocateSafe(s, w, key, contents, striped, createdAt, ttl, ifAbsent);
    FreshGeneration(s, key);
  }

  /** Storing a file of an unpublished version. */
  lemma StoreFileCore(s: State, w: nat, i: nat)
    requires Core(s) && w in s.writers && s.writers[w].phase.Writing? && HasFile(s.writers[w], i)
    requires VidOfWriter(s.writers[w]) !in s.hist.committed
    ensures Core(StoreFile(s, w, i))
  {
    StoreFileSafe(s, w, i);
    var v, p := VidOfWriter(s.writers[w]), s.writers[w].version.meta.paths[i];
    assert WriterOk(s.versions, s.files, s.writers[w]);
    forall x <- s.hist.committed
      ensures p !in s.versions[x].meta.paths
    {
      PathsApart(s.versions, s.store.generations, v, x, p);
    }
  }

  /** Removing a file of a version that is disowned, unpublished, or past its grace period. */
  lemma RemoveFileCore(s: State, v: Vid, p: Path)
    requires Core(s) && v in s.versions && p in s.versions[v].meta.paths
    requires v in s.hist.committed ==>
      || v in s.hist.disowned
      || (!Sheltered(s.grace, s.clock, s.store.blocks, s.hist.askedAt, v) && v !in s.hist.dropped)
    ensures Core(RemoveFile(s, p))
  {
    RemoveFileSafe(s, p);
    forall x <- s.hist.committed | x != v
      ensures p !in s.versions[x].meta.paths
    {
      PathsApart(s.versions, s.store.generations, v, x, p);
    }
  }

  lemma SetReaderCore(s: State, r: nat, reader: Reader)
    requires Core(s) && ReaderOk(s.versions, reader) && VidOfReader(reader) in s.hist.committed
    requires reader.phase.Missing? ==> !Present(s.versions, s.files, VidOfReader(reader))
    ensures Core(SetReader(s, r, reader))
  {
    SetReaderSafe(s, r, reader);
  }

  /** A version a reader may clean up is published, and is disowned if a file of it is missing while it is current. */
  lemma CleanedUp(s: State, r: nat)
    requires Core(s) && ReaderEnabled(s, r, CleanUp)
    ensures var v := VidOfReader(s.readers[r]);
      && v in s.hist.committed
      && (Live(s.store.blocks, v) && s.readers[r].phase.Missing? ==> v in s.hist.disowned)
  {
    var v := VidOfReader(s.readers[r]);
    assert v in s.hist.committed && (s.readers[r].phase.Missing? ==> !Present(s.versions, s.files, v));
  }

  lemma DropFates(s: State, key: Key, meta: BlockMeta, faulted: bool)
    requires Core(s)
    requires Live(s.store.blocks, Vid(key, meta.generation)) ==> faulted || Vid(key, meta.generation) in s.hist.disowned
    ensures var t := DropCurrent(s, key, meta, faulted); Fates(t.versions, t.store.blocks, t.store.tasks, t.hist)
  {
    var v := Vid(key, meta.generation);
    if Live(s.store.blocks, v) {
      assert v in s.hist.committed;
    }
  }

  lemma DropWorkers(s: State, key: Key, meta: BlockMeta, faulted: bool)
    requires WorkersTimed(s.grace, s.clock, s.workers, s.store.blocks, s.hist)
    ensures var t := DropCurrent(s, key, meta, faulted);
      WorkersTimed(t.grace, t.clock, t.workers, t.store.blocks, t.hist)
  {
    var t := DropCurrent(s, key, meta, faulted);
    forall g <- t.workers
      ensures !Live(t.store.blocks, VidOfTask(t.workers[g].task)) && VidOfTask(t.workers[g].task) !in t.hist.dropped
    {
      assert !Live(s.store.blocks, VidOfTask(s.workers[g].task));
    }
  }

  /** A version dropped while current keeps the files it has. */
  lemma DropDurable(s: State, key: Key, meta: BlockMeta, faulted: bool)
    requires Durable(s.grace, s.clock, s.versions, s.files, s.store.blocks, s.hist)
    ensures var t := DropCurrent(s, key, meta, faulted);
      Durable(t.grace, t.clock, t.versions, t.files, t.store.blocks, t.hist)
  {
    var t := DropCurrent(s, key, meta, faulted);
    forall v <- t.hist.committed | v !in t.hist.disowned
      && (Sheltered(t.grace, t.clock, t.store.blocks, t.hist.askedAt, v) || v in t.hist.dropped)
      ensures Present(t.versions, t.files, v)
    {
      assert Sheltered(s.grace, s.clock, s.store.blocks, s.hist.askedAt, v) || v in s.hist.dropped;
    }
  }

  /** Cleanup by a reader that found a file missing or met a fault. */
  lemma DropCurrentCore(s: State, r: nat)
    requires Core(s) && ReaderEnabled(s, r, CleanUp)
    ensures Core(DropCurrent(s, s.readers[r].key, s.readers[r].meta, s.readers[r].phase.Faulted?))
  {
    var reader := s.readers[r];
    var faulted := reader.phase.Faulted?;
    CleanedUp(s, r);
    DropCurrentSafe(s, reader.key, reader.meta, faulted);
    DropFates(s, reader.key, reader.meta, faulted);
    DropWorkers(s, reader.key, reader.meta, faulted);
    DropDurable(s, reader.key, reader.meta, faulted);
  }

  lemma SetWorkerCore(s: State, g: nat, phase: WorkerPhase)
    requires Core(s) && g in s.workers
    ensures Core(SetWorker(s, g, s.workers[g].(phase := phase)))
  {
    SetWorkerSafe(s, g, s.workers[g].(phase := phase));
  }

  lemma DropWorkerCore(s: State, g: nat)
    requires Core(s)
    ensures Core(DropWorker(s, g))
  {
    DropWorkerSafe(s, g);
  }

  lemma LeaseTaskCore(s: State, g: nat, id: TaskId, leaseSeconds: nat)
    requires Core(s) && Eligible(s.store, s.clock, id)
    ensures Core(LeaseTask(s, g, id, leaseSeconds))
  {
    LeaseTaskSafe(s, g, id, leaseSeconds);
    TaskQueues(s, id);
  }

  /** Completing a task takes its version out of the queue and no other. */
  lemma CompleteMoves(s: State, g: nat, v: Vid)
    requires Safe(s) && g in s.workers && v in s.versions
    ensures var t := CompleteTask(s, g);
      Queued(t.versions, t.store.tasks, v) <==>
        Queued(s.versions, s.store.tasks, v) && v != VidOfTask(s.workers[g].task)
  {
    assert TaskOk(s.versions, s.workers[g].task) && VersionOk(v, s.versions[v]);
  }

  lemma CompleteTaskFates(s: State, g: nat)
    requires Core(s) && g in s.workers
    ensures var t := CompleteTask(s, g); Fates(t.versions, t.store.blocks, t.store.tasks, t.hist)
  {
    var t := CompleteTask(s, g);
    assert TaskOk(s.versions, s.workers[g].task);
    forall v <- t.hist.committed
      ensures ExactlyOne(Live(t.store.blocks, v), Queued(t.versions, t.store.tasks, v),
                         v in t.hist.reclaimed, v in t.hist.dropped)
    {
      CompleteMoves(s, g, v);
    }
  }

  lemma CompleteTaskCore(s: State, g: nat)
    requires Core(s) && g in s.workers
    ensures Core(CompleteTask(s, g))
  {
    CompleteTaskSafe(s, g);
    CompleteTaskFates(s, g);
  }

  lemma RequeueFates(s: State, g: nat)
    requires Core(s) && g in s.workers
    ensures var t := Requeue(s, g); Fates(t.versions, t.store.blocks, t.store.tasks, t.hist)
  {
    assert TaskOk(s.versions, s.workers[g].task);
  }

  lemma RequeueCore(s: State, g: nat)
    requires Core(s) && g in s.workers
    ensures Core(Requeue(s, g))
  {
    RequeueSafe(s, g);
    RequeueFates(s, g);
  }

  // ---------------------------------------------------------------------------------------------
  // Steps

  /** One writer changes phase and only its own version's history changes: the others hold what they held. */
  lemma OthersHold(s: State, w: nat, phase: WriterPhase, hist: History)
    requires Strong(s) && w in s.writers && WriterHolds(s.files, s.writers[w].(phase := phase), hist)
    requires forall v :: v != VidOfWriter(s.writers[w]) ==>
      (v in hist.committed <==> v in s.hist.committed) && (v in hist.disowned <==> v in s.hist.disowned)
    ensures WritersHold(s.files, s.writers[w := s.writers[w].(phase := phase)], hist)
  {
  }

  /** Removing a file that no unpublished writer counts on. */
  lemma RemovalHolds(s: State, v: Vid, p: Path)
    requires Strong(s) && v in s.versions && p in s.versions[v].meta.paths
    requires forall w <- s.writers :: VidOfWriter(s.writers[w]) == v ==>
      v in s.hist.committed || s.writers[w].phase.RollingBack?
    ensures WritersHold(s.files - {p}, s.writers, s.hist)
  {
    forall w <- s.writers
      ensures WriterHolds(s.files - {p}, s.writers[w], s.hist)
    {
      assert WriterOk(s.versions, s.files, s.writers[w]) && WriterHolds(s.files, s.writers[w], s.hist);
      if VidOfWriter(s.writers[w]) != v {
        PathsApart(s.versions, s.store.generations, v, VidOfWriter(s.writers[w]), p);
      }
    }
  }

  lemma StoreFileHolds(s: State, w: nat, i: nat)
    requires WritersHold(s.files, s.writers, s.hist) && WriterEnabled(s, w, WriteFile(i))
    ensures var t := StoreFile(s, w, i); WritersHold(t.files, t.writers, t.hist)
  {
    var t := StoreFile(s, w, i);
    forall x <- t.writers
      ensures WriterHolds(t.files, t.writers[x], t.hist)
    {
      assert WriterHolds(s.files, s.writers[x], s.hist);
    }
  }

  lemma StoreFileStrong(s: State, w: nat, i: nat)
    requires Strong(s) && WriterEnabled(s, w, WriteFile(i))
    ensures Strong(StoreFile(s, w, i))
  {
    assert WriterHolds(s.files, s.writers[w], s.hist);
    StoreFileCore(s, w, i);
    StoreFileHolds(s, w, i);
  }

  lemma RollbackStrong(s: State, w: nat)
    requires Strong(s) && w in s.writers
    ensures Strong(StartRollback(s, w))
  {
    StartRollbackCore(s, w);
    OthersHold(s, w, StartRollback(s, w).writers[w].phase, StartRollback(s, w).hist);
  }

  /** A publish command taking effect for the first time. */
  lemma ApplyStrong(s: State, w: nat, askedAt: int, phase: WriterPhase)
    requires Strong(s) && w in s.writers && Applies(s, s.writers[w]) && (phase.Published? || phase.Retrying?)
    requires VidOfWriter(s.writers[w]) !in s.hist.committed
    requires Present(s.versions, s.files, VidOfWriter(s.writers[w]))
    ensures Strong(SetPhase(Apply(s, s.writers[w], askedAt), w, phase))
  {
    var applied := Apply(s, s.writers[w], askedAt);
    assert WriterOk(s.versions, s.files, s.writers[w]);
    assert WritersHold(s.files, SetPhase(applied, w, phase).writers, applied.hist) by {
      NotDisowned(s, VidOfWriter(s.writers[w]));
      OthersHold(s, w, phase, applied.hist);
    }
    ApplyCore(s, w, askedAt);
    SetPhaseCore(applied, w, phase);
  }

  lemma NotDisowned(s: State, v: Vid)
    requires Core(s) && v !in s.hist.committed
    ensures v !in s.hist.disowned
  {
  }

  /** A writer holds nothing back once it starts rolling back, whatever it held before. */
  lemma RollbackFromRetrying(s: State, w: nat, askedAt: int)
    requires w in s.writers && Strong(SetPhase(s, w, Retrying(askedAt)))
    ensures Strong(StartRollback(s, w))
  {
    RollbackStrong(SetPhase(s, w, Retrying(askedAt)), w);
    RollbackOverridesPhase(s, w, Retrying(askedAt));
  }

  lemma RollbackOverridesPhase(s: State, w: nat, phase: WriterPhase)
    requires w in s.writers
    ensures StartRollback(SetPhase(s, w, phase), w) == StartRollback(s, w)
  {
    assert s.writers[w := s.writers[w].(phase := phase)][w := StartRollback(s, w).writers[w]] ==
           StartRollback(s, w).writers;
  }

  lemma AllWritten(s: State, w: nat, askedAt: int)
    requires Strong(s) && w in s.writers && s.writers[w].phase.Writing?
    requires s.writers[w].phase.written == Indices(s.writers[w].version.meta)
    ensures VidOfWriter(s.writers[w]) !in s.hist.committed
    ensures Present(s.versions, s.files, VidOfWriter(s.writers[w]))
    ensures WriterOk(s.versions, s.files, s.writers[w].(phase := Retrying(askedAt)))
    ensures WriterHolds(s.files, s.writers[w].(phase := Retrying(askedAt)), s.hist)
  {
    assert WriterOk(s.versions, s.files, s.writers[w]) && WriterHolds(s.files, s.writers[w], s.hist);
  }

  lemma PublishStrong(s: State, w: nat, askedAt: int, outcome: Outcome)
    requires Strong(s) && WriterEnabled(s, w, Publish(askedAt, outcome))
    ensures Strong(DoPublish(s, w, askedAt, outcome))
  {
    AllWritten(s, w, askedAt);
    RollbackStrong(s, w);
    PhaseStrong(s, w, Retrying(askedAt));
    if Applies(s, s.writers[w]) && outcome != NotApplied {
      ApplyStrong(s, w, askedAt, if outcome.Answered? then Published else Retrying(askedAt));
    }
  }

  /** The step applies a publish command that has already taken effect. */
  predicate Reapplies(s: State, step: Step) {
    && step.ByWriter? && step.write.Retry? && step.write.outcome != NotApplied && step.w in s.writers
    && Applies(s, s.writers[step.w]) && VidOfWriter(s.writers[step.w]) in s.hist.committed
  }

  lemma RetryStrong(s: State, w: nat, outcome: Outcome)
    requires Strong(s) && WriterEnabled(s, w, Retry(outcome)) && !Reapplies(s, ByWriter(w, Retry(outcome)))
    ensures Strong(DoRetry(s, w, outcome))
  {
    var askedAt := s.writers[w].phase.askedAt;
    assert WriterOk(s.versions, s.files, s.writers[w]) && WriterHolds(s.files, s.writers[w], s.hist);
    RollbackStrong(s, w);
    if Applies(s, s.writers[w]) && outcome != NotApplied {
      ApplyStrong(s, w, askedAt, if outcome.Answered? then Published else Retrying(askedAt));
      if outcome.AppliedSilently? {
        RollbackFromRetrying(Apply(s, s.writers[w], askedAt), w, askedAt);
      }
    }
  }

  lemma PhaseStrong(s: State, w: nat, phase: WriterPhase)
    requires Strong(s) && w in s.writers && WriterOk(s.versions, s.files, s.writers[w].(phase := phase))
    requires WriterHolds(s.files, s.writers[w].(phase := phase), s.hist)
    ensures Strong(SetPhase(s, w, phase))
  {
    SetPhaseCore(s, w, phase);
  }

  lemma RemoveFileStrong(s: State, v: Vid, p: Path)
    requires Strong(s) && v in s.versions && p in s.versions[v].meta.paths
    requires v in s.hist.committed ==>
      || v in s.hist.disowned
      || (!Sheltered(s.grace, s.clock, s.store.blocks, s.hist.askedAt, v) && v !in s.hist.dropped)
    requires forall w <- s.writers :: VidOfWriter(s.writers[w]) == v ==>
      v in s.hist.committed || s.writers[w].phase.RollingBack?
    ensures Strong(RemoveFile(s, p))
  {
    RemoveFileCore(s, v, p);
    RemovalHolds(s, v, p);
  }

  lemma UndoFileStrong(s: State, w: nat, i: nat, removed: bool)
    requires Strong(s) && WriterEnabled(s, w, UndoFile(i, removed))
    ensures Strong(DoUndoFile(s, w, i, removed))
  {
    UndoFileSafe(s, w, i, removed);
    var v, p := VidOfWriter(s.writers[w]), s.writers[w].version.meta.paths[i];
    assert WriterOk(s.versions, s.files, s.writers[w]) && WriterHolds(s.files, s.writers[w], s.hist);
    var t := DoUndoFile(s, w, i, removed);
    if removed {
      RemoveFileStrong(s, v, p);
      PhaseStrong(RemoveFile(s, p), w, t.writers[w].phase);
    } else {
      PhaseStrong(s, w, t.writers[w].phase);
    }
  }

  lemma StartPutStrong(s: State, w: nat, put: WriterAction)
    requires Strong(s) && put.StartPut? && WriterEnabled(s, w, put)
    ensures Strong(Allocate(s, w, put.key, put.contents, put.striped, put.createdAt, put.ttl, put.ifAbsent))
  {
    var t := Allocate(s, w, put.key, put.contents, put.striped, put.createdAt, put.ttl, put.ifAbsent);
    assert WritersHold(t.files, t.writers, t.hist) by {
      FreshIsUnpublished(s, put.key);
      NewWriterHolds(s.files, s.writers, s.hist, w, t.writers[w]);
    }
    AllocateCore(s, w, put.key, put.contents, put.striped, put.createdAt, put.ttl, put.ifAbsent);
  }

  lemma FreshIsUnpublished(s: State, key: Key)
    requires Core(s)
    ensures Vid(key, CurrentGeneration(s.store, key) + 1) !in s.hist.committed
  {
    FreshGeneration(s, key);
  }

  lemma NewWriterHolds(files: Files, writers: map<nat, Writer>, hist: History, w: nat, writer: Writer)
    requires WritersHold(files, writers, hist) && WriterHolds(files, writer, hist)
    ensures WritersHold(files, writers[w := writer], hist)
  {
  }

  lemma WriteFailsStrong(s: State, w: nat, i: nat)
    requires Strong(s) && WriterEnabled(s, w, WriteFails(i))
    ensures Strong(DoWriteFails(s, w, i))
  {
    WriteFailsSafe(s, w, i);
    assert WriterHolds(s.files, s.writers[w], s.hist);
    PhaseStrong(s, w, DoWriteFails(s, w, i).writers[w].phase);
  }

  lemma FinishRollbackStrong(s: State, w: nat)
    requires Strong(s) && WriterEnabled(s, w, FinishRollback)
    ensures Strong(SetPhase(s, w, GaveUp(s.writers[w].phase.left)))
  {
    FinishRollbackSafe(s, w);
    assert WriterHolds(s.files, s.writers[w], s.hist);
    PhaseStrong(s, w, GaveUp(s.writers[w].phase.left));
  }

  lemma WriteStrong(s: State, w: nat, write: WriterAction)
    requires Strong(s) && WriterEnabled(s, w, write) && !Reapplies(s, ByWriter(w, write))
    ensures Strong(DoWrite(s, w, write))
  {
    match write
    case StartPut(_, _, _, _, _, _) => StartPutStrong(s, w, write);
    case WriteFile(i) => StoreFileStrong(s, w, i);
    case WriteFails(i) => WriteFailsStrong(s, w, i);
    case Publish(askedAt, outcome) => PublishStrong(s, w, askedAt, outcome);
    case Retry(outcome) => RetryStrong(s, w, outcome);
    case Disconnect => RollbackStrong(s, w);
    case UndoFile(i, removed) => UndoFileStrong(s, w, i, removed);
    case FinishRollback => FinishRollbackStrong(s, w);
  }

  lemma ReadFileStrong(s: State, r: nat, i: nat)
    requires Strong(s) && ReaderEnabled(s, r, ReadFile(i))
    ensures Strong(DoReadFile(s, r, i))
  {
    ReadFileSafe(s, r, i);
    var reader := DoReadFile(s, r, i).readers[r];
    assert ReaderOk(s.versions, s.readers[r]) && ReaderOk(s.versions, reader);
    SetReaderCore(s, r, reader);
  }

  lemma FinishReadStrong(s: State, r: nat)
    requires Strong(s) && ReaderEnabled(s, r, FinishRead)
    ensures Strong(DoFinishRead(s, r))
  {
    FinishReadSafe(s, r);
    var reader := DoFinishRead(s, r).readers[r];
    assert ReaderOk(s.versions, reader) && VidOfReader(reader) == VidOfReader(s.readers[r]);
    SetReaderCore(s, r, reader);
  }

  lemma DropHolds(s: State, key: Key, meta: BlockMeta, faulted: bool)
    requires WritersHold(s.files, s.writers, s.hist)
    ensures var t := DropCurrent(s, key, meta, faulted); WritersHold(t.files, t.writers, t.hist)
  {
    HistoryHolds(s.files, s.writers, s.hist, DropCurrent(s, key, meta, faulted).hist);
  }

  lemma DropCurrentStrong(s: State, r: nat)
    requires Strong(s) && ReaderEnabled(s, r, CleanUp)
    ensures Strong(DropCurrent(s, s.readers[r].key, s.readers[r].meta, s.readers[r].phase.Faulted?))
  {
    DropHolds(s, s.readers[r].key, s.readers[r].meta, s.readers[r].phase.Faulted?);
    DropCurrentCore(s, r);
  }

  lemma CleanUpStrong(s: State, r: nat)
    requires Strong(s) && ReaderEnabled(s, r, CleanUp)
    ensures Strong(DoCleanUp(s, r))
  {
    var reader := s.readers[r];
    DropCurrentStrong(s, r);
    var dropped := DropCurrent(s, reader.key, reader.meta, reader.phase.Faulted?);
    ReaderDone(dropped, r);
    SetReaderCore(dropped, r, reader.(phase := Done(None)));
  }

  lemma ReaderDone(s: State, r: nat)
    requires Core(s) && r in s.readers
    ensures ReaderOk(s.versions, s.readers[r].(phase := Done(None))) && VidOfReader(s.readers[r]) in s.hist.committed
  {
    assert ReaderOk(s.versions, s.readers[r]);
  }

  /** Writers look at publication and disowning only. */
  lemma HistoryHolds(files: Files, writers: map<nat, Writer>, hist: History, after: History)
    requires WritersHold(files, writers, hist)
    requires after.committed == hist.committed && after.disowned == hist.disowned
    ensures WritersHold(files, writers, after)
  {
    forall w <- writers
      ensures WriterHolds(files, writers[w], after)
    {
      assert WriterHolds(files, writers[w], hist);
    }
  }

  lemma FaultStrong(s: State, r: nat, phase: ReaderPhase)
    requires Strong(s) && r in s.readers && (phase.Faulted? || phase == Done(None))
    ensures Strong(SetReader(s, r, s.readers[r].(phase := phase)))
  {
    assert ReaderOk(s.versions, s.readers[r]);
    SetReaderCore(s, r, s.readers[r].(phase := phase));
  }

  lemma ReadStrong(s: State, r: nat, read: ReaderAction)
    requires Strong(s) && ReaderEnabled(s, r, read)
    ensures Strong(DoRead(s, r, read))
  {
    match read
    case ReadMeta(key) => SetReaderCore(s, r, Reader(key, s.store.blocks[key], Reading(map[])));
    case ReadFile(i) => ReadFileStrong(s, r, i);
    case FinishRead => FinishReadStrong(s, r);
    case MeetFault(_, fault) => FaultStrong(s, r, Faulted(fault));
    case CleanUp => CleanUpStrong(s, r);
    case FailRead => FaultStrong(s, r, Done(None));
  }

  lemma ReclaimFileStrong(s: State, g: nat, i: nat)
    requires Strong(s) && WorkerEnabled(s, g, ReclaimFile(i))
    ensures Strong(DoReclaimFile(s, g, i))
  {
    var task := s.workers[g].task;
    assert TaskOk(s.versions, task);
    RemoveFileStrong(s, VidOfTask(task), task.retired.paths[i]);
    SetWorkerCore(RemoveFile(s, task.retired.paths[i]), g, Deleting(s.workers[g].phase.gone + {i}));
  }

  lemma QueueMovesStrong(s: State, g: nat)
    requires Strong(s) && g in s.workers
    ensures Strong(CompleteTask(s, g)) && Strong(Requeue(s, g))
  {
    CompleteTaskCore(s, g);
    RequeueCore(s, g);
    HistoryHolds(s.files, s.writers, s.hist, CompleteTask(s, g).hist);
    HistoryHolds(s.files, s.writers, s.hist, Requeue(s, g).hist);
  }

  lemma CheckCurrentStrong(s: State, g: nat)
    requires Strong(s) && WorkerEnabled(s, g, CheckCurrent)
    ensures Strong(DoCheckCurrent(s, g))
  {
    QueueMovesStrong(s, g);
    SetWorkerCore(s, g, Deleting({}));
  }

  lemma RetireStrong(s: State, key: Key, askedAt: int)
    requires Strong(s)
    ensures Strong(RetireCurrent(s, key, askedAt))
  {
    RetireCore(s, key, askedAt);
    HistoryHolds(s.files, s.writers, s.hist, RetireCurrent(s, key, askedAt).hist);
  }

  lemma WorkStrong(s: State, g: nat, work: WorkerAction)
    requires Strong(s) && WorkerEnabled(s, g, work)
    ensures Strong(DoWork(s, g, work))
  {
    match work
    case ClaimTask(id, leaseSeconds) => LeaseTaskCore(s, g, id, leaseSeconds);
    case CheckCurrent => CheckCurrentStrong(s, g);
    case ReclaimFile(i) => ReclaimFileStrong(s, g, i);
    case FinishTask => QueueMovesStrong(s, g);
    case PutBack => QueueMovesStrong(s, g);
    case Crash => DropWorkerCore(s, g);
  }

  /** Every step that does not repeat a publish keeps the invariant. */
  lemma StepStrong(s: State, step: Step)
    requires Strong(s) && Enabled(s, step) && !Reapplies(s, step)
    ensures Strong(Do(s, step))
  {
    match step
    case Tick(_) =>
    case ByWriter(w, write) => WriteStrong(s, w, write);
    case ByReader(r, read) => ReadStrong(s, r, read);
    case ByWorker(g, work) => WorkStrong(s, g, work);
    case Delete(key, askedAt) => RetireStrong(s, key, askedAt);
    case Expire(key, _, askedAt) => RetireStrong(s, key, askedAt);
  }

  // ---------------------------------------------------------------------------------------------
  // Runs in which no publish command takes effect twice

  ghost predicate AtMostOnce(states: seq<State>, steps: seq<Step>)
    requires |states| == |steps| + 1
  {
    forall k :: 0 <= k < |steps| ==> !Reapplies(states[k], steps[k])
  }

  lemma {:induction false} RunStrong(grace: nat, states: seq<State>, steps: seq<Step>, k: nat)
    requires IsRun(grace, states, steps) && AtMostOnce(states, steps) && k < |states|
    ensures Strong(states[k])
    decreases k
  {
    if k > 0 {
      RunStrong(grace, states, steps, k - 1);
      StepStrong(states[k - 1], steps[k - 1]);
    }
  }

  /** The version is live, queued for reclaim, reclaimed or dropped: exactly one of the four. */
  ghost predicate OnePlace(s: State, v: Vid) {
    ExactlyOne(Live(s.store.blocks, v), Queued(s.versions, s.store.tasks, v),
               v in s.hist.reclaimed, v in s.hist.dropped)
  }

  /** Conservation: every published version is, at each moment, in exactly one place. */
  lemma Conservation(grace: nat, states: seq<State>, steps: seq<Step>, k: nat, v: Vid)
    requires IsRun(grace, states, steps) && AtMostOnce(states, steps) && k < |states|
    requires v in states[k].hist.committed
    ensures OnePlace(states[k], v)
  {
    RunStrong(grace, states, steps, k);
  }

  /** No queued task and no working reclaimer names a path of a live layout or of a writer
   *  whose version is not published yet, be it still writing or waiting to repeat its publish. */
  lemma ReclaimNeverTouchesLive(grace: nat, states: seq<State>, steps: seq<Step>, k: nat, task: GcTask, p: Path)
    requires IsRun(grace, states, steps) && AtMostOnce(states, steps) && k < |states|
    requires task in states[k].store.tasks.Values || exists g <- states[k].workers :: states[k].workers[g].task == task
    requires p in task.retired.paths
    ensures forall key <- states[k].store.blocks :: p !in states[k].store.blocks[key].paths
    ensures forall w <- states[k].writers :: VidOfWriter(states[k].writers[w]) !in states[k].hist.committed ==>
      p !in states[k].writers[w].version.meta.paths
    ensures forall w <- states[k].writers :: states[k].writers[w].phase.Writing? ==>
      VidOfWriter(states[k].writers[w]) !in states[k].hist.committed
  {
    RunStrong(grace, states, steps, k);
  }

  /**
   * A write acknowledged to its caller keeps all its files while it is current, until the grace period
   * counted from when its retirement was asked for is over, and for good if it is dropped; and it is
   * dropped only by a reader that met a fault.
   */
  lemma AcknowledgedWritesAreDurable(grace: nat, states: seq<State>, steps: seq<Step>, k: nat, w: nat)
    requires IsRun(grace, states, steps) && AtMostOnce(states, steps) && k < |states|
    requires w in states[k].writers && states[k].writers[w].phase.Published?
    ensures var s, v := states[k], VidOfWriter(states[k].writers[w]);
      && v in s.hist.committed && (v in s.hist.dropped <==> v in s.hist.faulted)
      && (Sheltered(s.grace, s.clock, s.store.blocks, s.hist.askedAt, v) ==> Present(s.versions, s.files, v))
      && (v in s.hist.dropped ==> Present(s.versions, s.files, v))
  {
    RunStrong(grace, states, steps, k);
    assert WriterHolds(states[k].files, states[k].writers[w], states[k].hist);
  }

  /**
   * A reader that holds metadata of a version nobody disowned never finds a file missing while the
   * version is current or within the grace period counted from when its retirement was asked for,
   * whatever collectors and writers do meanwhile.
   */
  lemma GraceShieldsReaders(grace: nat, states: seq<State>, steps: seq<Step>, k: nat, r: nat, i: nat)
    requires IsRun(grace, states, steps) && AtMostOnce(states, steps) && k < |steps|
    requires steps[k] == ByReader(r, ReadFile(i))
    requires VidOfReader(states[k].readers[r]) !in states[k].hist.disowned
    requires Sheltered(grace, states[k].clock, states[k].store.blocks, states[k].hist.askedAt,
                       VidOfReader(states[k].readers[r]))
    ensures states[k + 1].readers[r].phase.Reading? && i in states[k + 1].readers[r].phase.got
  {
    RunStrong(grace, states, steps, k);
    RunGrace(grace, states, steps, k);
    var s := states[k];
    assert ReaderOk(s.versions, s.readers[r]);
    assert Present(s.versions, s.files, VidOfReader(s.readers[r]));
  }

  lemma {:induction false} RunGrace(grace: nat, states: seq<State>, steps: seq<Step>, k: nat)
    requires IsRun(grace, states, steps) && k < |states|
    ensures states[k].grace == grace
    decreases k
  {
    if k > 0 {
      RunGrace(grace, states, steps, k - 1);
    }
  }

  /**
   * Conservation, exactly: after one more step every published version is still in exactly one
   * place if and only if the step did not make a publish command take effect a second time.
   */
  lemma ConservationExact(grace: nat, states: seq<State>, steps: seq<Step>, step: Step)
    requires IsRun(grace, states, steps) && AtMostOnce(states, steps)
    requires Enabled(states[|steps|], step)
    ensures
      var t := Do(states[|steps|], step);
      !Reapplies(states[|steps|], step) <==>
      forall v <- t.hist.committed :: OnePlace(t, v)
  {
    var s := states[|steps|];
    RunStrong(grace, states, steps, |steps|);
    if Reapplies(s, step) {
      ReapplyDuplicates(s, step.w, step.write.outcome);
      assert !OnePlace(Do(s, step), VidOfWriter(s.writers[step.w]));
    } else {
      StepStrong(s, step);
    }
  }

  /** A repeated publish makes a version live that is also queued, reclaimed or dropped. */
  lemma ReapplyDuplicates(s: State, w: nat, outcome: Outcome)
    requires Core(s) && WriterEnabled(s, w, Retry(outcome)) && Reapplies(s, ByWriter(w, Retry(outcome)))
    ensures var t, v := DoRetry(s, w, outcome), VidOfWriter(s.writers[w]);
      && v in t.hist.committed && Live(t.store.blocks, v)
      && (Queued(t.versions, t.store.tasks, v) || v in t.hist.reclaimed || v in t.hist.dropped)
  {
    ApplyAgain(s, w, s.writers[w].phase.askedAt);
  }

  lemma ApplyAgain(s: State, w: nat, askedAt: int)
    requires Core(s) && w in s.writers && VidOfWriter(s.writers[w]) in s.hist.committed && Applies(s, s.writers[w])
    ensures var t, v := Apply(s, s.writers[w], askedAt), VidOfWriter(s.writers[w]);
      && v in t.hist.committed && Live(t.store.blocks, v)
      && (Queued(t.versions, t.store.tasks, v) || v in t.hist.reclaimed || v in t.hist.dropped)
  {
    var v := VidOfWriter(s.writers[w]);
    assert WriterOk(s.versions, s.files, s.writers[w]);
    assert OnePlace(s, v);
    if Live(s.store.blocks, v) {
      assert Known(s.versions, v.key, s.store.blocks[v.key]);
    }
  }

  /** The step allocates a generation of the key. */
  predicate Allocates(step: Step, key: Key) {
    step.ByWriter? && step.write.StartPut? && step.write.key == key
  }

  lemma CounterMoves(s: State, step: Step, key: Key)
    requires Enabled(s, step) && !Allocates(step, key)
    ensures key in Do(s, step).store.generations <==> key in s.store.generations
    ensures key in s.store.generations ==> Do(s, step).store.generations[key] == s.store.generations[key]
  {
  }

  lemma {:induction false} CounterKept(grace: nat, states: seq<State>, steps: seq<Step>, i: nat, j: nat, key: Key)
    requires IsRun(grace, states, steps) && i <= j < |states| && key in states[i].store.generations
    requires forall n :: i <= n < j ==> !Allocates(steps[n], key)
    ensures key in states[j].store.generations && states[j].store.generations[key] == states[i].store.generations[key]
    decreases j - i
  {
    if i < j {
      CounterKept(grace, states, steps, i, j - 1, key);
      CounterMoves(states[j - 1], steps[j - 1], key);
    }
  }

  /**
   * While no other put of the key starts, the generation a put was given is larger than every other
   * generation of the key handed out or published so far.
   */
  lemma NewestWhileAlone(grace: nat, states: seq<State>, steps: seq<Step>, i: nat, j: nat, v: Vid)
    requires IsRun(grace, states, steps) && i < j < |states|
    requires steps[i].ByWriter? && steps[i].write.StartPut?
    requires forall n :: i < n < j ==> !Allocates(steps[n], steps[i].write.key)
    requires v.key == steps[i].write.key && v in states[j].versions
    requires v.generation != CurrentGeneration(states[i].store, v.key) + 1
    ensures v.generation < CurrentGeneration(states[i].store, v.key) + 1
  {
    CounterKept(grace, states, steps, i + 1, j, v.key);
    RunSafe(grace, states, steps, j);
  }

  lemma ReadStore(s: State, r: nat, read: ReaderAction)
    requires Safe(s) && ReaderEnabled(s, r, read)
    ensures !read.CleanUp? ==> DoRead(s, r, read).store == s.store
    ensures read.CleanUp? && DoRead(s, r, read).store != s.store ==>
      s.readers[r].key in s.store.blocks && s.store.blocks[s.readers[r].key] == s.readers[r].meta
  {
    if read.CleanUp? {
      assert ReaderOk(s.versions, s.readers[r]);
    }
  }

  /** Cleanup or expiry acting on a version that is no longer current leaves the metadata alone. */
  lemma StaleCleanupIsHarmless(grace: nat, states: seq<State>, steps: seq<Step>, k: nat)
    requires IsRun(grace, states, steps) && k < |steps|
    ensures steps[k].Expire? ==>
      states[k + 1].store == states[k].store || SameVersion(states[k].store.blocks[steps[k].key], steps[k].observed)
    ensures steps[k].ByReader? && states[k + 1].store != states[k].store ==>
      var reader := states[k].readers[steps[k].r];
      reader.key in states[k].store.blocks && states[k].store.blocks[reader.key] == reader.meta
  {
    RunSafe(grace, states, steps, k);
    if steps[k].ByReader? {
      ReadStore(states[k], steps[k].r, steps[k].read);
    }
  }

  // ---------------------------------------------------------------------------------------------
  // A publish command that takes effect twice can lose an acknowledged write

  lemma Extend(grace: nat, states: seq<State>, steps: seq<Step>, step: Step) returns (longer: seq<State>)
    requires IsRun(grace, states, steps) && Enabled(states[|steps|], step)
    ensures IsRun(grace, longer, steps + [step]) && longer == states + [Do(states[|steps|], step)]
    ensures AtMostOnce(states, steps) && !Reapplies(states[|steps|], step) ==> AtMostOnce(longer, steps + [step])
  {
    longer := states + [Do(states[|steps|], step)];
  }

  function OneByte(key: Key, generation: nat): BlockMeta {
    PrepareWriteMeta(key, generation, 1, 0, 0, false, 1)
  }

  /** No collector takes a step. */
  predicate NoWork(steps: seq<Step>) {
    forall k :: 0 <= k < |steps| ==> !steps[k].ByWorker?
  }

  /** A put of one file of one byte, or of one stripe of one byte, is started. */
  lemma Begin(grace: nat, states: seq<State>, steps: seq<Step>, w: nat, key: Key, data: byte, striped: bool)
    returns (longer: seq<State>, more: seq<Step>)
    requires IsRun(grace, states, steps) && w !in states[|steps|].writers
    ensures IsRun(grace, longer, more) && (AtMostOnce(states, steps) ==> AtMostOnce(longer, more))
    ensures NoWork(steps) ==> NoWork(more)
    ensures
      var s, t, meta := states[|steps|], longer[|more|], NewMeta(states[|steps|], key, striped);
      && t == s.(store := NextGeneration(s.store, key),
                 versions := s.versions[Vid(key, meta.generation) := Version(meta, [[data]])],
                 writers := s.writers[w := Writer(key, Version(meta, [[data]]), false, Writing({}))])
  {
    assert Flatten([[data]]) == [data];
    longer := Extend(grace, states, steps, ByWriter(w, StartPut(key, [[data]], striped, 0, 0, false)));
    more := steps + [ByWriter(w, StartPut(key, [[data]], striped, 0, 0, false))];
  }

  /** Metadata of the one-byte put that starts next. */
  function NewMeta(s: State, key: Key, striped: bool): BlockMeta {
    PrepareWriteMeta(key, CurrentGeneration(s.store, key) + 1, 1, 0, 0, striped, 1)
  }

  /** A one-byte put up to the point where its publish command is about to run. */
  lemma Stage(grace: nat, states: seq<State>, steps: seq<Step>, w: nat, key: Key, data: byte, striped: bool)
    returns (longer: seq<State>, more: seq<Step>)
    requires IsRun(grace, states, steps) && w !in states[|steps|].writers
    ensures IsRun(grace, longer, more)
    ensures
      var s, t, meta := states[|steps|], longer[|more|], NewMeta(states[|steps|], key, striped);
      && WriterEnabled(t, w, Publish(t.clock, AppliedSilently)) && WriterEnabled(t, w, Publish(t.clock, Answered))
      && t.writers == s.writers[w := Writer(key, Version(meta, [[data]]), false, Writing({0}))]
      && t.store == NextGeneration(s.store, key) && t.clock == s.clock && t.grace == s.grace && t.hist == s.hist
      && t.workers == s.workers && t.readers == s.readers && t.files == s.files[meta.paths[0] := [data]]
    ensures AtMostOnce(states, steps) ==> AtMostOnce(longer, more)
    ensures NoWork(steps) ==> NoWork(more)
  {
    var meta := NewMeta(states[|steps|], key, striped);
    longer, more := Begin(grace, states, steps, w, key, data, striped);
    longer := Extend(grace, longer, more, ByWriter(w, WriteFile(0)));
    more := more + [ByWriter(w, WriteFile(0))];
    assert longer[|more|].writers[w].phase == Writing({0});
  }

  /** One version overwritten by another; the first writer is still waiting for its reply. */
  ghost predicate Raced(s: State, key: Key) {
    && s.clock == 0 && s.grace == 0 && s.workers == map[]
    && s.store.blocks == map[key := OneByte(key, 2)]
    && s.store.tasks == map[TaskIdOf(key, OneByte(key, 1)) := TaskOf(key, OneByte(key, 1), 0)]
    && s.store.leases == map[]
    && 0 in s.writers && s.writers[0] == Writer(key, Version(OneByte(key, 1), [[1]]), false, Retrying(0))
  }

  /** The first version is current, and its writer is waiting for the reply. */
  ghost predicate Silent(s: State, key: Key) {
    && s.clock == 0 && s.grace == 0 && s.workers == map[]
    && s.store.blocks == map[key := OneByte(key, 1)] && s.store.tasks == map[] && s.store.leases == map[]
    && CurrentGeneration(s.store, key) == 1
    && s.writers == map[0 := Writer(key, Version(OneByte(key, 1), [[1]]), false, Retrying(0))]
  }

  lemma SilentPut(key: Key) returns (states: seq<State>, steps: seq<Step>)
    ensures IsRun(0, states, steps) && Silent(states[|steps|], key) && AtMostOnce(states, steps) && NoWork(steps)
  {
    states, steps := [Init(0)], [];
    states, steps := Stage(0, states, steps, 0, key, 1, false);
    states := Extend(0, states, steps, ByWriter(0, Publish(0, AppliedSilently)));
    steps := steps + [ByWriter(0, Publish(0, AppliedSilently))];
  }

  lemma RacedPuts(key: Key) returns (states: seq<State>, steps: seq<Step>)
    ensures IsRun(0, states, steps) && Raced(states[|steps|], key) && AtMostOnce(states, steps) && NoWork(steps)
  {
    states, steps := SilentPut(key);
    states, steps := Stage(0, states, steps, 1, key, 2, false);
    states := Extend(0, states, steps, ByWriter(1, Publish(0, Answered)));
    steps := steps + [ByWriter(1, Publish(0, Answered))];
  }

  /** The overwritten version is reclaimed. */
  lemma RacedReclaim(states: seq<State>, steps: seq<Step>, key: Key) returns (longer: seq<State>, more: seq<Step>)
    requires IsRun(0, states, steps) && Raced(states[|steps|], key)
    ensures IsRun(0, longer, more)
    ensures Whole(key, 1, 1) !in longer[|more|].files
    ensures 0 in longer[|more|].writers && longer[|more|].writers[0] == states[|steps|].writers[0]
  {
    var id := TaskIdOf(key, OneByte(key, 1));
    longer := Extend(0, states, steps, ByWorker(0, ClaimTask(id, 60)));
    more := steps + [ByWorker(0, ClaimTask(id, 60))];
    longer := Extend(0, longer, more, ByWorker(0, CheckCurrent));
    more := more + [ByWorker(0, CheckCurrent)];
    assert longer[|more|].workers[0].task.retired.paths == [Whole(key, 1, 1)];
    longer := Extend(0, longer, more, ByWorker(0, ReclaimFile(0)));
    more := more + [ByWorker(0, ReclaimFile(0))];
  }

  /**
   * With a publish command applied twice, a caller is told its write succeeded, the write is
   * current, and its file is gone.
   */
  lemma RepeatedPublishLosesWrite(key: Key) returns (states: seq<State>, steps: seq<Step>)
    ensures IsRun(0, states, steps)
    ensures var s := states[|steps|];
      && 0 in s.writers && s.writers[0].phase.Published?
      && Live(s.store.blocks, VidOfWriter(s.writers[0])) && !Present(s.versions, s.files, VidOfWriter(s.writers[0]))
  {
    states, steps := RacedPuts(key);
    states, steps := RacedReclaim(states, steps, key);
    RunSafe(0, states, steps, |steps|);
    var s := states[|steps|];
    assert WriterOk(s.versions, s.files, s.writers[0]) && Whole(key, 1, 1) in s.writers[0].version.meta.paths;
    states := Extend(0, states, steps, ByWriter(0, Retry(Answered)));
    steps := steps + [ByWriter(0, Retry(Answered))];
  }
}
