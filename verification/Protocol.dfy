/**
 * The versioned write, read and reclaim protocol as a transition system. Any number of writers,
 * readers, deleters, expiry passes and garbage-collection workers interleave one metadata command
 * or one file operation at a time. Locks are left out, so every interleaving the server's per-key
 * locks allow, within one node or across nodes, is a run here.
 */
module Protocol {
  import opened Types
  import opened Metadata

  /** One version of one object. */
  datatype Vid = Vid(key: Key, generation: nat)

  /** What a writer set out to store: the metadata it publishes and the contents of each file. */
  datatype Version = Version(meta: BlockMeta, files: seq<Bytes>)

  datatype WriterPhase =
    | Writing(written: set<nat>)
    | Retrying(askedAt: int)                     // the publish command ran once and did not answer
    | Published                                  // the caller was told the write succeeded
    | RollingBack(todo: set<nat>, left: set<nat>)
    | GaveUp(left: set<nat>)                     // files whose removal was not attempted or failed

  datatype Writer = Writer(key: Key, version: Version, ifAbsent: bool, phase: WriterPhase)

  /**
   * What can go wrong with a file that is there. Failed reads, short reads and checksum faults are
   * noticed on stripes only. An existence test that fails counts as absence, on any file.
   */
  datatype Fault = ReadFailed | ShortRead | ChecksumMismatch | NoChecksum | NotSeen

  datatype ReaderPhase =
    | Reading(got: map<nat, Bytes>)
    | Missing
    | Faulted(fault: Fault)
    | Done(result: Option<Bytes>)

  datatype Reader = Reader(key: Key, meta: BlockMeta, phase: ReaderPhase)

  datatype WorkerPhase = Claimed | Deleting(gone: set<nat>)

  datatype Worker = Worker(task: GcTask, claimedAt: int, phase: WorkerPhase)

  /** Bookkeeping that no step reads: which versions were published and what became of them. */
  datatype History = History(
    committed: set<Vid>,          // metadata published at least once
    disowned: set<Vid>,           // published, but the writer was told it failed
    reclaimed: set<Vid>,          // GC task completed
    dropped: set<Vid>,            // removed by a reader's cleanup
    faulted: set<Vid>,            // removed so by a reader that met a fault
    retiredAt: map<Vid, int>,     // when the version stopped being current
    askedAt: map<Vid, int>)       // when the command that retired it fixed its reclaim time

  datatype State = State(
    grace: nat,
    clock: int,
    store: Store,
    files: map<Path, Bytes>,
    versions: map<Vid, Version>,
    writers: map<nat, Writer>,
    readers: map<nat, Reader>,
    workers: map<nat, Worker>,
    hist: History)

  datatype Outcome = Answered | AppliedSilently | NotApplied

  datatype WriterAction =
    | StartPut(key: Key, contents: seq<Bytes>, striped: bool, createdAt: int, ttl: int, ifAbsent: bool)
    | WriteFile(i: nat)
    | WriteFails(i: nat)
    | Publish(askedAt: int, outcome: Outcome)
    | Retry(outcome: Outcome)
    | Disconnect
    | UndoFile(i: nat, removed: bool)
    | FinishRollback

  datatype ReaderAction =
    | ReadMeta(key: Key)
    | ReadFile(i: nat)
    | MeetFault(i: nat, fault: Fault)
    | FinishRead
    | CleanUp
    | FailRead

  datatype WorkerAction =
    | ClaimTask(id: TaskId, leaseSeconds: nat)
    | CheckCurrent
    | ReclaimFile(i: nat)
    | FinishTask
    | PutBack
    | Crash

  datatype Step =
    | Tick(now: int)
    | ByWriter(w: nat, write: WriterAction)
    | ByReader(r: nat, read: ReaderAction)
    | ByWorker(g: nat, work: WorkerAction)
    | Delete(key: Key, askedAt: int)
    | Expire(key: Key, observed: BlockMeta, askedAt: int)

  function Init(grace: nat): State {
    State(grace, 0, Store(map[], map[], map[], map[]), map[], map[], map[], map[], map[],
          History({}, {}, {}, {}, {}, map[], map[]))
  }

  function UpTo(n: nat): (r: set<nat>)
    ensures forall i :: i in r <==> 0 <= i < n
  {
    if n == 0 then {} else UpTo(n - 1) + {n - 1}
  }

  /** Indices of the files a version consists of. */
  function Indices(meta: BlockMeta): set<nat> {
    UpTo(|meta.paths|)
  }

  predicate HasFile(writer: Writer, i: nat) {
    i < |writer.version.meta.paths| && i < |writer.version.files|
  }

  function VidOfWriter(writer: Writer): Vid {
    Vid(writer.key, writer.version.meta.generation)
  }

  function VidOfTask(task: GcTask): Vid {
    Vid(task.key, task.retired.generation)
  }

  function VidOfReader(reader: Reader): Vid {
    Vid(reader.key, reader.meta.generation)
  }

  /** Retry delay of a reclaim task: 5 s doubled per attempt, at most 300 s. */
  function Backoff(attempts: nat): nat {
    var exponent := if attempts < 6 then attempts else 6;
    var delay := 5 * Pow2(exponent);
    if delay < 300 then delay else 300
  }

  function Pow2(n: nat): nat {
    if n == 0 then 1 else 2 * Pow2(n - 1)
  }

  // ---------------------------------------------------------------------------------------------
  // Moves: the pieces steps are made of.

  function SetPhase(s: State, w: nat, phase: WriterPhase): (t: State)
    requires w in s.writers
    ensures t.versions == s.versions && t.grace == s.grace && t.clock == s.clock
    ensures t.store.generations == s.store.generations
  {
    s.(writers := s.writers[w := s.writers[w].(phase := phase)])
  }

  function SetReader(s: State, r: nat, reader: Reader): (t: State)
    ensures t.versions == s.versions && t.grace == s.grace && t.clock == s.clock
    ensures t.store.generations == s.store.generations
  {
    s.(readers := s.readers[r := reader])
  }

  function SetWorker(s: State, g: nat, worker: Worker): (t: State)
    ensures t.versions == s.versions && t.grace == s.grace && t.clock == s.clock
    ensures t.store.generations == s.store.generations
  {
    s.(workers := s.workers[g := worker])
  }

  function DropWorker(s: State, g: nat): (t: State)
    ensures t.versions == s.versions && t.grace == s.grace && t.clock == s.clock
    ensures t.store.generations == s.store.generations
  {
    s.(workers := s.workers - {g})
  }

  function RemoveFile(s: State, p: Path): (t: State)
    ensures t.versions == s.versions && t.grace == s.grace && t.clock == s.clock
    ensures t.store.generations == s.store.generations
  {
    s.(files := s.files - {p})
  }

  /** Allocates a generation, prepares the metadata and registers the writer. */
  function Allocate(s: State, w: nat, key: Key, contents: seq<Bytes>, striped: bool,
                    createdAt: int, ttl: int, ifAbsent: bool): State
  {
    var generation := CurrentGeneration(s.store, key) + 1;
    var meta := PrepareWriteMeta(key, generation, |Flatten(contents)|, createdAt, ttl, striped, |contents|);
    var version := Version(meta, contents);
    s.(store := NextGeneration(s.store, key),
       versions := s.versions[Vid(key, generation) := version],
       writers := s.writers[w := Writer(key, version, ifAbsent, Writing({}))])
  }

  function StoreFile(s: State, w: nat, i: nat): (t: State)
    requires w in s.writers && s.writers[w].phase.Writing? && HasFile(s.writers[w], i)
    ensures t.versions == s.versions && t.grace == s.grace && t.clock == s.clock
    ensures t.store.generations == s.store.generations
  {
    var writer := s.writers[w];
    SetPhase(s, w, Writing(writer.phase.written + {i})).(
      files := s.files[writer.version.meta.paths[i] := writer.version.files[i]])
  }

  /** Notes when the key's current version, if any, stops being current, and when that was asked for. */
  function NoteRetired(s: State, key: Key, askedAt: int): History {
    if key in s.store.blocks
    then var v := Vid(key, s.store.blocks[key].generation);
         s.hist.(retiredAt := s.hist.retiredAt[v := s.clock], askedAt := s.hist.askedAt[v := askedAt])
    else s.hist
  }

  /**
   * The current version is retired by a command asked for at `askedAt`. The caller fixes the reclaim
   * time before it sends the command; waiting for the connection, a timeout and a second run after a
   * reconnect all come later and do not move it.
   */
  function RetireCurrent(s: State, key: Key, askedAt: int): (t: State)
    ensures t.versions == s.versions && t.grace == s.grace && t.clock == s.clock
    ensures t.store.generations == s.store.generations
  {
    s.(store := Metadata.Retire(s.store, key, askedAt + s.grace), hist := NoteRetired(s, key, askedAt))
  }

  /** Whether the publish command changes metadata: an if-absent publish only on an absent key. */
  predicate Applies(s: State, writer: Writer) {
    writer.ifAbsent ==> writer.key !in s.store.blocks
  }

  /** The publish command, asked for at `askedAt`, runs and takes effect. */
  function Apply(s: State, writer: Writer, askedAt: int): (t: State)
    ensures t.versions == s.versions && t.grace == s.grace && t.clock == s.clock
    ensures t.store.generations == s.store.generations
  {
    var store := if writer.ifAbsent then PutIfAbsent(s.store, writer.key, writer.version.meta)
                 else Replace(s.store, writer.key, writer.version.meta, askedAt + s.grace);
    var hist := NoteRetired(s, writer.key, askedAt);
    s.(store := store, hist := hist.(committed := hist.committed + {VidOfWriter(writer)}))
  }

  /** The publish step reported failure: every new file is to be removed. */
  function StartRollback(s: State, w: nat): (t: State)
    requires w in s.writers
    ensures t.versions == s.versions && t.grace == s.grace && t.clock == s.clock
    ensures t.store.generations == s.store.generations
  {
    var v := VidOfWriter(s.writers[w]);
    SetPhase(s, w, RollingBack(Indices(s.writers[w].version.meta), {})).(
      hist := if v in s.hist.committed then s.hist.(disowned := s.hist.disowned + {v}) else s.hist)
  }

  /** Removes the version a reader could not read, if it is still the current generation. Its files stay. */
  function DropCurrent(s: State, key: Key, meta: BlockMeta, faulted: bool): (t: State)
    ensures t.versions == s.versions && t.grace == s.grace && t.clock == s.clock
    ensures t.store.generations == s.store.generations
  {
    if key !in s.store.blocks || s.store.blocks[key].generation != meta.generation then s
    else
      var v := Vid(key, meta.generation);
      s.(store := DeleteIfMatches(s.store, key, meta),
         hist := s.hist.(dropped := s.hist.dropped + {v},
                         faulted := if faulted then s.hist.faulted + {v} else s.hist.faulted))
  }

  function LeaseTask(s: State, g: nat, id: TaskId, leaseSeconds: nat): (t: State)
    requires id in s.store.tasks
    ensures t.versions == s.versions && t.grace == s.grace && t.clock == s.clock
    ensures t.store.generations == s.store.generations
  {
    s.(store := Claim(s.store, s.clock, leaseSeconds, {id}),
       workers := s.workers[g := Worker(s.store.tasks[id], s.clock, Claimed)])
  }

  function CompleteTask(s: State, g: nat): (t: State)
    requires g in s.workers
    ensures t.versions == s.versions && t.grace == s.grace && t.clock == s.clock
    ensures t.store.generations == s.store.generations
  {
    var task := s.workers[g].task;
    s.(store := Complete(s.store, task.id), workers := s.workers - {g},
       hist := s.hist.(reclaimed := s.hist.reclaimed + {VidOfTask(task)}))
  }

  /** Puts a claimed task back with its next retry time, counted from when it was claimed. */
  function Requeue(s: State, g: nat): (t: State)
    requires g in s.workers
    ensures t.versions == s.versions && t.grace == s.grace && t.clock == s.clock
    ensures t.store.generations == s.store.generations
  {
    var worker := s.workers[g];
    var attempts := worker.task.attempts + 1;
    var task := worker.task.(attempts := attempts, notBefore := worker.claimedAt + Backoff(attempts));
    s.(store := Reschedule(s.store, task), workers := s.workers - {g},
       hist := s.hist.(reclaimed := s.hist.reclaimed - {VidOfTask(task)}))
  }

  // ---------------------------------------------------------------------------------------------
  // Steps

  predicate Enabled(s: State, step: Step) {
    match step
    case Tick(now) => s.clock <= now
    case ByWriter(w, write) => WriterEnabled(s, w, write)
    case ByReader(r, read) => ReaderEnabled(s, r, read)
    case ByWorker(g, work) => WorkerEnabled(s, g, work)
    case Delete(_, askedAt) => askedAt <= s.clock
    case Expire(_, observed, askedAt) => askedAt <= s.clock && ExpiredAt(observed, s.clock)
  }

  function Do(s: State, step: Step): (t: State)
    requires Enabled(s, step)
    ensures t.grace == s.grace && s.clock <= t.clock
  {
    match step
    case Tick(now) => s.(clock := now)
    case ByWriter(w, write) => DoWrite(s, w, write)
    case ByReader(r, read) => DoRead(s, r, read)
    case ByWorker(g, work) => DoWork(s, g, work)
    case Delete(key, askedAt) => RetireCurrent(s, key, askedAt)
    case Expire(key, observed, askedAt) =>
      if key in s.store.blocks && SameVersion(s.store.blocks[key], observed) then RetireCurrent(s, key, askedAt) else s
  }

  predicate WriterEnabled(s: State, w: nat, write: WriterAction) {
    match write
    case StartPut(_, contents, striped, _, _, _) => w !in s.writers && (!striped ==> |contents| == 1)
    case WriteFile(i) => w in s.writers && s.writers[w].phase.Writing? && HasFile(s.writers[w], i)
    case WriteFails(i) => w in s.writers && s.writers[w].phase.Writing? && HasFile(s.writers[w], i)
    case Publish(askedAt, _) =>
      && w in s.writers && s.writers[w].phase.Writing? && askedAt <= s.clock
      && s.writers[w].phase.written == Indices(s.writers[w].version.meta)
    case Retry(_) => w in s.writers && s.writers[w].phase.Retrying?
    case Disconnect => w in s.writers && s.writers[w].phase.Retrying?
    case UndoFile(i, _) =>
      && w in s.writers && s.writers[w].phase.RollingBack?
      && i in s.writers[w].phase.todo && HasFile(s.writers[w], i)
    case FinishRollback => w in s.writers && s.writers[w].phase.RollingBack? && s.writers[w].phase.todo == {}
  }

  function DoWrite(s: State, w: nat, write: WriterAction): (t: State)
    requires WriterEnabled(s, w, write)
    ensures t.grace == s.grace && t.clock == s.clock
    ensures !write.StartPut? ==> t.versions == s.versions && t.store.generations == s.store.generations
  {
    match write
    case StartPut(key, contents, striped, createdAt, ttl, ifAbsent) =>
      Allocate(s, w, key, contents, striped, createdAt, ttl, ifAbsent)
    case WriteFile(i) => StoreFile(s, w, i)
    case WriteFails(i) => DoWriteFails(s, w, i)
    case Publish(askedAt, outcome) => DoPublish(s, w, askedAt, outcome)
    case Retry(outcome) => DoRetry(s, w, outcome)
    case Disconnect => StartRollback(s, w)
    case UndoFile(i, removed) => DoUndoFile(s, w, i, removed)
    case FinishRollback => SetPhase(s, w, GaveUp(s.writers[w].phase.left))
  }

  /** The fault is one the read path notices on this file. */
  predicate Noticed(meta: BlockMeta, i: nat, fault: Fault) {
    i < |meta.paths| && (fault.NotSeen? || meta.paths[i].Chunk?)
  }

  predicate ReaderEnabled(s: State, r: nat, read: ReaderAction) {
    match read
    case ReadMeta(key) => r !in s.readers && key in s.store.blocks
    case ReadFile(i) => r in s.readers && s.readers[r].phase.Reading? && i < |s.readers[r].meta.paths|
    case FinishRead =>
      && r in s.readers && s.readers[r].phase.Reading?
      && s.readers[r].phase.got.Keys == Indices(s.readers[r].meta)
    case MeetFault(i, fault) =>
      r in s.readers && s.readers[r].phase.Reading? && Noticed(s.readers[r].meta, i, fault)
    case CleanUp => r in s.readers && (s.readers[r].phase.Missing? || s.readers[r].phase.Faulted?)
    case FailRead => r in s.readers && s.readers[r].phase == Faulted(ReadFailed)
  }

  function DoRead(s: State, r: nat, read: ReaderAction): (t: State)
    requires ReaderEnabled(s, r, read)
    ensures t.versions == s.versions && t.grace == s.grace && t.clock == s.clock
    ensures t.store.generations == s.store.generations
  {
    match read
    case ReadMeta(key) => SetReader(s, r, Reader(key, s.store.blocks[key], Reading(map[])))
    case ReadFile(i) => DoReadFile(s, r, i)
    case FinishRead => DoFinishRead(s, r)
    case MeetFault(_, fault) => SetReader(s, r, s.readers[r].(phase := Faulted(fault)))
    case CleanUp => DoCleanUp(s, r)
    case FailRead => SetReader(s, r, s.readers[r].(phase := Done(None)))
  }

  predicate WorkerEnabled(s: State, g: nat, work: WorkerAction) {
    match work
    case ClaimTask(id, _) => g !in s.workers && Eligible(s.store, s.clock, id)
    case CheckCurrent => g in s.workers && s.workers[g].phase.Claimed?
    case ReclaimFile(i) => g in s.workers && s.workers[g].phase.Deleting? && i < |s.workers[g].task.retired.paths|
    case FinishTask =>
      && g in s.workers && s.workers[g].phase.Deleting?
      && s.workers[g].phase.gone == Indices(s.workers[g].task.retired)
    case PutBack => g in s.workers
    case Crash => g in s.workers
  }

  function DoWork(s: State, g: nat, work: WorkerAction): (t: State)
    requires WorkerEnabled(s, g, work)
    ensures t.versions == s.versions && t.grace == s.grace && t.clock == s.clock
    ensures t.store.generations == s.store.generations
  {
    match work
    case ClaimTask(id, leaseSeconds) => LeaseTask(s, g, id, leaseSeconds)
    case CheckCurrent => DoCheckCurrent(s, g)
    case ReclaimFile(i) => DoReclaimFile(s, g, i)
    case FinishTask => CompleteTask(s, g)
    case PutBack => Requeue(s, g)
    case Crash => DropWorker(s, g)
  }

  /** A stripe write failed: only the stripes before the failing index are rolled back. */
  function DoWriteFails(s: State, w: nat, i: nat): (t: State)
    requires w in s.writers
    ensures t.versions == s.versions && t.grace == s.grace && t.clock == s.clock
    ensures t.store.generations == s.store.generations
  {
    var all := Indices(s.writers[w].version.meta);
    SetPhase(s, w, RollingBack(set j | j in all && j < i, set j | j in all && j >= i))
  }

  /** First run of the publish command; the writer keeps the instant it asked at for a second run. */
  function DoPublish(s: State, w: nat, askedAt: int, outcome: Outcome): (t: State)
    requires w in s.writers
    ensures t.versions == s.versions && t.grace == s.grace && t.clock == s.clock
    ensures t.store.generations == s.store.generations
  {
    var writer := s.writers[w];
    match outcome
    case Answered =>
      if Applies(s, writer) then SetPhase(Apply(s, writer, askedAt), w, Published) else StartRollback(s, w)
    case AppliedSilently => SetPhase(if Applies(s, writer) then Apply(s, writer, askedAt) else s, w, Retrying(askedAt))
    case NotApplied => SetPhase(s, w, Retrying(askedAt))
  }

  /** Second run, after a reconnect. An unanswered second run is an error to the caller. */
  function DoRetry(s: State, w: nat, outcome: Outcome): (t: State)
    requires w in s.writers && s.writers[w].phase.Retrying?
    ensures t.versions == s.versions && t.grace == s.grace && t.clock == s.clock
    ensures t.store.generations == s.store.generations
  {
    var writer := s.writers[w];
    var askedAt := writer.phase.askedAt;
    match outcome
    case Answered =>
      if Applies(s, writer) then SetPhase(Apply(s, writer, askedAt), w, Published) else StartRollback(s, w)
    case AppliedSilently => StartRollback(if Applies(s, writer) then Apply(s, writer, askedAt) else s, w)
    case NotApplied => StartRollback(s, w)
  }

  function DoUndoFile(s: State, w: nat, i: nat, removed: bool): (t: State)
    requires w in s.writers && s.writers[w].phase.RollingBack? && HasFile(s.writers[w], i)
    ensures t.versions == s.versions && t.grace == s.grace && t.clock == s.clock
    ensures t.store.generations == s.store.generations
  {
    var RollingBack(todo, left) := s.writers[w].phase;
    if removed then RemoveFile(SetPhase(s, w, RollingBack(todo - {i}, left)), s.writers[w].version.meta.paths[i])
    else SetPhase(s, w, RollingBack(todo - {i}, left + {i}))
  }

  function DoReadFile(s: State, r: nat, i: nat): (t: State)
    requires r in s.readers && s.readers[r].phase.Reading? && i < |s.readers[r].meta.paths|
    ensures t.versions == s.versions && t.grace == s.grace && t.clock == s.clock
    ensures t.store.generations == s.store.generations
  {
    var reader := s.readers[r];
    var path := reader.meta.paths[i];
    var phase := if path in s.files then Reading(reader.phase.got[i := s.files[path]]) else Missing;
    SetReader(s, r, reader.(phase := phase))
  }

  function DoFinishRead(s: State, r: nat): (t: State)
    requires r in s.readers && s.readers[r].phase.Reading?
    requires s.readers[r].phase.got.Keys == Indices(s.readers[r].meta)
    ensures t.versions == s.versions && t.grace == s.grace && t.clock == s.clock
    ensures t.store.generations == s.store.generations
  {
    var reader := s.readers[r];
    var parts := seq(|reader.meta.paths|, i requires 0 <= i < |reader.meta.paths| => reader.phase.got[i]);
    SetReader(s, r, reader.(phase := Done(Some(Flatten(parts)))))
  }

  /** A reader that found a file missing or met a fault removes the metadata it read by. */
  function DoCleanUp(s: State, r: nat): (t: State)
    requires r in s.readers
    ensures t.versions == s.versions && t.grace == s.grace && t.clock == s.clock
    ensures t.store.generations == s.store.generations
  {
    var reader := s.readers[r];
    SetReader(DropCurrent(s, reader.key, reader.meta, reader.phase.Faulted?), r, reader.(phase := Done(None)))
  }

  function DoReclaimFile(s: State, g: nat, i: nat): (t: State)
    requires g in s.workers && s.workers[g].phase.Deleting? && i < |s.workers[g].task.retired.paths|
    ensures t.versions == s.versions && t.grace == s.grace && t.clock == s.clock
    ensures t.store.generations == s.store.generations
  {
    var worker := s.workers[g];
    SetWorker(RemoveFile(s, worker.task.retired.paths[i]), g, worker.(phase := Deleting(worker.phase.gone + {i})))
  }

  /** A worker re-reads current metadata before it deletes anything. */
  function DoCheckCurrent(s: State, g: nat): (t: State)
    requires g in s.workers
    ensures t.versions == s.versions && t.grace == s.grace && t.clock == s.clock
    ensures t.store.generations == s.store.generations
  {
    var task := s.workers[g].task;
    if task.key in s.store.blocks && SameVersion(s.store.blocks[task.key], task.retired)
    then Requeue(s, g)
    else SetWorker(s, g, s.workers[g].(phase := Deleting({})))
  }

  // ---------------------------------------------------------------------------------------------
  // What every step keeps, including publish commands that are applied twice.

  type Versions = map<Vid, Version>
  type Files = map<Path, Bytes>

  /** `meta` is the metadata of the version it names. */
  ghost predicate Known(versions: Versions, key: Key, meta: BlockMeta) {
    Vid(key, meta.generation) in versions && versions[Vid(key, meta.generation)].meta == meta
  }

  ghost predicate VersionOk(v: Vid, version: Version) {
    && version.meta.generation == v.generation
    && |version.meta.paths| == |version.files|
    && version.meta.size == |Flatten(version.files)|
    && (forall i, j :: 0 <= i < j < |version.meta.paths| ==> version.meta.paths[i] != version.meta.paths[j])
    && (forall p <- version.meta.paths :: p.key == v.key && p.generation == v.generation)
  }

  /** Every generation ever handed out lies at or below the counter, so none is handed out twice. */
  ghost predicate GenerationsOk(versions: Versions, generations: map<Key, nat>) {
    forall v <- versions ::
      VersionOk(v, versions[v]) && v.key in generations && v.generation <= generations[v.key]
  }

  ghost predicate BlocksOk(versions: Versions, blocks: map<Key, BlockMeta>) {
    forall k <- blocks :: Known(versions, k, blocks[k])
  }

  ghost predicate TaskOk(versions: Versions, task: GcTask) {
    task.id == TaskIdOf(task.key, task.retired) && Known(versions, task.key, task.retired)
  }

  ghost predicate TasksOk(versions: Versions, tasks: map<TaskId, GcTask>) {
    forall id <- tasks :: tasks[id].id == id && TaskOk(versions, tasks[id])
  }

  /** What a writer owns; once it is rolling back, the files it has ticked off are gone. */
  ghost predicate WriterOk(versions: Versions, files: Files, writer: Writer) {
    && VidOfWriter(writer) in versions && versions[VidOfWriter(writer)] == writer.version
    && (writer.phase.RollingBack? ==> GoneExcept(files, writer.version.meta, writer.phase.todo + writer.phase.left))
    && (writer.phase.GaveUp? ==> GoneExcept(files, writer.version.meta, writer.phase.left))
  }

  ghost predicate GoneExcept(files: Files, meta: BlockMeta, kept: set<nat>) {
    forall i :: 0 <= i < |meta.paths| && i !in kept ==> meta.paths[i] !in files
  }

  /** Each version has one writer. */
  ghost predicate WritersOk(versions: Versions, files: Files, writers: map<nat, Writer>) {
    && (forall w <- writers :: WriterOk(versions, files, writers[w]))
    && (forall w, x :: w in writers && x in writers && w != x ==> VidOfWriter(writers[w]) != VidOfWriter(writers[x]))
  }

  ghost predicate WorkersOk(versions: Versions, workers: map<nat, Worker>) {
    forall g <- workers :: TaskOk(versions, workers[g].task)
  }

  ghost predicate FileOk(versions: Versions, p: Path, bytes: Bytes) {
    && Vid(p.key, p.generation) in versions
    && var version := versions[Vid(p.key, p.generation)];
       exists i :: 0 <= i < |version.meta.paths| && i < |version.files|
                   && version.meta.paths[i] == p && version.files[i] == bytes
  }

  /** Every file holds the bytes its own version's writer put under that index. */
  ghost predicate FilesOk(versions: Versions, files: Files) {
    forall p <- files :: FileOk(versions, p, files[p])
  }

  ghost predicate ReaderOk(versions: Versions, reader: Reader) {
    && Known(versions, reader.key, reader.meta)
    && var files := versions[VidOfReader(reader)].files;
       match reader.phase
       case Reading(got) => forall i <- got :: i < |files| && got[i] == files[i]
       case Missing => true
       case Faulted(_) => true
       case Done(None) => true
       case Done(Some(bytes)) => bytes == Flatten(files)
  }

  ghost predicate ReadersOk(versions: Versions, readers: map<nat, Reader>) {
    forall r <- readers :: ReaderOk(versions, readers[r])
  }

  ghost predicate Safe(s: State) {
    && GenerationsOk(s.versions, s.store.generations)
    && BlocksOk(s.versions, s.store.blocks)
    && TasksOk(s.versions, s.store.tasks)
    && WritersOk(s.versions, s.files, s.writers)
    && WorkersOk(s.versions, s.workers)
    && FilesOk(s.versions, s.files)
    && ReadersOk(s.versions, s.readers)
  }

  /** A generation being handed out has never been used for the key before. */
  lemma FreshGeneration(s: State, key: Key)
    requires Safe(s)
    ensures Vid(key, CurrentGeneration(s.store, key) + 1) !in s.versions
  {
  }

  lemma SetPhaseSafe(s: State, w: nat, phase: WriterPhase)
    requires Safe(s) && w in s.writers && WriterOk(s.versions, s.files, s.writers[w].(phase := phase))
    ensures Safe(SetPhase(s, w, phase))
  {
  }

  lemma SetReaderSafe(s: State, r: nat, reader: Reader)
    requires Safe(s) && ReaderOk(s.versions, reader)
    ensures Safe(SetReader(s, r, reader))
  {
  }

  lemma SetWorkerSafe(s: State, g: nat, worker: Worker)
    requires Safe(s) && TaskOk(s.versions, worker.task)
    ensures Safe(SetWorker(s, g, worker))
  {
  }

  lemma RemoveFileSafe(s: State, p: Path)
    requires Safe(s)
    ensures Safe(RemoveFile(s, p))
  {
  }

  /** Registering a new version disturbs nothing said about the old ones. */
  lemma GrowKeeps(s: State, v: Vid, version: Version)
    requires Safe(s) && v !in s.versions
    ensures var grown := s.versions[v := version];
      && BlocksOk(grown, s.store.blocks) && TasksOk(grown, s.store.tasks)
      && WritersOk(grown, s.files, s.writers) && WorkersOk(grown, s.workers)
      && FilesOk(grown, s.files) && ReadersOk(grown, s.readers)
  {
    GrowFiles(s, v, version);
  }

  lemma GrowFiles(s: State, v: Vid, version: Version)
    requires Safe(s) && v !in s.versions
    ensures FilesOk(s.versions[v := version], s.files)
  {
    var grown := s.versions[v := version];
    forall p <- s.files
      ensures FileOk(grown, p, s.files[p])
    {
      assert FileOk(s.versions, p, s.files[p]);
      assert grown[Vid(p.key, p.generation)] == s.versions[Vid(p.key, p.generation)];
    }
  }

  lemma NewVersionOk(key: Key, generation: nat, contents: seq<Bytes>, striped: bool, createdAt: int, ttl: int)
    requires !striped ==> |contents| == 1
    ensures
      var meta := PrepareWriteMeta(key, generation, |Flatten(contents)|, createdAt, ttl, striped, |contents|);
      VersionOk(Vid(key, generation), Version(meta, contents))
  {
  }

  lemma GrowGenerations(s: State, key: Key, version: Version)
    requires Safe(s)
    requires VersionOk(Vid(key, CurrentGeneration(s.store, key) + 1), version)
    ensures GenerationsOk(s.versions[Vid(key, CurrentGeneration(s.store, key) + 1) := version],
                          NextGeneration(s.store, key).generations)
  {
  }

  lemma AllocateSafe(s: State, w: nat, key: Key, contents: seq<Bytes>, striped: bool,
                     createdAt: int, ttl: int, ifAbsent: bool)
    requires Safe(s) && w !in s.writers && (!striped ==> |contents| == 1)
    ensures Safe(Allocate(s, w, key, contents, striped, createdAt, ttl, ifAbsent))
  {
    var v := Vid(key, CurrentGeneration(s.store, key) + 1);
    var after := Allocate(s, w, key, contents, striped, createdAt, ttl, ifAbsent);
    var version := after.versions[v];
    FreshGeneration(s, key);
    NewVersionOk(key, v.generation, contents, striped, createdAt, ttl);
    GrowKeeps(s, v, version);
    GrowGenerations(s, key, version);
    AddWriter(after.versions, s.files, s.writers, w, Writer(key, version, ifAbsent, Writing({})), s.versions);
  }

  lemma AddWriter(versions: Versions, files: Files, writers: map<nat, Writer>, w: nat, writer: Writer, before: Versions)
    requires WritersOk(versions, files, writers) && w !in writers && WriterOk(versions, files, writer)
    requires WritersOk(before, files, writers) && VidOfWriter(writer) !in before
    ensures WritersOk(versions, files, writers[w := writer])
  {
    forall x <- writers
      ensures VidOfWriter(writers[x]) != VidOfWriter(writer)
    {
      assert WriterOk(before, files, writers[x]);
    }
  }

  /** Different versions own different paths. */
  lemma PathsApart(versions: Versions, generations: map<Key, nat>, v: Vid, x: Vid, p: Path)
    requires GenerationsOk(versions, generations) && v in versions && x in versions && v != x
    requires p in versions[v].meta.paths
    ensures p !in versions[x].meta.paths
  {
    assert VersionOk(v, versions[v]) && VersionOk(x, versions[x]);
  }

  lemma StoreFileSafe(s: State, w: nat, i: nat)
    requires Safe(s) && w in s.writers && s.writers[w].phase.Writing? && HasFile(s.writers[w], i)
    ensures Safe(StoreFile(s, w, i))
  {
    var writer := s.writers[w];
    var p := writer.version.meta.paths[i];
    var after := StoreFile(s, w, i);
    assert VersionOk(VidOfWriter(writer), writer.version);
    assert FileOk(s.versions, p, writer.version.files[i]);
    forall x <- after.writers
      ensures WriterOk(after.versions, after.files, after.writers[x])
    {
      assert WriterOk(s.versions, s.files, s.writers[x]);
      if x != w {
        PathsApart(s.versions, s.store.generations, VidOfWriter(writer), VidOfWriter(s.writers[x]), p);
      }
    }
  }

  lemma RetireCurrentSafe(s: State, key: Key, askedAt: int)
    requires Safe(s)
    ensures Safe(RetireCurrent(s, key, askedAt))
  {
  }

  lemma ApplySafe(s: State, w: nat, askedAt: int)
    requires Safe(s) && w in s.writers
    ensures Safe(Apply(s, s.writers[w], askedAt))
  {
  }

  lemma StartRollbackSafe(s: State, w: nat)
    requires Safe(s) && w in s.writers
    ensures Safe(StartRollback(s, w))
  {
  }

  lemma DropCurrentSafe(s: State, key: Key, meta: BlockMeta, faulted: bool)
    requires Safe(s)
    ensures Safe(DropCurrent(s, key, meta, faulted))
  {
  }

  lemma DropWorkerSafe(s: State, g: nat)
    requires Safe(s)
    ensures Safe(DropWorker(s, g))
  {
  }

  lemma CompleteTaskSafe(s: State, g: nat)
    requires Safe(s) && g in s.workers
    ensures Safe(CompleteTask(s, g))
  {
  }

  lemma RequeueSafe(s: State, g: nat)
    requires Safe(s) && g in s.workers
    ensures Safe(Requeue(s, g))
  {
  }

  /** Whatever a run of the publish command does, on its first or second run. */
  lemma PublishSafe(s: State, w: nat, askedAt: int, outcome: Outcome)
    requires Safe(s) && w in s.writers
    ensures Safe(DoPublish(s, w, askedAt, outcome))
    ensures s.writers[w].phase == Retrying(askedAt) ==> Safe(DoRetry(s, w, outcome))
  {
    assert Safe(StartRollback(s, w)) by { StartRollbackSafe(s, w); }
    assert Safe(SetPhase(s, w, Retrying(askedAt))) by { SetPhaseSafe(s, w, Retrying(askedAt)); }
    if Applies(s, s.writers[w]) {
      var applied := Apply(s, s.writers[w], askedAt);
      assert Safe(applied) by { ApplySafe(s, w, askedAt); }
      assert Safe(SetPhase(applied, w, Published)) by { SetPhaseSafe(applied, w, Published); }
      assert Safe(SetPhase(applied, w, Retrying(askedAt))) by { SetPhaseSafe(applied, w, Retrying(askedAt)); }
      assert Safe(StartRollback(applied, w)) by { StartRollbackSafe(applied, w); }
    }
  }

  lemma UndoFileSafe(s: State, w: nat, i: nat, removed: bool)
    requires Safe(s) && w in s.writers && s.writers[w].phase.RollingBack? && HasFile(s.writers[w], i)
    ensures Safe(DoUndoFile(s, w, i, removed))
  {
    var RollingBack(todo, left) := s.writers[w].phase;
    if removed {
      var p := s.writers[w].version.meta.paths[i];
      RemoveFileSafe(s, p);
      SetPhaseSafe(RemoveFile(s, p), w, RollingBack(todo - {i}, left));
    } else {
      SetPhaseSafe(s, w, RollingBack(todo - {i}, left + {i}));
    }
  }

  lemma ReadFileSafe(s: State, r: nat, i: nat)
    requires Safe(s) && r in s.readers && s.readers[r].phase.Reading? && i < |s.readers[r].meta.paths|
    ensures Safe(DoReadFile(s, r, i))
  {
    var reader := s.readers[r];
    var path := reader.meta.paths[i];
    var v := VidOfReader(reader);
    assert VersionOk(v, s.versions[v]);
    if path in s.files {
      assert FileOk(s.versions, path, s.files[path]);
      SetReaderSafe(s, r, reader.(phase := Reading(reader.phase.got[i := s.files[path]])));
    } else {
      SetReaderSafe(s, r, reader.(phase := Missing));
    }
  }

  lemma FinishReadSafe(s: State, r: nat)
    requires Safe(s) && ReaderEnabled(s, r, FinishRead)
    ensures Safe(DoFinishRead(s, r))
  {
    var reader := s.readers[r];
    var files := s.versions[VidOfReader(reader)].files;
    assert VersionOk(VidOfReader(reader), s.versions[VidOfReader(reader)]);
    var parts := seq(|reader.meta.paths|, i requires 0 <= i < |reader.meta.paths| => reader.phase.got[i]);
    assert parts == files;
    SetReaderSafe(s, r, reader.(phase := Done(Some(Flatten(parts)))));
  }

  lemma CheckCurrentSafe(s: State, g: nat)
    requires Safe(s) && g in s.workers
    ensures Safe(DoCheckCurrent(s, g))
  {
    RequeueSafe(s, g);
    SetWorkerSafe(s, g, s.workers[g].(phase := Deleting({})));
  }

  lemma WriteFailsSafe(s: State, w: nat, i: nat)
    requires Safe(s) && w in s.writers
    ensures Safe(DoWriteFails(s, w, i))
  {
    var all := Indices(s.writers[w].version.meta);
    SetPhaseSafe(s, w, RollingBack(set j | j in all && j < i, set j | j in all && j >= i));
  }

  lemma CleanUpSafe(s: State, r: nat)
    requires Safe(s) && r in s.readers
    ensures Safe(DoCleanUp(s, r))
  {
    var reader := s.readers[r];
    DropCurrentSafe(s, reader.key, reader.meta, reader.phase.Faulted?);
    SetReaderSafe(DropCurrent(s, reader.key, reader.meta, reader.phase.Faulted?), r, reader.(phase := Done(None)));
  }

  lemma LeaseTaskSafe(s: State, g: nat, id: TaskId, leaseSeconds: nat)
    requires Safe(s) && id in s.store.tasks
    ensures Safe(LeaseTask(s, g, id, leaseSeconds))
  {
  }

  lemma ReclaimFileSafe(s: State, g: nat, i: nat)
    requires Safe(s) && g in s.workers && s.workers[g].phase.Deleting? && i < |s.workers[g].task.retired.paths|
    ensures Safe(DoReclaimFile(s, g, i))
  {
    var worker := s.workers[g];
    RemoveFileSafe(s, worker.task.retired.paths[i]);
    SetWorkerSafe(RemoveFile(s, worker.task.retired.paths[i]), g, worker.(phase := Deleting(worker.phase.gone + {i})));
  }

  lemma FinishRollbackSafe(s: State, w: nat)
    requires Safe(s) && WriterEnabled(s, w, FinishRollback)
    ensures Safe(SetPhase(s, w, GaveUp(s.writers[w].phase.left)))
  {
    SetPhaseSafe(s, w, GaveUp(s.writers[w].phase.left));
  }

  lemma WriteSafe(s: State, w: nat, write: WriterAction)
    requires Safe(s) && WriterEnabled(s, w, write)
    ensures Safe(DoWrite(s, w, write))
  {
    match write
    case StartPut(key, contents, striped, createdAt, ttl, ifAbsent) =>
      AllocateSafe(s, w, key, contents, striped, createdAt, ttl, ifAbsent);
    case WriteFile(i) => StoreFileSafe(s, w, i);
    case WriteFails(i) => WriteFailsSafe(s, w, i);
    case Publish(askedAt, outcome) => PublishSafe(s, w, askedAt, outcome);
    case Retry(outcome) => PublishSafe(s, w, s.writers[w].phase.askedAt, outcome);
    case Disconnect => StartRollbackSafe(s, w);
    case UndoFile(i, removed) => UndoFileSafe(s, w, i, removed);
    case FinishRollback => FinishRollbackSafe(s, w);
  }

  lemma ReadSafe(s: State, r: nat, read: ReaderAction)
    requires Safe(s) && ReaderEnabled(s, r, read)
    ensures Safe(DoRead(s, r, read))
  {
    match read
    case ReadMeta(key) => SetReaderSafe(s, r, Reader(key, s.store.blocks[key], Reading(map[])));
    case ReadFile(i) => ReadFileSafe(s, r, i);
    case FinishRead => FinishReadSafe(s, r);
    case MeetFault(_, fault) => SetReaderSafe(s, r, s.readers[r].(phase := Faulted(fault)));
    case CleanUp => CleanUpSafe(s, r);
    case FailRead => SetReaderSafe(s, r, s.readers[r].(phase := Done(None)));
  }

  lemma WorkSafe(s: State, g: nat, work: WorkerAction)
    requires Safe(s) && WorkerEnabled(s, g, work)
    ensures Safe(DoWork(s, g, work))
  {
    match work
    case ClaimTask(id, leaseSeconds) => LeaseTaskSafe(s, g, id, leaseSeconds);
    case CheckCurrent => CheckCurrentSafe(s, g);
    case ReclaimFile(i) => ReclaimFileSafe(s, g, i);
    case FinishTask => CompleteTaskSafe(s, g);
    case PutBack => RequeueSafe(s, g);
    case Crash => DropWorkerSafe(s, g);
  }

  /** Every step keeps the invariant. */
  lemma StepSafe(s: State, step: Step)
    requires Safe(s) && Enabled(s, step)
    ensures Safe(Do(s, step))
  {
    match step
    case Tick(_) =>
    case ByWriter(w, write) => WriteSafe(s, w, write);
    case ByReader(r, read) => ReadSafe(s, r, read);
    case ByWorker(g, work) => WorkSafe(s, g, work);
    case Delete(key, askedAt) => RetireCurrentSafe(s, key, askedAt);
    case Expire(key, _, askedAt) => RetireCurrentSafe(s, key, askedAt);
  }

  // ---------------------------------------------------------------------------------------------
  // Runs

  /** `states` is the run that takes `steps` from the empty store. */
  ghost predicate IsRun(grace: nat, states: seq<State>, steps: seq<Step>) {
    && |states| == |steps| + 1
    && states[0] == Init(grace)
    && forall k :: 0 <= k < |steps| ==> Enabled(states[k], steps[k]) && states[k + 1] == Do(states[k], steps[k])
  }

  lemma {:induction false} RunSafe(grace: nat, states: seq<State>, steps: seq<Step>, k: nat)
    requires IsRun(grace, states, steps) && k < |states|
    ensures Safe(states[k])
    decreases k
  {
    if k > 0 {
      RunSafe(grace, states, steps, k - 1);
      StepSafe(states[k - 1], steps[k - 1]);
    }
  }

  lemma VersionKept(s: State, step: Step, v: Vid)
    requires Safe(s) && Enabled(s, step) && v in s.versions
    ensures v in Do(s, step).versions && Do(s, step).versions[v] == s.versions[v]
  {
    if step.ByWriter? && step.write.StartPut? {
      FreshGeneration(s, step.write.key);
    }
  }

  /** What a generation stands for is fixed when it is handed out and never changes afterwards. */
  lemma {:induction false} VersionFixed(grace: nat, states: seq<State>, steps: seq<Step>, i: nat, j: nat, v: Vid)
    requires IsRun(grace, states, steps) && i <= j < |states| && v in states[i].versions
    ensures v in states[j].versions && states[j].versions[v] == states[i].versions[v]
    decreases j - i
  {
    if i < j {
      VersionFixed(grace, states, steps, i, j - 1, v);
      RunSafe(grace, states, steps, j - 1);
      VersionKept(states[j - 1], steps[j - 1], v);
    }
  }

  /**
   * In every interleaving, publish commands lost, repeated or rolled back included, a finished read
   * yields nothing or exactly the bytes put under the one generation its metadata names.
   */
  lemma ReadIntegrity(grace: nat, states: seq<State>, steps: seq<Step>, k: nat, r: nat)
    requires IsRun(grace, states, steps) && k < |states| && r in states[k].readers
    requires states[k].readers[r].phase.Done? && states[k].readers[r].phase.result.Some?
    ensures
      var reader := states[k].readers[r];
      && VidOfReader(reader) in states[k].versions
      && reader.phase.result.value == Flatten(states[k].versions[VidOfReader(reader)].files)
      && |reader.phase.result.value| == reader.meta.size
  {
    RunSafe(grace, states, steps, k);
    var reader := states[k].readers[r];
    assert ReaderOk(states[k].versions, reader);
    assert VersionOk(VidOfReader(reader), states[k].versions[VidOfReader(reader)]);
  }

  /** No generation of a key is handed out twice, whatever was retired in between. */
  lemma GenerationsNeverReused(grace: nat, states: seq<State>, steps: seq<Step>, i: nat, j: nat)
    requires IsRun(grace, states, steps) && i < j < |steps|
    requires steps[i].ByWriter? && steps[i].write.StartPut?
    requires steps[j].ByWriter? && steps[j].write.StartPut? && steps[i].write.key == steps[j].write.key
    ensures
      var key := steps[i].write.key;
      && key in states[i + 1].store.generations && key in states[j + 1].store.generations
      && states[i + 1].store.generations[key] < states[j + 1].store.generations[key]
  {
    var key := steps[i].write.key;
    var v := Vid(key, CurrentGeneration(states[i].store, key) + 1);
    VersionFixed(grace, states, steps, i + 1, j, v);
    RunSafe(grace, states, steps, j);
  }

  /**
   * A put whose publish step reported failure, with every removal succeeding, leaves none of its
   * files behind.
   */
  lemma FailedPutLeavesNoFile(grace: nat, states: seq<State>, steps: seq<Step>, k: nat, w: nat, p: Path)
    requires IsRun(grace, states, steps) && k < |states| && w in states[k].writers
    requires states[k].writers[w].phase == GaveUp({})
    requires p.key == states[k].writers[w].key && p.generation == states[k].writers[w].version.meta.generation
    ensures p !in states[k].files
  {
    RunSafe(grace, states, steps, k);
    var s := states[k];
    assert WriterOk(s.versions, s.files, s.writers[w]);
    assert p in s.files ==> FileOk(s.versions, p, s.files[p]);
  }

  /** The writer's step is not a publish that takes effect. */
  predicate Unapplied(s: State, w: nat, write: WriterAction)
    requires WriterEnabled(s, w, write)
  {
    write.Publish? || write.Retry? ==> write.outcome == NotApplied || !Applies(s, s.writers[w])
  }

  lemma OwnPaths(s: State, w: nat, i: nat)
    requires Safe(s) && w in s.writers && HasFile(s.writers[w], i)
    ensures var p := s.writers[w].version.meta.paths[i]; Vid(p.key, p.generation) == VidOfWriter(s.writers[w])
  {
    assert WriterOk(s.versions, s.files, s.writers[w]);
    assert VersionOk(VidOfWriter(s.writers[w]), s.writers[w].version);
  }

  /** Only files of version `v`, if any, differ. */
  ghost predicate SameButFor(before: Files, after: Files, v: Vid) {
    && (forall p <- before :: Vid(p.key, p.generation) != v ==> p in after && after[p] == before[p])
    && (forall p <- after :: Vid(p.key, p.generation) != v ==> p in before)
  }

  predicate SamePut(a: Writer, b: Writer) {
    a.key == b.key && a.version == b.version && a.ifAbsent == b.ifAbsent
  }

  /** Writers keep their key, version and mode, and what was published or disowned stays so. */
  ghost predicate Onward(s: State, t: State) {
    && (forall w <- s.writers :: w in t.writers && SamePut(s.writers[w], t.writers[w]))
    && s.hist.committed <= t.hist.committed && s.hist.disowned <= t.hist.disowned
  }

  lemma OnwardTrans(s: State, t: State, u: State)
    requires Onward(s, t) && Onward(t, u)
    ensures Onward(s, u)
  {
  }

  lemma ApplyOnward(s: State, w: nat, askedAt: int, phase: WriterPhase)
    requires w in s.writers
    ensures var applied := Apply(s, s.writers[w], askedAt);
      Onward(s, SetPhase(applied, w, phase)) && Onward(s, StartRollback(applied, w))
  {
  }

  lemma PhaseOnward(s: State, w: nat, phase: WriterPhase)
    requires w in s.writers
    ensures Onward(s, SetPhase(s, w, phase)) && Onward(s, StartRollback(s, w))
  {
  }

  lemma PublishOnward(s: State, w: nat, askedAt: int, outcome: Outcome)
    requires w in s.writers
    ensures Onward(s, DoPublish(s, w, askedAt, outcome))
  {
    PhaseOnward(s, w, Retrying(askedAt));
    ApplyOnward(s, w, askedAt, if outcome.Answered? then Published else Retrying(askedAt));
  }

  lemma RetryOnward(s: State, w: nat, outcome: Outcome)
    requires w in s.writers && s.writers[w].phase.Retrying?
    ensures Onward(s, DoRetry(s, w, outcome))
  {
    PhaseOnward(s, w, Published);
    ApplyOnward(s, w, s.writers[w].phase.askedAt, Published);
  }

  lemma WriteOnward(s: State, w: nat, write: WriterAction)
    requires WriterEnabled(s, w, write)
    ensures Onward(s, DoWrite(s, w, write))
  {
    match write
    case StartPut(_, _, _, _, _, _) =>
    case WriteFile(_) =>
    case WriteFails(_) =>
    case Publish(askedAt, outcome) => PublishOnward(s, w, askedAt, outcome);
    case Retry(outcome) => RetryOnward(s, w, outcome);
    case Disconnect =>
    case UndoFile(_, _) =>
    case FinishRollback =>
  }

  lemma ReadOnward(s: State, r: nat, read: ReaderAction)
    requires ReaderEnabled(s, r, read)
    ensures Onward(s, DoRead(s, r, read))
  {
  }

  lemma WorkOnward(s: State, g: nat, work: WorkerAction)
    requires WorkerEnabled(s, g, work)
    ensures Onward(s, DoWork(s, g, work))
  {
  }

  lemma StepOnward(s: State, step: Step)
    requires Enabled(s, step)
    ensures Onward(s, Do(s, step))
  {
    match step
    case Tick(_) =>
    case ByWriter(w, write) => WriteOnward(s, w, write);
    case ByReader(r, read) => ReadOnward(s, r, read);
    case ByWorker(g, work) => WorkOnward(s, g, work);
    case Delete(_, _) =>
    case Expire(_, _, _) =>
  }

  lemma RunStepOnward(grace: nat, states: seq<State>, steps: seq<Step>, k: nat)
    requires IsRun(grace, states, steps) && k < |steps|
    ensures Onward(states[k], states[k + 1])
  {
    StepOnward(states[k], steps[k]);
  }

  lemma {:induction false} ChainOnward(states: seq<State>, i: nat, j: nat)
    requires i <= j < |states|
    requires forall k, n :: 0 <= k < n < |states| && n == k + 1 ==> Onward(states[k], states[n])
    ensures Onward(states[i], states[j])
    decreases j - i
  {
    if i < j {
      ChainOnward(states, i, j - 1);
      OnwardTrans(states[i], states[j - 1], states[j]);
    }
  }

  lemma RunOnward(grace: nat, states: seq<State>, steps: seq<Step>, i: nat, j: nat)
    requires IsRun(grace, states, steps) && i <= j < |states|
    ensures Onward(states[i], states[j])
  {
    forall k, n | 0 <= k < n < |states| && n == k + 1
      ensures Onward(states[k], states[n])
    {
      RunStepOnward(grace, states, steps, k);
    }
    ChainOnward(states, i, j);
  }

  /**
   * One step of a put whose publish does not take effect: the current versions, the queue and every
   * file of another version stay as they are.
   */
  lemma SparesOthers(s: State, w: nat, write: WriterAction)
    requires Safe(s) && WriterEnabled(s, w, write) && Unapplied(s, w, write)
    ensures var t := DoWrite(s, w, write);
      && t.store.blocks == s.store.blocks && t.store.tasks == s.store.tasks
      && if write.StartPut? then t.files == s.files else SameButFor(s.files, t.files, VidOfWriter(s.writers[w]))
  {
    match write
    case StartPut(_, _, _, _, _, _) =>
    case WriteFile(i) => StoreFileSpares(s, w, i);
    case WriteFails(_) =>
    case Publish(askedAt, outcome) => PublishSpares(s, w, askedAt, outcome);
    case Retry(outcome) => PublishSpares(s, w, 0, outcome);
    case Disconnect =>
    case UndoFile(i, removed) => UndoFileSpares(s, w, i, removed);
    case FinishRollback =>
  }

  lemma StoreFileSpares(s: State, w: nat, i: nat)
    requires Safe(s) && WriterEnabled(s, w, WriteFile(i))
    ensures StoreFile(s, w, i).store == s.store
    ensures SameButFor(s.files, StoreFile(s, w, i).files, VidOfWriter(s.writers[w]))
  {
    OwnPaths(s, w, i);
  }

  lemma UndoFileSpares(s: State, w: nat, i: nat, removed: bool)
    requires Safe(s) && WriterEnabled(s, w, UndoFile(i, removed))
    ensures DoUndoFile(s, w, i, removed).store == s.store
    ensures SameButFor(s.files, DoUndoFile(s, w, i, removed).files, VidOfWriter(s.writers[w]))
  {
    OwnPaths(s, w, i);
  }

  lemma PublishSpares(s: State, w: nat, askedAt: int, outcome: Outcome)
    requires w in s.writers && (outcome == NotApplied || !Applies(s, s.writers[w]))
    ensures DoPublish(s, w, askedAt, outcome).store == s.store && DoPublish(s, w, askedAt, outcome).files == s.files
    ensures s.writers[w].phase.Retrying? ==>
      DoRetry(s, w, outcome).store == s.store && DoRetry(s, w, outcome).files == s.files
  {
  }
}
