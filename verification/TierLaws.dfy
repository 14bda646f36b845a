/**
 * What the memory tier over the disk tier promises its callers, in terms of the calls and answers
 * alone: a read answers from the last write that took effect on its key, whatever else happened.
 */
module TierLaws {
  import opened Types
  import opened L1Cache
  import opened MemoryTier
  import Metadata
  import Queue = GcLease

  /** The write has passed its TTL at `now`, or its expiry instant lies beyond the 64-bit range. */
  predicate Lapsed(w: Write, now: int) {
    w.ttl > 0 && (w.createdAt + w.ttl > I64_MAX || w.createdAt + w.ttl <= now)
  }

  /** The command wrote to the key, and the write took effect. */
  predicate Writes(op: Op, answer: Answer, key: Key) {
    match op
    case Put(_, w) => w.key == key
    case SlabPut(w, _) => w.key == key && Flatten(w.segments) != []
    case PutIfAbsent(_, w, _) => w.key == key && answer == Answered(true)
    case _ => false
  }

  /** What the key holds after the command, if it held `last` before. */
  function Holds(last: Option<Write>, op: Op, answer: Answer, key: Key): Option<Write> {
    if Writes(op, answer, key) then Some(op.write)
    else if op == Delete(key) then None
    else last
  }

  /** What the key holds before command `k`, if it held `first` before command `i`. */
  function Holder(ops: seq<Op>, answers: seq<Answer>, key: Key, i: nat, k: nat, first: Option<Write>): Option<Write>
    requires i <= k <= |ops| == |answers|
    decreases k
  {
    if i == k then first else Holds(Holder(ops, answers, key, i, k - 1, first), ops[k - 1], answers[k - 1], key)
  }

  /** An unexpired write is there to be read. */
  predicate Readable(last: Option<Write>, now: int) {
    last.Some? && !Lapsed(last.value, now)
  }

  /** The bytes of the write, with its creation time, TTL and size. */
  ghost predicate Returns(answer: Answer, w: Write) {
    && answer.Found? && answer.data == Flatten(w.segments)
    && answer.meta.createdAt == w.createdAt && answer.meta.ttl == w.ttl && answer.meta.size == |Flatten(w.segments)|
  }

  /**
   * The answer to a command about the key that holds `last`, where `clock` is the last clock read
   * before. A delete may find an expired object either still there or already purged.
   */
  ghost predicate Fits(op: Op, answer: Answer, key: Key, last: Option<Write>, clock: int) {
    match op
    case Get(_, k, now) => k == key ==> if Readable(last, now) then Returns(answer, last.value) else answer == NotFound
    case GetWithMeta(_, k, _, now) =>
      k == key ==> if Readable(last, now) then Returns(answer, last.value) else answer == NotFound
    case Exists(k, now) => k == key ==> answer == Answered(Readable(last, now))
    case PutIfAbsent(_, w, now) => w.key == key ==> answer == Answered(!Readable(last, now))
    case Delete(k) => k == key ==>
      answer.Answered? && (Readable(last, clock) ==> answer.yes) && (last.None? ==> !answer.yes)
    case _ => true
  }

  // ---------------------------------------------------------------------------------------------
  // One command on disk

  /** The disk's current version of the key is the write it holds; without one, that write has expired. */
  ghost predicate Shows(d: Disk, clock: int, key: Key, last: Option<Write>) {
    if key in d.live then
      && last.Some? && var (meta, w) := (d.live[key], last.value);
      && meta.createdAt == w.createdAt && meta.ttl == w.ttl && meta.size == |Flatten(w.segments)|
      && (key, meta.generation) in d.files && d.files[(key, meta.generation)] == Flatten(w.segments)
    else last.None? || Lapsed(last.value, clock)
  }

  /** What a step must do for the key. */
  ghost predicate StepFits(d: Disk, clock: int, op: Op, key: Key, last: Option<Write>) {
    var (d', answer) := OnDisk(d, op);
    Fits(op, answer, key, last, clock) && Shows(d', Clock(clock, op), key, Holds(last, op, answer, key))
  }

  lemma ReadShows(d: Disk, clock: int, op: Op, key: Key, last: Option<Write>)
    requires ValidDisk(d) && Admissible(d, clock, op) && Shows(d, clock, key, last)
    requires op.Get? || op.GetWithMeta?
    ensures StepFits(d, clock, op, key, last)
  {
  }

  lemma ExistsShows(d: Disk, clock: int, op: Op, key: Key, last: Option<Write>)
    requires ValidDisk(d) && Admissible(d, clock, op) && Shows(d, clock, key, last) && op.Exists?
    ensures StepFits(d, clock, op, key, last)
  {
  }

  lemma WriteShows(d: Disk, clock: int, op: Op, key: Key, last: Option<Write>)
    requires Shows(d, clock, key, last) && (op.Put? || op.SlabPut?)
    ensures StepFits(d, clock, op, key, last)
  {
  }

  lemma PutIfAbsentShows(d: Disk, clock: int, op: Op, key: Key, last: Option<Write>)
    requires Admissible(d, clock, op) && Shows(d, clock, key, last) && op.PutIfAbsent?
    ensures StepFits(d, clock, op, key, last)
  {
  }

  lemma OtherShows(d: Disk, clock: int, op: Op, key: Key, last: Option<Write>)
    requires Admissible(d, clock, op) && Shows(d, clock, key, last)
    requires op.Delete? || op.Forget? || op.Free? || op.Reclaim?
    ensures StepFits(d, clock, op, key, last)
  {
  }

  lemma StepShows(d: Disk, clock: int, op: Op, key: Key, last: Option<Write>)
    requires ValidDisk(d) && Admissible(d, clock, op) && Shows(d, clock, key, last)
    ensures StepFits(d, clock, op, key, last)
  {
    match op
    case Get(_, _, _) => ReadShows(d, clock, op, key, last);
    case GetWithMeta(_, _, _, _) => ReadShows(d, clock, op, key, last);
    case Exists(_, _) => ExistsShows(d, clock, op, key, last);
    case Put(_, _) => WriteShows(d, clock, op, key, last);
    case SlabPut(_, _) => WriteShows(d, clock, op, key, last);
    case PutIfAbsent(_, _, _) => PutIfAbsentShows(d, clock, op, key, last);
    case _ => OtherShows(d, clock, op, key, last);
  }

  // ---------------------------------------------------------------------------------------------
  // Whole runs of both tiers

  /** A run of the tier in which every command is admissible, from a state in which caches and disk agree. */
  ghost predicate IsRun(states: seq<System>, answers: seq<Answer>, ops: seq<Op>, clocks: seq<int>) {
    && IsTierRun(states, answers, ops) && |clocks| == |ops| + 1 && Agree(states[0], clocks[0])
    && forall k :: 0 <= k < |ops| ==>
         Admissible(states[k].disk, clocks[k], ops[k]) && clocks[k + 1] == Clock(clocks[k], ops[k])
  }

  lemma {:induction false} AgreesAt(states: seq<System>, answers: seq<Answer>, ops: seq<Op>, clocks: seq<int>, k: nat)
    requires IsRun(states, answers, ops, clocks) && k <= |ops|
    ensures Agree(states[k], clocks[k])
  {
    if k > 0 {
      AgreesAt(states, answers, ops, clocks, k - 1);
      StepAgrees(states[k - 1], clocks[k - 1], ops[k - 1]);
    }
  }

  /** One command of the run, answered as the disk tier alone would answer it. */
  lemma StepOfRun(states: seq<System>, answers: seq<Answer>, ops: seq<Op>, clocks: seq<int>, k: nat)
    requires IsRun(states, answers, ops, clocks) && k < |ops|
    ensures ValidDisk(states[k].disk) && (states[k + 1].disk, answers[k]) == OnDisk(states[k].disk, ops[k])
  {
    AgreesAt(states, answers, ops, clocks, k);
    StepAgrees(states[k], clocks[k], ops[k]);
    assert (states[k + 1], answers[k]) == OnTier(states[k], ops[k]);
  }

  lemma {:induction false} ShowsAlong(states: seq<System>, answers: seq<Answer>, ops: seq<Op>, clocks: seq<int>,
                                      key: Key, i: nat, k: nat, first: Option<Write>)
    requires IsRun(states, answers, ops, clocks) && i <= k <= |ops|
    requires Shows(states[i].disk, clocks[i], key, first)
    ensures Shows(states[k].disk, clocks[k], key, Holder(ops, answers, key, i, k, first))
    decreases k
  {
    if i < k {
      ShowsAlong(states, answers, ops, clocks, key, i, k - 1, first);
      StepOfRun(states, answers, ops, clocks, k - 1);
      StepShows(states[k - 1].disk, clocks[k - 1], ops[k - 1], key, Holder(ops, answers, key, i, k - 1, first));
    }
  }

  /**
   * Over every run and for every key that starts out absent: each answer about the key follows from
   * the last write to it that took effect, whichever cache is asked and whatever was evicted,
   * reclaimed or done to other keys.
   */
  lemma HistoryDecides(states: seq<System>, answers: seq<Answer>, ops: seq<Op>, clocks: seq<int>, key: Key, k: nat)
    requires IsRun(states, answers, ops, clocks) && k < |ops| && key !in states[0].disk.live
    ensures Fits(ops[k], answers[k], key, Holder(ops, answers, key, 0, k, None), clocks[k])
  {
    ShowsAlong(states, answers, ops, clocks, key, 0, k, None);
    StepOfRun(states, answers, ops, clocks, k);
    StepShows(states[k].disk, clocks[k], ops[k], key, Holder(ops, answers, key, 0, k, None));
  }

  /** No command from `i` on and before `k` writes the key or deletes it. */
  ghost predicate LeftAlone(ops: seq<Op>, answers: seq<Answer>, key: Key, i: nat, k: nat)
    requires k <= |ops| == |answers|
  {
    forall j :: i <= j < k ==> !Writes(ops[j], answers[j], key) && ops[j] != Delete(key)
  }

  lemma {:induction false} HeldAlong(ops: seq<Op>, answers: seq<Answer>, key: Key, i: nat, k: nat, first: Option<Write>)
    requires i <= k <= |ops| == |answers| && LeftAlone(ops, answers, key, i, k)
    ensures Holder(ops, answers, key, i, k, first) == first
    decreases k
  {
    if i < k {
      HeldAlong(ops, answers, key, i, k - 1, first);
    }
  }

  lemma AfterLastChange(states: seq<System>, answers: seq<Answer>, ops: seq<Op>, clocks: seq<int>, key: Key,
                        i: nat, k: nat)
    requires IsRun(states, answers, ops, clocks) && i < k < |ops| && LeftAlone(ops, answers, key, i + 1, k)
    requires Writes(ops[i], answers[i], key) || ops[i] == Delete(key)
    ensures Fits(ops[k], answers[k], key, Holds(None, ops[i], answers[i], key), clocks[k])
  {
    var first := Holds(None, ops[i], answers[i], key);
    StepOfRun(states, answers, ops, clocks, i);
    ChangeShows(states[i].disk, clocks[i], ops[i], key);
    ShowsAlong(states, answers, ops, clocks, key, i + 1, k, first);
    HeldAlong(ops, answers, key, i + 1, k, first);
    StepOfRun(states, answers, ops, clocks, k);
    StepShows(states[k].disk, clocks[k], ops[k], key, first);
  }

  /** After a write or a delete the disk shows it, whatever it showed before. */
  lemma ChangeShows(d: Disk, clock: int, op: Op, key: Key)
    requires Writes(op, OnDisk(d, op).1, key) || op == Delete(key)
    ensures Shows(OnDisk(d, op).0, Clock(clock, op), key, Holds(None, op, OnDisk(d, op).1, key))
  {
  }

  /** After a delete the key is gone for reads through either cache, until it is written again. */
  lemma DeletedUntilWritten(states: seq<System>, answers: seq<Answer>, ops: seq<Op>, clocks: seq<int>, key: Key,
                            i: nat, k: nat)
    requires IsRun(states, answers, ops, clocks) && i < k < |ops| && LeftAlone(ops, answers, key, i + 1, k)
    requires ops[i] == Delete(key)
    ensures ops[k].Get? && ops[k].key == key ==> answers[k] == NotFound
    ensures ops[k].Exists? && ops[k].key == key ==> answers[k] == Answered(false)
    ensures ops[k] == Delete(key) ==> answers[k] == Answered(false)
    ensures ops[k].PutIfAbsent? && ops[k].write.key == key ==> answers[k] == Answered(true)
  {
    AfterLastChange(states, answers, ops, clocks, key, i, k);
  }

  /**
   * What a put, a slab put or a winning put-if-absent wrote is what is read through either cache, up
   * to its expiry instant and not from then on, until it is overwritten or deleted. Until it expires
   * a put-if-absent loses against it, and a delete finds it.
   */
  lemma WrittenUntilChanged(states: seq<System>, answers: seq<Answer>, ops: seq<Op>, clocks: seq<int>, key: Key,
                            i: nat, k: nat)
    requires IsRun(states, answers, ops, clocks) && i < k < |ops| && LeftAlone(ops, answers, key, i + 1, k)
    requires Writes(ops[i], answers[i], key)
    ensures var w := ops[i].write;
      && (ops[k].Get? && ops[k].key == key ==>
            if Lapsed(w, ops[k].now) then answers[k] == NotFound else Returns(answers[k], w))
      && (ops[k].Exists? && ops[k].key == key ==> answers[k] == Answered(!Lapsed(w, ops[k].now)))
      && (ops[k].PutIfAbsent? && ops[k].write.key == key ==> answers[k] == Answered(Lapsed(w, ops[k].now)))
      && (ops[k] == Delete(key) && !Lapsed(w, clocks[k]) ==> answers[k] == Answered(true))
  {
    AfterLastChange(states, answers, ops, clocks, key, i, k);
  }

  // ---------------------------------------------------------------------------------------------
  // The disk tier and the metadata service

  /** The metadata commands behind a call to the disk tier. */
  function Commands(d: Disk, op: Op, notBefore: int): seq<Queue.BlockCommand> {
    match op
    case Get(_, key, now) => if key in d.live then ReadCommands(d, key, d.live[key], now, notBefore) else []
    case GetWithMeta(_, key, expected, now) => ReadCommands(d, key, expected, now, notBefore)
    case Exists(key, now) => if key in d.live then ReadCommands(d, key, d.live[key], now, notBefore) else []
    case Put(_, w) => [Queue.GenerationCmd(w.key), Queue.ReplaceCmd(w.key, Stored(d, w), notBefore)]
    case PutIfAbsent(_, w, now) =>
      var (generation, commit) := (Queue.GenerationCmd(w.key), Queue.CommitCmd(w.key, Stored(d, w)));
      if w.key !in d.live then [generation, commit]
      else if ExpiredAt(d.live[w.key], now)
      then [Queue.RetireIfCmd(w.key, d.live[w.key], notBefore), generation, commit]
      else []
    case Delete(key) => [Queue.RetireCmd(key, notBefore)]
    case SlabPut(w, _) =>
      if Flatten(w.segments) == [] then []
      else [Queue.GenerationCmd(w.key), Queue.ReplaceCmd(w.key, Stored(d, w), notBefore)]
    case _ => []
  }

  /** A read retires the version it finds expired, and drops the metadata of a missing file. */
  function ReadCommands(d: Disk, key: Key, meta: BlockMeta, now: int, notBefore: int): seq<Queue.BlockCommand> {
    if ExpiredCurrent(d, key, meta, now) then [Queue.RetireIfCmd(key, meta, notBefore)]
    else if (key, meta.generation) in d.files then []
    else [Queue.DeleteIfCmd(key, meta)]
  }

  function RunAll(s: Metadata.Store, commands: seq<Queue.BlockCommand>): Metadata.Store
    decreases |commands|
  {
    if commands == [] then s else RunAll(Queue.RunBlock(s, commands[0]), commands[1..])
  }

  /** The store has the disk's current metadata and generation counters. */
  ghost predicate Backs(s: Metadata.Store, d: Disk) {
    s.blocks == d.live && s.generations == d.generations
  }

  lemma RunOne(s: Metadata.Store, c: Queue.BlockCommand)
    ensures RunAll(s, [c]) == Queue.RunBlock(s, c)
  {
    assert [c][1..] == [];
  }

  lemma RunTwo(s: Metadata.Store, c: Queue.BlockCommand, e: Queue.BlockCommand)
    ensures RunAll(s, [c, e]) == Queue.RunBlock(Queue.RunBlock(s, c), e)
  {
    assert [c, e][1..] == [e];
    RunOne(Queue.RunBlock(s, c), e);
  }

  lemma ReadOnMetadata(d: Disk, s: Metadata.Store, key: Key, meta: BlockMeta, now: int, notBefore: int)
    requires Backs(s, d)
    ensures Backs(RunAll(s, ReadCommands(d, key, meta, now, notBefore)), DiskGetWithMeta(d, key, meta, now).0)
  {
    RunOne(s, Queue.RetireIfCmd(key, meta, notBefore));
    RunOne(s, Queue.DeleteIfCmd(key, meta));
  }

  lemma WriteOnMetadata(d: Disk, s: Metadata.Store, w: Write, notBefore: int)
    requires ValidDisk(d) && Backs(s, d)
    ensures Backs(RunAll(s, [Queue.GenerationCmd(w.key), Queue.ReplaceCmd(w.key, Stored(d, w), notBefore)]),
                  DiskPut(d, w))
    ensures w.key !in d.live ==>
      Backs(RunAll(s, [Queue.GenerationCmd(w.key), Queue.CommitCmd(w.key, Stored(d, w))]), DiskPut(d, w))
  {
    var generation := Queue.GenerationCmd(w.key);
    assert w.key in d.live ==> d.live[w.key].generation <= Newest(d, w.key);
    RunTwo(s, generation, Queue.ReplaceCmd(w.key, Stored(d, w), notBefore));
    RunTwo(s, generation, Queue.CommitCmd(w.key, Stored(d, w)));
  }

  lemma PutIfAbsentOnMetadata(d: Disk, s: Metadata.Store, side: Side, w: Write, now: int, notBefore: int)
    requires ValidDisk(d) && Backs(s, d)
    ensures var op := PutIfAbsent(side, w, now); Backs(RunAll(s, Commands(d, op, notBefore)), OnDisk(d, op).0)
  {
    var without := d.(live := d.live - {w.key});
    if w.key !in d.live {
      assert without == d;
      WriteOnMetadata(d, s, w, notBefore);
    } else if ExpiredAt(d.live[w.key], now) {
      var retire := Queue.RetireIfCmd(w.key, d.live[w.key], notBefore);
      var rest := [Queue.GenerationCmd(w.key), Queue.CommitCmd(w.key, Stored(d, w))];
      assert ([retire] + rest)[1..] == rest && Commands(d, PutIfAbsent(side, w, now), notBefore) == [retire] + rest;
      WriteOnMetadata(without, Queue.RunBlock(s, retire), w, notBefore);
    }
  }

  /** Every call leaves the current metadata and the counters as the metadata service's own commands do. */
  lemma DiskRunsOnMetadata(d: Disk, s: Metadata.Store, op: Op, notBefore: int)
    requires ValidDisk(d) && Backs(s, d)
    ensures Backs(RunAll(s, Commands(d, op, notBefore)), OnDisk(d, op).0)
  {
    match op
    case Get(_, key, now) => if key in d.live { ReadOnMetadata(d, s, key, d.live[key], now, notBefore); }
    case GetWithMeta(_, key, expected, now) => ReadOnMetadata(d, s, key, expected, now, notBefore);
    case Exists(key, now) => if key in d.live { ReadOnMetadata(d, s, key, d.live[key], now, notBefore); }
    case Put(_, w) => WriteOnMetadata(d, s, w, notBefore);
    case PutIfAbsent(side, w, now) => PutIfAbsentOnMetadata(d, s, side, w, now, notBefore);
    case Delete(key) => RunOne(s, Queue.RetireCmd(key, notBefore));
    case SlabPut(w, _) => WriteOnMetadata(d, s, w, notBefore);
    case _ =>
  }
}
