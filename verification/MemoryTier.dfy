/**
 * The memory tier in front of the disk tier. Every call is one atomic step; a put either commits or
 * leaves the disk tier unchanged. The disk tier keeps the current metadata of each key and the bytes
 * of every generation that has not been reclaimed.
 */
module MemoryTier {
  import opened Types
  import opened L1Cache

  datatype Disk = Disk(live: map<Key, BlockMeta>, files: map<(Key, nat), Bytes>, generations: map<Key, nat>)

  function Newest(d: Disk, key: Key): nat {
    if key in d.generations then d.generations[key] else 0
  }

  /** Live versions have their bytes, and no generation is beyond the newest allocated. */
  ghost predicate ValidDisk(d: Disk) {
    && (forall key <- d.live :: (key, d.live[key].generation) in d.files)
    && (forall f <- d.files :: f.1 <= Newest(d, f.0))
  }

  datatype Write = Write(key: Key, segments: seq<Bytes>, createdAt: int, ttl: int, striped: bool, stripes: nat)

  datatype Answer = NotFound | Found(data: Bytes, meta: BlockMeta) | Answered(yes: bool) | Done | Refused

  // ---------------------------------------------------------------------------------------------
  // The disk tier alone

  function Stored(d: Disk, w: Write): BlockMeta {
    PrepareWriteMeta(w.key, Newest(d, w.key) + 1, |Flatten(w.segments)|, w.createdAt, w.ttl, w.striped, w.stripes)
  }

  function DiskPut(d: Disk, w: Write): Disk {
    var g := Newest(d, w.key) + 1;
    Disk(d.live[w.key := Stored(d, w)], d.files[(w.key, g) := Flatten(w.segments)], d.generations[w.key := g])
  }

  /** The current version has expired and is the one named. */
  predicate ExpiredCurrent(d: Disk, key: Key, meta: BlockMeta, now: int) {
    && ExpiredAt(meta, now) && key in d.live && ExpiredAt(d.live[key], now) && SameVersion(d.live[key], meta)
  }

  function Purge(d: Disk, key: Key, meta: BlockMeta, now: int): Disk {
    if ExpiredCurrent(d, key, meta, now) then d.(live := d.live - {key}) else d
  }

  /** Metadata of a missing file is dropped if it is still of that generation. */
  function DropMissing(d: Disk, key: Key, meta: BlockMeta): Disk {
    if key in d.live && d.live[key].generation == meta.generation then d.(live := d.live - {key}) else d
  }

  function DiskGetWithMeta(d: Disk, key: Key, meta: BlockMeta, now: int): (Disk, Answer) {
    if ExpiredCurrent(d, key, meta, now) then (Purge(d, key, meta, now), NotFound)
    else if (key, meta.generation) in d.files then (d, Found(d.files[(key, meta.generation)], meta))
    else (DropMissing(d, key, meta), NotFound)
  }

  function DiskGet(d: Disk, key: Key, now: int): (Disk, Answer) {
    if key in d.live then DiskGetWithMeta(d, key, d.live[key], now) else (d, NotFound)
  }

  function DiskExists(d: Disk, key: Key, now: int): (Disk, Answer) {
    if key !in d.live then (d, Answered(false))
    else if ExpiredAt(d.live[key], now) then (Purge(d, key, d.live[key], now), Answered(false))
    else if (key, d.live[key].generation) in d.files then (d, Answered(true))
    else (DropMissing(d, key, d.live[key]), Answered(false))
  }

  /** An existing object wins unless it has expired, in which case it is retired first. */
  function DiskPutIfAbsent(d: Disk, w: Write, now: int): (Disk, Answer) {
    if w.key in d.live && !ExpiredAt(d.live[w.key], now) then (d, Answered(false))
    else (DiskPut(d.(live := d.live - {w.key}), w), Answered(true))
  }

  datatype Op =
    | Get(side: Side, key: Key, now: int)
    | GetWithMeta(side: Side, key: Key, expected: BlockMeta, now: int)
    | Exists(key: Key, now: int)
    | Put(side: Side, write: Write)
    | PutIfAbsent(side: Side, write: Write, now: int)
    | Delete(key: Key)
    | Forget(key: Key)
    | SlabPut(write: Write, slabCapacity: nat)
    | Free(need: nat)
    | Reclaim(key: Key, generation: nat)

  function OnDisk(d: Disk, op: Op): (Disk, Answer) {
    match op
    case Get(_, key, now) => DiskGet(d, key, now)
    case GetWithMeta(_, key, expected, now) => DiskGetWithMeta(d, key, expected, now)
    case Exists(key, now) => DiskExists(d, key, now)
    case Put(_, w) => (DiskPut(d, w), Done)
    case PutIfAbsent(_, w, now) => DiskPutIfAbsent(d, w, now)
    case Delete(key) => (d.(live := d.live - {key}), Answered(key in d.live))
    case Forget(_) => (d, Done)
    case SlabPut(w, _) => if Flatten(w.segments) == [] then (d, Refused) else (DiskPut(d, w), Done)
    case Free(_) => (d, Done)
    case Reclaim(key, generation) => (d.(files := d.files - {(key, generation)}), Done)
  }

  /**
   * With-meta reads carry the committed metadata, reclaim deletes only files that are not current,
   * and the clock does not run backwards.
   */
  predicate Admissible(d: Disk, clock: int, op: Op) {
    match op
    case Get(_, _, now) => clock <= now
    case GetWithMeta(_, key, expected, now) => clock <= now && key in d.live && d.live[key] == expected
    case Exists(_, now) => clock <= now
    case PutIfAbsent(_, _, now) => clock <= now
    case Reclaim(key, generation) => key in d.live ==> d.live[key].generation != generation
    case _ => true
  }

  function Clock(clock: int, op: Op): int {
    if op.Get? || op.GetWithMeta? || op.Exists? || op.PutIfAbsent? then op.now else clock
  }

  lemma DiskStaysValid(d: Disk, clock: int, op: Op)
    requires ValidDisk(d) && Admissible(d, clock, op)
    ensures ValidDisk(OnDisk(d, op).0)
  {
  }

  // ---------------------------------------------------------------------------------------------
  // Both tiers

  datatype System = System(tier: Tier, disk: Disk)

  /** A read that missed fills the cache. */
  function Fill(t: Tier, side: Side, key: Key, answer: Answer): Tier
    requires Counted(t)
  {
    if answer.Found? then CacheInsert(t, side, Entry(key, [answer.data], answer.meta)) else t
  }

  /** A write that committed replaces every cached representation. */
  function Refresh(t: Tier, side: Side, w: Write, stored: BlockMeta): Tier
    requires Counted(t)
  {
    InvalidateHolds(t, w.key);
    CacheInsert(Invalidate(t, w.key), side, Entry(w.key, w.segments, stored))
  }

  function TierGet(s: System, side: Side, key: Key, now: int): (System, Answer)
    requires Counted(s.tier)
  {
    match Find(Of(s.tier, side), key)
    case Some(e) =>
      if ExpiredAt(e.meta, now) then (System(Invalidate(s.tier, key), Purge(s.disk, key, e.meta, now)), NotFound)
      else
        var touched := With(s.tier, side, Touch(Of(s.tier, side), key), s.tier.counter);
        (s.(tier := touched), Found(Flatten(e.segments), e.meta))
    case None =>
      var (disk, answer) := DiskGet(s.disk, key, now);
      (System(Fill(s.tier, side, key, answer), disk), answer)
  }

  /** Like `TierGet`, but a cached version other than the expected one is passed over. */
  function TierGetWithMeta(s: System, side: Side, key: Key, expected: BlockMeta, now: int): (System, Answer)
    requires Counted(s.tier)
  {
    var touched := With(s.tier, side, Touch(Of(s.tier, side), key), s.tier.counter);
    TouchCounted(s.tier, side, key);
    match Find(Of(s.tier, side), key)
    case Some(e) =>
      if ExpiredAt(e.meta, now) then (System(Invalidate(s.tier, key), Purge(s.disk, key, e.meta, now)), NotFound)
      else if SameVersion(e.meta, expected) then (s.(tier := touched), Found(Flatten(e.segments), e.meta))
      else
        var (disk, answer) := DiskGetWithMeta(s.disk, key, expected, now);
        (System(Fill(touched, side, key, answer), disk), answer)
    case None =>
      var (disk, answer) := DiskGetWithMeta(s.disk, key, expected, now);
      (System(Fill(s.tier, side, key, answer), disk), answer)
  }

  lemma TouchCounted(t: Tier, side: Side, key: Key)
    requires Counted(t)
    ensures Counted(With(t, side, Touch(Of(t, side), key), t.counter))
    ensures forall x :: x in With(t, side, Touch(Of(t, side), key), t.counter).single <==> x in t.single
    ensures forall x :: x in With(t, side, Touch(Of(t, side), key), t.counter).chunks <==> x in t.chunks
  {
    TouchHolds(Of(t, side), key);
  }

  function Cached(t: Tier, key: Key): Option<Entry> {
    if Find(t.single, key).Some? then Find(t.single, key) else Find(t.chunks, key)
  }

  function TierExists(s: System, key: Key, now: int): (System, Answer)
    requires Counted(s.tier)
  {
    match Cached(s.tier, key)
    case Some(e) =>
      if ExpiredAt(e.meta, now)
      then (System(Invalidate(s.tier, key), Purge(s.disk, key, e.meta, now)), Answered(false))
      else
        var side := if Find(s.tier.single, key).Some? then Single else Chunks;
        (s.(tier := With(s.tier, side, Touch(Of(s.tier, side), key), s.tier.counter)), Answered(true))
    case None =>
      var (disk, answer) := DiskExists(s.disk, key, now);
      (s.(disk := disk), answer)
  }

  function OnTier(s: System, op: Op): (System, Answer)
    requires Counted(s.tier)
  {
    match op
    case Get(side, key, now) => TierGet(s, side, key, now)
    case GetWithMeta(side, key, expected, now) => TierGetWithMeta(s, side, key, expected, now)
    case Exists(key, now) => TierExists(s, key, now)
    case Put(side, w) => (System(Refresh(s.tier, side, w, Stored(s.disk, w)), DiskPut(s.disk, w)), Done)
    case PutIfAbsent(side, w, now) =>
      var (disk, answer) := DiskPutIfAbsent(s.disk, w, now);
      (System(if answer.yes then Refresh(s.tier, side, w, Stored(s.disk, w)) else s.tier, disk), answer)
    case Delete(key) =>
      var (disk, answer) := OnDisk(s.disk, op);
      (System(Invalidate(s.tier, key), disk), answer)
    case Forget(key) => (s.(tier := Invalidate(s.tier, key)), Done)
    case SlabPut(w, slabCapacity) =>
      if Flatten(w.segments) == [] then (s, Refused)
      else (System(SlabRefresh(s.tier, w, Stored(s.disk, w), slabCapacity), DiskPut(s.disk, w)), Done)
    case Free(need) => (s.(tier := EvictToFree(s.tier, need)), Done)
    case Reclaim(key, generation) => (s.(disk := OnDisk(s.disk, op).0), Done)
  }

  /** A write that went straight to disk from the slab: stale representations go, the slab copy comes in. */
  function SlabRefresh(t: Tier, w: Write, stored: BlockMeta, slabCapacity: nat): Tier
    requires Counted(t)
  {
    SlabInsert(t, Entry(w.key, w.segments, stored), slabCapacity)
  }

  // ---------------------------------------------------------------------------------------------
  // Agreement

  /** The entry is the live version of its key. */
  ghost predicate IsLive(d: Disk, e: Entry) {
    && e.key in d.live && e.meta == d.live[e.key]
    && (e.key, e.meta.generation) in d.files && Flatten(e.segments) == d.files[(e.key, e.meta.generation)]
  }

  /** Or it is an expired version whose key is gone from disk. */
  ghost predicate Agrees(d: Disk, clock: int, e: Entry) {
    IsLive(d, e) || (ExpiredAt(e.meta, clock) && e.key !in d.live && e.meta.generation <= Newest(d, e.key))
  }

  ghost predicate Agree(s: System, clock: int) {
    && Counted(s.tier) && ValidDisk(s.disk)
    && (forall e <- s.tier.single :: Agrees(s.disk, clock, e))
    && (forall e <- s.tier.chunks :: Agrees(s.disk, clock, e))
  }

  lemma InsertAgrees(t: Tier, d: Disk, clock: int, side: Side, e: Entry, budget: nat)
    requires Counted(t) && ValidDisk(d) && Agrees(d, clock, e)
    requires forall x <- t.single :: x.key != e.key ==> Agrees(d, clock, x)
    requires forall x <- t.chunks :: x.key != e.key ==> Agrees(d, clock, x)
    ensures Agree(System(Insert(t, side, e, budget), d), clock)
  {
    InsertAlwaysCounts(t, side, e, budget);
    InsertMembers(t, side, e, budget);
  }

  lemma FillAgrees(t: Tier, d: Disk, clock: int, side: Side, key: Key, answer: Answer)
    requires Agree(System(t, d), clock)
    requires answer.Found? ==> Agrees(d, clock, Entry(key, [answer.data], answer.meta))
    ensures Agree(System(Fill(t, side, key, answer), d), clock)
  {
    if answer.Found? {
      var e := Entry(key, [answer.data], answer.meta);
      if Size(e) <= t.capacity {
        InsertAgrees(t, d, clock, side, e, t.capacity);
      }
    }
  }

  lemma InvalidateAgrees(t: Tier, d: Disk, d': Disk, clock: int, key: Key)
    requires Agree(System(t, d), clock) && ValidDisk(d')
    requires forall x <- t.single :: x.key != key ==> Agrees(d', clock, x)
    requires forall x <- t.chunks :: x.key != key ==> Agrees(d', clock, x)
    ensures Agree(System(Invalidate(t, key), d'), clock)
  {
    InvalidateHolds(t, key);
  }

  lemma StoredIsLive(d: Disk, w: Write)
    ensures IsLive(DiskPut(d, w), Entry(w.key, w.segments, Stored(d, w)))
  {
  }

  lemma RefreshAgrees(s: System, clock: int, side: Side, w: Write)
    requires Agree(s, clock)
    ensures Agree(System(Refresh(s.tier, side, w, Stored(s.disk, w)), DiskPut(s.disk, w)), clock)
  {
    var d', u, e := DiskPut(s.disk, w), Invalidate(s.tier, w.key), Entry(w.key, w.segments, Stored(s.disk, w));
    StoredIsLive(s.disk, w);
    InvalidateAgrees(s.tier, s.disk, d', clock, w.key);
    if Size(e) <= u.capacity {
      InsertAgrees(u, d', clock, side, e, u.capacity);
    }
  }

  lemma SlabRefreshAgrees(s: System, clock: int, w: Write, slabCapacity: nat)
    requires Agree(s, clock) && Flatten(w.segments) != []
    ensures Agree(System(SlabRefresh(s.tier, w, Stored(s.disk, w), slabCapacity), DiskPut(s.disk, w)), clock)
  {
    var e := Entry(w.key, w.segments, Stored(s.disk, w));
    StoredIsLive(s.disk, w);
    SlabInsertAgrees(s.tier, DiskPut(s.disk, w), clock, e, slabCapacity);
  }

  lemma {:induction false} SlabInsertAgrees(t: Tier, d: Disk, clock: int, e: Entry, slabCapacity: nat)
    requires Counted(t) && ValidDisk(d) && Size(e) > 0 && Agrees(d, clock, e)
    requires forall x <- t.single :: x.key != e.key ==> Agrees(d, clock, x)
    requires forall x <- t.chunks :: x.key != e.key ==> Agrees(d, clock, x)
    ensures Agree(System(SlabInsert(t, e, slabCapacity), d), clock)
  {
    InsertAgrees(t, d, clock, Chunks, e, SlabBudget(t, e, slabCapacity));
  }

  lemma InsertAlwaysCounts(t: Tier, side: Side, e: Entry, budget: nat)
    requires Counted(t)
    ensures Counted(Insert(t, side, e, budget))
  {
    InvalidateHolds(t, e.key);
    var u := Invalidate(t, e.key);
    AddCounts(Of(u, side), u.counter, e, budget);
  }

  /** Purging an expired current version leaves entries that agree: those of its key have expired too. */
  lemma PurgeAgrees(t: Tier, d: Disk, clock: int, key: Key, meta: BlockMeta)
    requires Agree(System(t, d), clock)
    ensures Agree(System(t, Purge(d, key, meta, clock)), clock)
  {
  }

  lemma Later(t: Tier, d: Disk, clock: int, now: int)
    requires Agree(System(t, d), clock) && clock <= now
    ensures Agree(System(t, d), now)
  {
  }

  /** A cached answer is the disk's own answer. */
  lemma HitIsDisk(d: Disk, clock: int, e: Entry)
    requires ValidDisk(d) && Agrees(d, clock, e)
    ensures !ExpiredAt(e.meta, clock) ==> DiskGet(d, e.key, clock) == (d, Found(Flatten(e.segments), e.meta))
    ensures ExpiredAt(e.meta, clock) ==> DiskGet(d, e.key, clock) == (Purge(d, e.key, e.meta, clock), NotFound)
    ensures ExpiredAt(e.meta, clock) ==>
      DiskExists(d, e.key, clock) == (Purge(d, e.key, e.meta, clock), Answered(false))
    ensures !ExpiredAt(e.meta, clock) ==> DiskExists(d, e.key, clock) == (d, Answered(true))
  {
  }

  lemma TouchAgrees(s: System, clock: int, side: Side, key: Key)
    requires Agree(s, clock)
    ensures Agree(s.(tier := With(s.tier, side, Touch(Of(s.tier, side), key), s.tier.counter)), clock)
  {
    TouchCounted(s.tier, side, key);
  }

  lemma ExpiredHitAgrees(s: System, clock: int, e: Entry)
    requires Agree(s, clock)
    ensures Agree(System(Invalidate(s.tier, e.key), Purge(s.disk, e.key, e.meta, clock)), clock)
  {
    PurgeAgrees(s.tier, s.disk, clock, e.key, e.meta);
    InvalidateAgrees(s.tier, Purge(s.disk, e.key, e.meta, clock), Purge(s.disk, e.key, e.meta, clock), clock, e.key);
  }

  lemma DiskGetAgrees(t: Tier, d: Disk, clock: int, key: Key)
    requires Agree(System(t, d), clock)
    ensures var (d', answer) := DiskGet(d, key, clock);
      && Agree(System(t, d'), clock)
      && (answer.Found? ==> d' == d && Agrees(d, clock, Entry(key, [answer.data], answer.meta)))
  {
    if key in d.live {
      PurgeAgrees(t, d, clock, key, d.live[key]);
      FlattenOne(d.files[(key, d.live[key].generation)]);
    }
  }

  lemma GetAgrees(s: System, side: Side, key: Key, now: int)
    requires Agree(s, now)
    ensures var (s', answer) := TierGet(s, side, key, now);
      Agree(s', now) && (s'.disk, answer) == DiskGet(s.disk, key, now)
  {
    match Find(Of(s.tier, side), key)
    case Some(e) =>
      HitIsDisk(s.disk, now, e);
      ExpiredHitAgrees(s, now, e);
      TouchAgrees(s, now, side, key);
    case None =>
      var (d, answer) := DiskGet(s.disk, key, now);
      DiskGetAgrees(s.tier, s.disk, now, key);
      FillAgrees(s.tier, d, now, side, key, answer);
  }

  lemma GetWithMetaAgrees(s: System, side: Side, key: Key, now: int)
    requires Agree(s, now) && key in s.disk.live
    ensures TierGetWithMeta(s, side, key, s.disk.live[key], now) == TierGet(s, side, key, now)
    ensures DiskGetWithMeta(s.disk, key, s.disk.live[key], now) == DiskGet(s.disk, key, now)
  {
    match Find(Of(s.tier, side), key)
    case Some(e) => assert Agrees(s.disk, now, e);
    case None =>
  }

  lemma ExistsAgrees(s: System, key: Key, now: int)
    requires Agree(s, now)
    ensures var (s', answer) := TierExists(s, key, now);
      Agree(s', now) && (s'.disk, answer) == DiskExists(s.disk, key, now)
  {
    match Cached(s.tier, key)
    case Some(e) =>
      HitIsDisk(s.disk, now, e);
      ExpiredHitAgrees(s, now, e);
      TouchAgrees(s, now, Single, key);
      TouchAgrees(s, now, Chunks, key);
    case None =>
      if key in s.disk.live {
        PurgeAgrees(s.tier, s.disk, now, key, s.disk.live[key]);
      }
  }

  lemma PutIfAbsentAgrees(s: System, side: Side, w: Write, now: int)
    requires Agree(s, now)
    ensures Agree(OnTier(s, PutIfAbsent(side, w, now)).0, now)
  {
    var (d, answer) := DiskPutIfAbsent(s.disk, w, now);
    if answer.yes {
      RemoveThenPut(s.disk, w);
      RefreshAgrees(s, now, side, w);
    }
  }

  lemma RemoveThenPut(d: Disk, w: Write)
    ensures DiskPut(d.(live := d.live - {w.key}), w) == DiskPut(d, w)
  {
    var meta := Stored(d, w);
    assert (d.live - {w.key})[w.key := meta] == d.live[w.key := meta];
  }

  lemma DeleteAgrees(s: System, clock: int, key: Key)
    requires Agree(s, clock)
    ensures Agree(System(Invalidate(s.tier, key), s.disk.(live := s.disk.live - {key})), clock)
  {
    InvalidateAgrees(s.tier, s.disk, s.disk.(live := s.disk.live - {key}), clock, key);
  }

  lemma FreeAgrees(s: System, clock: int, need: nat)
    requires Agree(s, clock)
    ensures Agree(s.(tier := EvictToFree(s.tier, need)), clock)
  {
    EvictToFreeHolds(s.tier, need);
    SuffixHolds(s.tier.chunks, |s.tier.chunks| - |EvictToFree(s.tier, need).chunks|);
  }

  /** One step: the caches still agree with disk, and the answer and the disk are those of the disk tier alone. */
  lemma StepAgrees(s: System, clock: int, op: Op)
    requires Agree(s, clock) && Admissible(s.disk, clock, op)
    ensures Agree(OnTier(s, op).0, Clock(clock, op))
    ensures (OnTier(s, op).0.disk, OnTier(s, op).1) == OnDisk(s.disk, op)
  {
    Later(s.tier, s.disk, clock, Clock(clock, op));
    match op
    case Get(side, key, now) => GetAgrees(s, side, key, now);
    case GetWithMeta(side, key, expected, now) =>
      GetWithMetaAgrees(s, side, key, now);
      GetAgrees(s, side, key, now);
    case Exists(key, now) => ExistsAgrees(s, key, now);
    case Put(side, w) => RefreshAgrees(s, clock, side, w);
    case PutIfAbsent(side, w, now) => PutIfAbsentAgrees(s, side, w, now);
    case Delete(key) => DeleteAgrees(s, clock, key);
    case Forget(key) => InvalidateAgrees(s.tier, s.disk, s.disk, clock, key);
    case SlabPut(w, slabCapacity) => if Flatten(w.segments) != [] { SlabRefreshAgrees(s, clock, w, slabCapacity); }
    case Free(need) => FreeAgrees(s, clock, need);
    case Reclaim(key, generation) => DiskStaysValid(s.disk, clock, op);
  }

  // ---------------------------------------------------------------------------------------------
  // Whole runs

  /** The commands served by the disk tier alone; `clocks[k]` is the last clock read before step `k`. */
  ghost predicate IsDiskRun(disks: seq<Disk>, answers: seq<Answer>, ops: seq<Op>, clocks: seq<int>) {
    && |disks| == |clocks| == |ops| + 1 && |answers| == |ops|
    && forall k :: 0 <= k < |ops| ==>
         && Admissible(disks[k], clocks[k], ops[k]) && clocks[k + 1] == Clock(clocks[k], ops[k])
         && (disks[k + 1], answers[k]) == OnDisk(disks[k], ops[k])
  }

  /** Each step is taken from a counted tier; that every state is one follows from the first. */
  ghost predicate IsTierRun(states: seq<System>, answers: seq<Answer>, ops: seq<Op>) {
    && |states| == |ops| + 1 && |answers| == |ops|
    && forall k :: 0 <= k < |ops| ==>
         Counted(states[k].tier) ==> (states[k + 1], answers[k]) == OnTier(states[k], ops[k])
  }

  lemma {:induction false} AgreesAlong(states: seq<System>, answers: seq<Answer>, disks: seq<Disk>, plain: seq<Answer>,
                                       ops: seq<Op>, clocks: seq<int>, k: nat)
    requires IsTierRun(states, answers, ops) && IsDiskRun(disks, plain, ops, clocks)
    requires states[0].disk == disks[0] && Agree(states[0], clocks[0]) && k <= |ops|
    ensures states[k].disk == disks[k] && Agree(states[k], clocks[k])
  {
    if k > 0 {
      AgreesAlong(states, answers, disks, plain, ops, clocks, k - 1);
      StepAgrees(states[k - 1], clocks[k - 1], ops[k - 1]);
    }
  }

  /**
   * Over every run, the tier answers exactly as the disk tier alone would and leaves the same disk
   * behind. Every cached entry that has not expired is the live version of its key; and a cached
   * entry is the live version exactly when its key is live at all.
   */
  lemma TierIsTransparent(states: seq<System>, answers: seq<Answer>, disks: seq<Disk>, plain: seq<Answer>,
                          ops: seq<Op>, clocks: seq<int>)
    requires IsTierRun(states, answers, ops) && IsDiskRun(disks, plain, ops, clocks)
    requires states[0].disk == disks[0] && Agree(states[0], clocks[0])
    ensures answers == plain
    ensures forall k :: 0 <= k < |states| ==> states[k].disk == disks[k]
    ensures forall k, e :: 0 <= k < |states| && (e in states[k].tier.single || e in states[k].tier.chunks) ==>
      && (ExpiredAt(e.meta, clocks[k]) || IsLive(disks[k], e))
      && (IsLive(disks[k], e) <==> e.key in disks[k].live)
  {
    forall k | 0 <= k < |states|
      ensures states[k].disk == disks[k] && Agree(states[k], clocks[k])
    {
      AgreesAlong(states, answers, disks, plain, ops, clocks, k);
    }
    forall k | 0 <= k < |ops|
      ensures answers[k] == plain[k]
    {
      StepAgrees(states[k], clocks[k], ops[k]);
      assert (states[k + 1], answers[k]) == OnTier(states[k], ops[k]);
      assert (disks[k + 1], plain[k]) == OnDisk(disks[k], ops[k]);
    }
  }

  // ---------------------------------------------------------------------------------------------
  // What is cached

  /** The entry is the most recent of the cache, and the other cache does not have its key. */
  ghost predicate CachedAs(t: Tier, side: Side, e: Entry) {
    && Of(t, side) != [] && Last(Of(t, side)) == e
    && Find(Of(t, side), e.key) == Some(e) && Find(Of(t, Other(side)), e.key).None?
  }

  /** A value that fits is cached by the read that missed it, so that the next read does not go to disk. */
  lemma ReadIsCached(s: System, side: Side, key: Key, now: int)
    requires Counted(s.tier) && Find(Of(s.tier, side), key).None?
    ensures var (s', answer) := TierGet(s, side, key, now);
      answer.Found? && |answer.data| <= s.tier.capacity ==>
        CachedAs(s'.tier, side, Entry(key, [answer.data], answer.meta))
  {
    var answer := DiskGet(s.disk, key, now).1;
    if answer.Found? {
      var e := Entry(key, [answer.data], answer.meta);
      FlattenOne(answer.data);
      InsertedIsFound(s.tier, side, e, s.tier.capacity);
    }
  }

  /** So is a value that fits by the write that stored it. */
  lemma WriteIsCached(s: System, side: Side, w: Write)
    requires Counted(s.tier) && |Flatten(w.segments)| <= s.tier.capacity
    ensures CachedAs(OnTier(s, Put(side, w)).0.tier, side, Entry(w.key, w.segments, Stored(s.disk, w)))
  {
    InvalidateHolds(s.tier, w.key);
    var u := Invalidate(s.tier, w.key);
    InsertedIsFound(u, side, Entry(w.key, w.segments, Stored(s.disk, w)), u.capacity);
  }

  /** A slab copy is cached whatever its size. */
  lemma SlabCopyIsCached(s: System, w: Write, slabCapacity: nat)
    requires Counted(s.tier) && Flatten(w.segments) != []
    ensures CachedAs(OnTier(s, SlabPut(w, slabCapacity)).0.tier, Chunks, Entry(w.key, w.segments, Stored(s.disk, w)))
  {
    var e := Entry(w.key, w.segments, Stored(s.disk, w));
    InsertedIsFound(s.tier, Chunks, e, SlabBudget(s.tier, e, slabCapacity));
  }

  /** A hit that has not expired leaves the disk alone and becomes the most recent entry. */
  lemma HitStaysInMemory(s: System, side: Side, key: Key, now: int)
    requires Counted(s.tier) && Find(Of(s.tier, side), key).Some?
    requires !ExpiredAt(Find(Of(s.tier, side), key).value.meta, now)
    ensures var s' := TierGet(s, side, key, now).0;
      && s'.disk == s.disk && Of(s'.tier, Other(side)) == Of(s.tier, Other(side)) && s'.tier.counter == s.tier.counter
      && Of(s'.tier, side) != [] && Last(Of(s'.tier, side)) == Find(Of(s.tier, side), key).value
      && |Of(s'.tier, side)| == |Of(s.tier, side)|
  {
    var i := TouchMakesRecent(Of(s.tier, side), key);
  }

  // ---------------------------------------------------------------------------------------------
  // Where agreement ends

  /**
   * An expired entry can outlive its version: reading the key through the other cache purges the
   * disk and leaves the entry. It is why agreement speaks of unexpired entries only.
   */
  lemma ExpiredEntryOutlives(s: System, side: Side, e: Entry, now: int)
    requires Agree(s, now) && e in Of(s.tier, Other(side)) && IsLive(s.disk, e) && ExpiredAt(e.meta, now)
    requires Find(Of(s.tier, side), e.key).None?
    ensures var (s', answer) := TierGet(s, side, e.key, now);
      answer == NotFound && e in Of(s'.tier, Other(side)) && e.key !in s'.disk.live && Agree(s', now)
  {
    GetAgrees(s, side, e.key, now);
  }

  function Empty(capacity: nat): System {
    System(Tier(capacity, [], [], 0), Disk(map[], map[], map[]))
  }

  /** Writing to the empty tier caches the entry on the written side. */
  lemma FirstPut(capacity: nat, side: Side, w: Write, now: int)
    requires var e := Entry(w.key, w.segments, Stored(Empty(capacity).disk, w)); Size(e) <= capacity
    ensures var s := OnTier(Empty(capacity), Put(side, w)).0;
      var e := Entry(w.key, w.segments, Stored(Empty(capacity).disk, w));
      && Agree(s, now) && Of(s.tier, side) == [e] && Of(s.tier, Other(side)) == [] && IsLive(s.disk, e)
  {
    var s0, e := Empty(capacity), Entry(w.key, w.segments, Stored(Empty(capacity).disk, w));
    StepAgrees(s0, now, Put(side, w));
    StoredIsLive(s0.disk, w);
    assert Invalidate(s0.tier, w.key) == s0.tier;
    FirstInsert(s0.tier, side, e);
  }

  /**
   * A run from the empty tier that ends so, for every capacity, write and clock: the value is written
   * through one cache and, once expired, read through the other.
   */
  lemma ExpiredEntryRun(capacity: nat, side: Side, w: Write, now: int)
    returns (states: seq<System>, answers: seq<Answer>, ops: seq<Op>)
    requires var e := Entry(w.key, w.segments, Stored(Empty(capacity).disk, w));
      Size(e) <= capacity && ExpiredAt(e.meta, now)
    ensures IsTierRun(states, answers, ops) && states[0] == Empty(capacity) && |ops| == 2
    ensures ops == [Put(Other(side), w), Get(side, w.key, now)]
    ensures var s, e := states[2], Entry(w.key, w.segments, Stored(Empty(capacity).disk, w));
      e in Of(s.tier, Other(side)) && e.key !in s.disk.live && !IsLive(s.disk, e)
  {
    var e := Entry(w.key, w.segments, Stored(Empty(capacity).disk, w));
    FirstPut(capacity, Other(side), w, now);
    var (s1, a1) := OnTier(Empty(capacity), Put(Other(side), w));
    ExpiredEntryOutlives(s1, side, e, now);
    var (s2, a2) := OnTier(s1, Get(side, w.key, now));
    states, answers, ops := [Empty(capacity), s1, s2], [a1, a2], [Put(Other(side), w), Get(side, w.key, now)];
  }

  /** The put committed, but reading its metadata back failed: the call returns before it touches the caches. */
  function PutRereadFails(s: System, w: Write): System {
    s.(disk := DiskPut(s.disk, w))
  }

  /** The caches then agree exactly when they did not hold the key. */
  lemma RereadFailureIff(s: System, clock: int, w: Write)
    requires Agree(s, clock)
    ensures Agree(PutRereadFails(s, w), clock) <==> Cached(s.tier, w.key).None?
  {
    DiskStaysValid(s.disk, clock, Put(Single, w));
    if Cached(s.tier, w.key).Some? {
      NotTheNewVersion(s.disk, clock, w, Cached(s.tier, w.key).value);
    } else {
      assert forall e <- s.tier.single :: e.key != w.key && Agrees(DiskPut(s.disk, w), clock, e);
      assert forall e <- s.tier.chunks :: e.key != w.key && Agrees(DiskPut(s.disk, w), clock, e);
    }
  }

  lemma NotTheNewVersion(d: Disk, clock: int, w: Write, e: Entry)
    requires ValidDisk(d) && Agrees(d, clock, e) && e.key == w.key
    ensures !Agrees(DiskPut(d, w), clock, e)
  {
  }

  /** A disk read of the key that met a fault: the metadata it read by is removed, the caches are not told. */
  function AfterFault(s: System, key: Key): System {
    s.(disk := s.disk.(live := s.disk.live - {key}))
  }

  /** The caches then agree exactly when every entry they hold for the key has expired. */
  lemma FaultedReadIff(s: System, clock: int, key: Key)
    requires Agree(s, clock) && key in s.disk.live
    ensures Agree(AfterFault(s, key), clock) <==>
      forall e :: (e in s.tier.single || e in s.tier.chunks) && e.key == key ==> ExpiredAt(e.meta, clock)
  {
    var d := AfterFault(s, key).disk;
    assert ValidDisk(d);
    forall e | e in s.tier.single || e in s.tier.chunks
      ensures Agrees(d, clock, e) <==> e.key != key || ExpiredAt(e.meta, clock)
    {
      assert Agrees(s.disk, clock, e);
    }
  }

  /** A with-meta read of a version that is not current, still on disk and small enough to be cached. */
  ghost predicate Poisons(s: System, side: Side, key: Key, expected: BlockMeta, now: int) {
    && (match Find(Of(s.tier, side), key)
        case Some(e) => !ExpiredAt(e.meta, now) && !SameVersion(e.meta, expected)
        case None => true)
    && !ExpiredCurrent(s.disk, key, expected, now)
    && (key, expected.generation) in s.disk.files
    && |s.disk.files[(key, expected.generation)]| <= s.tier.capacity
    && !(key in s.disk.live && s.disk.live[key] == expected)
    && !(key !in s.disk.live && ExpiredAt(expected, now))
  }

  /** With arbitrary metadata in hand, a with-meta read keeps agreement exactly when it does not poison. */
  lemma StaleReadIff(s: System, side: Side, key: Key, expected: BlockMeta, now: int)
    requires Agree(s, now)
    ensures Agree(TierGetWithMeta(s, side, key, expected, now).0, now) <==> !Poisons(s, side, key, expected, now)
  {
    TouchAgrees(s, now, side, key);
    var touched := With(s.tier, side, Touch(Of(s.tier, side), key), s.tier.counter);
    var (d, answer) := DiskGetWithMeta(s.disk, key, expected, now);
    match Find(Of(s.tier, side), key)
    case Some(e) =>
      ExpiredHitAgrees(s, now, e);
      StaleFillIff(System(touched, s.disk), side, key, expected, now);
    case None => StaleFillIff(s, side, key, expected, now);
  }

  lemma StaleFillIff(s: System, side: Side, key: Key, expected: BlockMeta, now: int)
    requires Agree(s, now)
    ensures var (d, answer) := DiskGetWithMeta(s.disk, key, expected, now);
      Agree(System(Fill(s.tier, side, key, answer), d), now) <==>
      !(&& answer.Found? && |answer.data| <= s.tier.capacity
        && !(key in s.disk.live && s.disk.live[key] == expected)
        && !(key !in s.disk.live && ExpiredAt(expected, now)))
  {
    var (d, answer) := DiskGetWithMeta(s.disk, key, expected, now);
    PurgeAgrees(s.tier, s.disk, now, key, expected);
    if answer.Found? {
      var e := Entry(key, [answer.data], answer.meta);
      FlattenOne(answer.data);
      if |answer.data| <= s.tier.capacity {
        InsertMembers(s.tier, side, e, s.tier.capacity);
      }
      if Agrees(s.disk, now, e) {
        FillAgrees(s.tier, s.disk, now, side, key, answer);
      }
    }
  }

  // ---------------------------------------------------------------------------------------------
  // The tier itself

  class TieredStore {
    const capacity: nat
    var single: Lru
    var chunks: Lru
    var counter: nat
    var disk: Disk

    ghost function State(): System
      reads this
    {
      System(Tier(capacity, single, chunks, counter), disk)
    }

    ghost predicate Valid()
      reads this
    {
      Counted(State().tier)
    }

    constructor (capacity: nat)
      ensures Valid() && State() == System(Tier(capacity, [], [], 0), Disk(map[], map[], map[]))
    {
      this.capacity := capacity;
      single, chunks, counter, disk := [], [], 0, Disk(map[], map[], map[]);
    }

    method InvalidateEntry(key: Key)
      requires Valid()
      modifies this`single, this`chunks, this`counter
      ensures Valid() && State().tier == Invalidate(old(State().tier), key)
    {
      InvalidateHolds(State().tier, key);
      WithoutHolds(single, key);
      WithoutHolds(chunks, key);
      var popped := Find(single, key);
      if popped.Some? {
        counter := counter - Size(popped.value);
        single := Without(single, key);
      } else {
        WithoutAbsent(single, key);
      }
      popped := Find(chunks, key);
      if popped.Some? {
        counter := counter - Size(popped.value);
        chunks := Without(chunks, key);
      } else {
        WithoutAbsent(chunks, key);
      }
    }

    /** The eviction loop of one cache. */
    static method MakeRoom(lru: Lru, counter: nat, size: nat, budget: nat) returns (kept: Lru, count: nat)
      requires Weight(lru) <= counter
      ensures (kept, count) == Evict(lru, counter, size, budget)
    {
      kept, count := lru, counter;
      while count + size > budget && kept != []
        invariant Weight(kept) <= count
        invariant Evict(kept, count, size, budget) == Evict(lru, counter, size, budget)
        decreases |kept|
      {
        count := count - Size(kept[0]);
        kept := kept[1..];
      }
    }

    method InsertEntry(side: Side, e: Entry, budget: nat)
      requires Valid()
      modifies this`single, this`chunks, this`counter
      ensures Valid() && State().tier == Insert(old(State().tier), side, e, budget)
    {
      InsertAlwaysCounts(State().tier, side, e, budget);
      InvalidateEntry(e.key);
      match side
      case Single =>
        single, counter := MakeRoom(single, counter, Size(e), budget);
        single, counter := Push(single, e), counter + Size(e);
      case Chunks =>
        chunks, counter := MakeRoom(chunks, counter, Size(e), budget);
        chunks, counter := Push(chunks, e), counter + Size(e);
    }

    method CacheEntry(side: Side, e: Entry)
      requires Valid()
      modifies this`single, this`chunks, this`counter
      ensures Valid() && State().tier == CacheInsert(old(State().tier), side, e)
    {
      if Size(e) <= capacity {
        InsertEntry(side, e, capacity);
      }
    }

    method FreeChunks(need: nat)
      requires Valid()
      modifies this`chunks, this`counter
      ensures Valid() && State().tier == EvictToFree(old(State().tier), need)
    {
      var freed := 0;
      ghost var start := State().tier;
      while freed < need && chunks != []
        invariant Valid() && single == start.single && disk == old(disk)
        invariant EvictToFree(State().tier, if freed < need then need - freed else 0) == EvictToFree(start, need)
        decreases |chunks|
      {
        SuffixHolds(chunks, 1);
        var size := Size(chunks[0]);
        counter := counter - size;
        chunks := chunks[1..];
        freed := freed + size;
      }
    }

    method TouchEntry(side: Side, key: Key)
      requires Valid()
      modifies this`single, this`chunks
      ensures Valid()
      ensures State().tier == With(old(State().tier), side, Touch(Of(old(State().tier), side), key), old(counter))
    {
      TouchCounted(State().tier, side, key);
      match side
      case Single => single := Touch(single, key);
      case Chunks => chunks := Touch(chunks, key);
    }

    method GetValue(side: Side, key: Key, now: int) returns (answer: Answer)
      requires Valid()
      modifies this`single, this`chunks, this`counter, this`disk
      ensures Valid() && (State(), answer) == TierGet(old(State()), side, key, now)
    {
      var hit := Find(if side == Single then single else chunks, key);
      if hit.Some? && ExpiredAt(hit.value.meta, now) {
        InvalidateEntry(key);
        disk := Purge(disk, key, hit.value.meta, now);
        return NotFound;
      }
      if hit.Some? {
        TouchEntry(side, key);
        return Found(Flatten(hit.value.segments), hit.value.meta);
      }
      var (d, a) := DiskGet(disk, key, now);
      disk, answer := d, a;
      if answer.Found? {
        CacheEntry(side, Entry(key, [answer.data], answer.meta));
      }
    }

    /** A read with metadata in hand; a cached version other than the expected one is passed over. */
    method GetExpected(side: Side, key: Key, expected: BlockMeta, now: int) returns (answer: Answer)
      requires Valid()
      modifies this`single, this`chunks, this`counter, this`disk
      ensures Valid() && (State(), answer) == TierGetWithMeta(old(State()), side, key, expected, now)
    {
      var hit := Find(if side == Single then single else chunks, key);
      if hit.Some? && ExpiredAt(hit.value.meta, now) {
        InvalidateEntry(key);
        disk := Purge(disk, key, hit.value.meta, now);
        return NotFound;
      }
      if hit.Some? {
        TouchEntry(side, key);
        if SameVersion(hit.value.meta, expected) {
          return Found(Flatten(hit.value.segments), hit.value.meta);
        }
      }
      var (d, a) := DiskGetWithMeta(disk, key, expected, now);
      disk, answer := d, a;
      if answer.Found? {
        CacheEntry(side, Entry(key, [answer.data], answer.meta));
      }
    }

    method PutValue(side: Side, w: Write)
      requires Valid()
      modifies this`single, this`chunks, this`counter, this`disk
      ensures Valid() && State() == OnTier(old(State()), Put(side, w)).0
    {
      var stored := Stored(disk, w);
      disk := DiskPut(disk, w);
      InvalidateEntry(w.key);
      CacheEntry(side, Entry(w.key, w.segments, stored));
    }

    method PutValueIfAbsent(side: Side, w: Write, now: int) returns (inserted: bool)
      requires Valid()
      modifies this`single, this`chunks, this`counter, this`disk
      ensures Valid() && (State(), Answered(inserted)) == OnTier(old(State()), PutIfAbsent(side, w, now))
    {
      var stored := Stored(disk, w);
      var (d, a) := DiskPutIfAbsent(disk, w, now);
      disk, inserted := d, a.yes;
      if inserted {
        InvalidateEntry(w.key);
        CacheEntry(side, Entry(w.key, w.segments, stored));
      }
    }

    /** A write from the registered slab goes to disk first, then its slab copy is cached. */
    method PutFromSlab(w: Write, slabCapacity: nat) returns (answer: Answer)
      requires Valid()
      modifies this`single, this`chunks, this`counter, this`disk
      ensures Valid() && (State(), answer) == OnTier(old(State()), SlabPut(w, slabCapacity))
    {
      if Flatten(w.segments) == [] {
        return Refused;
      }
      var e := Entry(w.key, w.segments, Stored(disk, w));
      disk := DiskPut(disk, w);
      var budget := if capacity >= slabCapacity then capacity else slabCapacity;
      InsertEntry(Chunks, e, if budget > 0 then budget else counter + Size(e));
      answer := Done;
    }

    method DeleteValue(key: Key) returns (removed: bool)
      requires Valid()
      modifies this`single, this`chunks, this`counter, this`disk
      ensures Valid() && (State(), Answered(removed)) == OnTier(old(State()), Delete(key))
      ensures disk == old(disk).(live := old(disk).live - {key}) && (removed <==> key in old(disk).live)
      ensures Find(single, key).None? && Find(chunks, key).None?
    {
      InvalidateHolds(State().tier, key);
      InvalidateEntry(key);
      removed := key in disk.live;
      disk := disk.(live := disk.live - {key});
    }

    method HasValue(key: Key, now: int) returns (present: bool)
      requires Valid()
      modifies this`single, this`chunks, this`counter, this`disk
      ensures Valid() && (State(), Answered(present)) == TierExists(old(State()), key, now)
    {
      var side := if Find(single, key).Some? then Single else Chunks;
      var hit := Find(if side == Single then single else chunks, key);
      if hit.None? {
        var (d, a) := DiskExists(disk, key, now);
        disk := d;
        return a.yes;
      }
      if ExpiredAt(hit.value.meta, now) {
        InvalidateEntry(key);
        disk := Purge(disk, key, hit.value.meta, now);
        return false;
      }
      TouchEntry(side, key);
      return true;
    }
  }
}
