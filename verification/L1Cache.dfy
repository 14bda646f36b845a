/**
 * The byte accounting of the memory tier: two LRU caches, one for whole values and one for values
 * kept as segments, under one shared byte counter. Entries are listed least recently used first.
 */
module L1Cache {
  import opened Types

  /** Each LRU silently drops its oldest entry rather than hold more entries than this. */
  const ENTRY_LIMIT: nat := 1_000_000

  datatype Entry = Entry(key: Key, segments: seq<Bytes>, meta: BlockMeta)

  function Size(e: Entry): nat {
    |Flatten(e.segments)|
  }

  type Lru = seq<Entry>

  /** Bytes actually held. */
  function Weight(lru: Lru): nat {
    if lru == [] then 0 else Size(lru[0]) + Weight(lru[1..])
  }

  ghost predicate UniqueKeys(lru: Lru) {
    forall i, j :: 0 <= i < j < |lru| ==> lru[i].key != lru[j].key
  }

  function Find(lru: Lru, key: Key): (found: Option<Entry>)
    ensures found.Some? ==> found.value in lru && found.value.key == key
    ensures found.None? ==> forall e <- lru :: e.key != key
  {
    if lru == [] then None
    else if lru[0].key == key then Some(lru[0])
    else
      var rest := Find(lru[1..], key);
      assert lru == [lru[0]] + lru[1..];
      rest
  }

  /** The list with the key's entry popped. */
  function Without(lru: Lru, key: Key): Lru {
    if lru == [] then [] else if lru[0].key == key then lru[1..] else [lru[0]] + Without(lru[1..], key)
  }

  lemma {:induction false} WithoutHolds(lru: Lru, key: Key)
    requires UniqueKeys(lru)
    ensures UniqueKeys(Without(lru, key)) && |Without(lru, key)| <= |lru|
    ensures forall e :: e in Without(lru, key) <==> e in lru && e.key != key
    ensures Weight(lru) == Weight(Without(lru, key)) + if Find(lru, key).Some? then Size(Find(lru, key).value) else 0
    ensures Find(lru, key).Some? <==> |Without(lru, key)| < |lru|
  {
    if lru != [] {
      assert lru == [lru[0]] + lru[1..];
      if lru[0].key != key {
        WithoutHolds(lru[1..], key);
        var rest := Without(lru[1..], key);
        assert ([lru[0]] + rest)[1..] == rest;
        forall i, j | 0 <= i < j < |[lru[0]] + rest| ensures ([lru[0]] + rest)[i].key != ([lru[0]] + rest)[j].key {
          assert rest[j - 1] in rest;
        }
      }
    }
  }

  /** A hit moves the entry to the recent end. */
  function Touch(lru: Lru, key: Key): Lru {
    match Find(lru, key)
    case None => lru
    case Some(e) => Without(lru, key) + [e]
  }

  /** The eviction loop: drops the oldest entries while the counter plus the new size exceeds the budget. */
  function Evict(lru: Lru, counter: nat, size: nat, budget: nat): (Lru, nat)
    requires Weight(lru) <= counter
  {
    if counter + size > budget && lru != [] then Evict(lru[1..], counter - Size(lru[0]), size, budget)
    else (lru, counter)
  }

  /** It keeps the most recent entries, and as many of them as the budget allows. */
  lemma {:induction false} EvictHolds(lru: Lru, counter: nat, size: nat, budget: nat)
    requires Weight(lru) <= counter
    ensures var (kept, count) := Evict(lru, counter, size, budget);
      && |kept| <= |lru| && kept == lru[|lru| - |kept|..]
      && count - Weight(kept) == counter - Weight(lru)
      && (kept == [] || count + size <= budget)
      && (kept == lru || count + size + Size(lru[|lru| - |kept| - 1]) > budget)
  {
    if counter + size > budget && lru != [] {
      EvictHolds(lru[1..], counter - Size(lru[0]), size, budget);
    }
  }

  /** Inserting a new key; at the entry limit the oldest entry goes, uncounted. */
  function Push(lru: Lru, e: Entry): Lru {
    if |lru| < ENTRY_LIMIT then lru + [e] else lru[1..] + [e]
  }

  lemma {:induction false} WeightAppend(a: Lru, b: Lru)
    ensures Weight(a + b) == Weight(a) + Weight(b)
  {
    if a == [] {
      assert a + b == b;
    } else {
      assert (a + b)[1..] == a[1..] + b;
      WeightAppend(a[1..], b);
    }
  }

  lemma WeightDrop(lru: Lru, n: nat)
    requires n <= |lru|
    ensures Weight(lru) == Weight(lru[..n]) + Weight(lru[n..])
  {
    WeightAppend(lru[..n], lru[n..]);
    assert lru == lru[..n] + lru[n..];
  }

  lemma PushHolds(lru: Lru, e: Entry)
    requires UniqueKeys(lru) && |lru| <= ENTRY_LIMIT && forall x <- lru :: x.key != e.key
    ensures UniqueKeys(Push(lru, e)) && |Push(lru, e)| <= ENTRY_LIMIT
    ensures Weight(Push(lru, e)) <= Weight(lru) + Size(e)
    ensures |lru| < ENTRY_LIMIT ==> Weight(Push(lru, e)) == Weight(lru) + Size(e)
    ensures forall x <- Push(lru, e) :: x == e || x in lru
    ensures e in Push(lru, e)
  {
    var kept := if |lru| < ENTRY_LIMIT then lru else lru[1..];
    WeightAppend(kept, [e]);
    assert [e][1..] == [];
  }

  /** Making room for a new key in one cache and inserting it: the new list and counter. */
  function Add(lru: Lru, counter: nat, e: Entry, budget: nat): (Lru, nat)
    requires Weight(lru) <= counter
  {
    var (kept, count) := Evict(lru, counter, Size(e), budget);
    (Push(kept, e), count + Size(e))
  }

  lemma SuffixHolds(lru: Lru, n: nat)
    requires UniqueKeys(lru) && n <= |lru|
    ensures UniqueKeys(lru[n..]) && Weight(lru[n..]) <= Weight(lru)
    ensures forall e <- lru[n..] :: e in lru
  {
    WeightDrop(lru, n);
  }

  /**
   * The cache stays within the budget and the counter keeps covering it, ahead by at least as much
   * as before, and by exactly as much below the entry limit.
   */
  lemma AddCounts(lru: Lru, counter: nat, e: Entry, budget: nat)
    requires UniqueKeys(lru) && |lru| <= ENTRY_LIMIT && Weight(lru) <= counter && forall x <- lru :: x.key != e.key
    ensures var (lru', counter') := Add(lru, counter, e, budget);
      && UniqueKeys(lru') && |lru'| <= ENTRY_LIMIT
      && counter' - Weight(lru') >= counter - Weight(lru)
      && (|lru| < ENTRY_LIMIT ==> counter' - Weight(lru') == counter - Weight(lru))
      && (Size(e) <= budget ==> Weight(lru') <= budget)
      && (counter' <= budget <==> counter - Weight(lru) + Size(e) <= budget)
      && e in lru' && forall x <- lru' :: x == e || x in lru
  {
    var (kept, count) := Evict(lru, counter, Size(e), budget);
    EvictHolds(lru, counter, Size(e), budget);
    SuffixHolds(lru, |lru| - |kept|);
    PushHolds(kept, e);
  }

  lemma TouchHolds(lru: Lru, key: Key)
    requires UniqueKeys(lru)
    ensures UniqueKeys(Touch(lru, key)) && |Touch(lru, key)| == |lru| && Weight(Touch(lru, key)) == Weight(lru)
    ensures forall x :: x in Touch(lru, key) <==> x in lru
  {
    WithoutHolds(lru, key);
    if Find(lru, key).Some? {
      var e := Find(lru, key).value;
      WeightAppend(Without(lru, key), [e]);
      assert [e][1..] == [];
      SoleEntry(lru, key);
      WithoutShrinks(lru, key);
    }
  }

  lemma SoleEntry(lru: Lru, key: Key)
    requires UniqueKeys(lru) && Find(lru, key).Some?
    ensures forall x <- lru :: x.key == key ==> x == Find(lru, key).value
  {
    var e := Find(lru, key).value;
    var i :| 0 <= i < |lru| && lru[i] == e;
  }

  lemma {:induction false} WithoutShrinks(lru: Lru, key: Key)
    requires Find(lru, key).Some?
    ensures |Without(lru, key)| == |lru| - 1
  {
    if lru[0].key != key {
      WithoutShrinks(lru[1..], key);
    }
  }

  /** Popping an entry leaves the others in their order. */
  lemma {:induction false} WithoutKeepsOrder(lru: Lru, key: Key) returns (i: nat)
    requires Find(lru, key).Some?
    ensures i < |lru| && lru[i] == Find(lru, key).value && Without(lru, key) == lru[..i] + lru[i + 1..]
  {
    if lru[0].key == key {
      i := 0;
    } else {
      var rest := WithoutKeepsOrder(lru[1..], key);
      i := rest + 1;
      assert lru[..i] == [lru[0]] + lru[1..][..rest] && lru[i + 1..] == lru[1..][rest + 1..];
    }
  }

  /** A hit becomes the most recent entry; the others keep their order. */
  lemma TouchMakesRecent(lru: Lru, key: Key) returns (i: nat)
    requires Find(lru, key).Some?
    ensures i < |lru| && lru[i] == Find(lru, key).value && Touch(lru, key) == lru[..i] + lru[i + 1..] + [lru[i]]
  {
    i := WithoutKeepsOrder(lru, key);
  }

  // ---------------------------------------------------------------------------------------------
  // The two caches

  datatype Side = Single | Chunks

  datatype Tier = Tier(capacity: nat, single: Lru, chunks: Lru, counter: nat)

  function Of(t: Tier, side: Side): Lru {
    match side case Single => t.single case Chunks => t.chunks
  }

  function With(t: Tier, side: Side, lru: Lru, counter: nat): Tier {
    match side
    case Single => t.(single := lru, counter := counter)
    case Chunks => t.(chunks := lru, counter := counter)
  }

  function Other(side: Side): Side {
    match side case Single => Chunks case Chunks => Single
  }

  /** The counter covers what both caches hold. */
  ghost predicate Counted(t: Tier) {
    && UniqueKeys(t.single) && UniqueKeys(t.chunks)
    && |t.single| <= ENTRY_LIMIT && |t.chunks| <= ENTRY_LIMIT
    && Weight(t.single) + Weight(t.chunks) <= t.counter
  }

  /** How far the counter runs ahead of the bytes held. */
  ghost function Drift(t: Tier): int {
    t.counter - Weight(t.single) - Weight(t.chunks)
  }

  function SizeOf(lru: Lru, key: Key): nat {
    match Find(lru, key) case None => 0 case Some(e) => Size(e)
  }

  /** Both representations of a key are dropped. */
  function Invalidate(t: Tier, key: Key): Tier
    requires Counted(t)
  {
    WithoutHolds(t.single, key);
    WithoutHolds(t.chunks, key);
    t.(single := Without(t.single, key), chunks := Without(t.chunks, key),
       counter := t.counter - SizeOf(t.single, key) - SizeOf(t.chunks, key))
  }

  lemma InvalidateHolds(t: Tier, key: Key)
    requires Counted(t)
    ensures Counted(Invalidate(t, key)) && Drift(Invalidate(t, key)) == Drift(t)
    ensures Weight(Invalidate(t, key).single) <= Weight(t.single)
    ensures Weight(Invalidate(t, key).chunks) <= Weight(t.chunks)
    ensures forall e :: e in Invalidate(t, key).single <==> e in t.single && e.key != key
    ensures forall e :: e in Invalidate(t, key).chunks <==> e in t.chunks && e.key != key
  {
    WithoutHolds(t.single, key);
    WithoutHolds(t.chunks, key);
  }

  /** Inserting under a budget: drop the key everywhere, evict from the same cache only, insert, count. */
  function Insert(t: Tier, side: Side, e: Entry, budget: nat): Tier
    requires Counted(t)
  {
    InvalidateHolds(t, e.key);
    var u := Invalidate(t, e.key);
    match side
    case Single => var (lru, counter) := Add(u.single, u.counter, e, budget); u.(single := lru, counter := counter)
    case Chunks => var (lru, counter) := Add(u.chunks, u.counter, e, budget); u.(chunks := lru, counter := counter)
  }

  /** A value larger than the whole capacity is not cached. */
  function CacheInsert(t: Tier, side: Side, e: Entry): Tier
    requires Counted(t)
  {
    if Size(e) > t.capacity then t else Insert(t, side, e, t.capacity)
  }

  function Budget(t: Tier, slabCapacity: nat): nat {
    if t.capacity >= slabCapacity then t.capacity else slabCapacity
  }

  /** With neither capacity nor slab there is no budget to keep. */
  function SlabBudget(t: Tier, e: Entry, slabCapacity: nat): nat {
    if Budget(t, slabCapacity) > 0 then Budget(t, slabCapacity) else t.counter + Size(e)
  }

  /** A value already in the registered slab is always cached, under the larger of the two budgets, if there is one. */
  function SlabInsert(t: Tier, e: Entry, slabCapacity: nat): Tier
    requires Counted(t)
  {
    if Size(e) == 0 then t else Insert(t, Chunks, e, SlabBudget(t, e, slabCapacity))
  }

  /** Frees at least the needed bytes of segment entries, or all of them. */
  function EvictToFree(t: Tier, need: nat): Tier
    requires Counted(t)
    decreases |t.chunks|
  {
    if need > 0 && t.chunks != [] then
      var size := Size(t.chunks[0]);
      EvictToFree(t.(chunks := t.chunks[1..], counter := t.counter - size), if need > size then need - size else 0)
    else t
  }

  /** The counter still covers both caches; the one inserted into is within the budget, the other does not grow. */
  lemma InsertCounts(t: Tier, side: Side, e: Entry, budget: nat)
    requires Counted(t) && Size(e) <= budget
    ensures var t' := Insert(t, side, e, budget);
      && Counted(t') && t'.capacity == t.capacity && Drift(t') >= Drift(t)
      && (|Of(t, side)| < ENTRY_LIMIT ==> Drift(t') == Drift(t))
      && Weight(Of(t', side)) <= budget && Weight(Of(t', Other(side))) <= Weight(Of(t, Other(side)))
  {
    InvalidateHolds(t, e.key);
    var u := Invalidate(t, e.key);
    assert |Of(u, side)| <= |Of(t, side)| by { WithoutHolds(Of(t, side), e.key); }
    AddCounts(Of(u, side), u.counter, e, budget);
  }

  /** What is cached afterwards: the new entry, and old ones of other keys. */
  lemma InsertMembers(t: Tier, side: Side, e: Entry, budget: nat)
    requires Counted(t)
    ensures e in Of(Insert(t, side, e, budget), side)
    ensures forall x <- Insert(t, side, e, budget).single ::
      (x == e && side == Single) || (x in t.single && x.key != e.key)
    ensures forall x <- Insert(t, side, e, budget).chunks ::
      (x == e && side == Chunks) || (x in t.chunks && x.key != e.key)
  {
    WithoutHolds(t.single, e.key);
    WithoutHolds(t.chunks, e.key);
    var u := Invalidate(t, e.key);
    match side
    case Single => AddCounts(u.single, u.counter, e, budget);
    case Chunks => AddCounts(u.chunks, u.counter, e, budget);
  }

  /** The new entry is the most recent of its cache, and its key is nowhere else. */
  lemma InsertedIsFound(t: Tier, side: Side, e: Entry, budget: nat)
    requires Counted(t)
    ensures var t' := Insert(t, side, e, budget);
      && Of(t', side) != [] && Last(Of(t', side)) == e
      && Find(Of(t', side), e.key) == Some(e) && Find(Of(t', Other(side)), e.key).None?
  {
    InsertMembers(t, side, e, budget);
  }

  /**
   * The counter is within the budget after an insertion exactly when the new entry fits beside what
   * the other cache holds: eviction never touches the other cache.
   */
  lemma WithinBudgetIff(t: Tier, side: Side, e: Entry, budget: nat)
    requires Counted(t)
    ensures Insert(t, side, e, budget).counter <= budget <==>
      Weight(Of(Invalidate(t, e.key), Other(side))) + Drift(t) + Size(e) <= budget
  {
    InvalidateHolds(t, e.key);
    var u := Invalidate(t, e.key);
    AddCounts(Of(u, side), u.counter, e, budget);
  }

  /** Freeing space stops as soon as enough is freed: keeping one entry more would have freed too little. */
  lemma {:induction false} EvictToFreeHolds(t: Tier, need: nat)
    requires Counted(t)
    ensures var t' := EvictToFree(t, need);
      && Counted(t') && t'.capacity == t.capacity && t'.single == t.single && Drift(t') == Drift(t)
      && |t'.chunks| <= |t.chunks| && t'.chunks == t.chunks[|t.chunks| - |t'.chunks|..]
      && (t'.chunks == [] || Weight(t.chunks) - Weight(t'.chunks) >= need)
      && (|| t'.chunks == t.chunks
          || Weight(t.chunks) - Weight(t'.chunks) - Size(t.chunks[|t.chunks| - |t'.chunks| - 1]) < need)
    decreases |t.chunks|
  {
    if need > 0 && t.chunks != [] {
      var size := Size(t.chunks[0]);
      SuffixHolds(t.chunks, 1);
      var left := if need > size then need - size else 0;
      EvictToFreeHolds(t.(chunks := t.chunks[1..], counter := t.counter - size), left);
    }
  }

  // ---------------------------------------------------------------------------------------------
  // Whole runs

  datatype CacheOp =
    | InvalidateOp(key: Key)
    | TouchOp(side: Side, key: Key)
    | InsertOp(side: Side, entry: Entry)
    | SlabOp(entry: Entry)
    | FreeOp(need: nat)

  function Apply(t: Tier, op: CacheOp, slabCapacity: nat): Tier
    requires Counted(t)
  {
    match op
    case InvalidateOp(key) => Invalidate(t, key)
    case TouchOp(side, key) => With(t, side, Touch(Of(t, side), key), t.counter)
    case InsertOp(side, entry) => CacheInsert(t, side, entry)
    case SlabOp(entry) => SlabInsert(t, entry, slabCapacity)
    case FreeOp(need) => EvictToFree(t, need)
  }

  /** A slab entry was allocated from the slab, so it is no larger than the slab. */
  predicate Allocated(op: CacheOp, slabCapacity: nat) {
    op.SlabOp? ==> Size(op.entry) <= slabCapacity
  }

  ghost predicate Bounded(t: Tier, slabCapacity: nat) {
    && Counted(t)
    && Weight(t.single) <= t.capacity
    && Weight(t.chunks) <= Budget(t, slabCapacity)
  }

  lemma StepBounded(t: Tier, op: CacheOp, slabCapacity: nat)
    requires Bounded(t, slabCapacity) && Allocated(op, slabCapacity)
    ensures BoundedStep(t, Apply(t, op, slabCapacity), slabCapacity)
  {
    match op
    case InvalidateOp(key) => InvalidateHolds(t, key);
    case TouchOp(side, key) => TouchBounded(t, side, key, slabCapacity);
    case InsertOp(side, entry) =>
      if Size(entry) <= t.capacity {
        InsertCounts(t, side, entry, t.capacity);
      }
    case SlabOp(entry) =>
      if Size(entry) > 0 {
        InsertCounts(t, Chunks, entry, SlabBudget(t, entry, slabCapacity));
      }
    case FreeOp(need) => FreeBounded(t, need, slabCapacity);
  }

  /** The bounds hold again, and the counter drifts only upwards, and only at the entry limit. */
  ghost predicate BoundedStep(t: Tier, t': Tier, slabCapacity: nat) {
    && Bounded(t', slabCapacity) && t'.capacity == t.capacity && Drift(t') >= Drift(t)
    && (|t.single| < ENTRY_LIMIT && |t.chunks| < ENTRY_LIMIT ==> Drift(t') == Drift(t))
  }

  lemma TouchBounded(t: Tier, side: Side, key: Key, slabCapacity: nat)
    requires Bounded(t, slabCapacity)
    ensures BoundedStep(t, With(t, side, Touch(Of(t, side), key), t.counter), slabCapacity)
  {
    TouchHolds(Of(t, side), key);
  }

  lemma FreeBounded(t: Tier, need: nat, slabCapacity: nat)
    requires Bounded(t, slabCapacity)
    ensures BoundedStep(t, EvictToFree(t, need), slabCapacity)
  {
    EvictToFreeHolds(t, need);
    SuffixHolds(t.chunks, |t.chunks| - |EvictToFree(t, need).chunks|);
  }

  /** Runs from the empty caches. Each step is taken from a counted tier; that every state is one follows. */
  ghost predicate IsCacheRun(states: seq<Tier>, ops: seq<CacheOp>, slabCapacity: nat) {
    && |states| == |ops| + 1
    && states[0].single == [] && states[0].chunks == [] && states[0].counter == 0
    && forall k :: 0 <= k < |ops| ==>
         && Allocated(ops[k], slabCapacity)
         && (Counted(states[k]) ==> states[k + 1] == Apply(states[k], ops[k], slabCapacity))
  }

  lemma {:induction false} RunBounded(states: seq<Tier>, ops: seq<CacheOp>, slabCapacity: nat, k: nat)
    requires IsCacheRun(states, ops, slabCapacity) && k < |states|
    ensures Bounded(states[k], slabCapacity) && states[k].capacity == states[0].capacity
  {
    if k > 0 {
      RunBounded(states, ops, slabCapacity, k - 1);
      StepBounded(states[k - 1], ops[k - 1], slabCapacity);
    }
  }

  /** Without slab entries the chunks cache too stays within capacity. */
  lemma {:induction false} RunWithoutSlab(states: seq<Tier>, ops: seq<CacheOp>, slabCapacity: nat, k: nat)
    requires IsCacheRun(states, ops, slabCapacity) && k < |states|
    requires forall i :: 0 <= i < k ==> !ops[i].SlabOp?
    ensures Bounded(states[k], 0) && states[k].capacity == states[0].capacity
  {
    if k > 0 {
      RunWithoutSlab(states, ops, slabCapacity, k - 1);
      StepBounded(states[k - 1], ops[k - 1], 0);
    }
  }

  /**
   * After any run the counter covers the bytes held, and these are at most twice the capacity, or
   * the capacity plus the larger of capacity and slab when slab entries were inserted.
   */
  lemma ByteBound(states: seq<Tier>, ops: seq<CacheOp>, slabCapacity: nat, k: nat)
    requires IsCacheRun(states, ops, slabCapacity) && k < |states|
    ensures var t, cap := states[k], states[0].capacity;
      && Weight(t.single) + Weight(t.chunks) <= t.counter
      && Weight(t.single) <= cap
      && Weight(t.single) + Weight(t.chunks) <= cap + (if cap >= slabCapacity then cap else slabCapacity)
      && ((forall i :: 0 <= i < k ==> !ops[i].SlabOp?) ==>
            Weight(t.chunks) <= cap && Weight(t.single) + Weight(t.chunks) <= 2 * cap)
  {
    RunBounded(states, ops, slabCapacity, k);
    if forall i :: 0 <= i < k ==> !ops[i].SlabOp? {
      RunWithoutSlab(states, ops, slabCapacity, k);
    }
  }

  /** The counter is exact as long as neither cache has been full by entry count. */
  lemma {:induction false} CounterExact(states: seq<Tier>, ops: seq<CacheOp>, slabCapacity: nat, k: nat)
    requires IsCacheRun(states, ops, slabCapacity) && k < |states|
    requires forall i :: 0 <= i < k ==> |states[i].single| < ENTRY_LIMIT && |states[i].chunks| < ENTRY_LIMIT
    ensures states[k].counter == Weight(states[k].single) + Weight(states[k].chunks)
  {
    if k > 0 {
      CounterExact(states, ops, slabCapacity, k - 1);
      RunBounded(states, ops, slabCapacity, k - 1);
      StepBounded(states[k - 1], ops[k - 1], slabCapacity);
    }
  }

  /** Twice the capacity is reached: one value of full size in each cache. */
  lemma BoundIsTight(capacity: nat, a: Entry, b: Entry) returns (states: seq<Tier>, ops: seq<CacheOp>)
    requires a.key != b.key && Size(a) == capacity == Size(b)
    ensures IsCacheRun(states, ops, 0) && states[0].capacity == capacity
    ensures var t := states[|ops|]; Weight(t.single) + Weight(t.chunks) == 2 * capacity
  {
    var t0 := Tier(capacity, [], [], 0);
    FirstInsert(t0, Single, a);
    var t1 := CacheInsert(t0, Single, a);
    WeightOne(a);
    WeightOne(b);
    FirstInsert(t1, Chunks, b);
    var t2 := CacheInsert(t1, Chunks, b);
    ops := [InsertOp(Single, a), InsertOp(Chunks, b)];
    states := [t0, t1, t2];
  }

  lemma WeightOne(e: Entry)
    ensures Weight([e]) == Size(e)
  {
    assert [e][1..] == [];
  }

  lemma AddToEmpty(lru: Lru, counter: nat, e: Entry, budget: nat)
    requires lru == []
    ensures Add(lru, counter, e, budget) == ([e], counter + Size(e))
  {
    assert Evict(lru, counter, Size(e), budget) == (lru, counter);
    assert lru + [e] == [e];
  }

  /** An empty cache takes the entry, whatever the counter says. */
  lemma FirstInsert(t: Tier, side: Side, e: Entry)
    requires Counted(t) && Of(t, side) == [] && Size(e) <= t.capacity
    requires forall x <- Of(t, Other(side)) :: x.key != e.key
    ensures CacheInsert(t, side, e) == With(t, side, [e], t.counter + Size(e))
  {
    WithoutAbsent(t.single, e.key);
    WithoutAbsent(t.chunks, e.key);
    assert Invalidate(t, e.key) == t;
    AddToEmpty(Of(t, side), t.counter, e, t.capacity);
  }

  /** A full cache under the entry limit drops its oldest entry without uncounting it. */
  lemma DriftAtEntryLimit(t: Tier, side: Side, e: Entry)
    requires Counted(t) && Size(e) <= t.capacity && |Of(t, side)| == ENTRY_LIMIT
    requires Find(Of(t, side), e.key).None? && Find(Of(t, Other(side)), e.key).None?
    requires t.counter + Size(e) <= t.capacity
    ensures Drift(CacheInsert(t, side, e)) == Drift(t) + Size(Of(t, side)[0])
  {
    WithoutAbsent(Of(t, side), e.key);
    WithoutAbsent(Of(t, Other(side)), e.key);
    var lru := Of(t, side);
    assert Push(lru, e) == lru[1..] + [e];
    WeightAppend(lru[1..], [e]);
    assert [e][1..] == [];
  }

  lemma {:induction false} WithoutAbsent(lru: Lru, key: Key)
    requires forall e <- lru :: e.key != key
    ensures Without(lru, key) == lru
  {
    if lru != [] {
      assert lru == [lru[0]] + lru[1..];
      WithoutAbsent(lru[1..], key);
    }
  }
}
