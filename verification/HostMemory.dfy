/**
 * The host-memory cache of the Python side, in front of another storage backend: an ordered map of
 * byte values, an ordered map of pinned tensors, and a counter of bytes in use. The counter drifts:
 * some operations drop an entry without subtracting its size.
 */
module HostMemory {
  import opened Types

  /** Key and layer name. */
  type Slot = (string, string)

  datatype Item = Item(slot: Slot, data: Bytes, size: nat)

  /** Least recently used first. */
  type Items = seq<Item>

  function Held(items: Items): nat {
    if items == [] then 0 else Held(Front(items)) + Last(items).size
  }

  ghost predicate UniqueSlots(items: Items) {
    forall i, j :: 0 <= i < j < |items| ==> items[i].slot != items[j].slot
  }

  function FindItem(items: Items, slot: Slot): (found: Option<Item>)
    ensures found.Some? ==> found.value in items && found.value.slot == slot
    ensures found.None? ==> forall x <- items :: x.slot != slot
  {
    if items == [] then None
    else
      assert items == Front(items) + [Last(items)];
      if Last(items).slot == slot then Some(Last(items)) else FindItem(Front(items), slot)
  }

  function SizeOf(items: Items, slot: Slot): nat {
    match FindItem(items, slot) case None => 0 case Some(x) => x.size
  }

  function Drop(items: Items, slot: Slot): Items {
    if items == [] then []
    else if Last(items).slot == slot then Drop(Front(items), slot)
    else Drop(Front(items), slot) + [Last(items)]
  }

  lemma HeldSnoc(items: Items, x: Item)
    ensures Held(items + [x]) == Held(items) + x.size
  {
    assert Front(items + [x]) == items;
  }

  lemma {:induction false} DropHolds(items: Items, slot: Slot)
    requires UniqueSlots(items)
    ensures UniqueSlots(Drop(items, slot)) && Held(items) == Held(Drop(items, slot)) + SizeOf(items, slot)
    ensures forall x :: x in Drop(items, slot) <==> x in items && x.slot != slot
  {
    if items != [] {
      var front, last := Front(items), Last(items);
      assert items == front + [last];
      DropHolds(front, slot);
      if last.slot == slot {
        DropAbsent(front, slot);
      } else {
        HeldSnoc(Drop(front, slot), last);
      }
    }
  }

  lemma {:induction false} DropAbsent(items: Items, slot: Slot)
    requires forall x <- items :: x.slot != slot
    ensures Drop(items, slot) == items && SizeOf(items, slot) == 0
  {
    if items != [] {
      assert items == Front(items) + [Last(items)];
      DropAbsent(Front(items), slot);
    }
  }

  /** The items of all layers of a key are dropped. */
  function DropKey(items: Items, key: string): Items {
    if items == [] then []
    else if Last(items).slot.0 == key then DropKey(Front(items), key)
    else DropKey(Front(items), key) + [Last(items)]
  }

  lemma {:induction false} DropKeyHolds(items: Items, key: string)
    requires UniqueSlots(items)
    ensures UniqueSlots(DropKey(items, key)) && Held(DropKey(items, key)) <= Held(items)
    ensures forall x :: x in DropKey(items, key) <==> x in items && x.slot.0 != key
  {
    if items != [] {
      var front, last := Front(items), Last(items);
      assert items == front + [last];
      DropKeyHolds(front, key);
      if last.slot.0 != key {
        HeldSnoc(DropKey(front, key), last);
        AppendUnique(DropKey(front, key), last);
      }
    }
  }

  // ---------------------------------------------------------------------------------------------
  // The cache over its backend

  datatype Host = Host(capacity: nat, cache: Items, tensors: Items, used: int, wrapped: map<Slot, Bytes>)

  function InUse(h: Host): nat {
    Held(h.cache) + Held(h.tensors)
  }

  /** How far the counter is ahead of the bytes held. */
  function Drift(h: Host): int {
    h.used - InUse(h)
  }

  function Answer(wrapped: map<Slot, Bytes>, slot: Slot): Option<Bytes> {
    if slot in wrapped then Some(wrapped[slot]) else None
  }

  ghost predicate Counted(h: Host) {
    UniqueSlots(h.cache) && UniqueSlots(h.tensors) && Drift(h) >= 0
  }

  /** Every cached value is the backend's. */
  ghost predicate Agrees(h: Host) {
    AllAgree(h.cache, h.wrapped)
  }

  ghost predicate AllAgree(cache: Items, wrapped: map<Slot, Bytes>) {
    forall x <- cache :: IsAnswer(x, wrapped)
  }

  ghost predicate IsAnswer(x: Item, wrapped: map<Slot, Bytes>) {
    x.size == |x.data| && Answer(wrapped, x.slot) == Some(x.data)
  }

  lemma DropAgrees(cache: Items, wrapped: map<Slot, Bytes>, slot: Slot, data: Bytes)
    requires UniqueSlots(cache) && AllAgree(cache, wrapped)
    ensures AllAgree(Drop(cache, slot), wrapped[slot := data])
  {
    DropHolds(cache, slot);
    forall x <- Drop(cache, slot) ensures IsAnswer(x, wrapped[slot := data]) {
      assert IsAnswer(x, wrapped);
    }
  }

  lemma AppendAgrees(cache: Items, wrapped: map<Slot, Bytes>, x: Item)
    requires AllAgree(cache, wrapped) && IsAnswer(x, wrapped)
    ensures AllAgree(cache + [x], wrapped)
  {
  }

  lemma HitAgrees(cache: Items, wrapped: map<Slot, Bytes>, slot: Slot)
    requires AllAgree(cache, wrapped) && FindItem(cache, slot).Some?
    ensures Answer(wrapped, slot) == Some(FindItem(cache, slot).value.data)
  {
    assert IsAnswer(FindItem(cache, slot).value, wrapped);
  }

  /** Values go first, oldest first, then tensors, until the counter is within capacity or nothing is left. */
  function Evict(h: Host): Host
    decreases |h.cache| + |h.tensors|
  {
    if h.used <= h.capacity then h
    else if h.cache != [] then Evict(PopValue(h))
    else if h.tensors != [] then Evict(PopTensor(h))
    else h
  }

  function PopValue(h: Host): (r: Host)
    requires h.cache != []
    ensures |r.cache| < |h.cache| && r.tensors == h.tensors
  {
    h.(cache := h.cache[1..], used := h.used - h.cache[0].size)
  }

  function PopTensor(h: Host): (r: Host)
    requires h.tensors != []
    ensures |r.tensors| < |h.tensors| && r.cache == h.cache
  {
    h.(tensors := h.tensors[1..], used := h.used - h.tensors[0].size)
  }

  lemma {:induction false} HeldCons(items: Items)
    requires items != []
    ensures Held(items) == items[0].size + Held(items[1..])
  {
    if |items| > 1 {
      HeldCons(Front(items));
      assert Front(items)[1..] == Front(items[1..]);
    }
  }

  /** Eviction drops entries and uncounts exactly those; afterwards the bytes held are within capacity. */
  lemma {:induction false} EvictHolds(h: Host)
    requires Counted(h)
    ensures Evicted(h, Evict(h))
    decreases |h.cache| + |h.tensors|
  {
    if h.used > h.capacity {
      if h.cache != [] {
        PopCounts(h);
        EvictHolds(PopValue(h));
        EvictedAfter(h, PopValue(h), Evict(PopValue(h)));
      } else if h.tensors != [] {
        PopCounts(h);
        EvictHolds(PopTensor(h));
        EvictedAfter(h, PopTensor(h), Evict(PopTensor(h)));
      }
    }
  }

  lemma PopCounts(h: Host)
    requires Counted(h)
    ensures h.cache != [] ==> Counted(PopValue(h)) && Drift(PopValue(h)) == Drift(h)
    ensures h.cache != [] ==> forall x <- PopValue(h).cache :: x in h.cache
    ensures h.tensors != [] ==> Counted(PopTensor(h)) && Drift(PopTensor(h)) == Drift(h)
  {
    if h.cache != [] {
      PopFirst(h.cache);
    }
    if h.tensors != [] {
      PopFirst(h.tensors);
    }
  }

  lemma EvictedAfter(h: Host, next: Host, h': Host)
    requires Evicted(next, h') && Drift(next) == Drift(h) && next.capacity == h.capacity && next.wrapped == h.wrapped
    requires forall x <- next.cache :: x in h.cache
    ensures Evicted(h, h')
  {
  }

  ghost predicate Evicted(h: Host, h': Host) {
    && Counted(h') && Drift(h') == Drift(h) && h'.capacity == h.capacity && h'.wrapped == h.wrapped
    && (InUse(h') == 0 || h'.used <= h.capacity)
    && (forall x <- h'.cache :: x in h.cache)
  }

  lemma PopFirst(items: Items)
    requires items != [] && UniqueSlots(items)
    ensures UniqueSlots(items[1..]) && Held(items) == items[0].size + Held(items[1..])
    ensures forall x <- items[1..] :: x in items
  {
    HeldCons(items);
  }

  /** A value is stored below and cached; a tensor of the same slot is dropped, but stays counted. */
  function Put(h: Host, slot: Slot, data: Bytes): Host {
    Evict(Store(h, slot, data))
  }

  function Store(h: Host, slot: Slot, data: Bytes): Host {
    h.(cache := Drop(h.cache, slot) + [Item(slot, data, |data|)], tensors := Drop(h.tensors, slot),
       used := h.used - SizeOf(h.cache, slot) + |data|, wrapped := h.wrapped[slot := data])
  }

  /** A tensor replaces the value of its slot, or the tensor; if both are there, only the value is uncounted. */
  function PutTensor(h: Host, slot: Slot, data: Bytes, size: nat): Host {
    Evict(PinTensor(h, slot, data, size))
  }

  function PinTensor(h: Host, slot: Slot, data: Bytes, size: nat): Host {
    var freed := if FindItem(h.cache, slot).Some? then SizeOf(h.cache, slot) else SizeOf(h.tensors, slot);
    h.(cache := Drop(h.cache, slot), tensors := Drop(h.tensors, slot) + [Item(slot, [], size)],
       used := h.used - freed + size, wrapped := h.wrapped[slot := data])
  }

  /** A fetched value is cached and counted, even over one that is cached already. */
  function Fill(h: Host, slot: Slot): Host {
    if slot !in h.wrapped then h
    else
      var data := h.wrapped[slot];
      h.(cache := Drop(h.cache, slot) + [Item(slot, data, |data|)], used := h.used + |data|)
  }

  function Touch(items: Items, slot: Slot): Items {
    match FindItem(items, slot) case None => items case Some(x) => Drop(items, slot) + [x]
  }

  function Get(h: Host, slot: Slot): (Host, Option<Bytes>) {
    match FindItem(h.cache, slot)
    case Some(x) => (h.(cache := Touch(h.cache, slot)), Some(x.data))
    case None => (if slot in h.wrapped then Evict(Fill(h, slot)) else h, Answer(h.wrapped, slot))
  }

  /** The backend without any layer of the key. */
  function WithoutKey(wrapped: map<Slot, Bytes>, key: string): map<Slot, Bytes> {
    map s | s in wrapped && s.0 != key :: wrapped[s]
  }

  lemma DropKeyAgrees(cache: Items, wrapped: map<Slot, Bytes>, key: string)
    requires UniqueSlots(cache) && AllAgree(cache, wrapped)
    ensures AllAgree(DropKey(cache, key), WithoutKey(wrapped, key))
  {
    DropKeyHolds(cache, key);
    forall x <- DropKey(cache, key) ensures IsAnswer(x, WithoutKey(wrapped, key)) {
      assert IsAnswer(x, wrapped);
    }
  }

  function Delete(h: Host, key: string): Host {
    var cache, tensors := DropKey(h.cache, key), DropKey(h.tensors, key);
    h.(cache := cache, tensors := tensors, wrapped := WithoutKey(h.wrapped, key),
       used := h.used - (Held(h.cache) - Held(cache)) - (Held(h.tensors) - Held(tensors)))
  }

  /** Hits are touched in order; the slots that missed are listed. */
  function Misses(h: Host, keys: seq<string>, layer: string): (Host, seq<Slot>) {
    if keys == [] then (h, [])
    else
      var (h', missed) := Misses(h, Front(keys), layer);
      var slot := (Last(keys), layer);
      if FindItem(h'.cache, slot).Some? then (h'.(cache := Touch(h'.cache, slot)), missed) else (h', missed + [slot])
  }

  function FillAll(h: Host, slots: seq<Slot>): Host {
    if slots == [] then h else Fill(FillAll(h, Front(slots)), Last(slots))
  }

  function GetParallel(h: Host, keys: seq<string>, layer: string): Host {
    var (touched, missed) := Misses(h, keys, layer);
    if missed == [] then touched else Evict(FillAll(touched, missed))
  }

  /** The segmented write goes straight to a backend that supports it. */
  function PutChunks(h: Host, slot: Slot, segments: seq<Bytes>): Host {
    h.(wrapped := h.wrapped[slot := Flatten(segments)])
  }

  // ---------------------------------------------------------------------------------------------
  // One step

  /** The counter covers the bytes held, and these are within capacity. */
  ghost predicate Sound(h: Host) {
    Counted(h) && InUse(h) <= h.capacity
  }

  lemma EvictSound(h: Host)
    requires Counted(h)
    ensures Sound(Evict(h)) && Drift(Evict(h)) == Drift(h) && Evict(h).wrapped == h.wrapped
    ensures InUse(Evict(h)) == 0 || InUse(Evict(h)) <= h.capacity - Drift(h)
    ensures Agrees(h) ==> Agrees(Evict(h))
  {
    EvictHolds(h);
  }

  lemma AppendUnique(items: Items, x: Item)
    requires UniqueSlots(items) && forall y <- items :: y.slot != x.slot
    ensures UniqueSlots(items + [x])
  {
  }

  lemma DropUncounts(items: Items, slot: Slot)
    requires UniqueSlots(items)
    ensures UniqueSlots(Drop(items, slot)) && Held(items) == Held(Drop(items, slot)) + SizeOf(items, slot)
  {
    DropHolds(items, slot);
  }

  lemma PutHalfway(h: Host, slot: Slot, data: Bytes)
    requires Counted(h)
    ensures Counted(Store(h, slot, data)) && Drift(Store(h, slot, data)) == Drift(h) + SizeOf(h.tensors, slot)
    ensures Agrees(h) ==> Agrees(Store(h, slot, data))
  {
    DropUncounts(h.tensors, slot);
    ReplacedCounts(h.cache, Item(slot, data, |data|));
    if Agrees(h) {
      DropAgrees(h.cache, h.wrapped, slot, data);
      AppendAgrees(Drop(h.cache, slot), h.wrapped[slot := data], Item(slot, data, |data|));
    }
  }

  lemma ReplacedCounts(items: Items, x: Item)
    requires UniqueSlots(items)
    ensures UniqueSlots(Drop(items, x.slot) + [x])
    ensures Held(Drop(items, x.slot) + [x]) == Held(items) - SizeOf(items, x.slot) + x.size
  {
    DropHolds(items, x.slot);
    HeldSnoc(Drop(items, x.slot), x);
    AppendUnique(Drop(items, x.slot), x);
  }

  lemma PutTensorHalfway(h: Host, slot: Slot, data: Bytes, size: nat)
    requires Counted(h)
    ensures Counted(PinTensor(h, slot, data, size))
    ensures Drift(PinTensor(h, slot, data, size)) ==
      Drift(h) + if FindItem(h.cache, slot).Some? then SizeOf(h.tensors, slot) else 0
    ensures Agrees(h) ==> Agrees(PinTensor(h, slot, data, size))
  {
    DropUncounts(h.cache, slot);
    ReplacedCounts(h.tensors, Item(slot, [], size));
    if Agrees(h) {
      DropAgrees(h.cache, h.wrapped, slot, data);
    }
  }

  lemma FillHalfway(h: Host, slot: Slot)
    requires Counted(h)
    ensures Counted(Fill(h, slot)) && Fill(h, slot).wrapped == h.wrapped && Fill(h, slot).capacity == h.capacity
    ensures slot in h.wrapped ==> Drift(Fill(h, slot)) == Drift(h) + SizeOf(h.cache, slot)
    ensures Agrees(h) ==> Agrees(Fill(h, slot))
  {
    if slot in h.wrapped {
      var x := Item(slot, h.wrapped[slot], |h.wrapped[slot]|);
      ReplacedCounts(h.cache, x);
      if Agrees(h) {
        DropAgrees(h.cache, h.wrapped, slot, x.data);
        assert h.wrapped[slot := x.data] == h.wrapped;
        AppendAgrees(Drop(h.cache, slot), h.wrapped, x);
      }
    }
  }

  lemma TouchSound(h: Host, slot: Slot)
    requires Counted(h)
    ensures UniqueSlots(Touch(h.cache, slot)) && Held(Touch(h.cache, slot)) == Held(h.cache)
    ensures forall x :: x in Touch(h.cache, slot) <==> x in h.cache
  {
    if FindItem(h.cache, slot).Some? {
      var x := FindItem(h.cache, slot).value;
      ReplacedCounts(h.cache, x);
      DropHolds(h.cache, slot);
      SoleItem(h.cache, slot);
    }
  }

  lemma SoleItem(items: Items, slot: Slot)
    requires UniqueSlots(items) && FindItem(items, slot).Some?
    ensures forall y <- items :: y.slot == slot ==> y == FindItem(items, slot).value
  {
    var i :| 0 <= i < |items| && items[i] == FindItem(items, slot).value;
  }

  lemma DeleteSound(h: Host, key: string)
    requires Sound(h)
    ensures Sound(Delete(h, key)) && Drift(Delete(h, key)) == Drift(h) && InUse(Delete(h, key)) <= InUse(h)
    ensures Agrees(h) ==> Agrees(Delete(h, key))
  {
    assert UniqueSlots(DropKey(h.cache, key)) && Held(DropKey(h.cache, key)) <= Held(h.cache) by {
      DropKeyHolds(h.cache, key);
    }
    assert UniqueSlots(DropKey(h.tensors, key)) && Held(DropKey(h.tensors, key)) <= Held(h.tensors) by {
      DropKeyHolds(h.tensors, key);
    }
    if Agrees(h) {
      DropKeyAgrees(h.cache, h.wrapped, key);
    }
  }

  lemma GetSound(h: Host, slot: Slot)
    requires Sound(h)
    ensures var (h', answer) := Get(h, slot);
      && Sound(h') && Drift(h') == Drift(h) && h'.wrapped == h.wrapped
      && (Agrees(h) ==> Agrees(h') && answer == Answer(h.wrapped, slot))
  {
    TouchSound(h, slot);
    if FindItem(h.cache, slot).Some? {
      if Agrees(h) {
        HitAgrees(h.cache, h.wrapped, slot);
      }
    } else if slot in h.wrapped {
      FillHalfway(h, slot);
      EvictSound(Fill(h, slot));
    }
  }

  lemma {:induction false} MissesSound(h: Host, keys: seq<string>, layer: string)
    requires Sound(h)
    ensures var (h', missed) := Misses(h, keys, layer);
      && Sound(h') && Drift(h') == Drift(h) && h'.wrapped == h.wrapped && h'.capacity == h.capacity
      && forall x :: x in h'.cache <==> x in h.cache
  {
    if keys != [] {
      MissesSound(h, Front(keys), layer);
      var (h', missed) := Misses(h, Front(keys), layer);
      TouchSound(h', (Last(keys), layer));
    }
  }

  lemma {:induction false} FillAllHalfway(h: Host, slots: seq<Slot>)
    requires Counted(h)
    ensures Counted(FillAll(h, slots)) && Drift(FillAll(h, slots)) >= Drift(h)
    ensures FillAll(h, slots).wrapped == h.wrapped && FillAll(h, slots).capacity == h.capacity
    ensures Agrees(h) ==> Agrees(FillAll(h, slots))
  {
    if slots != [] {
      FillAllHalfway(h, Front(slots));
      FillHalfway(FillAll(h, Front(slots)), Last(slots));
    }
  }

  lemma GetParallelSound(h: Host, keys: seq<string>, layer: string)
    requires Sound(h)
    ensures Sound(GetParallel(h, keys, layer)) && Drift(GetParallel(h, keys, layer)) >= Drift(h)
    ensures GetParallel(h, keys, layer).wrapped == h.wrapped
    ensures Agrees(h) ==> Agrees(GetParallel(h, keys, layer))
  {
    MissesSound(h, keys, layer);
    var (touched, missed) := Misses(h, keys, layer);
    assert Agrees(h) ==> Agrees(touched);
    if missed != [] {
      FillAllHalfway(touched, missed);
      EvictSound(FillAll(touched, missed));
    }
  }

  // ---------------------------------------------------------------------------------------------
  // Whole histories

  datatype HostOp =
    | PutOp(slot: Slot, data: Bytes)
    | PutTensorOp(slot: Slot, data: Bytes, size: nat)
    | GetOp(slot: Slot)
    | ParallelOp(keys: seq<string>, layer: string)
    | DeleteOp(key: string)
    | ChunksOp(slot: Slot, segments: seq<Bytes>)

  function Apply(h: Host, op: HostOp): Host {
    match op
    case PutOp(slot, data) => Put(h, slot, data)
    case PutTensorOp(slot, data, size) => PutTensor(h, slot, data, size)
    case GetOp(slot) => Get(h, slot).0
    case ParallelOp(keys, layer) => GetParallel(h, keys, layer)
    case DeleteOp(key) => Delete(h, key)
    case ChunksOp(slot, segments) => PutChunks(h, slot, segments)
  }

  /** What the operation does to the backend alone. */
  function ApplyWrapped(wrapped: map<Slot, Bytes>, op: HostOp): map<Slot, Bytes> {
    match op
    case PutOp(slot, data) => wrapped[slot := data]
    case PutTensorOp(slot, data, _) => wrapped[slot := data]
    case GetOp(_) => wrapped
    case ParallelOp(_, _) => wrapped
    case DeleteOp(key) => WithoutKey(wrapped, key)
    case ChunksOp(slot, segments) => wrapped[slot := Flatten(segments)]
  }

  /** Not a segmented write over a slot that is cached with other bytes. */
  predicate Harmless(h: Host, op: HostOp) {
    op.ChunksOp? ==>
      FindItem(h.cache, op.slot).None? || FindItem(h.cache, op.slot).value.data == Flatten(op.segments)
  }

  lemma StepSound(h: Host, op: HostOp)
    requires Sound(h)
    ensures Sound(Apply(h, op)) && Drift(Apply(h, op)) >= Drift(h) && Apply(h, op).capacity == h.capacity
    ensures Apply(h, op).wrapped == ApplyWrapped(h.wrapped, op)
    ensures Agrees(h) ==> (Agrees(Apply(h, op)) <==> Harmless(h, op))
  {
    match op
    case PutOp(slot, data) =>
      PutHalfway(h, slot, data);
      EvictHolds(Store(h, slot, data));
      EvictSound(Store(h, slot, data));
    case PutTensorOp(slot, data, size) =>
      PutTensorHalfway(h, slot, data, size);
      EvictHolds(PinTensor(h, slot, data, size));
      EvictSound(PinTensor(h, slot, data, size));
    case GetOp(slot) =>
      GetSound(h, slot);
      GetCapacity(h, slot);
    case ParallelOp(keys, layer) =>
      GetParallelSound(h, keys, layer);
      ParallelCapacity(h, keys, layer);
    case DeleteOp(key) => DeleteSound(h, key);
    case ChunksOp(slot, segments) => if Agrees(h) { PassThroughIff(h, slot, segments); }
  }

  lemma GetCapacity(h: Host, slot: Slot)
    requires Sound(h)
    ensures Get(h, slot).0.capacity == h.capacity
  {
    FillHalfway(h, slot);
    EvictHolds(Fill(h, slot));
  }

  lemma ParallelCapacity(h: Host, keys: seq<string>, layer: string)
    requires Sound(h)
    ensures GetParallel(h, keys, layer).capacity == h.capacity
  {
    MissesSound(h, keys, layer);
    var (touched, missed) := Misses(h, keys, layer);
    FillAllHalfway(touched, missed);
    EvictHolds(FillAll(touched, missed));
  }

  ghost predicate IsHostRun(states: seq<Host>, ops: seq<HostOp>) {
    && |states| == |ops| + 1
    && states[0].cache == [] && states[0].tensors == [] && states[0].used == 0
    && forall k :: 0 <= k < |ops| ==> states[k + 1] == Apply(states[k], ops[k])
  }

  lemma {:induction false} RunSound(states: seq<Host>, ops: seq<HostOp>, k: nat)
    requires IsHostRun(states, ops) && k < |states|
    ensures Sound(states[k]) && states[k].capacity == states[0].capacity
  {
    if k > 0 {
      RunSound(states, ops, k - 1);
      StepSound(states[k - 1], ops[k - 1]);
    }
  }

  lemma {:induction false} DriftOnlyGrows(states: seq<Host>, ops: seq<HostOp>, j: nat, k: nat)
    requires IsHostRun(states, ops) && j <= k < |states|
    ensures Drift(states[j]) <= Drift(states[k])
    decreases k - j
  {
    if j < k {
      DriftOnlyGrows(states, ops, j, k - 1);
      RunSound(states, ops, k - 1);
      StepSound(states[k - 1], ops[k - 1]);
    }
  }

  /**
   * After every operation of every history, segmented writes included: the bytes held are within
   * capacity and within the counter, and the counter's lead over them never shrinks.
   */
  lemma HostBound(states: seq<Host>, ops: seq<HostOp>, j: nat, k: nat)
    requires IsHostRun(states, ops) && j <= k < |states|
    ensures InUse(states[k]) <= states[0].capacity && InUse(states[k]) <= states[k].used
    ensures 0 <= Drift(states[j]) <= Drift(states[k])
  {
    RunSound(states, ops, k);
    RunSound(states, ops, j);
    DriftOnlyGrows(states, ops, j, k);
  }

  lemma {:induction false} AgreesAlong(states: seq<Host>, ops: seq<HostOp>, k: nat)
    requires IsHostRun(states, ops) && k < |states|
    requires forall i :: 0 <= i < k ==> Harmless(states[i], ops[i])
    ensures Agrees(states[k])
  {
    if k > 0 {
      AgreesAlong(states, ops, k - 1);
      RunSound(states, ops, k - 1);
      StepSound(states[k - 1], ops[k - 1]);
    }
  }

  /**
   * Over every history: the cache agrees with the backend throughout if and only if no segmented
   * write goes over a slot that is cached with other bytes. Then every read answers as the backend.
   */
  lemma HostAgreementIff(states: seq<Host>, ops: seq<HostOp>)
    requires IsHostRun(states, ops)
    ensures (forall k :: 0 <= k < |states| ==> Agrees(states[k])) <==>
      forall k :: 0 <= k < |ops| ==> Harmless(states[k], ops[k])
    ensures (forall k :: 0 <= k < |ops| ==> Harmless(states[k], ops[k])) ==>
      forall k, slot :: 0 <= k < |states| ==> Get(states[k], slot).1 == Answer(states[k].wrapped, slot)
  {
    if forall k :: 0 <= k < |ops| ==> Harmless(states[k], ops[k]) {
      forall k | 0 <= k < |states|
        ensures Agrees(states[k])
      {
        AgreesAlong(states, ops, k);
      }
      forall k, slot | 0 <= k < |states|
        ensures Get(states[k], slot).1 == Answer(states[k].wrapped, slot)
      {
        RunSound(states, ops, k);
        GetSound(states[k], slot);
      }
    }
    if forall k :: 0 <= k < |states| ==> Agrees(states[k]) {
      forall k | 0 <= k < |ops|
        ensures Harmless(states[k], ops[k])
      {
        assert Agrees(states[k]) && Agrees(states[k + 1]);
        RunSound(states, ops, k);
        StepSound(states[k], ops[k]);
      }
    }
  }

  /** The drift is taken from the capacity: an eviction leaves at most what remains, or nothing. */
  lemma DriftShrinksCapacity(h: Host, slot: Slot, data: Bytes)
    requires Sound(h)
    ensures var h' := Put(h, slot, data);
      InUse(h') == 0 || InUse(h') <= h.capacity - Drift(h) - SizeOf(h.tensors, slot)
  {
    PutHalfway(h, slot, data);
    EvictSound(Store(h, slot, data));
  }

  /** The counter drifts on a put exactly when the slot holds a tensor of some size. */
  lemma PutDriftsIff(h: Host, slot: Slot, data: Bytes)
    requires Sound(h)
    ensures Drift(Put(h, slot, data)) > Drift(h) <==> SizeOf(h.tensors, slot) > 0
  {
    PutHalfway(h, slot, data);
    EvictSound(Store(h, slot, data));
  }

  /** The backend holds a value that is not empty. */
  predicate HasBytes(wrapped: map<Slot, Bytes>, slot: Slot) {
    slot in wrapped && wrapped[slot] != []
  }

  /** Filled twice, the second time over bytes that are already counted. */
  ghost predicate FilledTwice(slots: seq<Slot>, wrapped: map<Slot, Bytes>) {
    exists i, j :: 0 <= i < j < |slots| && slots[i] == slots[j] && HasBytes(wrapped, slots[i])
  }

  lemma FilledTwiceSnoc(front: seq<Slot>, last: Slot, wrapped: map<Slot, Bytes>)
    ensures FilledTwice(front + [last], wrapped) <==>
      FilledTwice(front, wrapped) || (last in front && HasBytes(wrapped, last))
  {
    var slots := front + [last];
    if FilledTwice(front, wrapped) {
      var i, j :| 0 <= i < j < |front| && front[i] == front[j] && HasBytes(wrapped, front[i]);
      assert slots[i] == slots[j];
    } else if last in front && HasBytes(wrapped, last) {
      var i :| 0 <= i < |front| && front[i] == last;
      assert slots[i] == slots[|front|];
    }
  }

  /** After a fill the slot has the backend's size; other slots are as before. */
  lemma FillSize(h: Host, slot: Slot, x: Slot)
    requires UniqueSlots(h.cache)
    ensures SizeOf(Fill(h, slot).cache, x) ==
      if x == slot && slot in h.wrapped then |h.wrapped[slot]| else SizeOf(h.cache, x)
  {
    if slot in h.wrapped {
      var item := Item(slot, h.wrapped[slot], |h.wrapped[slot]|);
      var kept := Drop(h.cache, slot);
      assert Front(kept + [item]) == kept && Last(kept + [item]) == item;
      DropSize(h.cache, slot, x);
    }
  }

  lemma {:induction false} DropSize(items: Items, slot: Slot, x: Slot)
    ensures SizeOf(Drop(items, slot), x) == if x == slot then 0 else SizeOf(items, x)
  {
    if items != [] {
      DropSize(Front(items), slot, x);
      if Last(items).slot != slot {
        var kept := Drop(Front(items), slot);
        assert Front(kept + [Last(items)]) == kept && Last(kept + [Last(items)]) == Last(items);
      }
    }
  }

  /** A slot that was not cached has a size afterwards exactly when it was filled. */
  lemma {:induction false} FilledSize(h: Host, slots: seq<Slot>, x: Slot)
    requires Counted(h) && FindItem(h.cache, x).None?
    ensures SizeOf(FillAll(h, slots).cache, x) > 0 <==> x in slots && HasBytes(h.wrapped, x)
  {
    if slots != [] {
      var front, last := Front(slots), Last(slots);
      assert slots == front + [last];
      FilledSize(h, front, x);
      FillAllHalfway(h, front);
      FillSize(FillAll(h, front), last, x);
    }
  }

  lemma {:induction false} FillAllDriftsIff(h: Host, slots: seq<Slot>)
    requires Counted(h) && forall x <- slots :: FindItem(h.cache, x).None?
    ensures Drift(FillAll(h, slots)) > Drift(h) <==> FilledTwice(slots, h.wrapped)
  {
    if slots != [] {
      var front, last := Front(slots), Last(slots);
      assert slots == front + [last];
      FillAllDriftsIff(h, front);
      FilledTwiceSnoc(front, last, h.wrapped);
      FilledSize(h, front, last);
      FillAllHalfway(h, front);
      FillHalfway(FillAll(h, front), last);
    }
  }

  /** The slots of the keys that are not cached, in order and with repetitions. */
  function Uncached(cache: Items, keys: seq<string>, layer: string): (r: seq<Slot>)
    ensures forall x <- r :: FindItem(cache, x).None?
    ensures forall k :: k in keys && FindItem(cache, (k, layer)).None? <==> (k, layer) in r
  {
    if keys == [] then []
    else
      assert keys == Front(keys) + [Last(keys)];
      var slot := (Last(keys), layer);
      Uncached(cache, Front(keys), layer) + if FindItem(cache, slot).None? then [slot] else []
  }

  lemma {:induction false} MissesAreUncached(h: Host, keys: seq<string>, layer: string)
    requires Sound(h)
    ensures Misses(h, keys, layer).1 == Uncached(h.cache, keys, layer)
  {
    if keys != [] {
      MissesAreUncached(h, Front(keys), layer);
      MissesSound(h, Front(keys), layer);
      SameFinds(Misses(h, Front(keys), layer).0.cache, h.cache, (Last(keys), layer));
    }
  }

  lemma SameFinds(a: Items, b: Items, slot: Slot)
    requires forall x :: x in a <==> x in b
    ensures FindItem(a, slot).None? <==> FindItem(b, slot).None?
  {
  }

  /** A key asked for more than once, not cached, with a value that is not empty. */
  ghost predicate MissedTwice(h: Host, keys: seq<string>, layer: string) {
    exists i, j :: 0 <= i < j < |keys| && keys[i] == keys[j]
      && FindItem(h.cache, (keys[i], layer)).None? && HasBytes(h.wrapped, (keys[i], layer))
  }

  lemma MissedTwiceSnoc(h: Host, front: seq<string>, last: string, layer: string)
    ensures MissedTwice(h, front + [last], layer) <==>
      || MissedTwice(h, front, layer)
      || (last in front && FindItem(h.cache, (last, layer)).None? && HasBytes(h.wrapped, (last, layer)))
  {
    var keys := front + [last];
    if MissedTwice(h, front, layer) {
      var i, j :| 0 <= i < j < |front| && front[i] == front[j]
        && FindItem(h.cache, (front[i], layer)).None? && HasBytes(h.wrapped, (front[i], layer));
      assert keys[i] == keys[j];
    } else if last in front && FindItem(h.cache, (last, layer)).None? && HasBytes(h.wrapped, (last, layer)) {
      var i :| 0 <= i < |front| && front[i] == last;
      assert keys[i] == keys[|front|];
    }
  }

  lemma {:induction false} MissedTwiceIff(h: Host, keys: seq<string>, layer: string)
    ensures FilledTwice(Uncached(h.cache, keys, layer), h.wrapped) <==> MissedTwice(h, keys, layer)
  {
    if keys != [] {
      var front, last := Front(keys), Last(keys);
      assert keys == front + [last];
      MissedTwiceIff(h, front, layer);
      MissedTwiceSnoc(h, front, last, layer);
      var missed := Uncached(h.cache, front, layer);
      FilledTwiceSnoc(missed, (last, layer), h.wrapped);
      assert missed + [] == missed;
    }
  }

  /**
   * The counter drifts on a parallel read exactly when some key that is not cached, and has a value
   * that is not empty, is asked for more than once.
   */
  lemma GetParallelDriftsIff(h: Host, keys: seq<string>, layer: string)
    requires Sound(h)
    ensures Drift(GetParallel(h, keys, layer)) > Drift(h) <==> MissedTwice(h, keys, layer)
  {
    var (touched, missed) := Misses(h, keys, layer);
    MissesSound(h, keys, layer);
    MissesAreUncached(h, keys, layer);
    MissedTwiceIff(h, keys, layer);
    forall x <- missed
      ensures FindItem(touched.cache, x).None?
    {
      SameFinds(touched.cache, h.cache, x);
    }
    FillAllDriftsIff(touched, missed);
    FillAllHalfway(touched, missed);
    EvictSound(FillAll(touched, missed));
  }

  /** The segmented write keeps agreement exactly when the slot is not cached, or cached with the same bytes. */
  lemma PassThroughIff(h: Host, slot: Slot, segments: seq<Bytes>)
    requires Sound(h) && Agrees(h)
    ensures Agrees(PutChunks(h, slot, segments)) <==>
      FindItem(h.cache, slot).None? || FindItem(h.cache, slot).value.data == Flatten(segments)
  {
    var found := FindItem(h.cache, slot);
    if found.Some? && found.value.data == Flatten(segments) {
      SoleItem(h.cache, slot);
    }
  }

  // ---------------------------------------------------------------------------------------------
  // The backend itself

  lemma MissesStep(h: Host, keys: seq<string>, layer: string, i: nat)
    requires i < |keys|
    ensures var (h', missed) := Misses(h, keys[..i], layer);
      var slot := (keys[i], layer);
      Misses(h, keys[..i + 1], layer) ==
      if FindItem(h'.cache, slot).Some? then (h'.(cache := Touch(h'.cache, slot)), missed) else (h', missed + [slot])
  {
    assert Front(keys[..i + 1]) == keys[..i];
  }

  /** What single reads would answer, key by key. */
  function Answers(h: Host, keys: seq<string>, layer: string): (r: seq<Option<Bytes>>)
    ensures |r| == |keys|
  {
    if keys == [] then [] else Answers(h, Front(keys), layer) + [Get(h, (Last(keys), layer)).1]
  }

  /** With a cache that agrees, these are the backend's answers. */
  lemma {:induction false} AnswersAt(h: Host, keys: seq<string>, layer: string, i: nat)
    requires i < |keys|
    ensures Answers(h, keys, layer)[i] == Get(h, (keys[i], layer)).1
    ensures Sound(h) && Agrees(h) ==> Answers(h, keys, layer)[i] == Answer(h.wrapped, (keys[i], layer))
  {
    if Sound(h) {
      GetSound(h, (keys[i], layer));
    }
    if i < |keys| - 1 {
      AnswersAt(h, Front(keys), layer, i);
    }
  }

  lemma SameItem(a: Items, b: Items, slot: Slot)
    requires UniqueSlots(b) && forall x :: x in a <==> x in b
    ensures FindItem(a, slot) == FindItem(b, slot)
  {
    if FindItem(b, slot).Some? {
      SoleItem(b, slot);
    }
  }

  /** The first pass of a parallel read: hits answered and touched, misses listed. */
  method ServeHits(cache: Items, wrapped: map<Slot, Bytes>, keys: seq<string>, layer: string, ghost h: Host)
    returns (touched: Items, missed: seq<Slot>, results: seq<Option<Bytes>>)
    requires Sound(h) && h.cache == cache && h.wrapped == wrapped
    ensures (h.(cache := touched), missed) == Misses(h, keys, layer)
    ensures results == Answers(h, keys, layer)
  {
    touched, missed, results := cache, [], [];
    for i := 0 to |keys|
      invariant (h.(cache := touched), missed) == Misses(h, keys[..i], layer)
      invariant results == Answers(h, keys[..i], layer)
    {
      var slot := (keys[i], layer);
      MissesStep(h, keys, layer, i);
      assert Front(keys[..i + 1]) == keys[..i];
      var hit := FindItem(touched, slot);
      assert hit == FindItem(h.cache, slot) by {
        MissesSound(h, keys[..i], layer);
        SameItem(touched, h.cache, slot);
      }
      if hit.Some? {
        touched := Touch(touched, slot);
        results := results + [Some(hit.value.data)];
      } else {
        missed := missed + [slot];
        results := results + [Answer(wrapped, slot)];
      }
    }
    TakeAll(keys);
  }

  class HostMemoryBackend {
    const capacity: nat
    var cache: Items
    var tensors: Items
    var used: int
    var wrapped: map<Slot, Bytes>

    ghost function State(): Host
      reads this
    {
      Host(capacity, cache, tensors, used, wrapped)
    }

    constructor (capacity: nat, wrapped: map<Slot, Bytes>)
      ensures State() == Host(capacity, [], [], 0, wrapped) && Sound(State())
    {
      this.capacity, this.wrapped := capacity, wrapped;
      cache, tensors, used := [], [], 0;
    }

    method EvictIfNeeded()
      modifies this`cache, this`tensors, this`used
      ensures State() == Evict(old(State()))
    {
      ghost var start := State();
      while used > capacity
        invariant State().wrapped == start.wrapped && Evict(State()) == Evict(start)
        decreases |cache| + |tensors|
      {
        if cache != [] {
          used := used - cache[0].size;
          cache := cache[1..];
        } else if tensors != [] {
          used := used - tensors[0].size;
          tensors := tensors[1..];
        } else {
          return;
        }
      }
    }

    method PutValue(slot: Slot, data: Bytes)
      modifies this
      ensures State() == Put(old(State()), slot, data)
    {
      wrapped := wrapped[slot := data];
      var previous := FindItem(cache, slot);
      if previous.Some? {
        used := used - previous.value.size;
      }
      cache := Drop(cache, slot) + [Item(slot, data, |data|)];
      used := used + |data|;
      tensors := Drop(tensors, slot);
      EvictIfNeeded();
    }

    method PutTensorValue(slot: Slot, data: Bytes, size: nat)
      modifies this
      ensures State() == PutTensor(old(State()), slot, data, size)
    {
      wrapped := wrapped[slot := data];
      var value, tensor := FindItem(cache, slot), FindItem(tensors, slot);
      if value.Some? {
        used := used - value.value.size;
      } else if tensor.Some? {
        used := used - tensor.value.size;
      }
      tensors := Drop(tensors, slot) + [Item(slot, [], size)];
      cache := Drop(cache, slot);
      used := used + size;
      assert State() == PinTensor(old(State()), slot, data, size);
      EvictIfNeeded();
    }

    method GetValue(slot: Slot) returns (data: Option<Bytes>)
      modifies this
      ensures (State(), data) == Get(old(State()), slot)
    {
      var hit := FindItem(cache, slot);
      if hit.Some? {
        cache := Touch(cache, slot);
        return Some(hit.value.data);
      }
      if slot !in wrapped {
        return None;
      }
      data := Some(wrapped[slot]);
      cache := Drop(cache, slot) + [Item(slot, data.value, |data.value|)];
      used := used + |data.value|;
      EvictIfNeeded();
    }

    /** Hits first, then one fetch for all misses, filled back in order; every answer is the backend's. */
    method GetParallelValues(keys: seq<string>, layer: string) returns (results: seq<Option<Bytes>>)
      requires Sound(State())
      modifies this
      ensures State() == GetParallel(old(State()), keys, layer) && results == Answers(old(State()), keys, layer)
    {
      var missed;
      cache, missed, results := ServeHits(cache, wrapped, keys, layer, State());
      if missed != [] {
        cache, used := FillMissed(missed);
        EvictIfNeeded();
      }
    }

    method FillMissed(missed: seq<Slot>) returns (filled: Items, counted: int)
      ensures State().(cache := filled, used := counted) == FillAll(State(), missed)
    {
      filled, counted := cache, used;
      for k := 0 to |missed|
        invariant State().(cache := filled, used := counted) == FillAll(State(), missed[..k])
      {
        assert Front(missed[..k + 1]) == missed[..k];
        if missed[k] in wrapped {
          var data := wrapped[missed[k]];
          filled := Drop(filled, missed[k]) + [Item(missed[k], data, |data|)];
          counted := counted + |data|;
        }
      }
      TakeAll(missed);
    }

    method DeleteKey(key: string)
      modifies this
      ensures State() == Delete(old(State()), key)
    {
      var keptValues, keptTensors := DropKey(cache, key), DropKey(tensors, key);
      used := used - (Held(cache) - Held(keptValues)) - (Held(tensors) - Held(keptTensors));
      cache, tensors := keptValues, keptTensors;
      wrapped := WithoutKey(wrapped, key);
    }

    method PutSegments(slot: Slot, segments: seq<Bytes>)
      modifies this`wrapped
      ensures State() == PutChunks(old(State()), slot, segments)
    {
      wrapped := wrapped[slot := Flatten(segments)];
    }
  }
}
