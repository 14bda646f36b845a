/**
 * What the host-memory cache promises its callers, in terms of the calls alone: a read answers with
 * the last bytes written to its slot; and what its recency order is: hits become the most recent,
 * and the oldest entries go first.
 */
module HostLaws {
  import opened Types
  import opened HostMemory

  // ---------------------------------------------------------------------------------------------
  // Reads and writes

  /** The bytes the operation writes to the slot, if it writes there. */
  function Writes(op: HostOp, slot: Slot): Option<Bytes> {
    match op
    case PutOp(s, data) => if s == slot then Some(data) else None
    case PutTensorOp(s, data, _) => if s == slot then Some(data) else None
    case ChunksOp(s, segments) => if s == slot then Some(Flatten(segments)) else None
    case _ => None
  }

  /** No operation from `i` on and before `k` writes the slot or deletes its key. */
  ghost predicate LeftAlone(ops: seq<HostOp>, slot: Slot, i: nat, k: nat)
    requires k <= |ops|
  {
    forall j :: i <= j < k ==> Writes(ops[j], slot).None? && ops[j] != DeleteOp(slot.0)
  }

  /** No segmented write goes over other cached bytes: the condition of `HostMemory.HostAgreementIff`. */
  ghost predicate AllHarmless(states: seq<Host>, ops: seq<HostOp>)
    requires |states| == |ops| + 1
  {
    forall k :: 0 <= k < |ops| ==> Harmless(states[k], ops[k])
  }

  lemma StepAnswer(h: Host, op: HostOp, slot: Slot)
    requires Sound(h)
    ensures Answer(Apply(h, op).wrapped, slot) ==
      if Writes(op, slot).Some? then Writes(op, slot)
      else if op == DeleteOp(slot.0) then None
      else Answer(h.wrapped, slot)
  {
    StepSound(h, op);
  }

  lemma {:induction false} AnswerKept(states: seq<Host>, ops: seq<HostOp>, slot: Slot, i: nat, k: nat)
    requires IsHostRun(states, ops) && i <= k <= |ops| && LeftAlone(ops, slot, i, k)
    ensures Answer(states[k].wrapped, slot) == Answer(states[i].wrapped, slot)
    decreases k
  {
    if i < k {
      AnswerKept(states, ops, slot, i, k - 1);
      RunSound(states, ops, k - 1);
      StepAnswer(states[k - 1], ops[k - 1], slot);
    }
  }

  lemma ReadAnswers(states: seq<Host>, ops: seq<HostOp>, slot: Slot, k: nat)
    requires IsHostRun(states, ops) && k <= |ops| && AllHarmless(states, ops)
    ensures Get(states[k], slot).1 == Answer(states[k].wrapped, slot)
    ensures forall keys, i: nat :: i < |keys| && keys[i] == slot.0 ==>
      Answers(states[k], keys, slot.1)[i] == Answer(states[k].wrapped, slot)
  {
    AgreesAlong(states, ops, k);
    RunSound(states, ops, k);
    GetSound(states[k], slot);
    forall keys, i: nat | i < |keys| && keys[i] == slot.0
      ensures Answers(states[k], keys, slot.1)[i] == Answer(states[k].wrapped, slot)
    {
      AnswersAt(states[k], keys, slot.1, i);
    }
  }

  /**
   * Over every history without harmful segmented writes: what a put, a tensor put or a segmented
   * write stored is what a single or a parallel read returns, until the slot is written or its key
   * deleted again.
   */
  lemma WrittenUntilChanged(states: seq<Host>, ops: seq<HostOp>, slot: Slot, i: nat, k: nat, keys: seq<string>, n: nat)
    requires IsHostRun(states, ops) && AllHarmless(states, ops) && i < k <= |ops| && LeftAlone(ops, slot, i + 1, k)
    requires Writes(ops[i], slot).Some? && n < |keys| && keys[n] == slot.0
    ensures Get(states[k], slot).1 == Writes(ops[i], slot)
    ensures Answers(states[k], keys, slot.1)[n] == Writes(ops[i], slot)
  {
    RunSound(states, ops, i);
    StepAnswer(states[i], ops[i], slot);
    AnswerKept(states, ops, slot, i + 1, k);
    ReadAnswers(states, ops, slot, k);
  }

  /** After a delete every layer of the key reads as missing, until it is written again. */
  lemma DeletedUntilWritten(states: seq<Host>, ops: seq<HostOp>, slot: Slot, i: nat, k: nat, keys: seq<string>, n: nat)
    requires IsHostRun(states, ops) && AllHarmless(states, ops) && i < k <= |ops| && LeftAlone(ops, slot, i + 1, k)
    requires ops[i] == DeleteOp(slot.0) && n < |keys| && keys[n] == slot.0
    ensures Get(states[k], slot).1 == None && Answers(states[k], keys, slot.1)[n] == None
  {
    RunSound(states, ops, i);
    StepAnswer(states[i], ops[i], slot);
    AnswerKept(states, ops, slot, i + 1, k);
    ReadAnswers(states, ops, slot, k);
  }

  // ---------------------------------------------------------------------------------------------
  // Recency

  /** Dropping a slot leaves the others in their order. */
  lemma {:induction false} DropKeepsOrder(items: Items, slot: Slot) returns (i: nat)
    requires UniqueSlots(items) && FindItem(items, slot).Some?
    ensures i < |items| && items[i] == FindItem(items, slot).value && Drop(items, slot) == items[..i] + items[i + 1..]
  {
    var front := Front(items);
    if Last(items).slot == slot {
      i := |items| - 1;
      DropAbsent(front, slot);
      assert items[..i] + items[i + 1..] == front;
    } else {
      i := DropKeepsOrder(front, slot);
      assert items[..i] + items[i + 1..] == (front[..i] + front[i + 1..]) + [Last(items)];
    }
  }

  /** A hit becomes the most recent value; the others keep their order. */
  lemma HitBecomesRecent(h: Host, slot: Slot) returns (i: nat)
    requires Sound(h) && FindItem(h.cache, slot).Some?
    ensures i < |h.cache| && h.cache[i].slot == slot
    ensures Get(h, slot).0 == h.(cache := h.cache[..i] + h.cache[i + 1..] + [h.cache[i]])
  {
    i := DropKeepsOrder(h.cache, slot);
  }

  /** The first `a` values and the first `b` tensors are gone, and nothing else has changed. */
  ghost predicate Shed(h: Host, a: nat, b: nat, h': Host) {
    && a <= |h.cache| && b <= |h.tensors|
    && h' == h.(cache := h.cache[a..], tensors := h.tensors[b..],
                used := h.used - Held(h.cache[..a]) - Held(h.tensors[..b]))
  }

  /**
   * Eviction takes the oldest values first, tensors only once no value is left, and no more than it
   * must: it stops as soon as the counter is within capacity, or when nothing is left.
   */
  lemma {:induction false} EvictsOldestFirst(h: Host) returns (a: nat, b: nat)
    ensures Shed(h, a, b, Evict(h))
    ensures b > 0 ==> a == |h.cache|
    ensures Evict(h).used <= h.capacity || (a == |h.cache| && b == |h.tensors|)
    ensures a > 0 && b == 0 ==> Evict(h).used + h.cache[a - 1].size > h.capacity
    ensures b > 0 ==> Evict(h).used + h.tensors[b - 1].size > h.capacity
    decreases |h.cache| + |h.tensors|
  {
    a, b := 0, 0;
    if h.used > h.capacity && h.cache != [] {
      var rest := PopValue(h);
      a, b := EvictsOldestFirst(rest);
      ShedOneValue(h, a, b, Evict(h));
      a := a + 1;
    } else if h.used > h.capacity && h.tensors != [] {
      a, b := EvictsOldestFirst(PopTensor(h));
      ShedOneTensor(h, b, Evict(h));
      b := b + 1;
    }
  }

  lemma ShedOneValue(h: Host, a: nat, b: nat, h': Host)
    requires h.cache != [] && Shed(PopValue(h), a, b, h')
    ensures Shed(h, a + 1, b, h')
  {
    assert h.cache[..a + 1] == [h.cache[0]] + h.cache[1..][..a];
    HeldCons(h.cache[..a + 1]);
    assert h.cache[..a + 1][1..] == h.cache[1..][..a] && h.cache[1..][a..] == h.cache[a + 1..];
  }

  lemma ShedOneTensor(h: Host, b: nat, h': Host)
    requires h.tensors != [] && Shed(PopTensor(h), 0, b, h')
    ensures Shed(h, 0, b + 1, h')
  {
    assert h.tensors[..b + 1] == [h.tensors[0]] + h.tensors[1..][..b];
    HeldCons(h.tensors[..b + 1]);
    assert h.tensors[..b + 1][1..] == h.tensors[1..][..b] && h.tensors[1..][b..] == h.tensors[b + 1..];
  }

  /** What a put or a read that missed brings in is the most recent value, if any value is left at all. */
  lemma NewIsRecent(h: Host, slot: Slot, data: Bytes)
    ensures Put(h, slot, data).cache == [] || Last(Put(h, slot, data).cache) == Item(slot, data, |data|)
    ensures slot in h.wrapped && FindItem(h.cache, slot).None? ==>
      var h' := Get(h, slot).0; h'.cache == [] || Last(h'.cache) == Item(slot, h.wrapped[slot], |h.wrapped[slot]|)
    ensures h.used - SizeOf(h.cache, slot) + |data| <= h.capacity ==> Put(h, slot, data).cache != []
    ensures slot in h.wrapped && FindItem(h.cache, slot).None? && h.used + |h.wrapped[slot]| <= h.capacity ==>
      Get(h, slot).0.cache != []
  {
    var a, b := EvictsOldestFirst(Store(h, slot, data));
    a, b := EvictsOldestFirst(Fill(h, slot));
  }
}
