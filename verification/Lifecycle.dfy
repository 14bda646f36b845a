/**
 * Objects from end to end: what a read that finishes returns, that an undisturbed read does finish,
 * that what was put is what is read, what a delete or an expiry does, and that a retired version can
 * be reclaimed to the last file.
 */
module Lifecycle {
  import opened Types
  import opened Metadata
  import opened Protocol
  import opened Durability
  import opened WholePuts
  import opened Grace
  import opened ReadFaults

  /** Reader `r` reads metadata at step `i`. */
  predicate Reads(steps: seq<Step>, i: nat, r: nat)
    requires i < |steps|
  {
    steps[i].ByReader? && steps[i].r == r && steps[i].read.ReadMeta?
  }

  /** The version reader `r` finds current when it reads the metadata at step `i`. */
  function FoundAt(states: seq<State>, steps: seq<Step>, i: nat): Vid
    requires i < |steps| < |states| && steps[i].ByReader? && steps[i].read.ReadMeta?
    requires steps[i].read.key in states[i].store.blocks
  {
    Vid(steps[i].read.key, states[i].store.blocks[steps[i].read.key].generation)
  }

  /** Reader `r` reads metadata at step `i` and finishes at step `k`. */
  predicate ReadsFromTo(states: seq<State>, steps: seq<Step>, i: int, k: int, r: nat) {
    && 0 <= i < k < |steps| < |states|
    && steps[i].ByReader? && steps[i].r == r && steps[i].read.ReadMeta? && steps[i].read.key in states[i].store.blocks
    && steps[k] == ByReader(r, FinishRead)
  }

  /** The step that begins a read fixes the version it is about. */
  lemma BeginStep(s: State, r: nat, key: Key)
    requires Safe(s) && ReaderEnabled(s, r, ReadMeta(key))
    ensures var t := DoRead(s, r, ReadMeta(key));
      && r in t.readers && t.readers[r] == Reader(key, s.store.blocks[key], Reading(map[]))
      && Known(s.versions, key, s.store.blocks[key])
  {
    assert Known(s.versions, key, s.store.blocks[key]);
  }

  /** A read that has every file of its version finishes with them, in order. */
  lemma FinishStep(s: State, r: nat)
    requires Safe(s) && ReaderEnabled(s, r, FinishRead)
    ensures var t, v := DoRead(s, r, FinishRead), VidOfReader(s.readers[r]);
      && v in s.versions && r in t.readers && t.readers[r].phase == Done(Some(Flatten(s.versions[v].files)))
  {
    var reader := s.readers[r];
    var files := s.versions[VidOfReader(reader)].files;
    assert ReaderOk(s.versions, reader) && VersionOk(VidOfReader(reader), s.versions[VidOfReader(reader)]);
    assert seq(|reader.meta.paths|, i requires 0 <= i < |reader.meta.paths| => reader.phase.got[i]) == files;
  }

  /**
   * In every interleaving, a read that finishes returns exactly the bytes put under the generation
   * that was current when it read the metadata.
   */
  lemma FinishedReadReturns(grace: nat, states: seq<State>, steps: seq<Step>, i: nat, k: nat, r: nat)
    requires IsRun(grace, states, steps) && ReadsFromTo(states, steps, i, k, r)
    ensures var v := FoundAt(states, steps, i);
      && v in states[i].versions && r in states[k + 1].readers
      && states[k + 1].readers[r].phase == Done(Some(Flatten(states[i].versions[v].files)))
  {
    var v := FoundAt(states, steps, i);
    RunSafe(grace, states, steps, i);
    BeginStep(states[i], r, v.key);
    ReaderStays(grace, states, steps, i + 1, k, r);
    RunSafe(grace, states, steps, k);
    FinishStep(states[k], r);
    VersionFixed(grace, states, steps, i, k, v);
  }

  // ---------------------------------------------------------------------------------------------
  // An undisturbed read finishes

  /** Between steps `i` and `k` reader `r` reads file `j`. */
  ghost predicate HasRead(steps: seq<Step>, i: int, k: int, r: nat, j: nat) {
    exists m :: 0 <= i < m < k <= |steps| && steps[m] == ByReader(r, ReadFile(j))
  }

  /** Reader `r` has read the metadata of `v` at step `i` and is still reading; what it read since is there. */
  ghost predicate ReadingSince(states: seq<State>, steps: seq<Step>, i: nat, n: nat, r: nat)
    requires i < n < |states| && |states| == |steps| + 1 && steps[i].ByReader? && steps[i].read.ReadMeta?
    requires steps[i].read.key in states[i].store.blocks
  {
    && r in states[n].readers && states[n].readers[r].phase.Reading?
    && states[n].readers[r].key == steps[i].read.key
    && states[n].readers[r].meta == states[i].store.blocks[steps[i].read.key]
    && forall j :: HasRead(steps, i, n, r, j) ==> j in states[n].readers[r].phase.got
  }

  /** Between `i` and `k` the reader only reads files, of a version that is current or within grace. */
  ghost predicate Undisturbed(grace: nat, states: seq<State>, steps: seq<Step>, i: nat, k: nat, r: nat, v: Vid)
    requires |states| == |steps| + 1 && i < k < |states|
  {
    forall n :: i < n < k && steps[n].ByReader? && steps[n].r == r ==>
      && steps[n].read.ReadFile? && v !in states[n].hist.disowned
      && Sheltered(grace, states[n].clock, states[n].store.blocks, states[n].hist.askedAt, v)
  }

  lemma ReadFileStep(s: State, r: nat, j: nat)
    requires ReaderEnabled(s, r, ReadFile(j)) && s.readers[r].meta.paths[j] in s.files
    ensures var t := DoRead(s, r, ReadFile(j));
      && r in t.readers && t.readers[r].key == s.readers[r].key && t.readers[r].meta == s.readers[r].meta
      && t.readers[r].phase.Reading? && t.readers[r].phase.got.Keys == s.readers[r].phase.got.Keys + {j}
  {
  }

  lemma SameReader(s: State, step: Step, r: nat)
    requires Enabled(s, step) && r in s.readers && !(step.ByReader? && step.r == r)
    ensures r in Do(s, step).readers && Do(s, step).readers[r] == s.readers[r]
  {
    if step.ByReader? {
      ReadOnlyOwn(s, step.r, step.read);
    } else {
      OthersKeepFaults(s, step);
    }
  }

  /** Every file of a sheltered version that nobody disowned is there. */
  lemma ShelteredIsThere(s: State, r: nat, j: nat)
    requires Strong(s) && r in s.readers && j < |s.readers[r].meta.paths|
    requires VidOfReader(s.readers[r]) !in s.hist.disowned
    requires Sheltered(s.grace, s.clock, s.store.blocks, s.hist.askedAt, VidOfReader(s.readers[r]))
    ensures s.readers[r].meta.paths[j] in s.files
  {
    assert ReaderOk(s.versions, s.readers[r]) && VidOfReader(s.readers[r]) in s.hist.committed;
    assert Present(s.versions, s.files, VidOfReader(s.readers[r]));
  }

  /** One step of anybody: the read goes on, with one file more if it is the reader's own. */
  lemma ReadGoesOn(s: State, step: Step, r: nat)
    requires Strong(s) && Enabled(s, step) && r in s.readers && s.readers[r].phase.Reading?
    requires step.ByReader? && step.r == r ==>
      && step.read.ReadFile? && VidOfReader(s.readers[r]) !in s.hist.disowned
      && Sheltered(s.grace, s.clock, s.store.blocks, s.hist.askedAt, VidOfReader(s.readers[r]))
    ensures var t := Do(s, step);
      && r in t.readers && t.readers[r].key == s.readers[r].key && t.readers[r].meta == s.readers[r].meta
      && t.readers[r].phase.Reading? && s.readers[r].phase.got.Keys <= t.readers[r].phase.got.Keys
      && (step.ByReader? && step.r == r ==> step.read.i in t.readers[r].phase.got)
  {
    if step.ByReader? && step.r == r {
      ShelteredIsThere(s, r, step.read.i);
      ReadFileStep(s, r, step.read.i);
    } else {
      SameReader(s, step, r);
    }
  }

  lemma ReadingStarts(grace: nat, states: seq<State>, steps: seq<Step>, i: nat, r: nat)
    requires IsRun(grace, states, steps) && i < |steps| && Reads(steps, i, r)
    ensures ReadingSince(states, steps, i, i + 1, r)
  {
    RunSafe(grace, states, steps, i);
    BeginStep(states[i], r, steps[i].read.key);
  }

  /** The read at state `p` is the read at state `n` with what step `n` read. */
  ghost predicate Continued(s: State, t: State, step: Step, r: nat) {
    && r in s.readers && s.readers[r].phase.Reading? && r in t.readers && t.readers[r].phase.Reading?
    && t.readers[r].key == s.readers[r].key && t.readers[r].meta == s.readers[r].meta
    && s.readers[r].phase.got.Keys <= t.readers[r].phase.got.Keys
    && (step.ByReader? && step.r == r && step.read.ReadFile? ==> step.read.i in t.readers[r].phase.got)
  }

  lemma ReadContinues(grace: nat, states: seq<State>, steps: seq<Step>, i: nat, n: nat, r: nat)
    requires IsRun(grace, states, steps) && AtMostOnce(states, steps) && i < n < |steps| && Reads(steps, i, r)
    requires Undisturbed(grace, states, steps, i, n + 1, r, FoundAt(states, steps, i))
    requires ReadingSince(states, steps, i, n, r)
    ensures Continued(states[n], states[n + 1], steps[n], r)
  {
    RunStrong(grace, states, steps, n);
    RunGrace(grace, states, steps, n);
    ReadGoesOn(states[n], steps[n], r);
  }

  lemma ReadingNext(states: seq<State>, steps: seq<Step>, i: nat, n: nat, p: nat, r: nat)
    requires |states| == |steps| + 1 && i < n < p < |states| && p == n + 1 && Reads(steps, i, r)
    requires steps[i].read.key in states[i].store.blocks
    requires ReadingSince(states, steps, i, n, r) && Continued(states[n], states[p], steps[n], r)
    ensures ReadingSince(states, steps, i, p, r)
  {
    forall j | HasRead(steps, i, p, r, j)
      ensures j in states[p].readers[r].phase.got
    {
      assert HasRead(steps, i, n, r, j) || steps[n] == ByReader(r, ReadFile(j));
    }
  }

  lemma RunReadingNext(grace: nat, states: seq<State>, steps: seq<Step>, i: nat, n: nat, r: nat)
    requires IsRun(grace, states, steps) && AtMostOnce(states, steps) && i < n < |steps| && Reads(steps, i, r)
    requires Undisturbed(grace, states, steps, i, n + 1, r, FoundAt(states, steps, i))
    requires ReadingSince(states, steps, i, n, r)
    ensures ReadingSince(states, steps, i, n + 1, r)
  {
    ReadContinues(grace, states, steps, i, n, r);
    ReadingNext(states, steps, i, n, n + 1, r);
  }

  lemma {:induction false} StillReading(grace: nat, states: seq<State>, steps: seq<Step>, i: nat, k: nat, r: nat)
    requires IsRun(grace, states, steps) && AtMostOnce(states, steps) && i < k < |states| && Reads(steps, i, r)
    requires Undisturbed(grace, states, steps, i, k, r, FoundAt(states, steps, i))
    ensures ReadingSince(states, steps, i, k, r)
    decreases k - i
  {
    if k == i + 1 {
      ReadingStarts(grace, states, steps, i, r);
    } else {
      StillReading(grace, states, steps, i, k - 1, r);
      RunReadingNext(grace, states, steps, i, k - 1, r);
    }
  }

  /** The reader reads every file of the version it found, between `i` and `k`. */
  ghost predicate ReadsEveryFile(states: seq<State>, steps: seq<Step>, i: nat, k: nat, r: nat)
    requires |states| == |steps| + 1 && i < k < |states| && Reads(steps, i, r)
    requires steps[i].read.key in states[i].store.blocks
  {
    forall j :: 0 <= j < |states[i].store.blocks[steps[i].read.key].paths| ==> HasRead(steps, i, k, r, j)
  }

  /**
   * A reader that has read every file of the version it found, the version being current or within
   * its grace period at each of these reads, nobody having disowned it, and no fault met: it can
   * finish, with the bytes the key read back when it began.
   */
  lemma UndisturbedReadSucceeds(grace: nat, states: seq<State>, steps: seq<Step>, i: nat, k: nat, r: nat)
    requires IsRun(grace, states, steps) && AtMostOnce(states, steps) && i < k < |states| && Reads(steps, i, r)
    requires Undisturbed(grace, states, steps, i, k, r, FoundAt(states, steps, i))
    requires FoundAt(states, steps, i) !in states[i].hist.disowned && ReadsEveryFile(states, steps, i, k, r)
    ensures Enabled(states[k], ByReader(r, FinishRead))
    ensures var t := Do(states[k], ByReader(r, FinishRead));
      && r in t.readers && ReadBack(states[i], steps[i].read.key).Some?
      && t.readers[r].phase == Done(ReadBack(states[i], steps[i].read.key))
  {
    StillReading(grace, states, steps, i, k, r);
    RunStrong(grace, states, steps, i);
    RunStrong(grace, states, steps, k);
    BeginStep(states[i], r, steps[i].read.key);
    VersionFixed(grace, states, steps, i, k, FoundAt(states, steps, i));
    ReadCompletes(states, steps, i, k, r);
  }

  lemma ReadCompletes(states: seq<State>, steps: seq<Step>, i: nat, k: nat, r: nat)
    requires |states| == |steps| + 1 && i < k < |states| && Reads(steps, i, r)
    requires Strong(states[i]) && Strong(states[k]) && steps[i].read.key in states[i].store.blocks
    requires ReadingSince(states, steps, i, k, r) && ReadsEveryFile(states, steps, i, k, r)
    requires var v := FoundAt(states, steps, i);
      && v !in states[i].hist.disowned && v in states[i].versions && v in states[k].versions
      && states[k].versions[v] == states[i].versions[v]
    ensures ReaderEnabled(states[k], r, FinishRead)
    ensures var t := DoRead(states[k], r, FinishRead);
      && r in t.readers && ReadBack(states[i], steps[i].read.key).Some?
      && t.readers[r].phase == Done(ReadBack(states[i], steps[i].read.key))
  {
    var meta := states[i].store.blocks[steps[i].read.key];
    AllGot(states[k], r, meta);
    FinishStep(states[k], r);
    CurrentReadsBack(states[i], steps[i].read.key);
  }

  lemma AllGot(s: State, r: nat, meta: BlockMeta)
    requires Safe(s) && r in s.readers && s.readers[r].phase.Reading? && s.readers[r].meta == meta
    requires forall j: nat :: j < |meta.paths| ==> j in s.readers[r].phase.got
    ensures ReaderEnabled(s, r, FinishRead)
  {
    assert ReaderOk(s.versions, s.readers[r]);
    assert VersionOk(VidOfReader(s.readers[r]), s.versions[VidOfReader(s.readers[r])]);
    assert s.readers[r].phase.got.Keys == Indices(meta);
  }

  // ---------------------------------------------------------------------------------------------
  // What was put is what is read

  /** Every finished read of a version returns what its put was given, however the run interleaved. */
  lemma ReadsWhatWasPut(grace: nat, states: seq<State>, steps: seq<Step>, a: nat, i: nat, k: nat, w: nat, r: nat)
    requires IsRun(grace, states, steps) && a < i && ReadsFromTo(states, steps, i, k, r)
    requires Starts(steps, a, w) && FoundAt(states, steps, i) == Started(states, steps, a, w)
    ensures r in states[k + 1].readers
    ensures states[k + 1].readers[r].phase == Done(Some(Flatten(steps[a].write.contents)))
  {
    FinishedReadReturns(grace, states, steps, i, k, r);
    StartRegisters(states[a], w, steps[a].write);
    VersionFixed(grace, states, steps, a + 1, i, Started(states, steps, a, w));
  }

  lemma StartRegisters(s: State, w: nat, put: WriterAction)
    requires put.StartPut? && WriterEnabled(s, w, put)
    ensures var t, v := DoWrite(s, w, put), Vid(put.key, CurrentGeneration(s.store, put.key) + 1);
      v in t.versions && t.versions[v].files == put.contents
  {
  }

  /** A run in progress: reader `r` has read the first `n` files of what the key resolved to in `s`. */
  ghost predicate HasFirst(s: State, t: State, key: Key, r: nat, n: nat) {
    && t.store == s.store && t.files == s.files && t.versions == s.versions && t.writers == s.writers
    && key in s.store.blocks && r in t.readers && t.readers[r].key == key && t.readers[r].meta == s.store.blocks[key]
    && t.readers[r].phase.Reading? && t.readers[r].phase.got.Keys == UpTo(n)
  }

  lemma FirstRead(s: State, key: Key, r: nat)
    requires ReaderEnabled(s, r, ReadMeta(key))
    ensures HasFirst(s, DoRead(s, r, ReadMeta(key)), key, r, 0)
  {
  }

  lemma NextRead(s: State, t: State, key: Key, r: nat, n: nat)
    requires HasFirst(s, t, key, r, n) && n < |s.store.blocks[key].paths| && s.store.blocks[key].paths[n] in s.files
    ensures ReaderEnabled(t, r, ReadFile(n)) && HasFirst(s, DoRead(t, r, ReadFile(n)), key, r, n + 1)
  {
    ReadFileStep(t, r, n);
  }

  /** A reader that has all files finishes with what the key reads back. */
  lemma LastRead(s: State, t: State, key: Key, r: nat)
    requires Strong(s) && Safe(t) && key in s.store.blocks && HasFirst(s, t, key, r, |s.store.blocks[key].paths|)
    requires Vid(key, s.store.blocks[key].generation) !in s.hist.disowned
    ensures ReaderEnabled(t, r, FinishRead)
    ensures var u := DoRead(t, r, FinishRead);
      && u.store == s.store && u.writers == s.writers && r in u.readers && ReadBack(s, key).Some?
      && u.readers[r].phase == Done(ReadBack(s, key))
  {
    FinishStep(t, r);
    CurrentReadsBack(s, key);
  }

  /**
   * Whenever a version nobody disowned is current, a new reader can read it: some continuation ends
   * with that reader holding exactly what the key reads back, and nothing else changed.
   */
  lemma CurrentCanBeRead(grace: nat, states: seq<State>, steps: seq<Step>, key: Key)
    returns (longer: seq<State>, more: seq<Step>, r: nat)
    requires IsRun(grace, states, steps) && AtMostOnce(states, steps) && key in states[|steps|].store.blocks
    requires Vid(key, states[|steps|].store.blocks[key].generation) !in states[|steps|].hist.disowned
    ensures Continues(grace, states, steps, longer, more) && AtMostOnce(longer, more)
    ensures var s, t := states[|steps|], longer[|more|];
      && t.store == s.store && t.writers == s.writers && r in t.readers && ReadBack(s, key).Some?
      && t.readers[r].phase == Done(ReadBack(s, key))
  {
    var s := states[|steps|];
    var paths := s.store.blocks[key].paths;
    RunStrong(grace, states, steps, |steps|);
    assert Present(s.versions, s.files, Vid(key, s.store.blocks[key].generation));
    assert Known(s.versions, key, s.store.blocks[key]);
    r := Unused(s.readers.Keys);
    FirstRead(s, key, r);
    longer := Extend(grace, states, steps, ByReader(r, ReadMeta(key)));
    more := steps + [ByReader(r, ReadMeta(key))];
    for n := 0 to |paths|
      invariant Continues(grace, states, steps, longer, more) && AtMostOnce(longer, more)
      invariant HasFirst(s, longer[|more|], key, r, n)
    {
      assert paths[n] in paths;
      NextRead(s, longer[|more|], key, r, n);
      longer, more := Continue(grace, states, steps, longer, more, ByReader(r, ReadFile(n)));
    }
    RunSafe(grace, longer, more, |more|);
    LastRead(s, longer[|more|], key, r);
    longer, more := Continue(grace, states, steps, longer, more, ByReader(r, FinishRead));
  }

  /** One more step of a continuation. */
  lemma Continue(grace: nat, states: seq<State>, steps: seq<Step>, longer: seq<State>, more: seq<Step>, step: Step)
    returns (longer': seq<State>, more': seq<Step>)
    requires Continues(grace, states, steps, longer, more) && AtMostOnce(longer, more)
    requires Enabled(longer[|more|], step) && !Reapplies(longer[|more|], step)
    ensures Continues(grace, states, steps, longer', more') && AtMostOnce(longer', more')
    ensures longer' == longer + [Do(longer[|more|], step)] && more' == more + [step]
  {
    longer' := Extend(grace, longer, more, step);
    more' := more + [step];
  }

  /** The put of writer `w` has written its first `n` files. */
  ghost predicate HasWritten(s: State, t: State, w: nat, put: WriterAction, n: nat)
    requires put.StartPut?
  {
    && w in t.writers && t.writers[w].key == put.key && t.writers[w].version.files == put.contents
    && t.writers[w].version.meta.generation == CurrentGeneration(s.store, put.key) + 1
    && |t.writers[w].version.meta.paths| == |put.contents| && t.writers[w].ifAbsent == put.ifAbsent
    && t.writers[w].phase == Writing(UpTo(n))
    && t.store.blocks == s.store.blocks && t.store.tasks == s.store.tasks && t.clock == s.clock
  }

  lemma FirstWrite(s: State, w: nat, put: WriterAction)
    requires put.StartPut? && WriterEnabled(s, w, put)
    ensures HasWritten(s, DoWrite(s, w, put), w, put, 0)
  {
  }

  lemma NextWrite(s: State, t: State, w: nat, put: WriterAction, n: nat)
    requires put.StartPut? && HasWritten(s, t, w, put, n) && n < |put.contents|
    ensures WriterEnabled(t, w, WriteFile(n)) && HasWritten(s, DoWrite(t, w, WriteFile(n)), w, put, n + 1)
  {
    assert UpTo(n + 1) == UpTo(n) + {n};
  }

  /** With all files written, an answered publish acknowledges the put and makes its version current. */
  lemma LastWrite(s: State, t: State, w: nat, put: WriterAction)
    requires put.StartPut? && HasWritten(s, t, w, put, |put.contents|)
    requires put.ifAbsent ==> put.key !in s.store.blocks
    ensures WriterEnabled(t, w, Publish(t.clock, Answered))
    ensures var u := DoWrite(t, w, Publish(t.clock, Answered));
      && Acknowledged(u, w) && u.writers[w].key == put.key && u.writers[w].version.files == put.contents
      && Live(u.store.blocks, VidOfWriter(u.writers[w]))
      && VidOfWriter(u.writers[w]) == Vid(put.key, CurrentGeneration(s.store, put.key) + 1)
  {
    assert Applies(t, t.writers[w]);
    EffectiveStep(t, w, Publish(t.clock, Answered));
  }

  /** From every moment of every run, a put can go through, unless it is if-absent and the key is taken. */
  lemma PutCanSucceed(grace: nat, states: seq<State>, steps: seq<Step>, put: WriterAction)
    returns (longer: seq<State>, more: seq<Step>, w: nat)
    requires IsRun(grace, states, steps) && AtMostOnce(states, steps)
    requires put.StartPut? && (!put.striped ==> |put.contents| == 1)
    requires put.ifAbsent ==> put.key !in states[|steps|].store.blocks
    ensures Continues(grace, states, steps, longer, more) && AtMostOnce(longer, more)
    ensures var t := longer[|more|];
      && Acknowledged(t, w) && t.writers[w].key == put.key && t.writers[w].version.files == put.contents
      && Live(t.store.blocks, VidOfWriter(t.writers[w]))
  {
    var s := states[|steps|];
    w := Unused(s.writers.Keys);
    FirstWrite(s, w, put);
    longer := Extend(grace, states, steps, ByWriter(w, put));
    more := steps + [ByWriter(w, put)];
    for n := 0 to |put.contents|
      invariant Continues(grace, states, steps, longer, more) && AtMostOnce(longer, more)
      invariant HasWritten(s, longer[|more|], w, put, n)
    {
      NextWrite(s, longer[|more|], w, put, n);
      longer, more := Continue(grace, states, steps, longer, more, ByWriter(w, WriteFile(n)));
    }
    LastWrite(s, longer[|more|], w, put);
    longer, more := Continue(grace, states, steps, longer, more, ByWriter(w, Publish(longer[|more|].clock, Answered)));
  }

  /** And then a read returns exactly what was put. */
  lemma PutThenRead(grace: nat, states: seq<State>, steps: seq<Step>, put: WriterAction)
    returns (longer: seq<State>, more: seq<Step>, r: nat)
    requires IsRun(grace, states, steps) && AtMostOnce(states, steps)
    requires put.StartPut? && (!put.striped ==> |put.contents| == 1)
    requires put.ifAbsent ==> put.key !in states[|steps|].store.blocks
    ensures Continues(grace, states, steps, longer, more) && AtMostOnce(longer, more)
    ensures r in longer[|more|].readers && longer[|more|].readers[r].phase == Done(Some(Flatten(put.contents)))
  {
    var w;
    longer, more, w := PutCanSucceed(grace, states, steps, put);
    var t := longer[|more|];
    RunStrong(grace, longer, more, |more|);
    assert WriterHolds(t.files, t.writers[w], t.hist) && WriterOk(t.versions, t.files, t.writers[w]);
    CurrentReadsBack(t, put.key);
    var longest, most, reader := CurrentCanBeRead(grace, longer, more, put.key);
    assert longest[..|states|] == longest[..|longer|][..|states|] && most[..|steps|] == most[..|more|][..|steps|];
    longer, more, r := longest, most, reader;
  }

  // ---------------------------------------------------------------------------------------------
  // Publishing

  /** Every current version still is, and nothing has been queued. */
  ghost predicate NothingDisplaced(a: Store, b: Store) {
    && b.tasks == a.tasks && a.blocks.Keys <= b.blocks.Keys
    && forall key <- a.blocks :: b.blocks[key] == a.blocks[key]
  }

  lemma IfAbsentApply(s: State, writer: Writer, askedAt: int)
    requires writer.ifAbsent && Applies(s, writer)
    ensures NothingDisplaced(s.store, Apply(s, writer, askedAt).store)
  {
  }

  lemma IfAbsentPublish(s: State, w: nat, askedAt: int, outcome: Outcome)
    requires w in s.writers && s.writers[w].ifAbsent
    ensures NothingDisplaced(s.store, DoPublish(s, w, askedAt, outcome).store)
  {
    var writer, t := s.writers[w], DoPublish(s, w, askedAt, outcome);
    assert t.store == s.store || (Applies(s, writer) && t.store == Apply(s, writer, askedAt).store);
    if Applies(s, writer) {
      IfAbsentApply(s, writer, askedAt);
    }
  }

  lemma IfAbsentRetry(s: State, w: nat, outcome: Outcome)
    requires w in s.writers && s.writers[w].ifAbsent && s.writers[w].phase.Retrying?
    ensures NothingDisplaced(s.store, DoRetry(s, w, outcome).store)
  {
    var writer, t, askedAt := s.writers[w], DoRetry(s, w, outcome), s.writers[w].phase.askedAt;
    assert t.store == s.store || (Applies(s, writer) && t.store == Apply(s, writer, askedAt).store);
    if Applies(s, writer) {
      IfAbsentApply(s, writer, askedAt);
    }
  }

  /** Whatever a put-if-absent does, no key loses or changes its current version by it, and nothing is queued. */
  lemma PutIfAbsentNeverDisplaces(s: State, w: nat, write: WriterAction)
    requires w in s.writers && s.writers[w].ifAbsent && Enabled(s, ByWriter(w, write))
    ensures NothingDisplaced(s.store, Do(s, ByWriter(w, write)).store)
  {
    if write.Publish? {
      IfAbsentPublish(s, w, write.askedAt, write.outcome);
    } else if write.Retry? {
      IfAbsentRetry(s, w, write.outcome);
    }
  }

  /** The writer's version is current, and the one it displaced is queued for a grace period after the asking. */
  ghost predicate TookOver(s: State, writer: Writer, askedAt: int, t: State) {
    && t.store.blocks == s.store.blocks[writer.key := writer.version.meta]
    && t.store.tasks ==
       if writer.key !in s.store.blocks then s.store.tasks
       else
         var previous := s.store.blocks[writer.key];
         s.store.tasks[TaskIdOf(writer.key, previous) := TaskOf(writer.key, previous, askedAt + s.grace)]
  }

  lemma ApplyTakesOver(s: State, writer: Writer, askedAt: int)
    requires !writer.ifAbsent
    ensures TookOver(s, writer, askedAt, Apply(s, writer, askedAt))
  {
  }

  /** An overwriting put takes over the key as soon as its publish command is run, at the first or the second try. */
  lemma PublishTakesEffect(s: State, w: nat, write: WriterAction)
    requires w in s.writers && !s.writers[w].ifAbsent && Enabled(s, ByWriter(w, write))
    requires (write.Publish? || write.Retry?) && !write.outcome.NotApplied?
    ensures var askedAt := if write.Publish? then write.askedAt else s.writers[w].phase.askedAt;
      var t := Do(s, ByWriter(w, write));
      && TookOver(s, s.writers[w], askedAt, t)
      && w in t.writers && (t.writers[w].phase.Published? <==> write.outcome.Answered?)
  {
    ApplyTakesOver(s, s.writers[w], if write.Publish? then write.askedAt else s.writers[w].phase.askedAt);
  }

  // ---------------------------------------------------------------------------------------------
  // Delete and expiry

  /** After a delete nobody finds the key, and its version is queued for a grace period after the asking. */
  lemma DeleteTakesEffect(grace: nat, states: seq<State>, steps: seq<Step>, k: nat, key: Key, askedAt: int)
    requires IsRun(grace, states, steps) && AtMostOnce(states, steps) && k < |steps| && steps[k] == Delete(key, askedAt)
    ensures states[k + 1].store.blocks == states[k].store.blocks - {key}
    ensures forall r :: !Enabled(states[k + 1], ByReader(r, ReadMeta(key)))
    ensures key in states[k].store.blocks ==>
      JustRetired(states[k + 1], Vid(key, states[k].store.blocks[key].generation))
  {
    RunStrong(grace, states, steps, k);
    RunQueue(grace, states, steps, k);
    RetireRemoves(states[k], key, askedAt);
    if key in states[k].store.blocks {
      var v := Vid(key, states[k].store.blocks[key].generation);
      LiveIsCurrent(states[k], v);
      RetireLeaves(states[k], v, askedAt);
    }
  }

  lemma RetireRemoves(s: State, key: Key, askedAt: int)
    ensures RetireCurrent(s, key, askedAt).store.blocks == s.store.blocks - {key}
  {
  }

  /** An expiry pass retires the version it looked at if that is still current, and otherwise does nothing. */
  lemma ExpiryTakesEffect(grace: nat, states: seq<State>, steps: seq<Step>, k: nat)
    requires IsRun(grace, states, steps) && AtMostOnce(states, steps) && k < |steps| && steps[k].Expire?
    ensures var key := steps[k].key;
      if key in states[k].store.blocks && SameVersion(states[k].store.blocks[key], steps[k].observed)
      then states[k + 1].store.blocks == states[k].store.blocks - {key}
           && JustRetired(states[k + 1], Vid(key, states[k].store.blocks[key].generation))
      else states[k + 1] == states[k]
  {
    var key, askedAt := steps[k].key, steps[k].askedAt;
    RunStrong(grace, states, steps, k);
    RunQueue(grace, states, steps, k);
    if key in states[k].store.blocks && SameVersion(states[k].store.blocks[key], steps[k].observed) {
      var v := Vid(key, states[k].store.blocks[key].generation);
      RetireRemoves(states[k], key, askedAt);
      LiveIsCurrent(states[k], v);
      RetireLeaves(states[k], v, askedAt);
    }
  }

  // ---------------------------------------------------------------------------------------------
  // Reclaim

  /** Collector `g` works on the task of `v`, and nothing else has moved since `s`. */
  ghost predicate WorksOn(s: State, t: State, g: nat, v: Vid) {
    && t.versions == s.versions && t.store.blocks == s.store.blocks && t.clock == s.clock
    && v in s.versions && g in t.workers && t.workers[g].task.retired == s.versions[v].meta
    && t.workers[g].task.id == TaskIdOf(v.key, s.versions[v].meta) && VidOfTask(t.workers[g].task) == v
  }

  ghost predicate HasClaimed(s: State, t: State, g: nat, v: Vid) {
    WorksOn(s, t, g, v) && t.workers[g].task.key == v.key && t.workers[g].phase == Claimed
  }

  /** It has removed the first `n` files. */
  ghost predicate HasRemoved(s: State, t: State, g: nat, v: Vid, n: nat) {
    && WorksOn(s, t, g, v)
    && t.workers[g].phase == Deleting(UpTo(n))
    && forall i :: 0 <= i < n && i < |s.versions[v].meta.paths| ==> s.versions[v].meta.paths[i] !in t.files
  }

  lemma ClaimStep(s: State, g: nat, v: Vid)
    requires Safe(s) && Reclaimable(s, v) && g !in s.workers
    ensures var id := TaskIdOf(v.key, s.versions[v].meta);
      && WorkerEnabled(s, g, ClaimTask(id, 60))
      && HasClaimed(s, DoWork(s, g, ClaimTask(id, 60)), g, v)
  {
    assert TaskOk(s.versions, s.store.tasks[TaskIdOf(v.key, s.versions[v].meta)]);
  }

  lemma CheckStep(s: State, t: State, g: nat, v: Vid)
    requires HasClaimed(s, t, g, v) && !Live(s.store.blocks, v) && s.versions[v].meta.generation == v.generation
    ensures WorkerEnabled(t, g, CheckCurrent) && HasRemoved(s, DoWork(t, g, CheckCurrent), g, v, 0)
  {
  }

  lemma RemoveStep(s: State, t: State, g: nat, v: Vid, n: nat)
    requires HasRemoved(s, t, g, v, n) && n < |s.versions[v].meta.paths|
    ensures WorkerEnabled(t, g, ReclaimFile(n)) && HasRemoved(s, DoWork(t, g, ReclaimFile(n)), g, v, n + 1)
  {
    assert UpTo(n + 1) == UpTo(n) + {n};
  }

  lemma FinishTaskStep(s: State, t: State, g: nat, v: Vid)
    requires v in s.versions && HasRemoved(s, t, g, v, |s.versions[v].meta.paths|)
    ensures WorkerEnabled(t, g, FinishTask)
    ensures var u := DoWork(t, g, FinishTask);
      && v in u.hist.reclaimed && !Queued(u.versions, u.store.tasks, v) && u.versions == s.versions
      && forall p <- s.versions[v].meta.paths :: p !in u.files
  {
  }

  lemma ClaimAndCheck(grace: nat, states: seq<State>, steps: seq<Step>, v: Vid)
    returns (longer: seq<State>, more: seq<Step>, g: nat)
    requires IsRun(grace, states, steps) && AtMostOnce(states, steps) && Reclaimable(states[|steps|], v)
    ensures Continues(grace, states, steps, longer, more) && AtMostOnce(longer, more)
    ensures HasRemoved(states[|steps|], longer[|more|], g, v, 0)
  {
    var s := states[|steps|];
    var claim := ClaimTask(TaskIdOf(v.key, s.versions[v].meta), 60);
    g := Unused(s.workers.Keys);
    RunSafe(grace, states, steps, |steps|);
    ClaimStep(s, g, v);
    longer := Extend(grace, states, steps, ByWorker(g, claim));
    more := steps + [ByWorker(g, claim)];
    CheckStep(s, longer[|more|], g, v);
    longer, more := Continue(grace, states, steps, longer, more, ByWorker(g, CheckCurrent));
  }

  /** A retired version whose task is due and unleased can be reclaimed now: every file gone, the task done. */
  lemma RetiredCanBeReclaimed(grace: nat, states: seq<State>, steps: seq<Step>, v: Vid)
    returns (longer: seq<State>, more: seq<Step>)
    requires IsRun(grace, states, steps) && AtMostOnce(states, steps) && Reclaimable(states[|steps|], v)
    ensures Continues(grace, states, steps, longer, more) && AtMostOnce(longer, more)
    ensures var s, t := states[|steps|], longer[|more|];
      && v in t.hist.reclaimed && !Queued(t.versions, t.store.tasks, v)
      && forall p <- s.versions[v].meta.paths :: p !in t.files
  {
    var s, g := states[|steps|], 0;
    longer, more, g := ClaimAndCheck(grace, states, steps, v);
    for n := 0 to |s.versions[v].meta.paths|
      invariant Continues(grace, states, steps, longer, more) && AtMostOnce(longer, more)
      invariant HasRemoved(s, longer[|more|], g, v, n)
    {
      RemoveStep(s, longer[|more|], g, v, n);
      longer, more := Continue(grace, states, steps, longer, more, ByWorker(g, ReclaimFile(n)));
    }
    FinishTaskStep(s, longer[|more|], g, v);
    longer, more := Continue(grace, states, steps, longer, more, ByWorker(g, FinishTask));
  }

  /** The retry delay starts at 5 s, doubles with every attempt and stops at 300 s. */
  lemma BackoffDoubles(attempts: nat)
    ensures Backoff(0) == 5 && Backoff(attempts + 1) == Min(2 * Backoff(attempts), 300)
  {
    assert Pow2(6) == 64;
    if attempts < 6 {
      assert Pow2(attempts + 1) == 2 * Pow2(attempts);
    }
  }

  /** A task put back can be claimed again exactly from its next retry time on, with one attempt more. */
  lemma PutBackDelays(s: State, g: nat, now: int)
    requires Safe(s) && g in s.workers
    ensures var task, t := s.workers[g].task, DoWork(s, g, PutBack);
      && task.id in t.store.tasks && t.store.tasks[task.id].attempts == task.attempts + 1
      && t.store.tasks[task.id].retired == task.retired && g !in t.workers
      && (Eligible(t.store, now, task.id) <==> s.workers[g].claimedAt + Backoff(task.attempts + 1) <= now)
  {
  }
}
