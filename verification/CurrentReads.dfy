/**
 * The descriptor-caching client over runs of the write protocol: the history its reads are judged by
 * is the one the protocol produces, with objects moved between devices at will.
 */
module CurrentReads {
  import opened Types
  import opened Striping
  import opened DescriptorClient
  import P = Protocol

  /** Where the object's files are at each instant: a relocation changes both, an overwrite neither. */
  datatype Location = Location(handle: Handle, layout: nat)

  ghost function VersionAt(s: P.State, key: Key, location: Location): (r: Option<Version>)
    requires P.Safe(s)
  {
    if key in s.store.blocks then
      assert P.Known(s.versions, key, s.store.blocks[key]);
      var meta := s.store.blocks[key];
      Some(Version(Descriptor(key, location.handle, meta.generation, meta.etag, location.layout, meta.size),
                   Flatten(s.versions[P.Vid(key, meta.generation)].files)))
    else None
  }

  /** The history of one key along a run of the protocol. */
  ghost predicate IsHistoryOf(history: History, grace: nat, states: seq<P.State>, steps: seq<P.Step>, key: Key,
                              locations: seq<Location>)
    requires P.IsRun(grace, states, steps)
  {
    && |history| == |states| == |locations|
    && forall t :: 0 <= t < |states| ==> P.Safe(states[t]) && history[t] == VersionAt(states[t], key, locations[t])
  }

  /** A generation stands for one version throughout a run, so content identity determines content. */
  lemma ProtocolIdentifies(history: History, grace: nat, states: seq<P.State>, steps: seq<P.Step>, key: Key,
                           locations: seq<Location>)
    requires P.IsRun(grace, states, steps) && IsHistoryOf(history, grace, states, steps, key, locations)
    ensures Identified(history)
  {
    forall s, t | 0 <= s < |history| && 0 <= t < |history| && history[s].Some? && history[t].Some?
      && SameContent(history[s].value.descriptor, history[t].value.descriptor)
      ensures history[s].value.bytes == history[t].value.bytes
    {
      SameGenerationSameBytes(grace, states, steps, key, if s <= t then s else t, if s <= t then t else s);
    }
  }

  lemma SameGenerationSameBytes(grace: nat, states: seq<P.State>, steps: seq<P.Step>, key: Key, s: nat, t: nat)
    requires P.IsRun(grace, states, steps) && s <= t < |states|
    requires key in states[s].store.blocks && key in states[t].store.blocks
    requires states[s].store.blocks[key].generation == states[t].store.blocks[key].generation
    ensures var v := P.Vid(key, states[s].store.blocks[key].generation);
      && v in states[s].versions && v in states[t].versions
      && states[s].versions[v] == states[t].versions[v]
  {
    P.RunSafe(grace, states, steps, s);
    assert P.Known(states[s].versions, key, states[s].store.blocks[key]);
    P.VersionFixed(grace, states, steps, s, t, P.Vid(key, states[s].store.blocks[key].generation));
  }

  /**
   * Over every run of the write protocol, relocations included: with strict validation, bytes the
   * client returns are exactly those put under the generation current when its lookup was served.
   */
  lemma StrictOverProtocol(history: History, grace: nat, states: seq<P.State>, steps: seq<P.Step>, key: Key,
                           locations: seq<Location>, cached: Option<Descriptor>,
                           atLookup: nat, atRead: nat, atReread: nat,
                           lookup: LookupReply, read: ReadReply, reread: ReadReply)
    requires P.IsRun(grace, states, steps) && IsHistoryOf(history, grace, states, steps, key, locations)
    requires LookupAt(history, atLookup, lookup)
    requires cached.Some? ==> ReadAt(history, atRead, cached.value, read)
    requires lookup.Current? ==> ReadAt(history, atReread, lookup.lookup.descriptor, reread)
    ensures var outcome := Decide(cached.Some?, lookup, read, reread, true);
      outcome.Returned? ==>
        && key in states[atLookup].store.blocks
        && var v := P.Vid(key, states[atLookup].store.blocks[key].generation);
           v in states[atLookup].versions && Flatten(outcome.chunks) == Flatten(states[atLookup].versions[v].files)
  {
    ProtocolIdentifies(history, grace, states, steps, key, locations);
    StrictReturnsCurrent(history, cached, atLookup, atRead, atReread, lookup, read, reread);
    if key in states[atLookup].store.blocks {
      assert P.Known(states[atLookup].versions, key, states[atLookup].store.blocks[key]);
    }
  }
}
