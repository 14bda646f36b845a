/**
 * The descriptor-caching client. On a cache hit it looks the object up and, at the same time, reads
 * it by the descriptor it remembers; what it may return is settled by comparing identities.
 */
module DescriptorClient {
  import opened Types
  import opened Striping

  datatype Descriptor = Descriptor(key: Key, handle: Handle, generation: nat, etag: Etag, layout: nat, size: nat)

  predicate SameDescriptor(a: Descriptor, b: Descriptor) {
    && a.handle == b.handle && a.generation == b.generation && a.etag == b.etag
    && a.layout == b.layout && a.size == b.size
  }

  /** Identity up to the physical layout. */
  predicate SameContent(a: Descriptor, b: Descriptor) {
    a.generation == b.generation && a.etag == b.etag && a.size == b.size
  }

  datatype PlacedChunk = PlacedChunk(stripe: nat, endpoint: string)

  datatype Placement = Placement(primary: string, chunks: seq<PlacedChunk>)

  datatype Lookup = Lookup(descriptor: Descriptor, placement: Option<Placement>)

  datatype LookupReply = Current(lookup: Lookup) | Absent | LookupFailed

  /** `Rejected` is a stale descriptor or a missing object; `ReadFailed` any other error. */
  datatype ReadReply =
    | Data(chunks: seq<Bytes>, descriptor: Descriptor, placement: Option<Placement>)
    | NoData
    | Rejected
    | ReadFailed

  datatype Outcome = Returned(chunks: seq<Bytes>) | Nothing | Raised

  // ---------------------------------------------------------------------------------------------
  // What the client returns and remembers

  /** The sequential read after a lookup. */
  function AfterLookup(reread: ReadReply): Outcome {
    match reread
    case Data(chunks, _, _) => Returned(chunks)
    case NoData => Nothing
    case Rejected => Raised
    case ReadFailed => Raised
  }

  /** The speculative read may stand in for one with the looked-up descriptor. */
  predicate Usable(read: ReadReply, lookup: Lookup) {
    && read.Data?
    && (SameDescriptor(read.descriptor, lookup.descriptor) || SameContent(read.descriptor, lookup.descriptor))
  }

  function Decide(hit: bool, lookup: LookupReply, read: ReadReply, reread: ReadReply, strict: bool): Outcome {
    match lookup
    case Absent => Nothing
    case LookupFailed => if !hit || strict then Raised else if read.Data? then Returned(read.chunks) else Nothing
    case Current(l) =>
      if !hit then AfterLookup(reread)
      else if read.ReadFailed? then Raised
      else if Usable(read, l) then Returned(read.chunks)
      else AfterLookup(reread)
  }

  /** The key was cached, and its speculative read brought data of the looked-up content identity. */
  ghost predicate StandsIn(hit: bool, read: ReadReply, l: Lookup) {
    && hit && read.Data? && read.descriptor.generation == l.descriptor.generation
    && read.descriptor.etag == l.descriptor.etag && read.descriptor.size == l.descriptor.size
  }

  /** It comes to a second read, by the looked-up descriptor. */
  ghost predicate ReadsAgain(hit: bool, lookup: LookupReply, read: ReadReply) {
    lookup.Current? && !StandsIn(hit, read, lookup.lookup) && !(hit && read.ReadFailed?)
  }

  /** A failed lookup, on a hit without strict validation, leaves the speculative read to answer. */
  ghost predicate ReadAlone(hit: bool, lookup: LookupReply, strict: bool) {
    lookup.LookupFailed? && hit && !strict
  }

  /** When the call answers with bytes, with which, and when it answers nothing; every other call raises. */
  ghost predicate AnswersAs(hit: bool, lookup: LookupReply, read: ReadReply, reread: ReadReply, strict: bool,
                            outcome: Outcome)
  {
    && (lookup.Current? && StandsIn(hit, read, lookup.lookup) ==> outcome == Returned(read.chunks))
    && (ReadsAgain(hit, lookup, read) && reread.Data? ==> outcome == Returned(reread.chunks))
    && (ReadAlone(hit, lookup, strict) && read.Data? ==> outcome == Returned(read.chunks))
    && (outcome.Returned? <==>
          || (lookup.Current? && StandsIn(hit, read, lookup.lookup))
          || (ReadsAgain(hit, lookup, read) && reread.Data?)
          || (ReadAlone(hit, lookup, strict) && read.Data?))
    && (outcome.Nothing? <==>
          || lookup.Absent?
          || (ReadsAgain(hit, lookup, read) && reread.NoData?)
          || (ReadAlone(hit, lookup, strict) && !read.Data?))
  }

  lemma ClientAnswers(hit: bool, lookup: LookupReply, read: ReadReply, reread: ReadReply, strict: bool)
    ensures AnswersAs(hit, lookup, read, reread, strict, Decide(hit, lookup, read, reread, strict))
  {
    if lookup.Current? && hit && read.Data? {
      assert Usable(read, lookup.lookup) <==> StandsIn(hit, read, lookup.lookup);
    }
  }

  // ---------------------------------------------------------------------------------------------
  // The server over time

  datatype Version = Version(descriptor: Descriptor, bytes: Bytes)

  /** The current version of the object at each instant. */
  type History = seq<Option<Version>>

  /** Content identity determines content: overwrites change it, relocations do not. */
  ghost predicate Identified(history: History) {
    forall s, t | 0 <= s < |history| && 0 <= t < |history| && history[s].Some? && history[t].Some? ::
      SameContent(history[s].value.descriptor, history[t].value.descriptor) ==>
        history[s].value.bytes == history[t].value.bytes
  }

  /** A lookup served at instant `t` describes the version current then. */
  ghost predicate LookupAt(history: History, t: nat, reply: LookupReply) {
    && t < |history|
    && match reply
       case Current(l) => history[t].Some? && history[t].value.descriptor == l.descriptor
       case Absent => history[t].None?
       case LookupFailed => true
  }

  /** A read served at instant `t`: the requested descriptor is checked against the version current then. */
  ghost predicate ReadAt(history: History, t: nat, request: Descriptor, reply: ReadReply) {
    && t < |history|
    && (reply.Data? ==>
          && history[t].Some? && SameDescriptor(history[t].value.descriptor, request)
          && SameDescriptor(reply.descriptor, request)
          && Flatten(reply.chunks) == history[t].value.bytes)
  }

  ghost predicate BytesAt(history: History, t: nat, chunks: seq<Bytes>) {
    t < |history| && history[t].Some? && Flatten(chunks) == history[t].value.bytes
  }

  /**
   * Whatever the order of lookup, reads, overwrites and relocations: with strict validation, bytes
   * that are returned are those of the version that was current when the lookup was served.
   */
  lemma StrictReturnsCurrent(history: History, cached: Option<Descriptor>, atLookup: nat, atRead: nat, atReread: nat,
                             lookup: LookupReply, read: ReadReply, reread: ReadReply)
    requires Identified(history) && LookupAt(history, atLookup, lookup)
    requires cached.Some? ==> ReadAt(history, atRead, cached.value, read)
    requires lookup.Current? ==> ReadAt(history, atReread, lookup.lookup.descriptor, reread)
    ensures var outcome := Decide(cached.Some?, lookup, read, reread, true);
      outcome.Returned? ==> BytesAt(history, atLookup, outcome.chunks)
  {
    var outcome := Decide(cached.Some?, lookup, read, reread, true);
    if outcome.Returned? {
      var l := lookup.lookup;
      assert SameContent(history[atLookup].value.descriptor, l.descriptor);
      if cached.Some? && !read.ReadFailed? && Usable(read, l) {
        assert SameContent(history[atRead].value.descriptor, history[atLookup].value.descriptor);
      } else {
        assert SameContent(history[atReread].value.descriptor, history[atLookup].value.descriptor);
      }
    }
  }

  /** Without strict validation, a failed lookup lets the speculative read through: current when it was served. */
  lemma LenientReturnsCurrent(history: History, cached: Option<Descriptor>, atLookup: nat, atRead: nat, atReread: nat,
                              lookup: LookupReply, read: ReadReply, reread: ReadReply)
    requires Identified(history) && LookupAt(history, atLookup, lookup)
    requires cached.Some? ==> ReadAt(history, atRead, cached.value, read)
    requires lookup.Current? ==> ReadAt(history, atReread, lookup.lookup.descriptor, reread)
    ensures var outcome := Decide(cached.Some?, lookup, read, reread, false);
      outcome.Returned? ==>
        BytesAt(history, if lookup.LookupFailed? then atRead else atLookup, outcome.chunks)
  {
    if !lookup.LookupFailed? {
      assert Decide(cached.Some?, lookup, read, reread, false) == Decide(cached.Some?, lookup, read, reread, true);
      StrictReturnsCurrent(history, cached, atLookup, atRead, atReread, lookup, read, reread);
    }
  }

  /** A relocation between caching and reading costs no second read; an overwrite always does. */
  lemma SpeculationPaysIff(history: History, cached: Descriptor, atLookup: nat, atRead: nat,
                           lookup: Lookup, read: ReadReply)
    requires LookupAt(history, atLookup, Current(lookup)) && ReadAt(history, atRead, cached, read) && read.Data?
    ensures Usable(read, lookup) <==> SameContent(cached, history[atLookup].value.descriptor)
  {
  }

  // ---------------------------------------------------------------------------------------------
  // Reading the chunks of a placement from several nodes

  datatype Piece = Piece(stripe: nat, data: Bytes)

  /** Insertion into a list ordered by stripe. */
  function InsertPiece(sorted: seq<Piece>, p: Piece): (r: seq<Piece>)
    ensures multiset(r) == multiset(sorted) + multiset{p}
  {
    if sorted == [] then [p]
    else if Last(sorted).stripe <= p.stripe then sorted + [p]
    else
      assert sorted == Front(sorted) + [Last(sorted)];
      InsertPiece(Front(sorted), p) + [Last(sorted)]
  }

  function SortPieces(pieces: seq<Piece>): (r: seq<Piece>)
    ensures multiset(r) == multiset(pieces)
  {
    if pieces == [] then []
    else
      assert pieces == Front(pieces) + [Last(pieces)];
      InsertPiece(SortPieces(Front(pieces)), Last(pieces))
  }

  /** Strictly ascending by stripe. */
  ghost predicate Ordered(pieces: seq<Piece>) {
    forall i, j :: 0 <= i < j < |pieces| ==> pieces[i].stripe < pieces[j].stripe
  }

  lemma {:induction false} InsertOrdered(sorted: seq<Piece>, p: Piece)
    requires Ordered(sorted) && forall x <- sorted :: x.stripe != p.stripe
    ensures Ordered(InsertPiece(sorted, p))
  {
    if sorted != [] && Last(sorted).stripe > p.stripe {
      InsertOrdered(Front(sorted), p);
      var front := InsertPiece(Front(sorted), p);
      forall x <- front ensures x.stripe < Last(sorted).stripe {
        assert x in multiset(front);
        assert x in multiset(Front(sorted)) || x == p;
      }
    }
  }

  /** One piece for each of the stripes `0 .. n - 1`. */
  ghost predicate OnePerStripe(pieces: seq<Piece>, n: nat) {
    && (forall p <- pieces :: p.stripe < n)
    && forall i, j :: 0 <= i < j < |pieces| ==> pieces[i].stripe != pieces[j].stripe
  }

  lemma {:induction false} SortOrdered(pieces: seq<Piece>, n: nat)
    requires OnePerStripe(pieces, n)
    ensures Ordered(SortPieces(pieces))
  {
    if pieces != [] {
      var front := SortPieces(Front(pieces));
      SortOrdered(Front(pieces), n);
      forall x <- front ensures x.stripe != Last(pieces).stripe {
        assert x in multiset(front);
        assert x in Front(pieces);
      }
      InsertOrdered(front, Last(pieces));
    }
  }

  lemma {:induction false} AtLeastIndex(pieces: seq<Piece>, k: nat)
    requires Ordered(pieces) && k < |pieces|
    ensures pieces[k].stripe >= k
  {
    if k > 0 {
      AtLeastIndex(pieces, k - 1);
    }
  }

  lemma {:induction false} AtMostIndex(pieces: seq<Piece>, n: nat, k: nat)
    requires Ordered(pieces) && |pieces| == n && k < n && forall p <- pieces :: p.stripe < n
    ensures pieces[k].stripe <= k
    decreases n - k
  {
    if k < n - 1 {
      AtMostIndex(pieces, n, k + 1);
    }
  }

  /** Sorted, piece `k` is the piece of stripe `k`. */
  lemma SortedByIndex(pieces: seq<Piece>, k: nat)
    requires OnePerStripe(pieces, |pieces|) && k < |pieces|
    ensures |SortPieces(pieces)| == |pieces| && SortPieces(pieces)[k] in pieces && SortPieces(pieces)[k].stripe == k
  {
    var sorted := SortPieces(pieces);
    assert |sorted| == |multiset(sorted)| == |multiset(pieces)| == |pieces|;
    forall x <- sorted ensures x in pieces { assert x in multiset(sorted); }
    SortOrdered(pieces, |pieces|);
    AtLeastIndex(sorted, k);
    AtMostIndex(sorted, |pieces|, k);
  }

  function Payloads(pieces: seq<Piece>): (r: seq<Bytes>)
    ensures |r| == |pieces|
  {
    seq(|pieces|, k requires 0 <= k < |pieces| => pieces[k].data)
  }

  /** A chunk read served at instant `t`, with the same check as a whole read. */
  ghost predicate ChunkAt(history: History, t: nat, request: Descriptor, chunkSize: nat, piece: Piece) {
    && t < |history| && history[t].Some? && SameDescriptor(history[t].value.descriptor, request)
    && piece.stripe * chunkSize < |history[t].value.bytes|
    && piece.data == Stripe(history[t].value.bytes, chunkSize, piece.stripe)
  }

  /** The fan-out reply: all pieces, ordered by stripe, under the descriptor that was asked for. */
  function FanOut(request: Descriptor, placement: Option<Placement>, pieces: seq<Piece>): ReadReply {
    Data(Payloads(SortPieces(pieces)), request, placement)
  }

  /**
   * Pieces fetched from different nodes at different instants, in any order, add up to one read: the
   * reply is as a single read served at any one of those instants would be.
   */
  lemma FanOutIsOneRead(history: History, request: Descriptor, placement: Option<Placement>, chunkSize: nat,
                        pieces: seq<Piece>, times: seq<nat>, m: nat)
    requires Identified(history) && chunkSize > 0 && |times| == |pieces| && m < |pieces|
    requires OnePerStripe(pieces, |pieces|)
    requires forall k :: 0 <= k < |pieces| ==> ChunkAt(history, times[k], request, chunkSize, pieces[k])
    requires ChunkAt(history, times[m], request, chunkSize, pieces[m])
    requires |pieces| == StripeCount(|history[times[m]].value.bytes|, chunkSize)
    ensures ReadAt(history, times[m], request, FanOut(request, placement, pieces))
  {
    var bytes, n := history[times[m]].value.bytes, |pieces|;
    var sorted := SortPieces(pieces);
    SortedByIndex(pieces, m);
    forall k | 0 <= k < n
      ensures sorted[k].data == Stripes(bytes, chunkSize, n)[k]
    {
      SortedByIndex(pieces, k);
      var i :| 0 <= i < n && pieces[i] == sorted[k];
      assert SameContent(history[times[i]].value.descriptor, history[times[m]].value.descriptor);
      StripesAt(bytes, chunkSize, n, k);
    }
    assert Payloads(sorted) == Stripes(bytes, chunkSize, n);
    StripesRejoin(bytes, chunkSize);
  }

  /** How a read was served: whole by one node, or piece by piece by the nodes that hold the stripes. */
  datatype Service =
    | AtOnce(at: nat)
    | InPieces(placement: Option<Placement>, chunkSize: nat, pieces: seq<Piece>, times: seq<nat>)

  /** The reply is what the servers, acting between `call` and `done`, give for the requested descriptor. */
  ghost predicate Served(history: History, call: nat, done: nat, request: Descriptor, reply: ReadReply,
                         service: Service)
  {
    match service
    case AtOnce(at) => call <= at <= done && ReadAt(history, at, request, reply)
    case InPieces(placement, chunkSize, pieces, times) =>
      && chunkSize > 0 && |times| == |pieces| && pieces != [] && OnePerStripe(pieces, |pieces|)
      && (forall k :: 0 <= k < |pieces| ==>
            && call <= times[k] <= done && ChunkAt(history, times[k], request, chunkSize, pieces[k])
            && |pieces| == StripeCount(|history[times[k]].value.bytes|, chunkSize))
      && reply == FanOut(request, placement, pieces)
  }

  lemma ServedAtSomeInstant(history: History, call: nat, done: nat, request: Descriptor, reply: ReadReply,
                            service: Service)
    returns (at: nat)
    requires Identified(history) && Served(history, call, done, request, reply, service)
    ensures call <= at <= done && ReadAt(history, at, request, reply)
  {
    match service
    case AtOnce(t) => at := t;
    case InPieces(placement, chunkSize, pieces, times) =>
      at := times[0];
      FanOutIsOneRead(history, request, placement, chunkSize, pieces, times, 0);
  }

  /**
   * A call from `call` to `done`, strictly validated, whatever its cached descriptor and however its
   * lookup, its speculative read and its second read fall between overwrites and relocations: bytes
   * it returns are those of a version that was current at some instant of the call.
   */
  lemma CachedReadIsCurrent(history: History, call: nat, done: nat, cached: Option<Descriptor>, atLookup: nat,
                            lookup: LookupReply, read: ReadReply, reading: Service,
                            reread: ReadReply, rereading: Service)
    requires Identified(history) && call <= atLookup <= done && LookupAt(history, atLookup, lookup)
    requires cached.Some? ==> Served(history, call, done, cached.value, read, reading)
    requires lookup.Current? ==> Served(history, call, done, lookup.lookup.descriptor, reread, rereading)
    ensures var outcome := Decide(cached.Some?, lookup, read, reread, true);
      outcome.Returned? ==> exists t :: call <= t <= done && BytesAt(history, t, outcome.chunks)
  {
    var atRead, atReread := 0, 0;
    if cached.Some? {
      atRead := ServedAtSomeInstant(history, call, done, cached.value, read, reading);
    }
    if lookup.Current? {
      atReread := ServedAtSomeInstant(history, call, done, lookup.lookup.descriptor, reread, rereading);
    }
    StrictReturnsCurrent(history, cached, atLookup, atRead, atReread, lookup, read, reread);
  }

  /** A node that has the requested version answers with it, unless the read fails. */
  ghost predicate ServedWhenCurrent(history: History, call: nat, done: nat, request: Descriptor, reply: ReadReply,
                                    service: Service)
  {
    && Served(history, call, done, request, reply, service)
    && (service.AtOnce? && history[service.at].Some?
        && SameDescriptor(history[service.at].value.descriptor, request) ==>
          reply.Data? || reply.ReadFailed?)
  }

  /** If one version is current throughout the call and no reply is a failure, the call returns its bytes. */
  lemma UnchangedIsReturned(history: History, call: nat, done: nat, version: Version, cached: Option<Descriptor>,
                            atLookup: nat, lookup: LookupReply, read: ReadReply, reading: Service,
                            reread: ReadReply, rereading: Service, strict: bool)
    requires Identified(history) && call <= atLookup <= done < |history| && LookupAt(history, atLookup, lookup)
    requires forall t :: call <= t <= done ==> history[t] == Some(version)
    requires cached.Some? ==> ServedWhenCurrent(history, call, done, cached.value, read, reading)
    requires lookup.Current? ==>
      ServedWhenCurrent(history, call, done, lookup.lookup.descriptor, reread, rereading)
    requires !lookup.LookupFailed? && !read.ReadFailed? && !reread.ReadFailed?
    ensures var outcome := Decide(cached.Some?, lookup, read, reread, strict);
      outcome.Returned? && Flatten(outcome.chunks) == version.bytes
  {
    ClientAnswers(cached.Some?, lookup, read, reread, strict);
    assert history[atLookup] == Some(version) && lookup.Current?;
    if StandsIn(cached.Some?, read, lookup.lookup) {
      var at := ServedAtSomeInstant(history, call, done, cached.value, read, reading);
      assert history[at] == Some(version);
    } else {
      var at := ServedAtSomeInstant(history, call, done, lookup.lookup.descriptor, reread, rereading);
      assert history[at] == Some(version);
      assert rereading.AtOnce? ==> history[rereading.at] == Some(version);
    }
  }

  // ---------------------------------------------------------------------------------------------
  // The client

  datatype Cached = Cached(key: Key, lookup: Lookup)

  /** Least recently used first. */
  type Cache = seq<Cached>

  ghost predicate UniqueKeys(cache: Cache) {
    forall i, j :: 0 <= i < j < |cache| ==> cache[i].key != cache[j].key
  }

  function FindCached(cache: Cache, key: Key): (found: Option<Lookup>)
    ensures found.Some? ==> Cached(key, found.value) in cache
    ensures found.None? ==> forall c <- cache :: c.key != key
  {
    if cache == [] then None
    else
      assert cache == Front(cache) + [Last(cache)];
      if Last(cache).key == key then Some(Last(cache).lookup) else FindCached(Front(cache), key)
  }

  function Dropped(cache: Cache, key: Key): (r: Cache)
    ensures forall c :: c in r <==> c in cache && c.key != key
    ensures |r| <= |cache|
  {
    if cache == [] then []
    else
      assert cache == Front(cache) + [Last(cache)];
      Dropped(Front(cache), key) + if Last(cache).key == key then [] else [Last(cache)]
  }

  lemma {:induction false} DroppedUnique(cache: Cache, key: Key)
    requires UniqueKeys(cache)
    ensures UniqueKeys(Dropped(cache, key))
    ensures |Dropped(cache, key)| == |cache| <==> FindCached(cache, key).None?
  {
    if cache != [] {
      DroppedUnique(Front(cache), key);
    }
  }

  /** The most recent entries, as many as fit. */
  function Newest(cache: Cache, capacity: nat): Cache {
    if |cache| > capacity then cache[|cache| - capacity..] else cache
  }

  /** A missing placement keeps the one remembered for the key. */
  function Kept(cache: Cache, key: Key, placement: Option<Placement>): Option<Placement> {
    if placement.None? && FindCached(cache, key).Some? then FindCached(cache, key).value.placement else placement
  }

  function Remember(cache: Cache, capacity: nat, lookup: Lookup): Cache {
    var key := lookup.descriptor.key;
    if capacity == 0 then cache
    else
      var kept := Lookup(lookup.descriptor, Kept(cache, key, lookup.placement));
      Newest(Dropped(cache, key) + [Cached(key, kept)], capacity)
  }

  /** What is remembered after a read that followed a lookup. */
  function AfterReread(cache: Cache, capacity: nat, key: Key, reread: ReadReply): Cache {
    match reread
    case Data(_, descriptor, placement) => Remember(cache, capacity, Lookup(descriptor, placement))
    case NoData => Dropped(cache, key)
    case Rejected => cache
    case ReadFailed => cache
  }

  /** Pops the oldest entries until the rest fit. */
  method Trim(full: Cache, capacity: nat) returns (cache: Cache)
    ensures cache == Newest(full, capacity)
  {
    cache := full;
    while |cache| > capacity
      invariant |cache| <= |full| && cache == full[|full| - |cache|..]
      invariant if |full| <= capacity then cache == full else |cache| >= capacity
      decreases |cache|
    {
      cache := cache[1..];
    }
  }

  /** A hit makes the entry the most recent. */
  function Touched(cache: Cache, key: Key): Cache {
    match FindCached(cache, key)
    case None => cache
    case Some(l) => Dropped(cache, key) + [Cached(key, l)]
  }

  /** What is remembered after a cached read. */
  function CacheAfter(cache: Cache, capacity: nat, key: Key, lookup: LookupReply, read: ReadReply, reread: ReadReply,
                      strict: bool): Cache
  {
    var hit, touched := FindCached(cache, key), Touched(cache, key);
    match lookup
    case Absent => Dropped(touched, key)
    case LookupFailed =>
      if hit.None? || strict then touched
      else if read.Data? then Remember(touched, capacity, Lookup(read.descriptor, read.placement))
      else Dropped(touched, key)
    case Current(l) =>
      var known := Remember(touched, capacity, l);
      if hit.None? then AfterReread(known, capacity, key, reread)
      else if read.ReadFailed? then known
      else if read.Data? && SameDescriptor(read.descriptor, l.descriptor) then known
      else if read.Data? && SameContent(read.descriptor, l.descriptor) then Remember(known, capacity, l)
      else AfterReread(known, capacity, key, reread)
  }

  lemma {:induction false} FindLast(cache: Cache, c: Cached)
    ensures FindCached(cache + [c], c.key) == Some(c.lookup)
  {
    assert Last(cache + [c]) == c;
  }

  lemma RememberFinds(cache: Cache, capacity: nat, lookup: Lookup)
    requires capacity > 0
    ensures var found := FindCached(Remember(cache, capacity, lookup), lookup.descriptor.key);
      found.Some? && found.value.descriptor == lookup.descriptor
  {
    var key := lookup.descriptor.key;
    var c := Cached(key, Lookup(lookup.descriptor, Kept(cache, key, lookup.placement)));
    var full := Dropped(cache, key) + [c];
    var kept := Newest(full, capacity);
    assert kept == Front(kept) + [c];
    FindLast(Front(kept), c);
  }

  lemma RememberValid(cache: Cache, capacity: nat, lookup: Lookup)
    requires UniqueKeys(cache) && |cache| <= capacity
    ensures UniqueKeys(Remember(cache, capacity, lookup)) && |Remember(cache, capacity, lookup)| <= capacity
  {
    var key := lookup.descriptor.key;
    var rest, c := Dropped(cache, key), Cached(key, Lookup(lookup.descriptor, Kept(cache, key, lookup.placement)));
    DroppedUnique(cache, key);
    AppendUnique(rest, c);
    NewestUnique(rest + [c], capacity);
  }

  lemma AppendUnique(cache: Cache, c: Cached)
    requires UniqueKeys(cache) && forall x <- cache :: x.key != c.key
    ensures UniqueKeys(cache + [c])
  {
  }

  lemma NewestUnique(cache: Cache, capacity: nat)
    requires UniqueKeys(cache)
    ensures UniqueKeys(Newest(cache, capacity)) && |Newest(cache, capacity)| <= capacity
  {
  }

  /** After bytes are returned under strict validation, the descriptor remembered is of that content. */
  lemma RemembersWhatItReturned(cache: Cache, capacity: nat, key: Key, lookup: Lookup, read: ReadReply,
                                reread: ReadReply)
    requires capacity > 0 && lookup.descriptor.key == key
    requires reread.Data? ==> SameDescriptor(reread.descriptor, lookup.descriptor) && reread.descriptor.key == key
    requires Decide(FindCached(cache, key).Some?, Current(lookup), read, reread, true).Returned?
    ensures var found := FindCached(CacheAfter(cache, capacity, key, Current(lookup), read, reread, true), key);
      found.Some? && SameContent(found.value.descriptor, lookup.descriptor)
  {
    var touched := Touched(cache, key);
    var known := Remember(touched, capacity, lookup);
    RememberFinds(touched, capacity, lookup);
    RememberFinds(known, capacity, lookup);
    if reread.Data? {
      RememberFinds(known, capacity, Lookup(reread.descriptor, reread.placement));
    }
  }

  /** A forgotten key is not found. */
  lemma DroppedForgets(cache: Cache, key: Key)
    ensures FindCached(Dropped(cache, key), key).None?
  {
  }

  /** The descriptor the key is remembered by, if any. */
  function Known(cache: Cache, key: Key): Option<Descriptor> {
    match FindCached(cache, key) case None => None case Some(l) => Some(l.descriptor)
  }

  /** Every descriptor that a reply carries is one of the key. */
  ghost predicate About(key: Key, lookup: LookupReply, read: ReadReply, reread: ReadReply) {
    && (lookup.Current? ==> lookup.lookup.descriptor.key == key)
    && (read.Data? ==> read.descriptor.key == key) && (reread.Data? ==> reread.descriptor.key == key)
  }

  /**
   * What the key is remembered by after the call: the newest descriptor seen; nothing if the object
   * turned out to be gone; what it was before if the call learned nothing.
   */
  lemma CacheFollows(cache: Cache, capacity: nat, key: Key, lookup: LookupReply, read: ReadReply, reread: ReadReply,
                     strict: bool)
    requires capacity > 0 && About(key, lookup, read, reread)
    ensures var hit := FindCached(cache, key).Some?;
      var known := Known(CacheAfter(cache, capacity, key, lookup, read, reread, strict), key);
      match lookup
      case Absent => known == None
      case LookupFailed =>
        known == if !ReadAlone(hit, lookup, strict) then Known(cache, key)
                 else if read.Data? then Some(read.descriptor) else None
      case Current(l) =>
        known == if ReadsAgain(hit, lookup, read) && reread.Data? then Some(reread.descriptor)
                 else if ReadsAgain(hit, lookup, read) && reread.NoData? then None
                 else Some(l.descriptor)
  {
    var touched := Touched(cache, key);
    match lookup
    case Absent => DroppedForgets(touched, key);
    case LookupFailed => FollowsRead(cache, capacity, key, read);
    case Current(l) =>
      FollowsLookup(touched, capacity, key, l, reread);
      ShapeAfterLookup(cache, capacity, key, l, read, reread, strict);
  }

  lemma ShapeAfterLookup(cache: Cache, capacity: nat, key: Key, l: Lookup, read: ReadReply, reread: ReadReply,
                         strict: bool)
    ensures var known := Remember(Touched(cache, key), capacity, l);
      var after := CacheAfter(cache, capacity, key, Current(l), read, reread, strict);
      if ReadsAgain(FindCached(cache, key).Some?, Current(l), read)
      then after == AfterReread(known, capacity, key, reread)
      else after == known || after == Remember(known, capacity, l)
  {
    var hit := FindCached(cache, key).Some?;
    assert read.Data? && hit ==> (StandsIn(hit, read, l) <==> SameContent(read.descriptor, l.descriptor));
    assert read.Data? && SameDescriptor(read.descriptor, l.descriptor) ==> SameContent(read.descriptor, l.descriptor);
  }

  lemma FollowsRead(cache: Cache, capacity: nat, key: Key, read: ReadReply)
    requires capacity > 0 && (read.Data? ==> read.descriptor.key == key)
    ensures Known(Touched(cache, key), key) == Known(cache, key)
    ensures Known(Dropped(Touched(cache, key), key), key) == None
    ensures read.Data? ==>
      Known(Remember(Touched(cache, key), capacity, Lookup(read.descriptor, read.placement)), key) ==
      Some(read.descriptor)
  {
    var hit := FindCached(cache, key);
    if hit.Some? {
      FindLast(Dropped(cache, key), Cached(key, hit.value));
    }
    DroppedForgets(Touched(cache, key), key);
    if read.Data? {
      RememberFinds(Touched(cache, key), capacity, Lookup(read.descriptor, read.placement));
    }
  }

  lemma FollowsLookup(cache: Cache, capacity: nat, key: Key, l: Lookup, reread: ReadReply)
    requires capacity > 0 && l.descriptor.key == key && (reread.Data? ==> reread.descriptor.key == key)
    ensures var known := Remember(cache, capacity, l);
      && Known(known, key) == Some(l.descriptor) == Known(Remember(known, capacity, l), key)
      && Known(AfterReread(known, capacity, key, reread), key) ==
         match reread case Data(_, d, _) => Some(d) case NoData => None case _ => Some(l.descriptor)
  {
    var known := Remember(cache, capacity, l);
    RememberFinds(cache, capacity, l);
    RememberFinds(known, capacity, l);
    DroppedForgets(known, key);
    if reread.Data? {
      RememberFinds(known, capacity, Lookup(reread.descriptor, reread.placement));
    }
  }

  /** What is remembered is the most recent entry; the oldest others go, and only when there are too many. */
  lemma RememberIsLru(cache: Cache, capacity: nat, lookup: Lookup)
    requires capacity > 0
    ensures var r, rest := Remember(cache, capacity, lookup), Dropped(cache, lookup.descriptor.key);
      && r != [] && Last(r).key == lookup.descriptor.key && Last(r).lookup.descriptor == lookup.descriptor
      && (lookup.placement.Some? ==> Last(r).lookup == lookup)
      && |Front(r)| <= |rest| && Front(r) == rest[|rest| - |Front(r)|..]
      && (|Front(r)| < |rest| ==> |r| == capacity)
  {
    var key := lookup.descriptor.key;
    var kept := Lookup(lookup.descriptor, Kept(cache, key, lookup.placement));
    NewestAfter(Dropped(cache, key), Cached(key, kept), capacity);
  }

  lemma NewestAfter(rest: Cache, c: Cached, capacity: nat)
    requires capacity > 0
    ensures var r := Newest(rest + [c], capacity);
      && r != [] && Last(r) == c && |Front(r)| <= |rest| && Front(r) == rest[|rest| - |Front(r)|..]
      && (|Front(r)| < |rest| ==> |r| == capacity)
  {
  }

  class KVClient {
    const capacity: nat
    var cache: Cache

    ghost predicate Valid()
      reads this
    {
      UniqueKeys(cache) && |cache| <= capacity
    }

    constructor (capacity: nat)
      ensures Valid() && cache == [] && this.capacity == capacity
    {
      this.capacity := capacity;
      cache := [];
    }

    method CachedLookup(key: Key) returns (hit: Option<Lookup>)
      requires Valid()
      modifies this
      ensures Valid() && hit == FindCached(old(cache), key)
      ensures cache == Touched(old(cache), key)
    {
      DroppedUnique(cache, key);
      hit := FindCached(cache, key);
      if hit.Some? {
        cache := Dropped(cache, key) + [Cached(key, hit.value)];
      }
    }

    /** Remembers the newest descriptor of a key and lets the oldest entries go. */
    method CacheDescriptor(lookup: Lookup)
      requires Valid()
      modifies this
      ensures Valid() && cache == Remember(old(cache), capacity, lookup)
    {
      if capacity == 0 {
        return;
      }
      var key := lookup.descriptor.key;
      var placement := lookup.placement;
      if placement.None? {
        var cached := FindCached(cache, key);
        if cached.Some? {
          placement := cached.value.placement;
        }
      }
      RememberValid(cache, capacity, lookup);
      var full := Dropped(cache, key) + [Cached(key, Lookup(lookup.descriptor, placement))];
      cache := Trim(full, capacity);
    }

    method EvictDescriptor(key: Key)
      requires Valid()
      modifies this
      ensures Valid() && cache == Dropped(old(cache), key)
    {
      DroppedUnique(cache, key);
      cache := Dropped(cache, key);
    }

    /** The read with a looked-up descriptor. */
    method ReadFresh(key: Key, reread: ReadReply) returns (outcome: Outcome)
      requires Valid()
      modifies this
      ensures Valid() && outcome == AfterLookup(reread) && cache == AfterReread(old(cache), capacity, key, reread)
      ensures reread.Data? ==> outcome == Returned(reread.chunks)
      ensures outcome.Nothing? <==> reread.NoData?
    {
      match reread
      case Data(chunks, descriptor, placement) =>
        CacheDescriptor(Lookup(descriptor, placement));
        return Returned(chunks);
      case NoData =>
        EvictDescriptor(key);
        return Nothing;
      case Rejected => return Raised;
      case ReadFailed => return Raised;
    }

    /**
     * The cached read, given the replies the servers send: to the lookup, to the speculative read
     * and to the read that follows the lookup, if it comes to that.
     */
    method GetCached(key: Key, lookup: LookupReply, read: ReadReply, reread: ReadReply, strict: bool)
      returns (outcome: Outcome)
      requires Valid()
      modifies this
      ensures Valid() && outcome == Decide(FindCached(old(cache), key).Some?, lookup, read, reread, strict)
      ensures AnswersAs(FindCached(old(cache), key).Some?, lookup, read, reread, strict, outcome)
      ensures cache == CacheAfter(old(cache), capacity, key, lookup, read, reread, strict)
    {
      ClientAnswers(FindCached(cache, key).Some?, lookup, read, reread, strict);
      var cached := CachedLookup(key);
      if lookup.LookupFailed? && (cached.None? || strict) {
        return Raised;
      }
      if lookup.LookupFailed? && read.Data? {
        CacheDescriptor(Lookup(read.descriptor, read.placement));
        return Returned(read.chunks);
      }
      if !lookup.Current? {
        EvictDescriptor(key);
        return Nothing;
      }
      CacheDescriptor(lookup.lookup);
      if cached.None? {
        outcome := ReadFresh(key, reread);
        return;
      }
      if read.ReadFailed? {
        return Raised;
      }
      if read.Rejected? || read.NoData? {
        outcome := ReadFresh(key, reread);
        return;
      }
      if SameDescriptor(read.descriptor, lookup.lookup.descriptor) {
        return Returned(read.chunks);
      }
      if SameContent(read.descriptor, lookup.lookup.descriptor) {
        CacheDescriptor(lookup.lookup);
        return Returned(read.chunks);
      }
      outcome := ReadFresh(key, reread);
    }
  }
}
