/** Values shared by every component: byte strings, object versions and their physical paths. */
module Types {
  newtype byte = x: int | 0 <= x < 256
  type Bytes = seq<byte>

  datatype Option<+T> = None | Some(value: T)

  const I64_MAX: int := 0x7FFF_FFFF_FFFF_FFFF

  /** Canonical object key, as printed by `Router.Print`. */
  type Key = string

  /** Content token. A free constructor: the 64-bit hash of the seed is taken to be collision-free. */
  datatype Etag = Etag(key: Key, generation: nat, size: nat, createdAt: int)

  /** Opaque read handle; collision-free in the same sense. */
  datatype Handle = Handle(key: Key, generation: nat, layout: nat, size: nat, createdAt: int)

  /** Versioned physical file name. `Router.VersionedPathInjective` shows the printed names are as distinct as these. */
  datatype Path =
    | Whole(key: Key, generation: nat, layout: nat)
    | Chunk(key: Key, generation: nat, layout: nat, index: nat)

  datatype BlockMeta = BlockMeta(
    handle: Handle,
    generation: nat,
    etag: Etag,
    layout: nat,
    size: nat,
    createdAt: int,
    ttl: int,
    paths: seq<Path>)

  /** The identity that retirement, expiry, L1 and GC compare. */
  predicate SameVersion(a: BlockMeta, b: BlockMeta) {
    && a.handle == b.handle
    && a.generation == b.generation
    && a.layout == b.layout
    && a.etag == b.etag
    && a.size == b.size
  }

  /** A positive TTL whose expiry instant has passed, or lies beyond the 64-bit range. */
  predicate ExpiredAt(meta: BlockMeta, now: int) {
    && meta.ttl > 0
    && (meta.createdAt + meta.ttl > I64_MAX || meta.createdAt + meta.ttl <= now)
  }

  /**
   * Expiry is final, and over all 64-bit times it is what the TTL says, the instant `createdAt + ttl`
   * and after, exactly when that instant is itself a 64-bit time. A TTL that overflows expires the
   * object at once.
   */
  lemma ExpiryIsFinal(meta: BlockMeta, now: int, later: int)
    requires now <= later
    ensures ExpiredAt(meta, now) ==> ExpiredAt(meta, later)
    ensures meta.ttl > 0 && meta.createdAt + meta.ttl > I64_MAX ==> ExpiredAt(meta, now)
    ensures (forall t :: t <= I64_MAX ==> (ExpiredAt(meta, t) <==> meta.ttl > 0 && meta.createdAt + meta.ttl <= t)) <==>
      (meta.ttl > 0 ==> meta.createdAt + meta.ttl <= I64_MAX)
  {
    assert meta.ttl > 0 && meta.createdAt + meta.ttl > I64_MAX ==> ExpiredAt(meta, I64_MAX);
  }

  /** File names of one version: a single file, or one file per stripe. */
  function PathsOf(key: Key, generation: nat, layout: nat, striped: bool, count: nat): (paths: seq<Path>)
    ensures striped ==> |paths| == count
    ensures !striped ==> |paths| == 1
    ensures forall i, j :: 0 <= i < j < |paths| ==> paths[i] != paths[j]
    ensures forall p :: p in paths ==> p.key == key && p.generation == generation
  {
    if striped then seq(count, i requires 0 <= i < count => Chunk(key, generation, layout, i))
    else [Whole(key, generation, layout)]
  }

  /** Metadata of a new write under a freshly allocated generation. New writes always use layout 1. */
  function PrepareWriteMeta(key: Key, generation: nat, size: nat, createdAt: int, ttl: int,
                            striped: bool, count: nat): (meta: BlockMeta)
  {
    BlockMeta(Handle(key, generation, 1, size, createdAt), generation,
              Etag(key, generation, size, createdAt), 1, size, createdAt, ttl,
              PathsOf(key, generation, 1, striped, count))
  }

  /** Concatenation of a list of segments. */
  function Flatten<T>(parts: seq<seq<T>>): (all: seq<T>) {
    if parts == [] then [] else parts[0] + Flatten(parts[1..])
  }

  lemma {:induction false} FlattenAppend<T>(xs: seq<seq<T>>, ys: seq<seq<T>>)
    ensures Flatten(xs + ys) == Flatten(xs) + Flatten(ys)
  {
    if xs == [] {
      assert xs + ys == ys;
    } else {
      assert (xs + ys)[1..] == xs[1..] + ys;
      FlattenAppend(xs[1..], ys);
    }
  }

  lemma FlattenOne<T>(part: seq<T>)
    ensures Flatten([part]) == part
  {
    assert [part][1..] == [];
  }

  lemma FlattenSnoc<T>(xs: seq<seq<T>>, y: seq<T>)
    ensures Flatten(xs + [y]) == Flatten(xs) + y
  {
    FlattenAppend(xs, [y]);
    assert [y][1..] == [];
    assert Flatten([y]) == y;
  }

  function Min(a: int, b: int): int {
    if a <= b then a else b
  }

  function Front<T>(xs: seq<T>): seq<T>
    requires xs != []
  {
    xs[..|xs| - 1]
  }

  function Last<T>(xs: seq<T>): (last: T)
    requires xs != []
    ensures last in xs
  {
    xs[|xs| - 1]
  }

  lemma TakeAll<T>(xs: seq<T>)
    ensures xs[..|xs|] == xs
  {
  }

  lemma TakeNext<T>(xs: seq<T>, i: nat)
    requires i < |xs|
    ensures xs[..i + 1] == xs[..i] + [xs[i]]
  {
  }

  lemma TakeSome<T>(xs: seq<T>, i: nat, j: nat)
    requires i <= j <= |xs|
    ensures xs[..j] == xs[..i] + xs[i..j]
  {
  }

  lemma SliceOfSlice<T>(xs: seq<T>, a: nat, b: nat, i: nat, j: nat)
    requires a <= b <= |xs| && i <= j <= b - a
    ensures xs[a..b][i..j] == xs[a + i..a + j]
  {
    var inner, direct := xs[a..b][i..j], xs[a + i..a + j];
    forall k | 0 <= k < |direct|
      ensures inner[k] == direct[k]
    {
      assert inner[k] == xs[a..b][i + k] == xs[a + (i + k)];
    }
  }

  predicate Distinct<T(==)>(xs: seq<T>) {
    forall i, j :: 0 <= i < j < |xs| ==> xs[i] != xs[j]
  }

  function Elements<T>(xs: seq<T>): set<T> {
    set x | x in xs
  }

  lemma {:induction false} DistinctCount<T>(xs: seq<T>)
    requires Distinct(xs)
    ensures |Elements(xs)| == |xs|
  {
    if xs != [] {
      var front, last := xs[..|xs| - 1], xs[|xs| - 1];
      DistinctCount(front);
      assert Elements(xs) == Elements(front) + {last};
    }
  }

  lemma {:induction false} SubsetSize<T>(a: set<T>, b: set<T>)
    requires a <= b
    ensures |a| <= |b| && (|a| == |b| ==> a == b)
  {
    if x :| x in a {
      SubsetSize(a - {x}, b - {x});
      assert a == (a - {x}) + {x} && b == (b - {x}) + {x};
    }
  }
}
