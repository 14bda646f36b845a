/**
 * The prefix index: which leading blocks of a token sequence are stored. It is kept as a trie of
 * token blocks; a second implementation keeps a flat set of block keys in Redis. The key of a prefix
 * is a hash, taken to be collision-free, so it is modelled as the text that is hashed.
 */
module PrefixIndex {
  import opened Types
  import opened Decimal
  import opened Striping

  type Tokens = seq<nat>
  type BlockKey = string

  function KeyOf(model: string, tokens: Tokens): BlockKey {
    model + ":" + Join(tokens)
  }

  /** Different prefixes hash different texts. */
  lemma KeyInjective(model: string, a: Tokens, b: Tokens)
    requires KeyOf(model, a) == KeyOf(model, b)
    ensures a == b
  {
    var start := |model| + 1;
    assert Join(a) == KeyOf(model, a)[start..] == KeyOf(model, b)[start..] == Join(b);
    JoinInjective(a, b);
  }

  /** Keys are equal only for the same model and the same prefix, whatever characters the model's name has. */
  lemma KeysTellModelsApart(model: string, a: Tokens, other: string, b: Tokens)
    ensures KeyOf(model, a) == KeyOf(other, b) <==> model == other && a == b
  {
    if KeyOf(model, a) == KeyOf(other, b) {
      JoinChars(a, ':');
      JoinChars(b, ':');
      SplitUnique(model, Join(a), other, Join(b), ':');
      JoinInjective(a, b);
    }
  }

  // ---------------------------------------------------------------------------------------------
  // Specification

  /** A whole number of blocks, at least one. */
  predicate Aligned(p: Tokens, blockSize: nat)
    requires blockSize > 0
  {
    p != [] && |p| % blockSize == 0
  }

  lemma BlockFits(k: nat, len: nat, blockSize: nat)
    requires blockSize > 0
    ensures k <= len / blockSize <==> k * blockSize <= len
  {
    var q := len / blockSize;
    assert len == q * blockSize + len % blockSize;
    if k <= q {
      MulMonotone(k, q, blockSize);
    } else {
      MulMonotone(q + 1, k, blockSize);
      assert (q + 1) * blockSize == q * blockSize + blockSize;
    }
  }

  lemma BlockAligned(k: nat, blockSize: nat)
    requires blockSize > 0
    ensures k * blockSize % blockSize == 0 && k * blockSize / blockSize == k
  {
    QuotientUnique(k * blockSize, blockSize, k);
    assert k * blockSize == (k * blockSize / blockSize) * blockSize + k * blockSize % blockSize;
  }

  /** The first `k` blocks of the tokens. */
  function Blocks(tokens: Tokens, blockSize: nat, k: nat): Tokens
    requires blockSize > 0 && k <= |tokens| / blockSize
  {
    BlockFits(k, |tokens|, blockSize);
    tokens[..k * blockSize]
  }

  /** The prefixes of one up to `k` blocks. */
  function Prefixes(tokens: Tokens, blockSize: nat, k: nat): set<Tokens>
    requires blockSize > 0 && k <= |tokens| / blockSize
  {
    if k == 0 then {} else Prefixes(tokens, blockSize, k - 1) + {Blocks(tokens, blockSize, k)}
  }

  lemma {:induction false} PrefixesAre(tokens: Tokens, blockSize: nat, k: nat, p: Tokens)
    requires blockSize > 0 && k <= |tokens| / blockSize
    ensures p in Prefixes(tokens, blockSize, k) <==>
      Aligned(p, blockSize) && |p| / blockSize <= k && p == Blocks(tokens, blockSize, |p| / blockSize)
  {
    if k > 0 {
      PrefixesAre(tokens, blockSize, k - 1, p);
      BlockFits(k, |tokens|, blockSize);
      BlockAligned(k, blockSize);
      MulMonotone(1, k, blockSize);
      assert 1 * blockSize == blockSize;
    } else {
      assert Aligned(p, blockSize) ==> |p| / blockSize > 0;
    }
  }

  /** Prefixes registered and not removed, and those ever pinned by a whole-prefix registration. */
  datatype Index = Index(registered: set<Tokens>, pinned: set<Tokens>)

  predicate Known(index: Index, p: Tokens) {
    p in index.registered || p in index.pinned
  }

  /** Blocks matched from block `k` on, one after another. */
  function Run(index: Index, tokens: Tokens, blockSize: nat, k: nat): nat
    requires blockSize > 0 && k <= |tokens| / blockSize
    decreases |tokens| / blockSize - k
  {
    if k < |tokens| / blockSize && Known(index, Blocks(tokens, blockSize, k + 1))
    then Run(index, tokens, blockSize, k + 1) else k
  }

  function Lookup(index: Index, tokens: Tokens, blockSize: nat): nat
    requires blockSize > 0
  {
    Run(index, tokens, blockSize, 0) * blockSize
  }

  lemma {:induction false} RunIsLongest(index: Index, tokens: Tokens, blockSize: nat, k: nat)
    requires blockSize > 0 && k <= |tokens| / blockSize
    ensures k <= Run(index, tokens, blockSize, k) <= |tokens| / blockSize
    ensures forall m :: k < m <= Run(index, tokens, blockSize, k) ==> Known(index, Blocks(tokens, blockSize, m))
    ensures var r := Run(index, tokens, blockSize, k);
      r < |tokens| / blockSize ==> !Known(index, Blocks(tokens, blockSize, r + 1))
    decreases |tokens| / blockSize - k
  {
    if k < |tokens| / blockSize && Known(index, Blocks(tokens, blockSize, k + 1)) {
      RunIsLongest(index, tokens, blockSize, k + 1);
    }
  }

  function BlockCount(tokens: Tokens, numTokens: nat, blockSize: nat): nat
    requires blockSize > 0
  {
    Min(numTokens / blockSize, |tokens| / blockSize)
  }

  datatype IndexOp =
    | Register(tokens: Tokens, numTokens: nat)
    | RegisterPrefix(tokens: Tokens, numTokens: nat)
    | Remove(keys: seq<BlockKey>)

  function Removed(registered: set<Tokens>, model: string, keys: seq<BlockKey>): set<Tokens> {
    set p | p in registered && KeyOf(model, p) !in keys
  }

  function Step(index: Index, model: string, blockSize: nat, op: IndexOp): Index
    requires blockSize > 0
  {
    match op
    case Register(tokens, n) =>
      index.(registered := index.registered + Prefixes(tokens, blockSize, BlockCount(tokens, n, blockSize)))
    case RegisterPrefix(tokens, n) =>
      var added := Prefixes(tokens, blockSize, BlockCount(tokens, n, blockSize));
      Index(index.registered + added, index.pinned + added)
    case Remove(keys) => index.(registered := Removed(index.registered, model, keys))
  }

  // ---------------------------------------------------------------------------------------------
  // The flat set

  function Cut(tokens: Tokens, end: nat): Tokens {
    tokens[..Min(end, |tokens|)]
  }

  /** Registering computes a key per block of the requested length, even beyond the tokens given. */
  function FlatKeys(model: string, tokens: Tokens, blockSize: nat, n: nat): set<BlockKey> {
    if n == 0 then {} else FlatKeys(model, tokens, blockSize, n - 1) + {KeyOf(model, Cut(tokens, n * blockSize))}
  }

  function FlatStep(flat: set<BlockKey>, model: string, blockSize: nat, op: IndexOp): set<BlockKey>
    requires blockSize > 0
  {
    match op
    case Register(tokens, n) => flat + FlatKeys(model, tokens, blockSize, n / blockSize)
    case RegisterPrefix(_, _) => flat
    case Remove(keys) => flat - Elements(keys)
  }

  /** On whole-block prefixes, the flat set holds the keys of the registered ones. */
  ghost predicate Corresponds(flat: set<BlockKey>, index: Index, model: string, blockSize: nat)
    requires blockSize > 0
  {
    forall p: Tokens :: Aligned(p, blockSize) ==> (KeyOf(model, p) in flat <==> p in index.registered)
  }

  lemma {:induction false} FlatKeysAre(model: string, tokens: Tokens, blockSize: nat, n: nat, p: Tokens)
    requires blockSize > 0 && Aligned(p, blockSize)
    ensures KeyOf(model, p) in FlatKeys(model, tokens, blockSize, n) <==>
      p in Prefixes(tokens, blockSize, Min(n, |tokens| / blockSize))
  {
    if n > 0 {
      FlatKeysAre(model, tokens, blockSize, n - 1, p);
      var cut := Cut(tokens, n * blockSize);
      if KeyOf(model, p) == KeyOf(model, cut) {
        KeyInjective(model, p, cut);
      }
      OneMoreBlock(tokens, blockSize, n, p);
    }
  }

  /** Beyond the end of the tokens a block adds no whole-block prefix that was not there. */
  lemma OneMoreBlock(tokens: Tokens, blockSize: nat, n: nat, p: Tokens)
    requires blockSize > 0 && Aligned(p, blockSize) && n > 0
    ensures p in Prefixes(tokens, blockSize, Min(n, |tokens| / blockSize)) <==>
      p in Prefixes(tokens, blockSize, Min(n - 1, |tokens| / blockSize)) || p == Cut(tokens, n * blockSize)
  {
    var q := |tokens| / blockSize;
    BlockFits(n, |tokens|, blockSize);
    if n <= q {
      assert Cut(tokens, n * blockSize) == Blocks(tokens, blockSize, n);
    } else {
      TakeAll(tokens);
      assert Cut(tokens, n * blockSize) == tokens;
      if p == tokens {
        WholeTokens(tokens, blockSize, p);
      }
    }
  }

  lemma WholeTokens(tokens: Tokens, blockSize: nat, p: Tokens)
    requires blockSize > 0 && Aligned(p, blockSize) && p == tokens
    ensures p in Prefixes(tokens, blockSize, |tokens| / blockSize)
  {
    var q := |tokens| / blockSize;
    assert |tokens| == q * blockSize;
    TakeAll(tokens);
    PrefixesAre(tokens, blockSize, q, p);
  }

  lemma FlatStepCorresponds(flat: set<BlockKey>, index: Index, model: string, blockSize: nat, op: IndexOp)
    requires blockSize > 0 && Corresponds(flat, index, model, blockSize) && !op.RegisterPrefix?
    ensures Corresponds(FlatStep(flat, model, blockSize, op), Step(index, model, blockSize, op), model, blockSize)
    ensures Step(index, model, blockSize, op).pinned == index.pinned
  {
    if op.Register? {
      forall p: Tokens | Aligned(p, blockSize)
        ensures KeyOf(model, p) in FlatKeys(model, op.tokens, blockSize, op.numTokens / blockSize) <==>
          p in Prefixes(op.tokens, blockSize, BlockCount(op.tokens, op.numTokens, blockSize))
      {
        FlatKeysAre(model, op.tokens, blockSize, op.numTokens / blockSize, p);
      }
    }
  }

  function FlatRun(flat: set<BlockKey>, model: string, tokens: Tokens, blockSize: nat, k: nat): nat
    requires blockSize > 0 && k <= |tokens| / blockSize
    decreases |tokens| / blockSize - k
  {
    if k < |tokens| / blockSize && KeyOf(model, Blocks(tokens, blockSize, k + 1)) in flat
    then FlatRun(flat, model, tokens, blockSize, k + 1) else k
  }

  /** The flat lookup: membership of every block key, then the leading hits are counted. */
  method FlatLookup(flat: set<BlockKey>, model: string, tokens: Tokens, blockSize: nat) returns (matched: nat)
    requires blockSize > 0
    ensures matched == FlatRun(flat, model, tokens, blockSize, 0) * blockSize
  {
    var results := seq(|tokens| / blockSize, i requires 0 <= i < |tokens| / blockSize =>
      KeyOf(model, Blocks(tokens, blockSize, i + 1)) in flat);
    matched := 0;
    var i := 0;
    while i < |results| && results[i]
      invariant i <= |results| && matched == i * blockSize
      invariant FlatRun(flat, model, tokens, blockSize, i) == FlatRun(flat, model, tokens, blockSize, 0)
    {
      matched := (i + 1) * blockSize;
      i := i + 1;
    }
  }

  lemma {:induction false} SameRun(flat: set<BlockKey>, index: Index, model: string, tokens: Tokens, blockSize: nat,
                                   k: nat)
    requires blockSize > 0 && k <= |tokens| / blockSize
    requires Corresponds(flat, index, model, blockSize) && index.pinned == {}
    ensures FlatRun(flat, model, tokens, blockSize, k) == Run(index, tokens, blockSize, k)
    decreases |tokens| / blockSize - k
  {
    if k < |tokens| / blockSize {
      var p := Blocks(tokens, blockSize, k + 1);
      BlockIsAligned(tokens, blockSize, k + 1);
      if Known(index, p) {
        SameRun(flat, index, model, tokens, blockSize, k + 1);
      }
    }
  }

  function StepAll(index: Index, model: string, blockSize: nat, ops: seq<IndexOp>): Index
    requires blockSize > 0
  {
    if ops == [] then index else Step(StepAll(index, model, blockSize, Front(ops)), model, blockSize, Last(ops))
  }

  function FlatAll(flat: set<BlockKey>, model: string, blockSize: nat, ops: seq<IndexOp>): set<BlockKey>
    requires blockSize > 0
  {
    if ops == [] then flat else FlatStep(FlatAll(flat, model, blockSize, Front(ops)), model, blockSize, Last(ops))
  }

  lemma {:induction false} HistoryCorresponds(model: string, blockSize: nat, ops: seq<IndexOp>)
    requires blockSize > 0 && forall op <- ops :: !op.RegisterPrefix?
    ensures Corresponds(FlatAll({}, model, blockSize, ops), StepAll(Index({}, {}), model, blockSize, ops),
                        model, blockSize)
    ensures StepAll(Index({}, {}), model, blockSize, ops).pinned == {}
  {
    if ops != [] {
      assert forall op <- Front(ops) :: op in ops;
      HistoryCorresponds(model, blockSize, Front(ops));
      FlatStepCorresponds(FlatAll({}, model, blockSize, Front(ops)),
                          StepAll(Index({}, {}), model, blockSize, Front(ops)), model, blockSize, Last(ops));
    }
  }

  /** After any history without whole-prefix registrations the two implementations answer every lookup alike. */
  lemma TrieEqualsFlat(model: string, blockSize: nat, ops: seq<IndexOp>, tokens: Tokens)
    requires blockSize > 0 && forall op <- ops :: !op.RegisterPrefix?
    ensures FlatRun(FlatAll({}, model, blockSize, ops), model, tokens, blockSize, 0) * blockSize ==
      Lookup(StepAll(Index({}, {}), model, blockSize, ops), tokens, blockSize)
  {
    HistoryCorresponds(model, blockSize, ops);
    SameRun(FlatAll({}, model, blockSize, ops), StepAll(Index({}, {}), model, blockSize, ops),
            model, tokens, blockSize, 0);
  }

  // ---------------------------------------------------------------------------------------------
  // What a history leaves in the index

  /** The prefix is one of the whole-block prefixes the registration covers. */
  ghost predicate Covers(op: IndexOp, blockSize: nat, p: Tokens)
    requires blockSize > 0
  {
    && (op.Register? || op.RegisterPrefix?) && p != [] && |p| % blockSize == 0
    && |p| <= op.numTokens && |p| <= |op.tokens| && p == op.tokens[..|p|]
  }

  ghost predicate Takes(op: IndexOp, model: string, p: Tokens) {
    op.Remove? && KeyOf(model, p) in op.keys
  }

  lemma CoversIs(op: IndexOp, blockSize: nat, p: Tokens)
    requires blockSize > 0 && !op.Remove?
    ensures p in Prefixes(op.tokens, blockSize, BlockCount(op.tokens, op.numTokens, blockSize)) <==>
      Covers(op, blockSize, p)
  {
    var n, k := BlockCount(op.tokens, op.numTokens, blockSize), |p| / blockSize;
    PrefixesAre(op.tokens, blockSize, n, p);
    if Aligned(p, blockSize) {
      assert |p| == k * blockSize + |p| % blockSize;
      BlockFits(k, op.numTokens, blockSize);
      BlockFits(k, |op.tokens|, blockSize);
    }
  }

  /** Some registration covered the prefix, and nothing has taken it out since. */
  ghost predicate Standing(model: string, blockSize: nat, ops: seq<IndexOp>, p: Tokens)
    requires blockSize > 0
  {
    exists i :: 0 <= i < |ops| && Covers(ops[i], blockSize, p) && forall j :: i < j < |ops| ==> !Takes(ops[j], model, p)
  }

  lemma StandingStep(model: string, blockSize: nat, ops: seq<IndexOp>, op: IndexOp, p: Tokens)
    requires blockSize > 0
    ensures Standing(model, blockSize, ops + [op], p) <==>
      Covers(op, blockSize, p) || (Standing(model, blockSize, ops, p) && !Takes(op, model, p))
  {
    var all := ops + [op];
    if Standing(model, blockSize, ops, p) && !Takes(op, model, p) {
      var i :| 0 <= i < |ops| && Covers(ops[i], blockSize, p) && forall j :: i < j < |ops| ==> !Takes(ops[j], model, p);
      assert Covers(all[i], blockSize, p);
    }
    if Covers(op, blockSize, p) {
      assert Covers(all[|ops|], blockSize, p);
    }
    if Standing(model, blockSize, all, p) && !Covers(op, blockSize, p) {
      var i :| 0 <= i < |all| && Covers(all[i], blockSize, p) && forall j :: i < j < |all| ==> !Takes(all[j], model, p);
      assert Covers(ops[i], blockSize, p) && all[|ops|] == op;
      assert forall j :: i < j < |ops| ==> ops[j] == all[j];
    }
  }

  /**
   * After every history: a prefix is registered exactly when some registration covered it that no
   * removal has undone since, and pinned exactly when some whole-prefix registration covered it.
   */
  lemma {:induction false} RegisteredIff(model: string, blockSize: nat, ops: seq<IndexOp>, p: Tokens)
    requires blockSize > 0
    ensures var index := StepAll(Index({}, {}), model, blockSize, ops);
      && (p in index.registered <==> Standing(model, blockSize, ops, p))
      && (p in index.pinned <==> exists op <- ops :: op.RegisterPrefix? && Covers(op, blockSize, p))
  {
    if ops != [] {
      var front, last := Front(ops), Last(ops);
      assert ops == front + [last];
      RegisteredIff(model, blockSize, front, p);
      StandingStep(model, blockSize, front, last, p);
      if !last.Remove? {
        CoversIs(last, blockSize, p);
      }
    }
  }

  /** What was just registered is found: the lookup of those tokens matches at least the registered blocks. */
  lemma RegisteredIsFound(index: Index, model: string, blockSize: nat, op: IndexOp)
    requires blockSize > 0 && !op.Remove?
    ensures Lookup(Step(index, model, blockSize, op), op.tokens, blockSize) >=
      BlockCount(op.tokens, op.numTokens, blockSize) * blockSize
  {
    var after, n := Step(index, model, blockSize, op), BlockCount(op.tokens, op.numTokens, blockSize);
    RunIsLongest(after, op.tokens, blockSize, 0);
    var r := Run(after, op.tokens, blockSize, 0);
    if r < n {
      BlockFits(r + 1, |op.tokens|, blockSize);
      BlockAligned(r + 1, blockSize);
      BlockIsAligned(op.tokens, blockSize, r + 1);
      PrefixesAre(op.tokens, blockSize, n, Blocks(op.tokens, blockSize, r + 1));
    }
    MulMonotone(n, r, blockSize);
  }

  // ---------------------------------------------------------------------------------------------
  // Incremental keys

  lemma JoinStep(tokens: Tokens, t: nat)
    requires t < |tokens|
    ensures Join(tokens[..t + 1]) ==
      if t == 0 then Print(tokens[t]) else Join(tokens[..t]) + "," + Print(tokens[t])
  {
    assert Front(tokens[..t + 1]) == tokens[..t];
  }

  lemma NextToken(t: nat, blockSize: nat)
    requires blockSize > 0
    ensures (t + 1) / blockSize == t / blockSize + if (t + 1) % blockSize == 0 then 1 else 0
    ensures (t + 1) % blockSize == 0 ==> t + 1 == (t / blockSize + 1) * blockSize
  {
    var q, r := t / blockSize, t % blockSize;
    assert t == q * blockSize + r;
    assert (q + 1) * blockSize == q * blockSize + blockSize;
    if r == blockSize - 1 {
      BlockAligned(q + 1, blockSize);
    } else {
      QuotientUnique(t + 1, blockSize, q);
      assert t + 1 == ((t + 1) / blockSize) * blockSize + (t + 1) % blockSize;
    }
  }

  ghost predicate AreKeys(keys: seq<BlockKey>, model: string, tokens: Tokens, blockSize: nat)
    requires blockSize > 0
  {
    && |keys| <= |tokens| / blockSize
    && forall i :: 0 <= i < |keys| ==> keys[i] == KeyOf(model, Blocks(tokens, blockSize, i + 1))
  }

  /** One pass over the tokens, feeding the hasher a token at a time, gives the key of every block prefix. */
  method BlockKeys(model: string, blockSize: nat, tokens: Tokens, numBlocks: nat) returns (keys: seq<BlockKey>)
    requires blockSize > 0
    ensures |keys| == Min(numBlocks, |tokens| / blockSize) && AreKeys(keys, model, tokens, blockSize)
  {
    var hasher := model + ":";
    keys := [];
    var limit := Min(numBlocks * blockSize, |tokens|);
    assert tokens[..0] == [];
    for t := 0 to limit
      invariant hasher == KeyOf(model, tokens[..t])
      invariant |keys| == t / blockSize && AreKeys(keys, model, tokens, blockSize)
    {
      JoinStep(tokens, t);
      if t > 0 {
        hasher := hasher + ",";
      }
      hasher := hasher + Print(tokens[t]);
      NextToken(t, blockSize);
      if (t + 1) % blockSize == 0 {
        BlockFits(t / blockSize + 1, |tokens|, blockSize);
        assert Blocks(tokens, blockSize, |keys| + 1) == tokens[..t + 1];
        keys := keys + [hasher];
      }
    }
    LimitBlocks(numBlocks, |tokens|, blockSize);
  }

  lemma LimitBlocks(numBlocks: nat, len: nat, blockSize: nat)
    requires blockSize > 0
    ensures Min(numBlocks * blockSize, len) / blockSize == Min(numBlocks, len / blockSize)
  {
    BlockFits(numBlocks, len, blockSize);
    BlockAligned(numBlocks, blockSize);
  }

  lemma BlockIsAligned(tokens: Tokens, blockSize: nat, k: nat)
    requires blockSize > 0 && 0 < k <= |tokens| / blockSize
    ensures Aligned(Blocks(tokens, blockSize, k), blockSize)
  {
    BlockAligned(k, blockSize);
    MulMonotone(1, k, blockSize);
    BlockFits(k, |tokens|, blockSize);
  }

  // ---------------------------------------------------------------------------------------------
  // The trie

  /** A node is named by the tokens on its path; a child's name extends its parent's by one block. */
  datatype Node = Node(blockKeys: set<BlockKey>, prefixCount: nat)

  predicate IsRegistered(node: Node) {
    node.blockKeys != {} || node.prefixCount > 0
  }

  type Nodes = map<Tokens, Node>

  ghost function View(nodes: Nodes): Index {
    Index(set p | p in nodes && nodes[p].blockKeys != {}, set p | p in nodes && nodes[p].prefixCount > 0)
  }

  lemma KnownIff(nodes: Nodes, p: Tokens)
    ensures Known(View(nodes), p) <==> p in nodes && IsRegistered(nodes[p])
  {
  }

  function WithAll(index: Index, added: set<Tokens>, pin: bool): Index {
    Index(index.registered + added, if pin then index.pinned + added else index.pinned)
  }

  /** The node, made if need be, with the key on it and one more prefix counted if pinned. */
  function AddTo(nodes: Nodes, p: Tokens, key: BlockKey, pin: bool): Nodes {
    var node := if p in nodes then nodes[p] else Node({}, 0);
    nodes[p := Node(node.blockKeys + {key}, if pin then node.prefixCount + 1 else node.prefixCount)]
  }

  lemma WithOneMore(index: Index, a: set<Tokens>, p: Tokens, pin: bool)
    ensures WithAll(WithAll(index, a, pin), {p}, pin) == WithAll(index, a + {p}, pin)
  {
    assert index.registered + a + {p} == index.registered + (a + {p});
    assert index.pinned + a + {p} == index.pinned + (a + {p});
  }

  /** The block prefixes the keys belong to, shortest first. */
  function Paths(keys: seq<BlockKey>, model: string, tokens: Tokens, blockSize: nat): (ps: seq<Tokens>)
    requires blockSize > 0 && AreKeys(keys, model, tokens, blockSize)
    ensures |ps| == |keys| && forall i :: 0 <= i < |keys| ==> ps[i] == Blocks(tokens, blockSize, i + 1)
  {
    seq(|keys|, i requires 0 <= i < |keys| => Blocks(tokens, blockSize, i + 1))
  }

  ghost predicate Keyed(ps: seq<Tokens>, keys: seq<BlockKey>, model: string, blockSize: nat)
    requires blockSize > 0
  {
    |ps| == |keys| && forall i :: 0 <= i < |ps| ==> Aligned(ps[i], blockSize) && keys[i] == KeyOf(model, ps[i])
  }

  lemma PathsAreKeyed(keys: seq<BlockKey>, model: string, tokens: Tokens, blockSize: nat)
    requires blockSize > 0 && AreKeys(keys, model, tokens, blockSize)
    ensures Keyed(Paths(keys, model, tokens, blockSize), keys, model, blockSize)
    ensures Elements(Paths(keys, model, tokens, blockSize)) == Prefixes(tokens, blockSize, |keys|)
  {
    var ps := Paths(keys, model, tokens, blockSize);
    forall i | 0 <= i < |ps| ensures Aligned(ps[i], blockSize) {
      BlockIsAligned(tokens, blockSize, i + 1);
    }
    PathsElements(keys, model, tokens, blockSize, |keys|);
    TakeAll(ps);
  }

  lemma {:induction false} PathsElements(keys: seq<BlockKey>, model: string, tokens: Tokens, blockSize: nat, n: nat)
    requires blockSize > 0 && AreKeys(keys, model, tokens, blockSize) && n <= |keys|
    ensures Elements(Paths(keys, model, tokens, blockSize)[..n]) == Prefixes(tokens, blockSize, n)
  {
    if n > 0 {
      PathsElements(keys, model, tokens, blockSize, n - 1);
      TakeNext(Paths(keys, model, tokens, blockSize), n - 1);
    }
  }

  lemma ElementsNext(ps: seq<Tokens>, i: nat)
    requires i < |ps|
    ensures Elements(ps[..i + 1]) == Elements(ps[..i]) + {ps[i]}
  {
    TakeNext(ps, i);
  }

  lemma AddToView(nodes: Nodes, p: Tokens, key: BlockKey, pin: bool)
    ensures View(AddTo(nodes, p, key, pin)) == WithAll(View(nodes), {p}, pin)
  {
    var after := AddTo(nodes, p, key, pin);
    assert View(after).registered == View(nodes).registered + {p};
    assert View(after).pinned == WithAll(View(nodes), {p}, pin).pinned;
  }

  function RemoveFrom(nodes: Nodes, p: Tokens, key: BlockKey): Nodes
    requires p in nodes
  {
    nodes[p := nodes[p].(blockKeys := nodes[p].blockKeys - {key})]
  }

  lemma RemoveFromView(nodes: Nodes, p: Tokens, model: string, blockSize: nat)
    requires blockSize > 0 && ValidNodes(nodes, model, blockSize) && p in nodes
    ensures View(RemoveFrom(nodes, p, KeyOf(model, p))) ==
      Step(View(nodes), model, blockSize, Remove([KeyOf(model, p)]))
  {
    forall q <- nodes ensures KeyOf(model, q) == KeyOf(model, p) ==> q == p {
      if KeyOf(model, q) == KeyOf(model, p) {
        KeyInjective(model, q, p);
      }
    }
    var after := RemoveFrom(nodes, p, KeyOf(model, p));
    assert View(after).registered == View(nodes).registered - {p};
    assert View(after).pinned == View(nodes).pinned;
    assert Removed(View(nodes).registered, model, [KeyOf(model, p)]) == View(nodes).registered - {p};
  }

  lemma RemoveFromValid(nodes: Nodes, paths: map<BlockKey, Tokens>, registered: set<BlockKey>, model: string,
                        blockSize: nat, key: BlockKey)
    requires blockSize > 0 && ValidNodes(nodes, model, blockSize) && ValidPaths(nodes, paths, registered, model)
    requires key in paths
    ensures ValidNodes(RemoveFrom(nodes, paths[key], key), model, blockSize)
    ensures ValidPaths(RemoveFrom(nodes, paths[key], key), paths - {key}, registered - {key}, model)
  {
    var p := paths[key];
    assert RemoveFrom(nodes, p, key)[p].blockKeys == {};
    forall q <- nodes ensures KeyOf(model, q) == key ==> q == p {
      if KeyOf(model, q) == key {
        KeyInjective(model, q, p);
      }
    }
  }

  lemma RemoveUnknown(nodes: Nodes, paths: map<BlockKey, Tokens>, registered: set<BlockKey>, model: string,
                      blockSize: nat, key: BlockKey)
    requires blockSize > 0 && ValidPaths(nodes, paths, registered, model) && key !in paths
    ensures Step(View(nodes), model, blockSize, Remove([key])) == View(nodes)
  {
    assert Removed(View(nodes).registered, model, [key]) == View(nodes).registered;
  }

  /** Removing keys one after another removes them all. */
  lemma RemoveOneMore(index: Index, model: string, blockSize: nat, keys: seq<BlockKey>, key: BlockKey)
    requires blockSize > 0
    ensures Step(Step(index, model, blockSize, Remove(keys)), model, blockSize, Remove([key])) ==
      Step(index, model, blockSize, Remove(keys + [key]))
  {
    assert Removed(Removed(index.registered, model, keys), model, [key]) ==
      Removed(index.registered, model, keys + [key]);
  }

  ghost predicate ValidNodes(nodes: Nodes, model: string, blockSize: nat)
    requires blockSize > 0
  {
    forall p {:trigger nodes[p]} | p in nodes :: Aligned(p, blockSize) && nodes[p].blockKeys <= {KeyOf(model, p)}
  }

  /** Paths and the set of keys name exactly the nodes that hold a key. */
  ghost predicate ValidPaths(nodes: Nodes, paths: map<BlockKey, Tokens>, registered: set<BlockKey>, model: string) {
    && paths.Keys == registered
    && (forall key {:trigger paths[key]} | key in paths ::
          paths[key] in nodes && KeyOf(model, paths[key]) == key && key in nodes[paths[key]].blockKeys)
    && (forall p {:trigger nodes[p]} | p in nodes :: nodes[p].blockKeys != {} ==> KeyOf(model, p) in paths)
  }

  /** Walks down the trie while the next node exists and is registered. */
  method MatchedBlocks(nodes: Nodes, tokens: Tokens, blockSize: nat) returns (blocks: nat)
    requires blockSize > 0
    ensures blocks == Run(View(nodes), tokens, blockSize, 0)
  {
    blocks := 0;
    while blocks < |tokens| / blockSize
      invariant blocks <= |tokens| / blockSize
      invariant Run(View(nodes), tokens, blockSize, blocks) == Run(View(nodes), tokens, blockSize, 0)
    {
      var child := Blocks(tokens, blockSize, blocks + 1);
      KnownIff(nodes, child);
      if child !in nodes || !IsRegistered(nodes[child]) {
        return;
      }
      blocks := blocks + 1;
    }
  }

  class TrieIndex {
    const model: string
    const blockSize: nat
    var nodes: Nodes
    var registered: set<BlockKey>
    var paths: map<BlockKey, Tokens>
    var prefixLengths: map<BlockKey, nat>

    ghost predicate Valid()
      reads this
    {
      blockSize > 0 && ValidNodes(nodes, model, blockSize) && ValidPaths(nodes, paths, registered, model)
    }

    constructor (model: string, blockSize: nat)
      requires blockSize > 0
      ensures Valid() && this.model == model && this.blockSize == blockSize
      ensures View(nodes) == Index({}, {}) && prefixLengths == map[]
    {
      this.model, this.blockSize := model, blockSize;
      nodes, registered, paths, prefixLengths := map[], {}, map[], map[];
    }

    method LookupPrefix(tokens: Tokens) returns (matched: nat)
      requires Valid()
      ensures matched == Lookup(View(nodes), tokens, blockSize)
    {
      var blocks := MatchedBlocks(nodes, tokens, blockSize);
      matched := blocks * blockSize;
    }

    /** Makes the node if need be, and puts the key on it. */
    method AddBlock(p: Tokens, key: BlockKey, pin: bool)
      requires Valid() && Aligned(p, blockSize) && key == KeyOf(model, p)
      modifies this`nodes, this`registered, this`paths
      ensures Valid()
      ensures View(nodes) == WithAll(old(View(nodes)), {p}, pin)
    {
      AddToView(nodes, p, key, pin);
      forall q <- nodes ensures KeyOf(model, q) == key ==> q == p {
        if KeyOf(model, q) == key {
          KeyInjective(model, q, p);
        }
      }
      nodes := AddTo(nodes, p, key, pin);
      registered := registered + {key};
      paths := paths[key := p];
    }

    /** Adds the nodes on a path, each with its key. */
    method AddPath(ps: seq<Tokens>, keys: seq<BlockKey>, pin: bool)
      requires Valid() && Keyed(ps, keys, model, blockSize)
      modifies this`nodes, this`registered, this`paths
      ensures Valid() && View(nodes) == WithAll(old(View(nodes)), Elements(ps), pin)
    {
      ghost var start := View(nodes);
      for i := 0 to |ps|
        invariant Valid() && View(nodes) == WithAll(start, Elements(ps[..i]), pin)
      {
        ElementsNext(ps, i);
        WithOneMore(start, Elements(ps[..i]), ps[i], pin);
        AddBlock(ps[i], keys[i], pin);
      }
      TakeAll(ps);
    }

    method RegisterBlocks(tokens: Tokens, numTokens: nat) returns (keys: seq<BlockKey>)
      requires Valid()
      modifies this`nodes, this`registered, this`paths
      ensures Valid() && View(nodes) == Step(old(View(nodes)), model, blockSize, Register(tokens, numTokens))
      ensures |keys| == BlockCount(tokens, numTokens, blockSize) && AreKeys(keys, model, tokens, blockSize)
    {
      keys := BlockKeys(model, blockSize, tokens, numTokens / blockSize);
      PathsAreKeyed(keys, model, tokens, blockSize);
      AddPath(Paths(keys, model, tokens, blockSize), keys, false);
    }

    /** Registers the blocks and, on the nodes passed, counts one more whole prefix that needs them. */
    method RegisterWholePrefix(tokens: Tokens, numTokens: nat) returns (key: BlockKey)
      requires Valid()
      modifies this`nodes, this`registered, this`paths, this`prefixLengths
      ensures Valid() && View(nodes) == Step(old(View(nodes)), model, blockSize, RegisterPrefix(tokens, numTokens))
      ensures key == KeyOf(model, Cut(tokens, numTokens)) && prefixLengths == old(prefixLengths)[key := numTokens]
    {
      key := KeyOf(model, Cut(tokens, numTokens));
      prefixLengths := prefixLengths[key := numTokens];
      var keys := BlockKeys(model, blockSize, tokens, numTokens / blockSize);
      PathsAreKeyed(keys, model, tokens, blockSize);
      AddPath(Paths(keys, model, tokens, blockSize), keys, true);
    }

    method RemoveBlock(key: BlockKey)
      requires Valid()
      modifies this`nodes, this`registered, this`paths
      ensures Valid()
      ensures View(nodes) == Step(old(View(nodes)), model, blockSize, Remove([key]))
    {
      if key in paths {
        var p := paths[key];
        RemoveFromView(nodes, p, model, blockSize);
        RemoveFromValid(nodes, paths, registered, model, blockSize, key);
        registered := registered - {key};
        paths := paths - {key};
        nodes := RemoveFrom(nodes, p, key);
      } else {
        RemoveUnknown(nodes, paths, registered, model, blockSize, key);
        registered := registered - {key};
        assert registered == old(registered);
      }
    }

    method RemoveBlocks(keys: seq<BlockKey>)
      requires Valid()
      modifies this`nodes, this`registered, this`paths
      ensures Valid() && View(nodes) == Step(old(View(nodes)), model, blockSize, Remove(keys))
    {
      for i := 0 to |keys|
        invariant Valid() && View(nodes) == Step(old(View(nodes)), model, blockSize, Remove(keys[..i]))
      {
        assert keys[..i + 1] == keys[..i] + [keys[i]];
        RemoveOneMore(old(View(nodes)), model, blockSize, keys[..i], keys[i]);
        RemoveBlock(keys[i]);
      }
      assert keys[..|keys|] == keys;
    }

    method Contains(key: BlockKey) returns (found: bool)
      requires Valid()
      ensures found <==> (exists p <- View(nodes).registered :: KeyOf(model, p) == key) || key in prefixLengths
    {
      found := key in registered || key in prefixLengths;
      assert key in registered ==> paths[key] in View(nodes).registered;
    }
  }
}
