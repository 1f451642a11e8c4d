/** The node invariant, and that accepting a block keeps it. */
module NodeInvariant {
  import opened Types
  import opened Records
  import opened TxCodec
  import opened Emission
  import opened Flags
  import opened Ledger
  import opened Freshness
  import opened Retarget
  import opened Chain
  import opened ForkChoice
  import opened Shape
  import opened Node
  import Merkle

  // ---- Chains in the store ----

  ghost function Objs(c: seq<FoundBlock<Block>>): (r: seq<Block>)
    ensures |r| == |c|
    ensures forall i :: 0 <= i < |c| ==> r[i] == c[i].obj
  {
    seq(|c|, i requires 0 <= i < |c| => c[i].obj)
  }

  /** The stored chain that ends at `tip`. */
  ghost function ChainAt(store: seq<Block>, tip: Hash): seq<Block> { Objs(ChainTo(Found(store), tip)) }

  /** Where the blocks of a stored chain sit. */
  lemma ChainSits(store: seq<Block>, tip: Hash) returns (at: seq<nat>)
    requires ChainAt(store, tip) != []
    ensures var c := ChainAt(store, tip);
            && |at| == |c|
            && (forall k :: 0 <= k < |at| ==> at[k] < |store| && c[k] == store[at[k]])
            && (forall k :: 0 <= k < |c| ==> c[k].height == k + 1)
            && c[0].prev == ZERO && c[|c| - 1].hash == tip
            && (forall k :: 0 < k < |c| ==> c[k].prev != ZERO)
            && (forall i, k :: 0 <= i < k == i + 1 < |c| ==> c[k].prev == c[i].hash)
  {
    hide LowestOf;
    hide PathTo;
    var f := ChainTo(Found(store), tip);
    ChainSound(Found(store), tip);
    at := PositionsOf(Found(store), f);
    var c := ChainAt(store, tip);
    assert forall k :: 0 <= k < |at| ==> Found(store)[at[k]] == f[k] && c[k] == f[k].obj;
  }

  lemma FoundAppend(store: seq<Block>, more: seq<Block>)
    ensures exists tail :: Found(store + more) == Found(store) + tail
                     && forall x, y :: x in Found(store) && y in tail ==> x.index <= y.index
  {
    var all, front := Found(store + more), Found(store);
    var tail := all[|store|..];
    assert all == front + tail;
    forall x, y | x in front && y in tail ensures x.index <= y.index {
      var i :| 0 <= i < |front| && front[i] == x;
      var j :| 0 <= j < |tail| && tail[j] == y;
      assert tail[j] == all[|store| + j];
    }
  }

  /** Chains survive later appends. */
  lemma ChainStays(store: seq<Block>, more: seq<Block>, tip: Hash)
    requires ChainAt(store, tip) != []
    ensures ChainAt(store + more, tip) == ChainAt(store, tip)
  {
    hide ChainTo;
    FoundAppend(store, more);
    var tail :| Found(store + more) == Found(store) + tail
             && forall x, y :: x in Found(store) && y in tail ==> x.index <= y.index;
    AppendKeepsChain(Found(store), tail, tip);
  }

  /** A chain cut at one of its blocks is the stored chain that ends there. */
  lemma ChainCut(store: seq<Block>, tip: Hash, k: nat)
    requires k < |ChainAt(store, tip)|
    ensures ChainAt(store, ChainAt(store, tip)[k].hash) == ChainAt(store, tip)[..k + 1]
  {
    hide ChainTo;
    var found := Found(store);
    var f, c := ChainTo(found, tip), ChainAt(store, tip);
    ObjHash(store, tip, k);
    ChainPrefix(found, tip, k);
    assert Objs(f[..k + 1]) == c[..k + 1];
  }

  lemma ObjHash(store: seq<Block>, tip: Hash, k: nat)
    requires k < |ChainTo(Found(store), tip)|
    ensures ChainTo(Found(store), tip)[k].hash == ChainTo(Found(store), tip)[k].obj.hash
  {
    hide PathTo;
    hide LowestOf;
    ChainSound(Found(store), tip);
    assert Answers(Found(store), ChainTo(Found(store), tip)[k]);
  }

  ghost predicate NotStored(store: seq<Block>, h: Hash) { forall i :: 0 <= i < |store| ==> store[i].hash != h }

  lemma NewAnswers(store: seq<Block>, b: Block)
    requires NotStored(store, b.hash)
    ensures Answers(Found(store + [b]), Found(store + [b])[|store|])
  {
    hide LowestOf;
    var all := Found(store + [b]);
    LowestOfMeans(all, |all|, b.hash);
    var r := Lowest(all, b.hash);
    assert all[|store|].hash == b.hash;
    assert forall j :: 0 <= j < |store| ==> all[j].hash == store[j].hash;
  }

  /** A block new to the store, on top of a stored chain or at the root, is the tip of the longer chain. */
  lemma ChainGrows(store: seq<Block>, c: seq<Block>, b: Block)
    requires NotStored(store, b.hash)
    requires c == [] ==> b.prev == ZERO
    requires c != [] ==> b.prev != ZERO && ChainAt(store, b.prev) == c
    requires b.height == |c| + 1
    ensures ChainAt(store + [b], b.hash) == c + [b]
  {
    hide ChainTo;
    hide Answers;
    hide NotStored;
    var all := Found(store + [b]);
    var below: seq<FoundBlock<Block>> := [];
    if c != [] {
      ChainStays(store, [b], b.prev);
      below := ChainTo(all, b.prev);
    }
    NewAnswers(store, b);
    ChainExtends(all, below, all[|store|]);
    assert Objs(below + [all[|store|]]) == c + [b];
  }

  // ---- The invariant ----

  /** The hash indexes point at stored blocks of that hash. They need not list every stored block. */
  ghost predicate Indexed(n: NodeState) {
    && (forall h :: h in n.indexOf ==> n.indexOf[h] < |n.store| && n.store[n.indexOf[h]].hash == h)
    && n.headers.Keys == n.indexOf.Keys
  }

  /** Every block of the active chain is indexed, with its own header. */
  ghost predicate Listed(n: NodeState, c: seq<Block>) {
    && (forall k :: 0 <= k < |c| ==> c[k].hash in n.indexOf)
    && (forall k :: 0 <= k < |c| ==> c[k].hash in n.headers && n.headers[c[k].hash] == HeaderOf(c[k]))
  }

  /** Every stored block is indexed: so it is until the first restart. */
  ghost predicate FullIndex(n: NodeState) { forall i :: 0 <= i < |n.store| ==> n.store[i].hash in n.indexOf }

  /** Every stored block carries its digest and its work, and its hash tops a good chain of stored blocks. */
  ghost predicate StoreGood(K: Oracle, W: World, store: seq<Block>) {
    forall i {:trigger store[i]} :: 0 <= i < |store| ==>
      Sealed(K, store[i]) && ChainAt(store, store[i].hash) != [] && GoodChain(K, W, ChainAt(store, store[i].hash))
  }

  /** `height_to_hash_` for an active chain: entry 0 is unused. */
  ghost function HeightsOf(c: seq<Block>): (r: seq<Hash>)
    ensures c == [] ==> r == []
    ensures c != [] ==> |r| == |c| + 1 && r[0] == ZERO && forall i :: 0 <= i < |c| ==> r[i + 1] == c[i].hash
  {
    if c == [] then [] else [ZERO] + seq(|c|, i requires 0 <= i < |c| => c[i].hash)
  }

  /** The tip and the height index are those of chain `c`. */
  ghost predicate Placed(n: NodeState, c: seq<Block>) {
    n.heights == HeightsOf(c) && n.bestHash == TipHash(c) && n.bestHeight == |c|
  }

  /** The ledger is like the one that replaying `c` gives. */
  ghost predicate Follows(W: World, n: NodeState, c: seq<Block>) {
    Replay(c).Some? && Alike(W, Replay(c).value, n.ledger)
  }

  /**
   * The node invariant with active chain `c`: indexes agree with the store, every stored block tops
   * a good chain, the tip and the height index are those of `c`, and the UTXO set and the flags are what
   * replaying `c` gives: to the last value in an exact world, and in shape otherwise.
   */
  ghost predicate NodeInv(K: Oracle, W: World, n: NodeState, c: seq<Block>) {
    && Indexed(n) && Listed(n, c) && StoreGood(K, W, n.store)
    && GoodChain(K, W, c) && Placed(n, c) && Follows(W, n, c)
    && (c == [] ==> n.store == []) && (c != [] ==> ChainAt(n.store, n.bestHash) == c)
  }

  /** What the checks of a submission look at: indexes, tip and ledger are those of the good chain `c`. */
  ghost predicate Tracks(K: Oracle, W: World, n: NodeState, c: seq<Block>) {
    Indexed(n) && Listed(n, c) && GoodChain(K, W, c) && Placed(n, c) && Follows(W, n, c)
  }

  lemma InvTracks(K: Oracle, W: World, n: NodeState, c: seq<Block>)
    requires NodeInv(K, W, n, c)
    ensures Tracks(K, W, n, c)
  {
    hide ChainAt;
    hide StoreGood;
    hide GoodChain;
    hide Indexed;
    hide Listed;
    hide Placed;
    hide Follows;
  }

  lemma StartInv(K: Oracle, W: World)
    ensures NodeInv(K, W, START, []) && FullIndex(START)
  {
  }

  // ---- What the state says about the tip ----

  lemma ActiveHeaders(K: Oracle, W: World, n: NodeState, c: seq<Block>, k: nat)
    requires NodeInv(K, W, n, c) && k < |c|
    ensures c[k].hash in n.headers && n.headers[c[k].hash] == HeaderOf(c[k]) && c[k].hash in n.indexOf
  {
    hide ChainAt;
    hide GoodChain;
    hide StoreGood;
    hide Replay;
    hide Indexed;
  }

  /** The header index and the height index give back the headers of the chain. */
  lemma HeadersRead(n: NodeState, c: seq<Block>, k: nat)
    requires Listed(n, c) && Placed(n, c) && k < |c|
    ensures n.heights != [] && BestHeader(n) == Some(HeaderOf(c[|c| - 1])) && HeaderAt(n, k + 1) == Some(HeaderOf(c[k]))
  {
    assert n.bestHash == c[|c| - 1].hash && n.heights[k + 1] == c[k].hash;
  }

  /** The difficulty the node demands is the one the chain determines. */
  lemma DifficultyIsChains(K: Oracle, W: World, n: NodeState, c: seq<Block>)
    requires GoodChain(K, W, c) && Listed(n, c) && Placed(n, c)
    ensures NextDifficulty(n) == ChainDifficulty(c)
  {
    hide GoodChain;
    hide RetargetBits;
    hide BestHeader;
    hide HeaderAt;
    hide Listed;
    if c != [] {
      GoodChainHeaders(K, W, c);
      HeadersRead(n, c, if |c| >= 10 then |c| - 10 else 0);
    }
  }

  /** The checks on the header pass if and only if it extends the chain, and form, challenge and clock agree. */
  lemma HeaderIff(K: Oracle, W: World, env: Env, n: NodeState, c: seq<Block>, b: Block)
    requires Tracks(K, W, n, c) && b.hash != ZERO
    ensures HeaderRefusal(env, n, b).None? <==>
              Extends(c, b) && env.form(b) && env.challenge(b) && b.timestamp <= env.now + 120
  {
    hide Follows;
    hide GoodChain;
    hide ChainDifficulty;
    hide NextDifficulty;
    hide Indexed;
    hide Listed;
    hide BestHeader;
    DifficultyIsChains(K, W, n, c);
    if c != [] { HeadersRead(n, c, |c| - 1); }
  }

  // ---- The stored form passes the same checks ----

  lemma {:induction false} NonZeroSums(outs: seq<CbOut>, role: Role)
    ensures RoleSum(NonZero(outs), role) == RoleSum(outs, role)
  {
    if outs != [] {
      var n := |outs| - 1;
      NonZeroSums(outs[..n], role);
      RoleSumSnoc(NonZero(outs[..n]), outs[n], role);
      assert NonZero(outs) == NonZero(outs[..n]) + (if outs[n].units == 0 then [] else [outs[n]]);
      assert outs[n].units == 0 ==> NonZero(outs) == NonZero(outs[..n]);
    }
  }

  lemma {:induction false} NonZeroFrom(outs: seq<CbOut>, i: nat)
    requires i < |NonZero(outs)|
    ensures NonZero(outs)[i] in outs
  {
    var n := |outs| - 1;
    if i < |NonZero(outs[..n])| { NonZeroFrom(outs[..n], i); }
  }

  lemma StoredCoinbaseOk(K: Oracle, h: nat, fee: nat, payout: Text, outs: seq<CbOut>)
    requires CoinbaseRefusal(h, fee, payout, K.foundation, outs, K.isPs1).None?
    ensures CoinbaseRefusal(h, fee, payout, K.foundation, NonZero(outs), K.isPs1).None?
  {
    hide NonZero;
    hide RoleSum;
    hide FeeShares;
    hide SubsidyRefusal;
    hide RowsRefusal;
    hide RolesRefusal;
    ScansPassIff(outs, payout, K.foundation);
    ScansPassIff(NonZero(outs), payout, K.foundation);
    forall role ensures RoleSum(NonZero(outs), role) == RoleSum(outs, role) { NonZeroSums(outs, role); }
    forall i | 0 <= i < |NonZero(outs)| ensures NonZero(outs)[i] in outs { NonZeroFrom(outs, i); }
  }

  lemma {:induction false} NonZeroFewer(outs: seq<CbOut>)
    ensures |NonZero(outs)| <= |outs|
  {
    if outs != [] { NonZeroFewer(outs[..|outs| - 1]); }
  }

  lemma StoredForm(K: Oracle, b: Block)
    ensures InStoredForm(K.sha, Stored(K.sha, b)) && |Stored(K.sha, b).coinbase| <= |b.coinbase|
  {
    NonZeroFewer(b.coinbase);
    hide Canonical;
    StoredCoinbase(K.sha, b);
  }

  lemma StoredSealed(K: Oracle, env: Env, b: Block)
    requires SealRefusal(K, env, b).None?
    ensures Sealed(K, Stored(K.sha, b))
  {
    hide CoinbaseOf;
    hide NonZero;
    hide Merkle.Root;
    StoredCoinbase(K.sha, b);
  }

  /** A block that passes on top of the active chain is, in stored form, a link of that chain. */
  lemma PassingIsLink(K: Oracle, W: World, env: Env, n: NodeState, c: seq<Block>, b: Block)
    requires NodeInv(K, W, n, c) && SubmitRefusal(K, env, n, b).None?
    requires b.hash != ZERO && |c| + 1 < U32 && |b.coinbase| < U32 && InCorpus(K, W.corpus, b)
    ensures Link(K, W, c, Stored(K.sha, b)) && BodyOk(K, n.ledger, Stored(K.sha, b))
    ensures StageBlock(K.sha, n.ledger, Stored(K.sha, b)) == StageBlock(K.sha, n.ledger, b)
    ensures StageBlock(K.sha, n.ledger, b).Some?
  {
    hide NodeInv;
    hide Tracks;
    hide SubmitRefusal;
    hide Link;
    hide BodyOk;
    hide StageBlock;
    InvTracks(K, W, n, c);
    TrackedLink(K, W, env, n, c, b);
  }

  lemma TrackedLink(K: Oracle, W: World, env: Env, n: NodeState, c: seq<Block>, b: Block)
    requires Tracks(K, W, n, c) && SubmitRefusal(K, env, n, b).None?
    requires b.hash != ZERO && |c| + 1 < U32 && |b.coinbase| < U32 && InCorpus(K, W.corpus, b)
    ensures Link(K, W, c, Stored(K.sha, b)) && BodyOk(K, n.ledger, Stored(K.sha, b))
    ensures StageBlock(K.sha, n.ledger, Stored(K.sha, b)) == StageBlock(K.sha, n.ledger, b)
    ensures StageBlock(K.sha, n.ledger, b).Some?
  {
    hide GoodChain;
    hide Indexed;
    hide Listed;
    hide Placed;
    hide Replay;
    hide CoinbaseOf;
    hide CoinbaseRefusal;
    hide Stage;
    hide Parsed;
    hide HeaderRefusal;
    hide SealRefusal;
    hide Sealed;
    hide ChainDifficulty;
    hide FeeSum;
    hide InStoredForm;
    hide NonZero;
    HeaderIff(K, W, env, n, c, b);
    StoredCoinbase(K.sha, b);
    StoredForm(K, b);
    StoredSealed(K, env, b);
    StoredCoinbaseOk(K, b.height, FeeWord(b.txs), b.payout, b.coinbase);
  }

  // ---- Two copies of one block ----

  /** One header, coinbases with one id, and transactions that agree on every committed field. */
  ghost predicate SameBody(K: Oracle, x: Block, y: Block) {
    HeaderOf(x) == HeaderOf(y) && SameId(CoinbaseOf(K.sha, x), CoinbaseOf(K.sha, y)) && SameTxs(x.txs, y.txs)
  }

  /** The coinbase outputs that `x` does not itself spend are those of `y`. */
  ghost predicate SameOutputs(K: Oracle, x: Block, y: Block) {
    OutputsAgree(CoinbaseOf(K.sha, x), CoinbaseOf(K.sha, y), x.txs)
  }

  /** Two blocks that do the same to a ledger, as closely as ledgers are followed. */
  ghost predicate SameEffect(K: Oracle, W: World, x: Block, y: Block) {
    SameBody(K, x, y) && (W.exact ==> SameOutputs(K, x, y))
  }

  /** The coinbase id of the top block is new: neither the ledger below nor its own transactions use it. */
  lemma TopCoinbaseNew(K: Oracle, W: World, c: seq<Block>, x: Block)
    requires CollisionFree(K.sha, W.corpus) && GoodChain(K, W, c + [x])
    ensures Replay(c).Some? && forall p :: p in Replay(c).value.utxo ==> p.txid != CoinbaseOf(K.sha, x).txid
    ensures forall i :: 0 <= i < |x.txs| ==> x.txs[i].txid != CoinbaseOf(K.sha, x).txid
  {
    hide Link;
    hide CollisionFree;
    hide CoinbaseOf;
    hide BodyOk;
    hide Alike;
    hide InCorpus;
    hide InStoredForm;
    hide Replay;
    hide NeverReused;
    hide InPoints;
    hide Honest;
    hide Ids;
    hide SpentIn;
    var d, past, cb := c + [x], History(K.sha, c), CoinbaseOf(K.sha, x);
    assert d[..|c|] == c && d[|c|] == x;
    GoodChainSound(K, W, c);
    var _ := LinkLedger(K, W, c, x);
    GoodChainHeaders(K, W, d);
    TopCoinbaseHonest(K, W, x);
    CoinbaseFresh(K.sha, W.corpus, past, cb);
    HistoryNeverReuses(K, W, d);
    assert History(K.sha, d) == past + [cb] + x.txs;
    forall i | 0 <= i < |x.txs| ensures x.txs[i].txid != cb.txid {
      NeverReusedPairwise(History(K.sha, d), |past|, |past| + 1 + i);
    }
  }

  lemma TopCoinbaseHonest(K: Oracle, W: World, x: Block)
    requires InCorpus(K, W.corpus, x) && x.height < U32
    ensures Honest(K.sha, W.corpus, CoinbaseOf(K.sha, x)) && CoinbaseOf(K.sha, x).coinbase
            && CoinbaseOf(K.sha, x).height == x.height
  {
    hide Canonical;
    CoinbaseHonest(K.sha, W.corpus, x);
  }

  /** What replaying the top block `x` of a good chain does, next to settling a copy `y` of it. */
  lemma CopyReplays(K: Oracle, W: World, c: seq<Block>, x: Block, t: State, y: Block)
    requires CollisionFree(K.sha, W.corpus) && GoodChain(K, W, c + [x]) && Replay(c).Some?
    requires Alike(W, Replay(c).value, t) && Link(K, W, c, y) && BodyOk(K, t, y)
    ensures StageBlock(K.sha, t, y).Some? && InStoredForm(K.sha, x) && InStoredForm(K.sha, y)
    ensures ReplayStored(t, y) == Some(SettleBlock(K.sha, t, y, StageBlock(K.sha, t, y).value))
    ensures Replay(c + [x]).Some? && Replay(c + [x]) == ReplayStored(Replay(c).value, x)
  {
    hide BodyOk;
    hide Alike;
    hide InStoredForm;
    hide InCorpus;
    hide Sealed;
    hide CollisionFree;
    hide ReplayStored;
    hide StageBlock;
    hide SettleBlock;
    hide CoinbaseOf;
    hide Sound;
    hide ChainDifficulty;
    var d := c + [x];
    assert d[..|c|] == c && d[|c|] == x;
    GoodChainSound(K, W, c);
    GoodChainSound(K, W, d);
    var _ := LinkLedger(K, W, c, x);
    ExtendAlike(K, W, History(K.sha, c), Replay(c).value, t, y);
  }

  lemma HeightsEqual(x: Block, y: Block)
    requires HeaderOf(x) == HeaderOf(y)
    ensures x.height == y.height && x.hash == y.hash && x.prev == y.prev
  {
    assert HeaderOf(x).height == x.height && HeaderOf(y).height == y.height;
    assert HeaderOf(x).hash == x.hash && HeaderOf(y).hash == y.hash;
    assert HeaderOf(x).prev == x.prev && HeaderOf(y).prev == y.prev;
  }

  /**
   * Settling a copy of a stored block leaves a ledger of the shape a replay of the stored one gives; and if
   * the ledger before was the replayed one, it is so after if and only if the outputs agree.
   */
  lemma CopyLedger(K: Oracle, W: World, c: seq<Block>, x: Block, t: State, y: Block)
    requires CollisionFree(K.sha, W.corpus) && GoodChain(K, W, c + [x]) && Replay(c).Some?
    requires Alike(W, Replay(c).value, t) && Link(K, W, c, y) && BodyOk(K, t, y) && SameBody(K, x, y)
    ensures StageBlock(K.sha, t, y).Some? && Replay(c + [x]).Some?
    ensures var s' := SettleBlock(K.sha, t, y, StageBlock(K.sha, t, y).value);
            && SameShape(Replay(c + [x]).value, s')
            && (t == Replay(c).value ==> (Replay(c + [x]).value == s' <==> SameOutputs(K, x, y)))
  {
    hide BodyOk;
    hide InStoredForm;
    hide CollisionFree;
    hide GoodChain;
    hide Replay;
    hide ReplayStored;
    hide ReplayBlock;
    hide StageBlock;
    hide SettleBlock;
    hide CoinbaseOf;
    hide SameShape;
    hide SameTxs;
    hide SameId;
    hide OutputsAgree;
    hide Link;
    CopyReplays(K, W, c, x, t, y);
    TopCoinbaseNew(K, W, c, x);
    HeightsEqual(x, y);
    var s, cx, cy := Replay(c).value, CoinbaseOf(K.sha, x), CoinbaseOf(K.sha, y);
    AlikeShape(W, s, t);
    StoredReplays(K.sha, s, x);
    StoredReplays(K.sha, t, y);
    CopiesOneShape(s, t, cx, cy, x.txs, y.txs, x.height);
    if t == s { LedgersEqualIff(s, cx, cy, x.txs, y.txs, x.height); }
  }

  /** The copy of a block that a replay will use: the one stored first, or the block itself if it is new. */
  ghost function FirstCopy(store: seq<Block>, b: Block): Block {
    var c := ChainAt(store, b.hash);
    if c == [] then b else c[|c| - 1]
  }

  /** If the block is accepted now, it does what the copy of it that was stored first does. */
  ghost predicate Agrees(K: Oracle, W: World, env: Env, n: NodeState, b: Block) {
    SubmitOutcome(K, env, n, b) == Accepted ==> SameEffect(K, W, FirstCopy(n.store, Stored(K.sha, b)), Stored(K.sha, b))
  }

  lemma ChainAtStored(store: seq<Block>, tip: Hash)
    requires ChainAt(store, tip) != []
    ensures exists i :: 0 <= i < |store| && store[i].hash == tip
  {
    hide ChainTo;
    var at := ChainSits(store, tip);
    assert store[at[|at| - 1]].hash == tip;
  }

  lemma CopyHash(store: seq<Block>, b: Block)
    ensures FirstCopy(store, b).hash == b.hash
  {
    hide ChainTo;
    if ChainAt(store, b.hash) != [] { var _ := ChainSits(store, b.hash); }
  }

  lemma SameEffectSelf(K: Oracle, W: World, b: Block)
    ensures SameEffect(K, W, b, b)
  {
    hide Canonical;
    hide Committed;
  }

  /** With a full index nothing can conflict. */
  lemma FullIndexAgrees(K: Oracle, W: World, env: Env, n: NodeState, b: Block)
    requires FullIndex(n)
    ensures Agrees(K, W, env, n, b)
  {
    hide ChainAt;
    hide Stored;
    hide SubmitRefusal;
    hide SameEffect;
    StoredHash(K.sha, b);
    SameEffectSelf(K, W, Stored(K.sha, b));
    if ChainAt(n.store, b.hash) != [] { ChainAtStored(n.store, b.hash); }
  }

  lemma StoredHash(sha: Sha, b: Block)
    ensures Stored(sha, b).hash == b.hash && Stored(sha, b).height == b.height && Stored(sha, b).prev == b.prev
  {
  }

  // ---- Accepting a block keeps the invariant ----

  lemma IndexGrows(n: NodeState, c: seq<Block>, x: Block, b: Block, s: State)
    requires Indexed(n) && Listed(n, c) && b.hash !in n.indexOf && HeaderOf(x) == HeaderOf(b)
    ensures var m := StoreBlock(n, b).(ledger := s); Indexed(m) && Listed(m, c + [x])
  {
    hide SetHeight;
    var m := StoreBlock(n, b).(ledger := s);
    assert x.hash == HeaderOf(x).hash == b.hash;
    forall h | h in m.indexOf ensures m.indexOf[h] < |m.store| && m.store[m.indexOf[h]].hash == h {
      if h != b.hash { assert m.store[n.indexOf[h]] == n.store[n.indexOf[h]]; }
    }
  }

  lemma StoreGrows(K: Oracle, W: World, store: seq<Block>, c: seq<Block>, b: Block)
    requires StoreGood(K, W, store) && c != [] && Sealed(K, b)
    requires ChainAt(store + [b], b.hash) == c && GoodChain(K, W, c)
    ensures StoreGood(K, W, store + [b])
  {
    hide ChainAt;
    hide GoodChain;
    hide Sealed;
    var all := store + [b];
    forall i | 0 <= i < |all|
      ensures Sealed(K, all[i]) && ChainAt(all, all[i].hash) != [] && GoodChain(K, W, ChainAt(all, all[i].hash))
    {
      if i < |store| {
        assert all[i] == store[i];
        ChainStays(store, [b], store[i].hash);
      }
    }
  }

  lemma HeightsGrow(c: seq<Block>, x: Block)
    requires x.height == |c| + 1
    ensures SetHeight(HeightsOf(c), x.height, x.hash) == HeightsOf(c + [x])
  {
  }

  lemma TipGrows(n: NodeState, c: seq<Block>, x: Block, b: Block, s: State)
    requires Placed(n, c) && HeaderOf(x) == HeaderOf(b) && b.height == |c| + 1
    ensures Placed(StoreBlock(n, b).(ledger := s), c + [x])
  {
    hide SetHeight;
    hide HeightsOf;
    HeightsEqual(x, b);
    HeightsGrow(c, x);
  }

  /** Settling the submitted block and settling its stored form are the same thing. */
  lemma ConnectIsStored(K: Oracle, n: NodeState, b: Block, staged: seq<Flag>)
    requires StageBlock(K.sha, n.ledger, b) == Some(staged)
    ensures Connect(K, n, b)
         == StoreBlock(n, Stored(K.sha, b)).(ledger := SettleBlock(K.sha, n.ledger, Stored(K.sha, b), staged))
  {
    hide CoinbaseOf;
    hide StageBlock;
    hide Settle;
    hide SettleOne;
    hide NonZero;
    StoredCoinbase(K.sha, b);
  }

  ghost predicate MayStore(K: Oracle, W: World, b: Block) {
    b.hash != ZERO && b.height < U32 && |b.coinbase| < U32 && InCorpus(K, W.corpus, b)
  }

  /** A block stored before sits on the active chain it is offered on. */
  lemma CopySits(store: seq<Block>, c: seq<Block>, h: Hash)
    requires c != [] && ChainAt(store, TipHash(c)) == c && TipHash(c) != ZERO && ChainAt(store, h) != []
    requires var e := ChainAt(store, h); e[|e| - 1].prev == TipHash(c)
    ensures ChainAt(store, h) == c + [ChainAt(store, h)[|ChainAt(store, h)| - 1]]
  {
    hide ChainAt;
    var e := ChainAt(store, h);
    var _ := ChainSits(store, h);
    var n := |e| - 1;
    assert n > 0;
    ChainCut(store, h, n - 1);
    assert e[n].prev == e[n - 1].hash;
    assert e[..n] == c;
  }

  /** The chain under a block just stored. */
  lemma ChainUnder(K: Oracle, W: World, n: NodeState, c: seq<Block>, b: Block)
    requires NodeInv(K, W, n, c) && b.hash !in n.indexOf && Link(K, W, c, b)
    requires HeaderOf(FirstCopy(n.store, b)) == HeaderOf(b)
    ensures ChainAt(n.store + [b], b.hash) == c + [FirstCopy(n.store, b)]
            && GoodChain(K, W, c + [FirstCopy(n.store, b)])
  {
    hide ChainAt;
    hide Replay;
    hide BodyOk;
    hide InStoredForm;
    hide InCorpus;
    hide Sealed;
    hide Indexed;
    hide Listed;
    hide HeightsOf;
    hide GoodChain;
    hide ChainDifficulty;
    if c != [] { TipNotZero(K, W, c); }
    if ChainAt(n.store, b.hash) == [] {
      GoodSnoc(K, W, c, b);
      ChainGrows(n.store, c, b);
    } else {
      ChainAtStored(n.store, b.hash);
      assert FirstCopy(n.store, b).prev == HeaderOf(FirstCopy(n.store, b)).prev == b.prev;
      CopySits(n.store, c, b.hash);
      ChainStays(n.store, [b], b.hash);
    }
  }

  /** The state after a block that passed was stored and settled. */
  ghost function AfterConnect(K: Oracle, n: NodeState, b: Block): NodeState
    requires StageBlock(K.sha, n.ledger, b).Some?
  {
    StoreBlock(n, b).(ledger := SettleBlock(K.sha, n.ledger, b, StageBlock(K.sha, n.ledger, b).value))
  }

  /**
   * A connected block is the new tip. The active chain grows by the copy of it that was stored first, the
   * block itself unless it was stored before, and the invariant holds for the longer chain if and only
   * if the ledger is like the one replaying that copy gives.
   */
  lemma ConnectKeepsIf(K: Oracle, W: World, n: NodeState, c: seq<Block>, b: Block)
    requires CollisionFree(K.sha, W.corpus) && NodeInv(K, W, n, c) && Link(K, W, c, b) && b.hash !in n.indexOf
    requires BodyOk(K, n.ledger, b) && SameBody(K, FirstCopy(n.store, b), b)
    ensures StageBlock(K.sha, n.ledger, b).Some? && Replay(c + [FirstCopy(n.store, b)]).Some?
    ensures var m, d := AfterConnect(K, n, b), c + [FirstCopy(n.store, b)];
            && ChainAt(m.store, m.bestHash) == d
            && (NodeInv(K, W, m, d) <==> Alike(W, Replay(d).value, m.ledger))
            && SameShape(Replay(d).value, m.ledger)
            && (n.ledger == Replay(c).value ==>
                  (Replay(d).value == m.ledger <==> SameOutputs(K, FirstCopy(n.store, b), b)))
  {
    hide ChainAt;
    hide Replay;
    hide StageBlock;
    hide SettleBlock;
    hide BodyOk;
    hide CollisionFree;
    hide StoreGood;
    hide Indexed;
    hide Listed;
    hide HeightsOf;
    hide SetHeight;
    hide GoodChain;
    hide FirstCopy;
    hide SameShape;
    hide SameId;
    hide SameTxs;
    hide SameOutputs;
    hide Alike;
    hide Link;
    hide Sealed;
    var x := FirstCopy(n.store, b);
    ChainUnder(K, W, n, c, b);
    CopyLedger(K, W, c, x, n.ledger, b);
    LinkHeight(K, W, c, b);
    HeightsEqual(x, b);
    var m := AfterConnect(K, n, b);
    TipGrows(n, c, x, b, m.ledger);
    IndexGrows(n, c, x, b, m.ledger);
    StoreGrows(K, W, n.store, c + [x], b);
  }

  lemma LinkHeight(K: Oracle, W: World, c: seq<Block>, b: Block)
    requires Link(K, W, c, b)
    ensures b.height == |c| + 1 && b.prev == TipHash(c) && Sealed(K, b)
  {
    hide BodyOk;
    hide Replay;
    hide ChainDifficulty;
    hide InStoredForm;
    hide InCorpus;
    hide Sealed;
    hide Alike;
  }

  /** In particular the invariant is kept by a block that does what its first copy does. */
  lemma ConnectKeeps(K: Oracle, W: World, n: NodeState, c: seq<Block>, b: Block)
    requires CollisionFree(K.sha, W.corpus) && NodeInv(K, W, n, c) && Link(K, W, c, b) && b.hash !in n.indexOf
    requires BodyOk(K, n.ledger, b) && SameEffect(K, W, FirstCopy(n.store, b), b)
    ensures StageBlock(K.sha, n.ledger, b).Some?
    ensures NodeInv(K, W, AfterConnect(K, n, b), c + [FirstCopy(n.store, b)])
  {
    hide ChainAt;
    hide Replay;
    hide StageBlock;
    hide AfterConnect;
    hide BodyOk;
    hide CollisionFree;
    hide StoreGood;
    hide Indexed;
    hide Listed;
    hide Placed;
    hide GoodChain;
    hide FirstCopy;
    hide SameShape;
    hide SameBody;
    hide SameOutputs;
    hide Link;
    ConnectKeepsIf(K, W, n, c, b);
  }

  lemma TipNotZero(K: Oracle, W: World, c: seq<Block>)
    requires GoodChain(K, W, c) && c != []
    ensures TipHash(c) != ZERO
  {
    hide GoodChain;
    GoodChainHeaders(K, W, c);
  }
}
