/**
 * Blocks stored twice. After a restart the hash index lacks side branches, so a block stored before can
 * be accepted a second time, and a replay uses the copy stored first.
 *
 * When hashes do not collide the two copies have one header, one list of ids and the same committed
 * fields (`PassingSameBody`), and runs keep tip, indexes and the shape of the ledger. The ledger itself is
 * kept if and only if the coinbase outputs agree; `SwappedCopyBreaks` shows that the source does not see to that.
 */
module Copies {
  import opened Types
  import opened LittleEndian
  import opened Records
  import opened TxCodec
  import opened Emission
  import opened Ledger
  import opened Freshness
  import opened Shape
  import opened Chain
  import opened Node
  import opened NodeInvariant
  import opened NodeReplay
  import opened NodeAdopt
  import opened NodeRuns
  import opened Commitment
  import opened Oversize
  import Merkle

  // ---- Without collisions a copy has the same body ----

  /** Neither the digests nor the merkle trees of two blocks collide. */
  ghost predicate NoClash(K: Oracle, x: Block, y: Block) {
    && (K.digest(PreimageOf(x)) == K.digest(PreimageOf(y)) ==> PreimageOf(x) == PreimageOf(y))
    && TreesApart(K, TxIds(K, x), TxIds(K, y))
  }

  /** Equal encodings have as many outputs. */
  lemma SameOutputCount(a: Tx, b: Tx)
    requires Canonical(a) == Canonical(b) && a.inputs == [] && b.inputs == [] && |a.outputs| < U32 && |b.outputs| < U32
    ensures |a.outputs| == |b.outputs|
  {
    Widths();
    InputsFollow(a);
    InputsFollow(b);
    var ra, rb := EncodeOuts(a.outputs) + Tail(a), EncodeOuts(b.outputs) + Tail(b);
    CountFollows(a, ra);
    CountFollows(b, rb);
    LEInjective(|a.outputs|, |b.outputs|, 4);
  }

  lemma CountFollows(t: Tx, rest: Bytes)
    requires t.inputs == [] && rest == EncodeOuts(t.outputs) + Tail(t)
    ensures |Canonical(t)| >= 16 && Canonical(t)[8..][4..8] == LE(|t.outputs|, 4)
  {
    InputsFollow(t);
    var body := Canonical(t)[8..];
    assert EncodeIns(t.inputs) == [];
    assert body == LE(0, 4) + ([] + (LE(|t.outputs|, 4) + rest));
    assert [] + (LE(|t.outputs|, 4) + rest) == LE(|t.outputs|, 4) + rest;
    assert body[4..] == LE(|t.outputs|, 4) + rest;
    assert body[4..8] == body[4..][..4];
  }

  lemma CoinbaseShape(sha: Sha, b: Block)
    ensures CoinbaseOf(sha, b).inputs == [] && |CoinbaseOf(sha, b).outputs| <= |b.coinbase|
  {
    hide Canonical;
    NonZeroFewer(b.coinbase);
  }

  /** The tips of two good chains of one length with one hash have the same body. */
  lemma SameHashSameBody(K: Oracle, W: World, c: seq<Block>, d: seq<Block>)
    requires CollisionFree(K.sha, W.corpus) && GoodChain(K, W, c) && GoodChain(K, W, d) && |c| == |d| > 0
    requires c[|c| - 1].hash == d[|d| - 1].hash && NoClash(K, c[|c| - 1], d[|d| - 1])
    ensures SameBody(K, c[|c| - 1], d[|d| - 1])
    ensures var x, y := CoinbaseOf(K.sha, c[|c| - 1]), CoinbaseOf(K.sha, d[|d| - 1]);
            Fits(x) && Fits(y) ==> SameOutputs(K, c[|c| - 1], d[|d| - 1])
  {
    hide GoodChain;
    hide CollisionFree;
    hide Canonical;
    hide CoinbaseOf;
    hide Committed;
    hide Fits;
    hide TreesApart;
    hide Merkle.Root;
    hide TxIds;
    hide InCorpus;
    hide InStoredForm;
    hide Chain.Parsed;
    var x, y := c[|c| - 1], d[|d| - 1];
    LastLink(K, W, c);
    LastLink(K, W, d);
    RootCommits(K, W, c, d);
    CoinbaseShape(K.sha, x);
    CoinbaseShape(K.sha, y);
    SameOutputCount(CoinbaseOf(K.sha, x), CoinbaseOf(K.sha, y));
    SameIdsEach(K, x, y);
  }

  lemma SameIdsEach(K: Oracle, x: Block, y: Block)
    requires TxIds(K, x) == TxIds(K, y) && |x.txs| == |y.txs|
    ensures CoinbaseOf(K.sha, x).txid == CoinbaseOf(K.sha, y).txid
    ensures forall i :: 0 <= i < |x.txs| ==> x.txs[i].txid == y.txs[i].txid
  {
    hide CoinbaseOf;
    var ix, iy := TxIds(K, x), TxIds(K, y);
    assert ix[0] == iy[0];
    forall i | 0 <= i < |x.txs| ensures x.txs[i].txid == y.txs[i].txid { assert ix[i + 1] == iy[i + 1]; }
  }

  lemma CopyLength(K: Oracle, W: World, n: NodeState, c: seq<Block>, h: Hash)
    requires NodeInv(K, W, n, c) && ChainAt(n.store, h) != []
    requires var e := ChainAt(n.store, h); e[|e| - 1].prev == TipHash(c)
    ensures |ChainAt(n.store, h)| == |c| + 1
  {
    hide GoodChain;
    hide ChainAt;
    hide Replay;
    hide Indexed;
    hide Listed;
    hide StoreGood;
    hide HeightsOf;
    hide Alike;
    var at := ChainSits(n.store, h);
    assert at[0] < |n.store|;
    TipNotZero(K, W, c);
    CopySits(n.store, c, h);
  }

  /** A block that passes has the body of whatever copy of it is stored, and its outputs too if both coinbases fit. */
  lemma PassingSameBody(K: Oracle, W: World, env: Env, n: NodeState, c: seq<Block>, b: Block)
    requires CollisionFree(K.sha, W.corpus) && NodeInv(K, W, n, c) && MayStore(K, W, b)
    requires SubmitRefusal(K, env, n, b).None? && NoClash(K, FirstCopy(n.store, Stored(K.sha, b)), Stored(K.sha, b))
    ensures var x, y := FirstCopy(n.store, Stored(K.sha, b)), Stored(K.sha, b);
            && SameBody(K, x, y)
            && (Fits(CoinbaseOf(K.sha, x)) && Fits(CoinbaseOf(K.sha, y)) ==> SameOutputs(K, x, y))
  {
    hide NodeInv;
    hide SubmitRefusal;
    hide CollisionFree;
    hide GoodChain;
    hide ChainAt;
    hide Link;
    hide BodyOk;
    hide Stored;
    hide TreesApart;
    hide StageBlock;
    hide CoinbaseOf;
    hide Fits;
    hide StoreGood;
    hide SameBody;
    hide SameOutputs;
    hide NotStored;
    hide InCorpus;
    hide InStoredForm;
    hide Chain.Parsed;
    hide Merkle.Root;
    hide TxIds;
    hide Listed;
    hide Placed;
    var y, e := Stored(K.sha, b), ChainAt(n.store, b.hash);
    StoredHash(K.sha, b);
    PassingHeight(K, W, env, n, c, b);
    PassingIsLink(K, W, env, n, c, b);
    if e == [] {
      BodySelf(K, y);
    } else {
      var x := e[|e| - 1];
      CopyHash(n.store, y);
      ActiveParts(K, W, n, c);
      GoodSnoc(K, W, c, y);
      StoreIsGood(K, W, n, c);
      StoredChain(K, W, n.store, b.hash);
      LastLink(K, W, e);
      LastLink(K, W, c + [y]);
      assert PreimageOf(x).prev == PreimageOf(y).prev;
      CopyLength(K, W, n, c, b.hash);
      SameHashSameBody(K, W, e, c + [y]);
    }
  }

  lemma BodySelf(K: Oracle, b: Block)
    ensures SameBody(K, b, b) && SameOutputs(K, b, b)
  {
    hide Canonical;
    hide Committed;
  }

  // ---- Runs without collisions ----

  /** Both coinbases fit the wire format, or they pay the same anyway. */
  ghost predicate SamePay(K: Oracle, x: Block, y: Block) {
    (Fits(CoinbaseOf(K.sha, x)) && Fits(CoinbaseOf(K.sha, y))) || SameOutputs(K, x, y)
  }

  /** If the block is accepted now, it does not clash with its first copy; in an exact world it also pays the same. */
  ghost predicate Apart(K: Oracle, W: World, env: Env, n: NodeState, b: Block) {
    SubmitOutcome(K, env, n, b) == Accepted ==>
      var x, y := FirstCopy(n.store, Stored(K.sha, b)), Stored(K.sha, b);
      NoClash(K, x, y) && (W.exact ==> SamePay(K, x, y))
  }

  lemma ApartAgrees(K: Oracle, W: World, env: Env, n: NodeState, c: seq<Block>, b: Block)
    requires CollisionFree(K.sha, W.corpus) && NodeInv(K, W, n, c) && MayStore(K, W, b) && Apart(K, W, env, n, b)
    ensures Agrees(K, W, env, n, b)
  {
    hide NodeInv;
    hide SubmitRefusal;
    hide MayStore;
    hide CollisionFree;
    hide NoClash;
    hide SameBody;
    hide SameOutputs;
    hide FirstCopy;
    hide Stored;
    hide Fits;
    if SubmitOutcome(K, env, n, b) == Accepted { PassingSameBody(K, W, env, n, c, b); }
  }

  ghost predicate FeedApart(K: Oracle, W: World, envs: seq<Env>, n: NodeState, blocks: seq<Block>, k: nat)
    requires |envs| == |blocks| && k <= |blocks|
  {
    forall j :: 0 <= j < k && Feed(K, envs, n, blocks, j).ok ==>
      Apart(K, W, envs[j], Feed(K, envs, n, blocks, j).node, blocks[j])
  }

  /** Feeding block by block: the invariant so far makes the next block agree. */
  lemma {:induction false} FeedApartAgrees(K: Oracle, W: World, envs: seq<Env>, n: NodeState, c: seq<Block>,
                                           blocks: seq<Block>, k: nat)
    requires CollisionFree(K.sha, W.corpus) && NodeInv(K, W, n, c) && AllMayStore(K, W, blocks)
    requires |envs| == |blocks| && k <= |blocks| && FeedApart(K, W, envs, n, blocks, k)
    ensures forall j :: 0 <= j < k && Feed(K, envs, n, blocks, j).ok ==>
              Agrees(K, W, envs[j], Feed(K, envs, n, blocks, j).node, blocks[j])
    ensures NodeInv(K, W, Feed(K, envs, n, blocks, k).node, FedChain(K, envs, n, c, blocks, k))
  {
    hide NodeInv;
    hide Submit;
    hide SubmitOutcome;
    hide MayStore;
    hide Agrees;
    hide Apart;
    hide CollisionFree;
    hide ChainAfter;
    if k > 0 {
      FeedApartAgrees(K, W, envs, n, c, blocks, k - 1);
      var f, d := Feed(K, envs, n, blocks, k - 1), FedChain(K, envs, n, c, blocks, k - 1);
      if f.ok {
        ApartAgrees(K, W, envs[k - 1], f.node, d, blocks[k - 1]);
        SubmitKeeps(K, W, envs[k - 1], f.node, d, blocks[k - 1]);
      }
    }
  }

  ghost predicate StepApart(K: Oracle, W: World, n: NodeState, step: Step)
    requires Sized(step)
  {
    match step
    case SubmitStep(env, b) => Apart(K, W, env, n, b)
    case AdoptStep(envs, ancestor, blocks) =>
      StartOf(n, ancestor).Replayed? ==> FeedApart(K, W, envs, StartOf(n, ancestor).node, blocks, |blocks|)
    case ReplayStep(_) => true
    case RestartStep => true
  }

  lemma StepApartAgrees(K: Oracle, W: World, n: NodeState, c: seq<Block>, step: Step)
    requires CollisionFree(K.sha, W.corpus) && NodeInv(K, W, n, c)
    requires Sized(step) && StepOk(K, W, step) && StepApart(K, W, n, step)
    ensures StepAgrees(K, W, n, step)
  {
    hide NodeInv;
    hide MayStore;
    hide AllMayStore;
    hide Agrees;
    hide Apart;
    hide CollisionFree;
    hide StartOf;
    hide Appended;
    hide ChainAt;
    hide Hashes;
    match step
    case SubmitStep(env, b) =>
      ApartAgrees(K, W, env, n, c, b);
    case AdoptStep(envs, ancestor, blocks) =>
      AdoptStart(K, W, n, c, ancestor);
      if StartOf(n, ancestor).Replayed? {
        FeedApartAgrees(K, W, envs, StartOf(n, ancestor).node, ChainAt(n.store, ancestor), blocks, |blocks|);
      }
    case ReplayStep(_) =>
    case RestartStep =>
  }

  /** A run in which blocks accepted after a restart do not clash with the copies of them stored before. */
  ghost predicate RunApart(K: Oracle, W: World, steps: seq<Step>, k: nat)
    requires k <= |steps|
  {
    && AllSized(steps) && (forall i :: 0 <= i < |steps| ==> StepOk(K, W, steps[i]))
    && (forall j :: 0 <= j < k && Restarted(steps, j) ==> StepApart(K, W, RunTo(K, steps, j), steps[j]))
  }

  lemma RunApartStep(K: Oracle, W: World, steps: seq<Step>, k: nat)
    requires k < |steps| && RunApart(K, W, steps, k + 1)
    ensures RunApart(K, W, steps, k) && Sized(steps[k]) && StepOk(K, W, steps[k])
    ensures Restarted(steps, k) ==> StepApart(K, W, RunTo(K, steps, k), steps[k])
  {
    hide Restarted;
    hide RunTo;
    hide StepApart;
    hide StepOk;
  }

  lemma RunOkStep(K: Oracle, W: World, steps: seq<Step>, k: nat)
    requires k < |steps| && RunOk(K, W, steps, k)
    requires Restarted(steps, k) ==> StepAgrees(K, W, RunTo(K, steps, k), steps[k])
    ensures RunOk(K, W, steps, k + 1)
  {
    hide Restarted;
    hide RunTo;
    hide StepAgrees;
    hide StepOk;
  }

  /**
   * In every run without collisions, restarts included, tip, height index, flags, and the outpoints and heights of
   * the UTXO set are what a plain replay of the active stored chain gives, and every stored block tops a
   * chain that replays. In an exact world, where the coinbases of copies also fit the wire format, the whole ledger is.
   */
  lemma {:induction false} ApartRunKeepsInv(K: Oracle, W: World, steps: seq<Step>, k: nat)
    requires CollisionFree(K.sha, W.corpus) && k <= |steps| && RunApart(K, W, steps, k)
    ensures RunOk(K, W, steps, k) && NodeInv(K, W, RunTo(K, steps, k), ActiveChain(RunTo(K, steps, k)))
  {
    hide NodeInv;
    hide ActiveChain;
    hide CollisionFree;
    hide StepOk;
    hide StepApart;
    hide StepAgrees;
    hide Restarted;
    hide After;
    hide FullIndex;
    if k > 0 {
      RunApartStep(K, W, steps, k - 1);
      ApartRunKeepsInv(K, W, steps, k - 1);
      var n := RunTo(K, steps, k - 1);
      if Restarted(steps, k - 1) { StepApartAgrees(K, W, n, ActiveChain(n), steps[k - 1]); }
      RunOkStep(K, W, steps, k - 1);
    }
    EveryRunKeepsInv(K, W, steps, k);
  }

  // ---- A copy that pays other outputs ----

  /** A block without transactions with the coinbase given, its id left to the node. */
  function WithCoinbase(b: Block, outs: seq<CbOut>): Block { b.(coinbase := outs, cbTxid := None, txs := []) }

  lemma NoTransactions(K: Oracle, s: State, b: Block)
    requires b.txs == []
    ensures StageBlock(K.sha, s, b).Some? && FeeWord(b.txs) == 0
  {
    hide CoinbaseOf;
  }

  /** Blocks that differ in coinbase outputs alone, under one id, have one seal. */
  lemma SwapSeals(K: Oracle, env: Env, b: Block, u: seq<CbOut>, v: seq<CbOut>)
    requires Collide(K.sha, b.height, u, v) && SealRefusal(K, env, WithCoinbase(b, u)).None?
    requires env.fits(Stored(K.sha, WithCoinbase(b, v)))
    ensures SealRefusal(K, env, WithCoinbase(b, v)).None?
  {
    hide CoinbaseFrom;
    hide Merkle.Root;
    hide NonZero;
  }

  lemma SwapHeader(K: Oracle, env: Env, n: NodeState, b: Block, u: seq<CbOut>, v: seq<CbOut>)
    requires HeaderRefusal(env, n, WithCoinbase(b, u)).None?
    requires env.form(WithCoinbase(b, v)) && env.challenge(WithCoinbase(b, v))
    ensures HeaderRefusal(env, n, WithCoinbase(b, v)).None?
  {
    hide NextDifficulty;
  }

  /** What the environment decides about the second block: its shape, its challenge and its size. */
  ghost predicate Admits(K: Oracle, env: Env, y: Block) {
    env.form(y) && env.challenge(y) && env.fits(Stored(K.sha, y))
  }

  lemma SwapPasses(K: Oracle, env: Env, n: NodeState, b: Block)
    requires b.height < MINER216_HEIGHT && b.payout != []
    requires SubmitRefusal(K, env, n, WithCoinbase(b, Validators1(b.payout))).None?
    requires Admits(K, env, WithCoinbase(b, Validators2(b.payout)))
    ensures SubmitRefusal(K, env, n, WithCoinbase(b, Validators2(b.payout))).None?
  {
    hide HeaderRefusal;
    hide SealRefusal;
    hide CoinbaseRefusal;
    hide CoinbaseOf;
    hide StageBlock;
    hide FeeWord;
    hide Stored;
    hide Collide;
    hide Long1;
    hide Long2;
    hide NonZero;
    var u, v := Validators1(b.payout), Validators2(b.payout);
    var y := WithCoinbase(b, v);
    ValidatorsCollide(K.sha, b.height, b.payout, K.foundation, K.isPs1);
    SwapHeader(K, env, n, b, u, v);
    SwapSeals(K, env, b, u, v);
    NoTransactions(K, n.ledger, y);
    NonZeroOfPaid(v);
  }

  lemma SwapBody(K: Oracle, b: Block, u: seq<CbOut>, v: seq<CbOut>)
    requires Collide(K.sha, b.height, u, v)
    ensures var x, y := Stored(K.sha, WithCoinbase(b, u)), Stored(K.sha, WithCoinbase(b, v));
            SameBody(K, x, y) && !SameOutputs(K, x, y)
  {
    hide Canonical;
    hide NonZero;
    var bx, bz := WithCoinbase(b, u), WithCoinbase(b, v);
    StoredCoinbase(K.sha, bx);
    StoredCoinbase(K.sha, bz);
    var cx, cy := CoinbaseOf(K.sha, bx), CoinbaseOf(K.sha, bz);
    assert SpentIn([]) == {};
    assert exists i :: 0 <= i < |cx.outputs| && cx.outputs[i] != cy.outputs[i];
  }

  /** A block with one validator list, and with the other. */
  ghost function One(b: Block): Block { WithCoinbase(b, Validators1(b.payout)) }

  ghost function Other(b: Block): Block { WithCoinbase(b, Validators2(b.payout)) }

  /** The block is stored but not indexed, and the copy stored first is this one. */
  ghost predicate Forgotten(K: Oracle, n: NodeState, x: Block) {
    x.hash !in n.indexOf && ChainAt(n.store, x.hash) != [] && FirstCopy(n.store, Stored(K.sha, x)) == Stored(K.sha, x)
  }

  lemma FirstByHash(store: seq<Block>, x: Block, y: Block)
    requires x.hash == y.hash && ChainAt(store, x.hash) != []
    ensures FirstCopy(store, x) == FirstCopy(store, y)
  {
    hide ChainAt;
  }

  lemma OtherFacts(K: Oracle, W: World, env: Env, n: NodeState, b: Block)
    requires b.height < MINER216_HEIGHT && b.payout != [] && MayStore(K, W, One(b)) && Admits(K, env, Other(b))
    requires SubmitRefusal(K, env, n, One(b)).None? && Forgotten(K, n, One(b))
    ensures SubmitOutcome(K, env, n, Other(b)) == Accepted && MayStore(K, W, Other(b))
    ensures FirstCopy(n.store, Stored(K.sha, Other(b))) == Stored(K.sha, One(b))
    ensures SameBody(K, Stored(K.sha, One(b)), Stored(K.sha, Other(b)))
    ensures !SameOutputs(K, Stored(K.sha, One(b)), Stored(K.sha, Other(b)))
  {
    hide SubmitRefusal;
    hide ChainAt;
    hide FirstCopy;
    hide Stored;
    hide SameBody;
    hide SameOutputs;
    hide MayStore;
    hide Collide;
    hide Long1;
    hide Long2;
    ValidatorsCollide(K.sha, b.height, b.payout, K.foundation, K.isPs1);
    SwapPasses(K, env, n, b);
    SwapBody(K, b, Validators1(b.payout), Validators2(b.payout));
    SwapMayStore(K, W, b, Validators1(b.payout), Validators2(b.payout));
    StoredHash(K.sha, One(b));
    StoredHash(K.sha, Other(b));
    FirstByHash(n.store, Stored(K.sha, One(b)), Stored(K.sha, Other(b)));
  }

  /**
   * The source does not keep the ledger. On any reachable node, take a block on top of the active chain that
   * is stored but not indexed and pays two validators below height 32. The same block with the other
   * validator list passes every check, is accepted, and leaves a ledger that no stored chain replays to.
   */
  lemma SwappedCopyBreaks(K: Oracle, W: World, env: Env, n: NodeState, c: seq<Block>, b: Block, e: seq<Block>)
    requires W.exact && CollisionFree(K.sha, W.corpus) && NodeInv(K, W, n, c)
    requires b.height < MINER216_HEIGHT && b.payout != [] && MayStore(K, W, One(b)) && Admits(K, env, Other(b))
    requires SubmitRefusal(K, env, n, One(b)).None? && Forgotten(K, n, One(b))
    ensures SubmitOutcome(K, env, n, Other(b)) == Accepted && !NodeInv(K, W, Submit(K, env, n, Other(b)), e)
  {
    hide NodeInv;
    hide SubmitRefusal;
    hide SubmitOutcome;
    hide CollisionFree;
    hide Forgotten;
    hide Admits;
    hide MayStore;
    hide FirstCopy;
    hide One;
    hide Other;
    hide Submit;
    hide Stored;
    hide SameBody;
    hide SameOutputs;
    hide Replay;
    hide SameShape;
    OtherFacts(K, W, env, n, b);
    SubmitKeepsIff(K, W, env, n, c, Other(b), e);
  }

  /** The state after a restart and a replay to the parent of a stored block. */
  ghost function Revisited(n: NodeState, x: Block): (p: NodeState) {
    if !Restart(n).Replayed? then n else
    var r := ReplayTo(Restart(n).node, x.prev);
    if r.Replayed? then r.node else Restart(n).node
  }

  /** Every stored block above the first height that a restart leaves off its chain becomes such a block. */
  lemma RestartForgets(K: Oracle, W: World, n: NodeState, c: seq<Block>, x: Block)
    requires CollisionFree(K.sha, W.corpus) && NodeInv(K, W, n, c)
    requires var e := ChainAt(n.store, x.hash); |e| >= 2 && e[|e| - 1] == x && x.hash !in Hashes(RestoredChain(n))
    ensures var p, e := Revisited(n, x), ChainAt(n.store, x.hash);
            p.store == n.store && x.hash !in p.indexOf && NodeInv(K, W, p, e[..|e| - 1])
  {
    hide NodeInv;
    hide ChainAt;
    hide Restart;
    hide RestoredChain;
    hide ReplayTo;
    hide CollisionFree;
    hide NotStored;
    hide Active;
    RestartWorks(K, W, n, c);
    var m, e := Restart(n).node, ChainAt(n.store, x.hash);
    var k := |e| - 2;
    var at := ChainSits(n.store, x.hash);
    assert e[k + 1].prev == e[k].hash;
    ChainCut(n.store, x.hash, k);
    StillThere(n.store, at[k]);
    ReplayWorks(K, W, m, RestoredChain(n), x.prev);
    ChainDistinct(n.store, x.hash, k + 1);
    var front := e[..k + 1];
    forall j | 0 <= j < |front| ensures front[j].hash != x.hash { assert front[j] == e[j]; }
  }

  lemma StillThere(store: seq<Block>, i: nat)
    requires i < |store|
    ensures !NotStored(store, store[i].hash)
  {
  }

  /**
   * Two steps away from every node with a forgotten side block of that kind: restart, replay to its parent,
   * and the other copy is accepted and breaks the ledger.
   */
  lemma RestartThenSwapBreaks(K: Oracle, W: World, env: Env, n: NodeState, c: seq<Block>, b: Block, e: seq<Block>)
    requires W.exact && CollisionFree(K.sha, W.corpus) && NodeInv(K, W, n, c)
    requires 1 < b.height < MINER216_HEIGHT && b.payout != [] && MayStore(K, W, One(b)) && Admits(K, env, Other(b))
    requires var d := ChainAt(n.store, b.hash);
             d != [] && d[|d| - 1] == Stored(K.sha, One(b)) && b.hash !in Hashes(RestoredChain(n))
    requires SubmitRefusal(K, env, Revisited(n, Stored(K.sha, One(b))), One(b)).None?
    ensures var p := Revisited(n, Stored(K.sha, One(b)));
            SubmitOutcome(K, env, p, Other(b)) == Accepted && !NodeInv(K, W, Submit(K, env, p, Other(b)), e)
  {
    hide NodeInv;
    hide SubmitRefusal;
    hide SubmitOutcome;
    hide CollisionFree;
    hide ChainAt;
    hide Submit;
    hide Stored;
    hide RestoredChain;
    hide Revisited;
    hide Admits;
    hide MayStore;
    hide Other;
    hide Validators1;
    hide Hashes;
    var x, d := Stored(K.sha, One(b)), ChainAt(n.store, b.hash);
    StoredHash(K.sha, One(b));
    var _ := ChainSits(n.store, b.hash);
    assert |d| >= 2;
    RestartForgets(K, W, n, c, x);
    SwappedCopyBreaks(K, W, env, Revisited(n, x), d[..|d| - 1], b, e);
  }

  lemma SwapMayStore(K: Oracle, W: World, b: Block, u: seq<CbOut>, v: seq<CbOut>)
    requires Collide(K.sha, b.height, u, v) && MayStore(K, W, WithCoinbase(b, u)) && |v| < U32
    ensures MayStore(K, W, WithCoinbase(b, v))
  {
    hide Canonical;
    hide CoinbaseFrom;
  }
}
