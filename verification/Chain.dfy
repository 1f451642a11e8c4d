/**
 * Blocks, the stored form of a block, and chains of accepted blocks.
 *
 * `GoodChain` says that each block passed the checks of `rpc_submitblock` on top of the ones
 * below it. What holds along every such chain is proved here: it replays, ids are never reused,
 * and timestamps and difficulties behave.
 */
module Chain {
  import opened Types
  import opened Records
  import opened TxCodec
  import opened Emission
  import opened Flags
  import opened Ledger
  import opened Freshness
  import opened Retarget
  import opened Shape
  import Merkle

  datatype Block = Block(hash: Hash, prev: Hash, height: nat, timestamp: nat, difficulty: nat, nonce: nat, merkle: Hash,
                         payout: Text, coinbase: seq<CbOut>, cbTxid: Option<Hash>, txs: seq<Tx>, proof: Bytes)

  /** What the block digest is taken over. */
  datatype Preimage = Preimage(prev: Hash, merkle: Hash, timestamp: nat, difficulty: nat, nonce: nat, proof: Bytes,
                               second: bool)

  /** Foreign functions, and the foundation address. */
  datatype Oracle = Oracle(sha: Sha, pair: (Hash, Hash) -> Hash, digest: Preimage -> Hash, pow: (Hash, nat) -> bool,
                           isPs1: Text -> bool, foundation: Text)

  // ---- The coinbase ----

  function NonZero(outs: seq<CbOut>): (r: seq<CbOut>)
    ensures forall i :: 0 <= i < |r| ==> r[i].units > 0
  {
    if outs == [] then []
    else NonZero(outs[..|outs| - 1]) + (if outs[|outs| - 1].units == 0 then [] else [outs[|outs| - 1]])
  }

  function AsOuts(outs: seq<CbOut>): (r: seq<TxOut>)
    ensures |r| == |outs|
    ensures forall i :: 0 <= i < |r| ==> r[i] == TxOut(outs[i].units, outs[i].address)
  {
    seq(|outs|, i requires 0 <= i < |outs| => TxOut(outs[i].units, outs[i].address))
  }

  /** `coinbase_from`: zero-unit outputs are dropped before the id is taken. */
  function CoinbaseFrom(sha: Sha, h: nat, outs: seq<CbOut>): Tx {
    var blank := Tx(1, true, h, 0, NoFlag, NoReg, [], AsOuts(NonZero(outs)), ZERO);
    blank.(txid := sha(Canonical(blank)))
  }

  function CoinbaseOf(sha: Sha, b: Block): Tx { CoinbaseFrom(sha, b.height, b.coinbase) }

  /** The record `rpc_submitblock` writes: `coinbase_body` drops zero-unit outputs and records the id. */
  function Stored(sha: Sha, b: Block): Block {
    b.(coinbase := NonZero(b.coinbase), cbTxid := Some(CoinbaseOf(sha, b).txid))
  }

  /** The credits `apply_chain` reads back from a stored coinbase, numbering every listed output. */
  function ReadCredits(txid: Hash, outs: seq<CbOut>, h: nat): seq<Credit> {
    if outs == [] then [] else
    var n := |outs| - 1;
    ReadCredits(txid, outs[..n], h)
    + (if outs[n].units > 0 then [Credit(Outpoint(txid, n), Utxo(outs[n].units, outs[n].address, h))] else [])
  }

  /** One stored block in `apply_chain`. */
  function ReplayStored(s: State, b: Block): Option<State> {
    var credits := if b.cbTxid.Some? then ReadCredits(b.cbTxid.value, b.coinbase, b.height) else [];
    match ApplyUtxos(s.utxo, [], credits)
    case None => None
    case Some(v) => ReplayTxs(State(v, s.flags), b.txs, |b.txs|, b.height)
  }

  /** `apply_chain` over a whole chain, from an empty set. */
  function Replay(c: seq<Block>): Option<State> {
    if c == [] then Some(EMPTY) else
    match Replay(c[..|c| - 1])
    case None => None
    case Some(s) => ReplayStored(s, c[|c| - 1])
  }

  lemma {:induction false} NonZeroIdempotent(outs: seq<CbOut>)
    requires forall i :: 0 <= i < |outs| ==> outs[i].units > 0
    ensures NonZero(outs) == outs
  {
    if outs != [] { NonZeroIdempotent(outs[..|outs| - 1]); }
  }

  lemma StoredCoinbase(sha: Sha, b: Block)
    ensures CoinbaseOf(sha, Stored(sha, b)) == CoinbaseOf(sha, b)
  {
    NonZeroIdempotent(NonZero(b.coinbase));
  }

  lemma {:induction false} ReadCreditsPositive(txid: Hash, outs: seq<CbOut>, h: nat)
    requires forall i :: 0 <= i < |outs| ==> outs[i].units > 0
    ensures ReadCredits(txid, outs, h) == Credits(txid, AsOuts(outs), h)
  {
    if outs != [] {
      var n := |outs| - 1;
      ReadCreditsPositive(txid, outs[..n], h);
      assert AsOuts(outs[..n]) == AsOuts(outs)[..n];
    }
  }

  /** The stored form of a coinbase: no zero outputs, and the id the replay will use is the real one. */
  predicate InStoredForm(sha: Sha, b: Block) {
    && (forall i :: 0 <= i < |b.coinbase| ==> b.coinbase[i].units > 0)
    && b.cbTxid == Some(CoinbaseOf(sha, b).txid)
  }

  /**
   * Coinbase vout numbering agrees: what `apply_chain` credits from the stored list is what
   * `rpc_submitblock` credited from the filtered transaction.
   */
  lemma StoredReplays(sha: Sha, s: State, b: Block)
    requires InStoredForm(sha, b)
    ensures ReplayStored(s, b) == ReplayBlock(s, CoinbaseOf(sha, b), b.txs, b.height)
  {
    hide Canonical;
    var cb := CoinbaseOf(sha, b);
    NonZeroIdempotent(b.coinbase);
    ReadCreditsPositive(cb.txid, b.coinbase, b.height);
    assert Spends(cb) == [];
  }

  // ---- Good chains ----

  function TipHash(c: seq<Block>): Hash { if c == [] then ZERO else c[|c| - 1].hash }

  function TipTime(c: seq<Block>): nat { if c == [] then 0 else c[|c| - 1].timestamp }

  /** `next_difficulty_window` over a chain: the last ten timestamps, nine gaps. */
  function ChainDifficulty(c: seq<Block>): nat {
    if c == [] then 4 else
    var tip := c[|c| - 1];
    var bits := ClampBits(if tip.difficulty == 0 then 4 else tip.difficulty);
    if |c| < 10 then bits else RetargetBits(bits, tip.timestamp - c[|c| - 10].timestamp)
  }

  /**
   * The window: from ten blocks on the work of the tip is scaled by 540 over the seconds between the tip and the block
   * nine below it, which count as 135 at least and 2160 at most.
   */
  lemma WindowStep(c: seq<Block>, w: nat, r: nat)
    requires |c| >= 10 && 2 <= c[|c| - 1].difficulty <= 24 && c[|c| - 1].timestamp > c[|c| - 10].timestamp
    requires var elapsed := c[|c| - 1].timestamp - c[|c| - 10].timestamp;
             var span := if elapsed < 135 then 135 else if elapsed > 2160 then 2160 else elapsed;
             w * span <= Pow2(c[|c| - 1].difficulty) * 540 < (w + 1) * span
    requires Nearest(w, r)
    ensures ChainDifficulty(c) == Reported(r)
  {
    hide RetargetBits;
    hide Pow2;
    hide Nearest;
    RetargetStep(c[|c| - 1].difficulty, c[|c| - 1].timestamp - c[|c| - 10].timestamp, w, r);
  }

  /**
   * What `parse_user_tx` guarantees of a transaction it lets through at height `h`. Its record is at
   * most 65536 bytes of JSON, quotes and field names included, so every text in it is shorter.
   */
  predicate Parsed(sha: Sha, tx: Tx, h: nat) {
    && tx.version == 1 && !tx.coinbase && tx.height == 0
    && MinFeeFor(h) <= tx.fee < U64
    && |tx.inputs| <= 200 && InsFit(tx.inputs)
    && 0 < |tx.outputs| < U16
    && (forall i :: 0 <= i < |tx.outputs| ==> 0 < tx.outputs[i].value < U64 && 0 < |tx.outputs[i].address| <= 256)
    && (!tx.flag.NoFlag? ==> tx.reg.Reg? && 0 < |tx.flag.flagId| <= 32)
    && (tx.flag.Create? ==> EscrowLock(tx.flag.maxClaims, tx.flag.bounty).Some? && tx.flag.maxClaims < U32
                            && tx.flag.expiresHeight < U32 && tx.flag.bounty < U64 && |tx.flag.note| <= 80)
    && (tx.flag.Claim? ==> |tx.flag.recipient| == 67)
    && (tx.reg.Reg? ==> |tx.reg.name| < U16 && |tx.reg.address| < U16)
    && tx.txid == sha(Canonical(tx))
  }

  function FeeSum(txs: seq<Tx>, n: nat): nat
    requires n <= |txs|
  {
    if n == 0 then 0 else FeeSum(txs, n - 1) + txs[n - 1].fee
  }

  /** The 64-bit fee total the source keeps. */
  function FeeWord(txs: seq<Tx>): nat { FeeSum(txs, |txs|) % U64 }

  /** The header of `b` extends `c`. */
  predicate Extends(c: seq<Block>, b: Block) {
    && b.hash != ZERO && b.prev == TipHash(c) && b.height == |c| + 1
    && b.timestamp > TipTime(c) && b.difficulty == ChainDifficulty(c)
  }

  /** The staged flags after the validation loop over a whole block. */
  function StageBlock(sha: Sha, s: State, b: Block): Option<seq<Flag>> {
    Stage(s.utxo, s.flags, CoinbaseOf(sha, b), b.txs, |b.txs|, b.height)
  }

  /** The ledger after the settling loop: coinbase, then each transaction, failed updates skipped. */
  function SettleBlock(sha: Sha, s: State, b: Block, staged: seq<Flag>): State {
    State(Settle(SettleOne(s.utxo, CoinbaseOf(sha, b), b.height), b.txs, |b.txs|, b.height), staged)
  }

  /** The body of `b` is valid on top of ledger `s`. */
  predicate BodyOk(K: Oracle, s: State, b: Block) {
    && (forall i :: 0 <= i < |b.txs| ==> Parsed(K.sha, b.txs[i], b.height))
    && CoinbaseRefusal(b.height, FeeWord(b.txs), b.payout, K.foundation, b.coinbase, K.isPs1).None?
    && StageBlock(K.sha, s, b).Some?
  }

  /** Every encoding hashed for the ids of this block is in the corpus. */
  ghost predicate InCorpus(K: Oracle, corpus: iset<Bytes>, b: Block) {
    && Canonical(CoinbaseOf(K.sha, b)) in corpus
    && (forall i :: 0 <= i < |b.txs| ==> Canonical(b.txs[i]) in corpus)
  }

  /** The ids the merkle root is taken over: the coinbase, then the transactions. */
  function TxIds(K: Oracle, b: Block): seq<Hash> { [CoinbaseOf(K.sha, b).txid] + Merkle.Ids(b.txs) }

  function PreimageOf(b: Block): Preimage {
    Preimage(b.prev, b.merkle, b.timestamp, b.difficulty, b.nonce, b.proof, b.height >= 5)
  }

  /** The root commits to the ids, the hash is the digest of the header, and it meets the difficulty. */
  predicate Sealed(K: Oracle, b: Block) {
    b.merkle == Merkle.Root(K.pair, TxIds(K, b)) && b.hash == K.digest(PreimageOf(b)) && K.pow(b.hash, b.difficulty)
  }

  /**
   * How closely ledgers are followed. `exact` follows them to the last value; otherwise ledgers count as
   * alike when they have one shape, which is all a replay looks at. `corpus` is every encoding hashed.
   */
  datatype World = World(corpus: iset<Bytes>, exact: bool)

  ghost predicate Alike(W: World, s: State, t: State) { if W.exact then s == t else SameShape(s, t) }

  /** `b` is the stored form of a block that passed every check, on a ledger like the one chain `c` replays to. */
  ghost predicate Link(K: Oracle, W: World, c: seq<Block>, b: Block) {
    && Extends(c, b) && b.height < U32 && |b.coinbase| < U32
    && InStoredForm(K.sha, b) && InCorpus(K, W.corpus, b) && Sealed(K, b)
    && Replay(c).Some?
    && exists s :: Alike(W, Replay(c).value, s) && BodyOk(K, s, b)
  }

  ghost predicate GoodChain(K: Oracle, W: World, c: seq<Block>) {
    c == [] || (GoodChain(K, W, c[..|c| - 1]) && Link(K, W, c[..|c| - 1], c[|c| - 1]))
  }

  /** The ledger a block was checked on. */
  lemma LinkLedger(K: Oracle, W: World, c: seq<Block>, b: Block) returns (s: State)
    requires Link(K, W, c, b)
    ensures Extends(c, b) && b.height < U32 && |b.coinbase| < U32 && Sealed(K, b)
    ensures InStoredForm(K.sha, b) && InCorpus(K, W.corpus, b)
    ensures Replay(c).Some? && Alike(W, Replay(c).value, s) && BodyOk(K, s, b)
  {
    hide BodyOk;
    hide Alike;
    hide InStoredForm;
    hide InCorpus;
    hide Extends;
    hide Sealed;
    s :| Alike(W, Replay(c).value, s) && BodyOk(K, s, b);
  }

  lemma GoodSnoc(K: Oracle, W: World, c: seq<Block>, b: Block)
    requires GoodChain(K, W, c) && Link(K, W, c, b)
    ensures GoodChain(K, W, c + [b])
  {
    hide Link;
    assert (c + [b])[..|c|] == c;
  }

  /** Every transaction of a chain in order, coinbases included. */
  function History(sha: Sha, c: seq<Block>): seq<Tx> {
    if c == [] then [] else History(sha, c[..|c| - 1]) + [CoinbaseOf(sha, c[|c| - 1])] + c[|c| - 1].txs
  }

  // ---- What holds along every good chain ----

  /** The past of a good chain with ledger `s`: honest records, coinbase heights used up, and the ledger invariant. */
  ghost predicate Sound(K: Oracle, corpus: iset<Bytes>, past: seq<Tx>, s: State, h: nat) {
    && AllHonest(K.sha, corpus, past)
    && (forall i :: 0 <= i < |past| && past[i].coinbase ==> past[i].height <= h)
    && Inv(past, s.utxo, h)
  }

  lemma {:induction false} StagedHaveInputs(u: UtxoMap, flags: seq<Flag>, cb: Tx, txs: seq<Tx>, n: nat, h: nat)
    requires n <= |txs| && Stage(u, flags, cb, txs, n, h).Some?
    ensures forall i :: 0 <= i < n ==> txs[i].inputs != []
  {
    hide InputValue;
    hide ApplyFlagTx;
    hide Need;
    if n > 0 { StagedHaveInputs(u, flags, cb, txs, n - 1, h); }
  }

  lemma CanonicalIgnoresId(t: Tx, id: Hash)
    ensures Canonical(t.(txid := id)) == Canonical(t)
  {
  }

  lemma CoinbaseHonest(sha: Sha, corpus: iset<Bytes>, b: Block)
    requires Canonical(CoinbaseOf(sha, b)) in corpus && b.height < U32
    ensures Honest(sha, corpus, CoinbaseOf(sha, b)) && CoinbaseOf(sha, b).coinbase
            && CoinbaseOf(sha, b).height == b.height
  {
    hide Canonical;
    CanonicalIgnoresId(CoinbaseOf(sha, b), ZERO);
  }

  /** Every transaction parses and spends something. */
  predicate TxsParsed(K: Oracle, b: Block) {
    forall i :: 0 <= i < |b.txs| ==> Parsed(K.sha, b.txs[i], b.height) && b.txs[i].inputs != []
  }

  lemma TxsHonest(K: Oracle, corpus: iset<Bytes>, b: Block)
    requires InCorpus(K, corpus, b) && TxsParsed(K, b)
    ensures AllHonest(K.sha, corpus, b.txs) && forall i :: 0 <= i < |b.txs| ==> !b.txs[i].coinbase
  {
    hide Canonical;
  }

  lemma BodyParsed(K: Oracle, s: State, b: Block)
    requires BodyOk(K, s, b)
    ensures TxsParsed(K, b)
  {
    hide Parsed;
    hide Stage;
    hide CoinbaseRefusal;
    StagedHaveInputs(s.utxo, s.flags, CoinbaseOf(K.sha, b), b.txs, |b.txs|, b.height);
  }

  lemma ParsedSetting(K: Oracle, corpus: iset<Bytes>, past: seq<Tx>, s: State, b: Block)
    requires CollisionFree(K.sha, corpus) && b.height >= 1 && Sound(K, corpus, past, s, b.height - 1)
    requires b.height < U32 && InCorpus(K, corpus, b) && TxsParsed(K, b)
    ensures Setting(K.sha, corpus, past, CoinbaseOf(K.sha, b), b.txs, b.height)
    ensures Inv(past, s.utxo, b.height)
  {
    hide CollisionFree;
    hide Honest;
    hide TxsParsed;
    hide CoinbaseOf;
    CoinbaseHonest(K.sha, corpus, b);
    TxsHonest(K, corpus, b);
  }

  /** A valid block on a sound past gives the setting its freshness argument needs. */
  lemma BlockSetting(K: Oracle, corpus: iset<Bytes>, past: seq<Tx>, s: State, b: Block)
    requires CollisionFree(K.sha, corpus) && b.height >= 1 && Sound(K, corpus, past, s, b.height - 1)
    requires b.height < U32 && InCorpus(K, corpus, b) && BodyOk(K, s, b)
    ensures Setting(K.sha, corpus, past, CoinbaseOf(K.sha, b), b.txs, b.height)
    ensures Inv(past, s.utxo, b.height)
  {
    hide CollisionFree;
    hide Sound;
    hide InCorpus;
    hide TxsParsed;
    hide BodyOk;
    hide Setting;
    hide Inv;
    hide CoinbaseOf;
    BodyParsed(K, s, b);
    ParsedSetting(K, corpus, past, s, b);
  }

  /** Adding a valid block keeps the past sound, and replaying the block gives what settling left. */
  lemma ExtendSound(K: Oracle, corpus: iset<Bytes>, past: seq<Tx>, s: State, b: Block)
    requires CollisionFree(K.sha, corpus) && b.height >= 1 && Sound(K, corpus, past, s, b.height - 1)
    requires b.height < U32 && InStoredForm(K.sha, b) && InCorpus(K, corpus, b) && BodyOk(K, s, b)
    ensures StageBlock(K.sha, s, b).Some?
    ensures var t := SettleBlock(K.sha, s, b, StageBlock(K.sha, s, b).value);
            && ReplayStored(s, b) == Some(t)
            && Sound(K, corpus, past + [CoinbaseOf(K.sha, b)] + b.txs, t, b.height)
  {
    hide Stage;
    hide Settle;
    hide SettleOne;
    hide Inv;
    hide Honest;
    hide ReplayStored;
    hide ReplayBlock;
    hide CoinbaseRefusal;
    hide Parsed;
    hide CollisionFree;
    hide InStoredForm;
    hide InCorpus;
    hide CoinbaseOf;
    var cb := CoinbaseOf(K.sha, b);
    BlockSetting(K, corpus, past, s, b);
    BlockReplays(K.sha, corpus, past, s, cb, b.txs, b.height);
    StoredReplays(K.sha, s, b);
    assert AllHonest(K.sha, corpus, past + [cb] + b.txs);
  }

  lemma AlikeShape(W: World, s: State, t: State)
    requires Alike(W, s, t)
    ensures SameShape(s, t)
  {
    ShapeSelf(s);
  }

  /** Soundness of a past is a matter of shape. */
  lemma SoundShape(K: Oracle, corpus: iset<Bytes>, past: seq<Tx>, s: State, t: State, h: nat)
    requires Sound(K, corpus, past, s, h) && SameShape(s, t)
    ensures Sound(K, corpus, past, t, h)
  {
    hide Ids;
    hide SpentIn;
    hide Honest;
  }

  /**
   * Adding a block that was checked on ledger `t` to a chain that replays to a ledger like it: the block
   * replays, to a ledger like the one settling left, and the past stays sound.
   */
  lemma ExtendAlike(K: Oracle, W: World, past: seq<Tx>, s: State, t: State, b: Block)
    requires CollisionFree(K.sha, W.corpus) && b.height >= 1 && Sound(K, W.corpus, past, s, b.height - 1)
    requires b.height < U32 && InStoredForm(K.sha, b) && InCorpus(K, W.corpus, b) && BodyOk(K, t, b) && Alike(W, s, t)
    ensures StageBlock(K.sha, t, b).Some? && ReplayStored(s, b).Some?
    ensures Alike(W, ReplayStored(s, b).value, SettleBlock(K.sha, t, b, StageBlock(K.sha, t, b).value))
    ensures Sound(K, W.corpus, past + [CoinbaseOf(K.sha, b)] + b.txs, ReplayStored(s, b).value, b.height)
    ensures ReplayStored(t, b) == Some(SettleBlock(K.sha, t, b, StageBlock(K.sha, t, b).value))
  {
    hide BodyOk;
    hide InStoredForm;
    hide InCorpus;
    hide Sound;
    hide StageBlock;
    hide SettleBlock;
    hide ReplayStored;
    hide ReplayBlock;
    hide CoinbaseOf;
    hide CollisionFree;
    hide SameShape;
    AlikeShape(W, s, t);
    SoundShape(K, W.corpus, past, s, t, b.height - 1);
    ExtendSound(K, W.corpus, past, t, b);
    StoredReplays(K.sha, s, b);
    StoredReplays(K.sha, t, b);
    ReplayBlockShape(s, t, CoinbaseOf(K.sha, b), b.txs, b.height);
    ShapeFlips(ReplayStored(s, b).value, ReplayStored(t, b).value);
    SoundShape(K, W.corpus, past + [CoinbaseOf(K.sha, b)] + b.txs, ReplayStored(t, b).value, ReplayStored(s, b).value,
               b.height);
  }

  lemma ShapeFlips(s: State, t: State)
    requires SameShape(s, t)
    ensures SameShape(t, s)
  {
  }

  /** Every good chain replays without a failed update, and its history never reuses an id or an outpoint. */
  lemma {:induction false} GoodChainSound(K: Oracle, W: World, c: seq<Block>)
    requires CollisionFree(K.sha, W.corpus) && GoodChain(K, W, c)
    ensures Replay(c).Some? && Sound(K, W.corpus, History(K.sha, c), Replay(c).value, |c|)
  {
    hide Link;
    hide BodyOk;
    hide InStoredForm;
    hide InCorpus;
    hide ReplayStored;
    hide CoinbaseOf;
    hide CollisionFree;
    hide Alike;
    hide StageBlock;
    hide SettleBlock;
    hide ChainDifficulty;
    if c != [] {
      var n := |c| - 1;
      GoodChainSound(K, W, c[..n]);
      hide Sound;
      var t := LinkLedger(K, W, c[..n], c[n]);
      ExtendAlike(K, W, History(K.sha, c[..n]), Replay(c[..n]).value, t, c[n]);
    }
  }

  // ---- Headers along a good chain ----

  ghost predicate LinksOk(c: seq<Block>) {
    && (forall i :: 0 <= i < |c| ==> c[i].height == i + 1 && c[i].hash != ZERO)
    && (c != [] ==> c[0].prev == ZERO)
    && (forall i, k :: 0 <= i < k == i + 1 < |c| ==> c[k].prev == c[i].hash)
  }

  ghost predicate TimesOk(c: seq<Block>) {
    && (forall i, j :: 0 <= i < j < |c| ==> c[i].timestamp + (j - i) <= c[j].timestamp)
    && (forall i :: 0 <= i < |c| ==> MIN_BITS <= c[i].difficulty <= MAX_BITS)
    && (forall i :: 0 <= i < |c| && i < 10 ==> c[i].difficulty == 4)
  }

  lemma LinksExtend(c: seq<Block>, b: Block)
    requires LinksOk(c) && Extends(c, b)
    ensures LinksOk(c + [b])
  {
    hide ChainDifficulty;
  }

  lemma DifficultyExtends(c: seq<Block>)
    requires TimesOk(c)
    ensures MIN_BITS <= ChainDifficulty(c) <= MAX_BITS && (|c| < 10 ==> ChainDifficulty(c) == 4)
  {
    hide RetargetBits;
    if |c| >= 10 {
      RetargetBounded(ClampBits(c[|c| - 1].difficulty), c[|c| - 1].timestamp - c[|c| - 10].timestamp);
    }
  }

  lemma TimesExtend(c: seq<Block>, b: Block)
    requires TimesOk(c) && Extends(c, b)
    ensures TimesOk(c + [b])
  {
    DifficultyExtends(c);
    hide ChainDifficulty;
    var d := c + [b];
    forall i, j | 0 <= i < j < |d| ensures d[i].timestamp + (j - i) <= d[j].timestamp {
      if j == |c| && i < j - 1 { assert c[i].timestamp + (j - 1 - i) <= c[j - 1].timestamp; }
    }
  }

  lemma EmptyHeaders()
    ensures LinksOk([]) && TimesOk([])
  {
  }

  lemma LinkExtends(K: Oracle, W: World, c: seq<Block>, b: Block)
    requires Link(K, W, c, b)
    ensures Extends(c, b)
  {
  }

  /**
   * Along every good chain: heights count from 1, each block names the one before it, timestamps
   * strictly increase, difficulty stays in 2..24 and is 4 for the first ten blocks.
   */
  lemma {:induction false} GoodChainHeaders(K: Oracle, W: World, c: seq<Block>)
    requires GoodChain(K, W, c)
    ensures LinksOk(c) && TimesOk(c)
  {
    hide LinksOk;
    hide TimesOk;
    hide Extends;
    hide Link;
    if c == [] {
      EmptyHeaders();
    } else {
      var n := |c| - 1;
      GoodChainHeaders(K, W, c[..n]);
      LinkExtends(K, W, c[..n], c[n]);
      LinksExtend(c[..n], c[n]);
      TimesExtend(c[..n], c[n]);
      assert c == c[..n] + [c[n]];
    }
  }

  /** So every retarget sees at least nine elapsed seconds. */
  lemma RetargetSeesTime(K: Oracle, W: World, c: seq<Block>)
    requires GoodChain(K, W, c) && |c| >= 10
    ensures c[|c| - 1].timestamp - c[|c| - 10].timestamp >= 9
  {
    hide GoodChain;
    GoodChainHeaders(K, W, c);
  }

  lemma {:induction false} GoodPrefix(K: Oracle, W: World, c: seq<Block>, n: nat)
    requires GoodChain(K, W, c) && n <= |c|
    ensures GoodChain(K, W, c[..n])
  {
    hide Link;
    if n == |c| {
      assert c[..n] == c;
    } else {
      GoodPrefix(K, W, c[..|c| - 1], n);
      assert c[..|c| - 1][..n] == c[..n];
    }
  }

  lemma LinkNeverReuses(K: Oracle, corpus: iset<Bytes>, past: seq<Tx>, s: State, b: Block)
    requires CollisionFree(K.sha, corpus) && b.height >= 1 && Sound(K, corpus, past, s, b.height - 1)
    requires b.height < U32 && InCorpus(K, corpus, b) && BodyOk(K, s, b) && NeverReused(past)
    ensures NeverReused(past + [CoinbaseOf(K.sha, b)] + b.txs)
  {
    hide Sound;
    hide Stage;
    hide CoinbaseRefusal;
    hide Parsed;
    hide CoinbaseOf;
    hide CollisionFree;
    hide InCorpus;
    hide Setting;
    hide Inv;
    hide NeverReused;
    var cb := CoinbaseOf(K.sha, b);
    BlockSetting(K, corpus, past, s, b);
    BlockNeverReuses(K.sha, corpus, past, s.utxo, s.flags, cb, b.txs, |b.txs|, b.height);
    assert b.txs[..|b.txs|] == b.txs;
    assert past + Prior(cb, b.txs, |b.txs|) == past + [cb] + b.txs;
  }

  /** Along every good chain no txid is used twice, so no outpoint is created twice, and none is spent twice. */
  lemma {:induction false} HistoryNeverReuses(K: Oracle, W: World, c: seq<Block>)
    requires CollisionFree(K.sha, W.corpus) && GoodChain(K, W, c)
    ensures NeverReused(History(K.sha, c))
  {
    hide Link;
    hide BodyOk;
    hide InStoredForm;
    hide InCorpus;
    hide Sound;
    hide Replay;
    hide CoinbaseOf;
    hide CollisionFree;
    hide ChainDifficulty;
    hide Alike;
    if c != [] {
      var n := |c| - 1;
      HistoryNeverReuses(K, W, c[..n]);
      GoodChainSound(K, W, c[..n]);
      var t := LinkLedger(K, W, c[..n], c[n]);
      AlikeShape(W, Replay(c[..n]).value, t);
      SoundShape(K, W.corpus, History(K.sha, c[..n]), Replay(c[..n]).value, t, n);
      LinkNeverReuses(K, W.corpus, History(K.sha, c[..n]), t, c[n]);
    }
  }
}
