/**
 * The node as a state machine: `rpc_submitblock`, `rpc_replay_chain` and `rpc_adopt_peer_chain`
 * over the state `Storage` keeps. Each step is a function of the whole state.
 */
module Node {
  import opened Types
  import opened Records
  import opened Emission
  import opened Ledger
  import opened Retarget
  import opened Chain
  import Merkle
  import opened ForkChoice

  datatype Header = Header(prev: Hash, merkle: Hash, timestamp: nat, difficulty: nat, nonce: nat, hash: Hash,
                           height: nat)

  function HeaderOf(b: Block): Header { Header(b.prev, b.merkle, b.timestamp, b.difficulty, b.nonce, b.hash, b.height) }

  /**
   * `store` is the append-only block file; `indexOf` and `headers` are `hash_to_index_` and
   * `headers_cache_`, which a reset does not clear; `heights` is `height_to_hash_`.
   */
  datatype NodeState = NodeState(store: seq<Block>, indexOf: map<Hash, nat>, headers: map<Hash, Header>,
                                 heights: seq<Hash>, bestHash: Hash, bestHeight: nat, ledger: State)

  const START: NodeState := NodeState([], map[], map[], [], ZERO, 0, EMPTY)

  /** What one submission depends on outside the chain: the clock and the checks left abstract. */
  datatype Env = Env(now: nat, form: Block -> bool, challenge: Block -> bool, policy: Tx -> bool, fits: Block -> bool)

  // ---- Storage ----

  function HeaderAt(n: NodeState, h: nat): Option<Header> {
    if h < |n.heights| && n.heights[h] in n.headers then Some(n.headers[n.heights[h]]) else None
  }

  function BestHeader(n: NodeState): Option<Header> {
    if n.bestHash in n.headers then Some(n.headers[n.bestHash]) else None
  }

  /** `height_to_hash_` grown with zero hashes so that `h` is an index, then set. */
  function SetHeight(heights: seq<Hash>, h: nat, hash: Hash): (r: seq<Hash>)
    ensures |r| > h && r[h] == hash
  {
    var grown := if h < |heights| then heights else heights + seq(h + 1 - |heights|, _ => ZERO);
    grown[h := hash]
  }

  /** `store_block_with_header`. */
  function StoreBlock(n: NodeState, b: Block): NodeState {
    n.(store := n.store + [b],
       indexOf := n.indexOf[b.hash := |n.store|],
       headers := n.headers[b.hash := HeaderOf(b)],
       heights := SetHeight(n.heights, b.height, b.hash),
       bestHeight := if b.height > n.bestHeight then b.height else n.bestHeight,
       bestHash := if b.height > n.bestHeight then b.hash else n.bestHash)
  }

  /** `index_existing_block`; the index is always one of the store here. */
  function IndexExisting(n: NodeState, index: nat, b: Block): NodeState {
    var better := b.height > n.bestHeight || n.bestHash == ZERO;
    n.(indexOf := n.indexOf[b.hash := index],
       headers := n.headers[b.hash := HeaderOf(b)],
       heights := SetHeight(n.heights, b.height, b.hash),
       bestHeight := if better then b.height else n.bestHeight,
       bestHash := if better then b.hash else n.bestHash)
  }

  /** `reset_active_chain`, with `g_flags` emptied beside it: the store and the hash indexes stay. */
  function Reset(n: NodeState): NodeState { n.(heights := [], bestHash := ZERO, bestHeight := 0, ledger := EMPTY) }

  // ---- rpc_submitblock ----

  function NextDifficulty(n: NodeState): nat {
    if n.heights == [] then 4 else
    var tip := BestHeader(n);
    var bits := ClampBits(if tip.None? || tip.value.difficulty == 0 then 4 else tip.value.difficulty);
    if tip.None? || tip.value.height < 10 then bits else
    var older := HeaderAt(n, tip.value.height - 9);
    if older.None? then bits else RetargetBits(bits, tip.value.timestamp - older.value.timestamp)
  }

  datatype Why = BadForm | BadPrev | BadHeight | BadChallenge | BadDifficulty | BadTimestamp | BadTx
               | BadCoinbase(why: Refusal) | BadSpend | BadMerkle | BadDigest | WeakDigest | TooLarge

  datatype Outcome = Rejected(why: Why) | Accepted | AlreadyKnown

  /** The checks on the header, in order. */
  function HeaderRefusal(env: Env, n: NodeState, b: Block): Option<Why> {
    var parent := BestHeader(n);
    if !env.form(b) then Some(BadForm)
    else if b.prev != (if n.heights == [] then ZERO else n.bestHash) then Some(BadPrev)
    else if b.height != (if n.heights == [] then 1 else n.bestHeight + 1) then Some(BadHeight)
    else if !env.challenge(b) then Some(BadChallenge)
    else if b.difficulty != NextDifficulty(n) then Some(BadDifficulty)
    else if n.heights != [] && parent.None? then Some(BadTimestamp)
    else if b.timestamp <= (if n.heights == [] then 0 else parent.value.timestamp) || b.timestamp > env.now + 120
    then Some(BadTimestamp)
    else None
  }

  /** The checks on coinbase and transactions, in order. */
  function BodyRefusal(K: Oracle, env: Env, s: State, b: Block): Option<Why> {
    var coinbase := CoinbaseRefusal(b.height, FeeWord(b.txs), b.payout, K.foundation, b.coinbase, K.isPs1);
    if exists i :: 0 <= i < |b.txs| && !Parsed(K.sha, b.txs[i], b.height) then Some(BadTx)
    else if coinbase.Some? then Some(BadCoinbase(coinbase.value))
    else if NonZero(b.coinbase) == [] || (b.cbTxid.Some? && b.cbTxid.value != CoinbaseOf(K.sha, b).txid)
    then Some(BadCoinbase(CoinbaseMissing))
    else if StageBlock(K.sha, s, b).None? || (exists i :: 0 <= i < |b.txs| && !env.policy(b.txs[i])) then Some(BadSpend)
    else None
  }

  /** The checks on root, digest, work and size. */
  function SealRefusal(K: Oracle, env: Env, b: Block): Option<Why> {
    if b.merkle != Merkle.Root(K.pair, TxIds(K, b)) then Some(BadMerkle)
    else if b.hash != K.digest(PreimageOf(b)) then Some(BadDigest)
    else if !K.pow(b.hash, b.difficulty) then Some(WeakDigest)
    else if !env.fits(Stored(K.sha, b)) then Some(TooLarge)
    else None
  }

  function SubmitRefusal(K: Oracle, env: Env, n: NodeState, b: Block): Option<Why> {
    if HeaderRefusal(env, n, b).Some? then HeaderRefusal(env, n, b)
    else if BodyRefusal(K, env, n.ledger, b).Some? then BodyRefusal(K, env, n.ledger, b)
    else SealRefusal(K, env, b)
  }

  function SubmitOutcome(K: Oracle, env: Env, n: NodeState, b: Block): Outcome {
    match SubmitRefusal(K, env, n, b)
    case Some(why) => Rejected(why)
    case None => if b.hash in n.indexOf then AlreadyKnown else Accepted
  }

  /** The state after storing and settling a block that passed. */
  function Connect(K: Oracle, n: NodeState, b: Block): NodeState {
    var staged := StageBlock(K.sha, n.ledger, b);
    var flags := if staged.Some? then staged.value else n.ledger.flags;
    StoreBlock(n, Stored(K.sha, b)).(ledger := SettleBlock(K.sha, n.ledger, b, flags))
  }

  /** `rpc_submitblock`: only an accepted block that is not yet indexed changes anything. */
  function Submit(K: Oracle, env: Env, n: NodeState, b: Block): NodeState {
    if SubmitOutcome(K, env, n, b) == Accepted then Connect(K, n, b) else n
  }

  // ---- rpc_replay_chain ----

  function Found(store: seq<Block>): (r: seq<FoundBlock<Block>>)
    ensures |r| == |store|
    ensures forall i :: 0 <= i < |r| ==> r[i] == FoundBlock(i, store[i].height, store[i].prev, store[i].hash, store[i])
  {
    seq(|store|, i requires 0 <= i < |store| => FoundBlock(i, store[i].height, store[i].prev, store[i].hash, store[i]))
  }

  /** `apply_chain` over the first `k` found blocks; `None` when an update fails part way. */
  function ApplyChain(n: NodeState, c: seq<FoundBlock<Block>>, k: nat): Option<NodeState>
    requires k <= |c|
  {
    if k == 0 then Some(n) else
    match ApplyChain(n, c, k - 1)
    case None => None
    case Some(m) =>
      match ReplayStored(m.ledger, c[k - 1].obj)
      case None => None
      case Some(s) => Some(IndexExisting(m, c[k - 1].index, c[k - 1].obj).(ledger := s))
  }

  datatype Replayed = NoChain | Broken | Replayed(node: NodeState)

  /** `rpc_replay_chain`: no chain to that tip leaves the state alone. */
  ghost function ReplayTo(n: NodeState, tip: Hash): Replayed {
    var c := ChainTo(Found(n.store), tip);
    if c == [] || c[|c| - 1].hash != tip then NoChain else
    match ApplyChain(Reset(n), c, |c|)
    case None => Broken
    case Some(m) => Replayed(m)
  }

  // ---- restore_chain ----

  /** A new process: the block file is there, the indexes and the ledger are not. */
  function Emptied(n: NodeState): NodeState { NodeState(n.store, map[], map[], [], ZERO, 0, EMPTY) }

  /** `restore_chain` after a restart: the longest stored chain is applied and indexed; nothing else is. */
  ghost function Restart(n: NodeState): Replayed {
    var c := LongestChain(Found(n.store));
    match ApplyChain(Emptied(n), c, |c|)
    case None => Broken
    case Some(m) => Replayed(m)
  }

  // ---- rpc_adopt_peer_chain ----

  datatype Fed = Fed(node: NodeState, ok: bool)

  /** Submit blocks in order until one is rejected. */
  function Feed(K: Oracle, envs: seq<Env>, n: NodeState, blocks: seq<Block>, k: nat): Fed
    requires |envs| == |blocks| && k <= |blocks|
  {
    if k == 0 then Fed(n, true) else
    var f := Feed(K, envs, n, blocks, k - 1);
    if !f.ok then f
    else Fed(Submit(K, envs[k - 1], f.node, blocks[k - 1]),
         !SubmitOutcome(K, envs[k - 1], f.node, blocks[k - 1]).Rejected?)
  }

  datatype Adoption = Kept(node: NodeState) | Adopted(node: NodeState) | Lost

  function LocalHeight(n: NodeState): nat { if n.heights == [] then 0 else n.bestHeight }

  /** Back to the previous tip; without one there is nothing to go back to. */
  ghost function RollBack(n: NodeState, had: bool, oldTip: Hash): Adoption {
    if !had then Kept(n) else
    match ReplayTo(n, oldTip)
    case NoChain => Kept(n)
    case Broken => Lost
    case Replayed(m) => Kept(m)
  }

  /** `rpc_adopt_peer_chain`: `Kept` is its false result, `Adopted` its true one. */
  ghost function Adopt(K: Oracle, envs: seq<Env>, n: NodeState, ancestor: Hash, blocks: seq<Block>): Adoption
    requires |envs| == |blocks|
  {
    if blocks == [] || blocks[|blocks| - 1].height <= LocalHeight(n) then Kept(n) else
    var had := n.heights != [];
    var start := if had && n.bestHash == ancestor then Replayed(n) else ReplayTo(n, ancestor);
    match start
    case NoChain => Kept(n)
    case Broken => Lost
    case Replayed(m) =>
      var f := Feed(K, envs, m, blocks, |blocks|);
      if f.ok then Adopted(f.node) else RollBack(f.node, had, n.bestHash)
  }
}
