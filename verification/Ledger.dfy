/**
 * The ledger rules: `apply_utxos`, `find_outpoint`, `check_spendable`, `claim_release`,
 * `apply_flag_tx`, the per-block transaction loop of `rpc_submitblock`, and the replay of
 * one stored block in `apply_chain`.
 */
module Ledger {
  import opened Types
  import opened Records
  import opened Emission
  import opened Flags

  datatype Utxo = Utxo(value: nat, address: Text, height: nat)
  type UtxoMap = map<Outpoint, Utxo>
  datatype Credit = Credit(point: Outpoint, utxo: Utxo)

  // ---- apply_utxos ----

  function Insert(u: UtxoMap, credits: seq<Credit>): UtxoMap {
    if credits == [] then u
    else Insert(u, credits[..|credits| - 1])[credits[|credits| - 1].point := credits[|credits| - 1].utxo]
  }

  function Erase(u: UtxoMap, spends: seq<Outpoint>): UtxoMap { u - (set p | p in spends) }

  /** `Storage::apply_utxos`: every spend and credit, or nothing at all. */
  function ApplyUtxos(u: UtxoMap, spends: seq<Outpoint>, credits: seq<Credit>): Option<UtxoMap> {
    if (forall i :: 0 <= i < |spends| ==> spends[i] in u) && (forall i :: 0 <= i < |credits| ==> credits[i].point !in u)
    then Some(Insert(Erase(u, spends), credits))
    else None
  }

  function Spends(tx: Tx): (r: seq<Outpoint>)
    ensures |r| == |tx.inputs|
    ensures forall i :: 0 <= i < |r| ==> r[i] == Point(tx.inputs[i])
  {
    seq(|tx.inputs|, i requires 0 <= i < |tx.inputs| => Point(tx.inputs[i]))
  }

  function Credits(txid: Hash, outs: seq<TxOut>, h: nat): (r: seq<Credit>)
    ensures |r| == |outs|
    ensures forall i :: 0 <= i < |r| ==> r[i] == Credit(Outpoint(txid, i), Utxo(outs[i].value, outs[i].address, h))
  {
    seq(|outs|, i requires 0 <= i < |outs| => Credit(Outpoint(txid, i), Utxo(outs[i].value, outs[i].address, h)))
  }

  function ApplyTx(u: UtxoMap, tx: Tx, h: nat): Option<UtxoMap> {
    ApplyUtxos(u, Spends(tx), Credits(tx.txid, tx.outputs, h))
  }

  // ---- find_outpoint ----

  /** The first earlier transaction of this block with a matching output. */
  function LookupPrior(prior: seq<Tx>, p: Outpoint, spendHeight: nat): Option<Utxo> {
    if prior == [] then None
    else
      var front := LookupPrior(prior[..|prior| - 1], p, spendHeight);
      var t := prior[|prior| - 1];
      if front.Some? then front
      else if t.txid == p.txid && p.vout < |t.outputs|
      then Some(Utxo(t.outputs[p.vout].value, t.outputs[p.vout].address, spendHeight))
      else None
  }

  /** Value, owner and birth height of an outpoint: the stored set first, then this block's earlier transactions. */
  function Lookup(u: UtxoMap, prior: seq<Tx>, p: Outpoint, spendHeight: nat): Option<Utxo> {
    if p in u then Some(u[p].(height := if u[p].height == 0 then spendHeight else u[p].height))
    else LookupPrior(prior, p, spendHeight)
  }

  function InPoints(tx: Tx): set<Outpoint> { set i | 0 <= i < |tx.inputs| :: Point(tx.inputs[i]) }

  function SpentIn(txs: seq<Tx>): set<Outpoint> {
    if txs == [] then {} else SpentIn(txs[..|txs| - 1]) + InPoints(txs[|txs| - 1])
  }

  // ---- check_spendable ----

  /** What an input is worth in the unit of the spending block, unless scaling overflows. */
  function InputWorth(o: Utxo, spendHeight: nat): Option<nat> {
    if spendHeight >= PI_HEIGHT && o.height < PI_HEIGHT then
      (if o.value > (U64 - 1) / PI_PER_OLD_UNIT then None else Some(o.value * PI_PER_OLD_UNIT))
    else Some(o.value)
  }

  /** The input loop: `None` where it rejects, otherwise the 64-bit total of the first `n` inputs. */
  function InputValue(u: UtxoMap, prior: seq<Tx>, inputs: seq<TxIn>, n: nat, h: nat): Option<nat>
    requires n <= |inputs|
  {
    if n == 0 then Some(0) else
    match InputValue(u, prior, inputs, n - 1, h)
    case None => None
    case Some(acc) =>
      var p := Point(inputs[n - 1]);
      if p in SpentIn(prior) then None else
      match Lookup(u, prior, p, h)
      case None => None
      case Some(o) =>
        match InputWorth(o, h)
        case None => None
        case Some(worth) => if acc + worth >= U64 then None else Some(acc + worth)
  }

  function OutSum(outs: seq<TxOut>): nat {
    if outs == [] then 0 else OutSum(outs[..|outs| - 1]) + outs[|outs| - 1].value
  }

  function LockOf(tx: Tx): nat { if tx.flag.Create? then tx.flag.bounty * tx.flag.maxClaims else 0 }

  /** What a transaction must cover: outputs, fee and the escrow it locks. */
  function Need(tx: Tx): nat { OutSum(tx.outputs) + tx.fee + LockOf(tx) }

  /** `check_spendable`; sums are taken modulo 2^64 where the source does not test them. */
  predicate Spendable(u: UtxoMap, prior: seq<Tx>, tx: Tx, h: nat, release: nat) {
    && tx.inputs != []
    && tx.fee >= MinFeeFor(h)
    && var v := InputValue(u, prior, tx.inputs, |tx.inputs|, h);
       && v.Some?
       && var need, have := Need(tx) % U64, (v.value + release) % U64;
          if tx.flag.NoFlag? then need <= have else have == need
  }

  // ---- claim_release and apply_flag_tx ----

  function PriorBounty(prior: seq<Tx>, id: Text): nat {
    if prior == [] then 0
    else if prior[0].flag.Create? && prior[0].flag.flagId == id then prior[0].flag.bounty
    else PriorBounty(prior[1..], id)
  }

  function Release(tx: Tx, flags: seq<Flag>, prior: seq<Tx>): nat {
    if !tx.flag.Claim? then 0
    else
      match Find(flags, tx.flag.flagId)
      case Some(i) => flags[i].bounty
      case None => PriorBounty(prior, tx.flag.flagId)
  }

  function FlagOpOf(tx: Tx, h: nat): Op
    requires !tx.flag.NoFlag?
  {
    match tx.flag
    case Create(id, commitment, key, maxClaims, expires, bounty, note) =>
      CreateOp(Flag(id, commitment, key, maxClaims, expires, bounty, note, 0, Some(tx.txid), [], []))
    case Claim(id, recipient) =>
      ClaimOp(id, recipient, if tx.inputs == [] then [] else tx.inputs[0].publicKey, h, Some(tx.txid))
  }

  function ApplyFlagTx(flags: seq<Flag>, tx: Tx, h: nat): Verdict {
    if tx.flag.NoFlag? then Done(flags) else Apply(flags, FlagOpOf(tx, h))
  }

  // ---- One block ----

  /**
   * The transactions already seen in this block when transaction `n` is checked: the coinbase, then
   * the earlier ones.
   */
  function Prior(cb: Tx, txs: seq<Tx>, n: nat): seq<Tx>
    requires n <= |txs|
  {
    [cb] + txs[..n]
  }

  /**
   * The validation loop of `rpc_submitblock`: the staged flags after `n` transactions, or `None` once
   * one is rejected.
   */
  function Stage(u: UtxoMap, flags: seq<Flag>, cb: Tx, txs: seq<Tx>, n: nat, h: nat): Option<seq<Flag>>
    requires n <= |txs|
  {
    if n == 0 then Some(flags) else
    match Stage(u, flags, cb, txs, n - 1, h)
    case None => None
    case Some(staged) =>
      var prior := Prior(cb, txs, n - 1);
      if !Spendable(u, prior, txs[n - 1], h, Release(txs[n - 1], staged, prior)) then None else
      match ApplyFlagTx(staged, txs[n - 1], h)
      case Refused(_) => None
      case Done(fs) => Some(fs)
  }

  /** The settling loop of `rpc_submitblock`: a failed update is only logged, so it leaves the set as it was. */
  function SettleOne(u: UtxoMap, tx: Tx, h: nat): UtxoMap {
    match ApplyTx(u, tx, h) case Some(v) => v case None => u
  }

  function Settle(u: UtxoMap, txs: seq<Tx>, n: nat, h: nat): UtxoMap
    requires n <= |txs|
  {
    if n == 0 then u else SettleOne(Settle(u, txs, n - 1, h), txs[n - 1], h)
  }

  datatype State = State(utxo: UtxoMap, flags: seq<Flag>)

  const EMPTY: State := State(map[], [])

  function ReplayTx(s: State, tx: Tx, h: nat): Option<State> {
    match ApplyTx(s.utxo, tx, h)
    case None => None
    case Some(v) =>
      match ApplyFlagTx(s.flags, tx, h)
      case Refused(_) => None
      case Done(fs) => Some(State(v, fs))
  }

  /** The inner loop of `apply_chain`: any failed update stops the replay. */
  function ReplayTxs(s: State, txs: seq<Tx>, n: nat, h: nat): Option<State>
    requires n <= |txs|
  {
    if n == 0 then Some(s) else
    match ReplayTxs(s, txs, n - 1, h)
    case None => None
    case Some(m) => ReplayTx(m, txs[n - 1], h)
  }

  function ReplayBlock(s: State, cb: Tx, txs: seq<Tx>, h: nat): Option<State> {
    match ApplyTx(s.utxo, cb, h)
    case None => None
    case Some(v) => ReplayTxs(State(v, s.flags), txs, |txs|, h)
  }
}
