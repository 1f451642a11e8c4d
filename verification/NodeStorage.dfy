/**
 * The node in the source's own form: `Storage` with fields updated in place, and the RPC bodies
 * as methods with loops. Every method is tied to the step function of module `Node`.
 */
module NodeStorage {
  import opened Types
  import opened Records
  import opened Emission
  import opened Flags
  import opened Ledger
  import opened Retarget
  import opened Chain
  import opened ForkChoice
  import opened Node
  import Merkle

  // ---- Loops that only read ----

  lemma {:induction false} LookupPrefix(prior: seq<Tx>, i: nat, p: Outpoint, h: nat)
    requires i <= |prior| && LookupPrior(prior[..i], p, h).Some?
    ensures LookupPrior(prior, p, h) == LookupPrior(prior[..i], p, h)
  {
    if i < |prior| {
      var n := |prior| - 1;
      assert prior[..n][..i] == prior[..i];
      LookupPrefix(prior[..n], i, p, h);
    } else {
      assert prior[..i] == prior;
    }
  }

  /** `find_outpoint`. */
  method FindOutpoint(u: UtxoMap, prior: seq<Tx>, p: Outpoint, spendHeight: nat) returns (r: Option<Utxo>)
    ensures r == Lookup(u, prior, p, spendHeight)
  {
    if p in u {
      return Some(u[p].(height := if u[p].height == 0 then spendHeight else u[p].height));
    }
    for i := 0 to |prior|
      invariant LookupPrior(prior[..i], p, spendHeight).None?
    {
      assert prior[..i + 1][..i] == prior[..i];
      if prior[i].txid == p.txid && p.vout < |prior[i].outputs| {
        LookupPrefix(prior, i + 1, p, spendHeight);
        return Some(Utxo(prior[i].outputs[p.vout].value, prior[i].outputs[p.vout].address, spendHeight));
      }
    }
    assert prior[..|prior|] == prior;
    return None;
  }

  lemma {:induction false} SpentPrefix(prior: seq<Tx>, i: nat)
    requires i <= |prior|
    ensures SpentIn(prior[..i]) <= SpentIn(prior)
  {
    if i < |prior| {
      var n := |prior| - 1;
      assert prior[..n][..i] == prior[..i];
      SpentPrefix(prior[..n], i);
    } else {
      assert prior[..i] == prior;
    }
  }

  /** The double-spend scan of `check_spendable` over the earlier transactions of the block. */
  method SpentEarlier(prior: seq<Tx>, p: Outpoint) returns (r: bool)
    ensures r <==> p in SpentIn(prior)
  {
    for i := 0 to |prior|
      invariant p !in SpentIn(prior[..i])
    {
      assert prior[..i + 1][..i] == prior[..i];
      for j := 0 to |prior[i].inputs|
        invariant forall k :: 0 <= k < j ==> Point(prior[i].inputs[k]) != p
      {
        if prior[i].inputs[j].vout == p.vout && prior[i].inputs[j].prev == p.txid {
          assert Point(prior[i].inputs[j]) in InPoints(prior[i]);
          SpentPrefix(prior, i + 1);
          return true;
        }
      }
    }
    assert prior[..|prior|] == prior;
    return false;
  }

  lemma {:induction false} InputValueFails(u: UtxoMap, prior: seq<Tx>, inputs: seq<TxIn>, i: nat, n: nat, h: nat)
    requires i <= n <= |inputs| && InputValue(u, prior, inputs, i, h).None?
    ensures InputValue(u, prior, inputs, n, h).None?
  {
    if i < n { InputValueFails(u, prior, inputs, i, n - 1, h); }
  }

  /** The input loop of `check_spendable`. */
  method AddInputs(u: UtxoMap, prior: seq<Tx>, inputs: seq<TxIn>, h: nat) returns (r: Option<nat>)
    ensures r == InputValue(u, prior, inputs, |inputs|, h)
  {
    hide Lookup;
    hide SpentIn;
    var total := 0;
    for i := 0 to |inputs|
      invariant InputValue(u, prior, inputs, i, h) == Some(total)
    {
      var p := Point(inputs[i]);
      var spent := SpentEarlier(prior, p);
      var o := FindOutpoint(u, prior, p, h);
      var worth := if o.Some? then InputWorth(o.value, h) else None;
      if spent || worth.None? || total > U64 - 1 - worth.value {
        InputValueFails(u, prior, inputs, i + 1, |inputs|, h);
        return None;
      }
      total := total + worth.value;
    }
    return Some(total);
  }

  lemma WrapAdd(a: nat, b: nat, c: nat)
    requires c == a % U64
    ensures (c + b) % U64 == (a + b) % U64
  {
  }

  /** `check_spendable`, with its 64-bit sums. */
  method CheckSpendable(u: UtxoMap, prior: seq<Tx>, tx: Tx, h: nat, release: nat) returns (ok: bool)
    ensures ok == Spendable(u, prior, tx, h, release)
  {
    hide InputValue;
    if tx.inputs == [] || tx.fee < MinFeeFor(h) {
      return false;
    }
    var input := AddInputs(u, prior, tx.inputs, h);
    if input.None? {
      return false;
    }
    var output := 0;
    for i := 0 to |tx.outputs|
      invariant output == OutSum(tx.outputs[..i]) % U64
    {
      assert tx.outputs[..i + 1][..i] == tx.outputs[..i];
      WrapAdd(OutSum(tx.outputs[..i]), tx.outputs[i].value, output);
      output := (output + tx.outputs[i].value) % U64;
    }
    assert tx.outputs[..|tx.outputs|] == tx.outputs;
    WrapAdd(OutSum(tx.outputs), tx.fee + LockOf(tx), output);
    var need := (output + (tx.fee + LockOf(tx))) % U64;
    var have := (input.value + release) % U64;
    return if tx.flag.NoFlag? then need <= have else have == need;
  }

  /** The fee loop of `rpc_submitblock`. */
  method TotalFees(txs: seq<Tx>) returns (fees: nat)
    ensures fees == FeeWord(txs)
  {
    fees := 0;
    for i := 0 to |txs|
      invariant fees == FeeSum(txs, i) % U64
    {
      WrapAdd(FeeSum(txs, i), txs[i].fee, fees);
      fees := (fees + txs[i].fee) % U64;
    }
  }

  lemma {:induction false} ScanPrefix(outs: seq<CbOut>, i: nat, payout: Text, foundation: Text)
    requires i <= |outs|
    ensures RowsRefusal(outs[..i], payout).Some? ==> RowsRefusal(outs, payout) == RowsRefusal(outs[..i], payout)
    ensures RolesRefusal(outs[..i], foundation).Some?
            ==> RolesRefusal(outs, foundation) == RolesRefusal(outs[..i], foundation)
  {
    hide RowRefusal;
    hide RoleRefusal;
    if i < |outs| {
      var n := |outs| - 1;
      assert outs[..n][..i] == outs[..i];
      ScanPrefix(outs[..n], i, payout, foundation);
    } else {
      assert outs[..i] == outs;
    }
  }

  /** The scan that reads the output list. */
  method ReadRows(outs: seq<CbOut>, payout: Text) returns (r: Option<Refusal>)
    ensures r == RowsRefusal(outs, payout)
  {
    for i := 0 to |outs|
      invariant RowsRefusal(outs[..i], payout).None?
    {
      assert outs[..i + 1][..i] == outs[..i];
      ScanPrefix(outs, i + 1, payout, []);
      if outs[i].address == [] { return Some(CoinbaseMissing); }
      if outs[i].role == Miner && outs[i].address != payout { return Some(WalletMissing); }
    }
    assert outs[..|outs|] == outs;
    return None;
  }

  /** The 64-bit total of one role; the source keeps five of these in one loop. */
  function Tally(was: nat, o: CbOut, role: Role): nat { if o.role == role then (was + o.units) % U64 else was }

  lemma TallyIs(outs: seq<CbOut>, i: nat, role: Role)
    requires i < |outs|
    ensures Tally(Emission.Paid(outs[..i], role), outs[i], role) == Emission.Paid(outs[..i + 1], role)
  {
    assert outs[..i + 1][..i] == outs[..i];
    WrapAdd(RoleSum(outs[..i], role), outs[i].units, Emission.Paid(outs[..i], role));
  }

  datatype Tallies = Tallies(miner: nat, validator: nat, stakers: nat, loans: nat, foundation: nat)

  ghost predicate Tallied(t: Tallies, outs: seq<CbOut>) {
    && t.miner == Emission.Paid(outs, Miner) && t.validator == Emission.Paid(outs, Validator)
    && t.stakers == Emission.Paid(outs, Role.Stakers) && t.loans == Emission.Paid(outs, Loans)
    && t.foundation == Emission.Paid(outs, Foundation)
  }

  /** The role loop: five accumulators, and the outputs it refuses. */
  method AddRoles(outs: seq<CbOut>, foundation: Text) returns (r: Option<Refusal>, t: Tallies)
    ensures r == RolesRefusal(outs, foundation)
    ensures r.None? ==> Tallied(t, outs)
  {
    hide Tally;
    hide Emission.Paid;
    hide RoleRefusal;
    t := Tallies(0, 0, 0, 0, 0);
    NothingPaid(outs);
    for i := 0 to |outs|
      invariant RolesRefusal(outs[..i], foundation).None? && Tallied(t, outs[..i])
    {
      var o := outs[i];
      assert outs[..i + 1][..i] == outs[..i];
      ScanPrefix(outs, i + 1, [], foundation);
      if RoleRefusal(o, foundation).Some? { return RoleRefusal(o, foundation), t; }
      TallyIs(outs, i, Miner);
      TallyIs(outs, i, Validator);
      TallyIs(outs, i, Role.Stakers);
      TallyIs(outs, i, Loans);
      TallyIs(outs, i, Foundation);
      t := Tallies(Tally(t.miner, o, Miner), Tally(t.validator, o, Validator), Tally(t.stakers, o, Role.Stakers),
                   Tally(t.loans, o, Loans), Tally(t.foundation, o, Foundation));
    }
    assert outs[..|outs|] == outs;
    return None, t;
  }

  lemma NothingPaid(outs: seq<CbOut>)
    ensures Tallied(Tallies(0, 0, 0, 0, 0), outs[..0])
  {
  }

  /** The coinbase checks of `rpc_submitblock`. */
  method CheckCoinbase(h: nat, fee: nat, payout: Text, foundation: Text, outs: seq<CbOut>, isPs1: Text -> bool)
      returns (r: Option<Refusal>)
    ensures r == CoinbaseRefusal(h, fee, payout, foundation, outs, isPs1)
  {
    hide FeeShares;
    hide RowsRefusal;
    hide RolesRefusal;
    hide Emission.Paid;
    hide SubsidyRefusal;
    r := ReadRows(outs, payout);
    if r.Some? { return; }
    var t;
    r, t := AddRoles(outs, foundation);
    if r.Some? { return; }
    var shares := FeeShares(fee);
    if t.stakers > shares.stakers || t.loans > shares.loans || t.foundation != shares.foundation {
      return Some(ExceedsEmission);
    }
    r := SubsidyRefusal(h, fee, t.miner, t.validator);
    if r.Some? { return; }
    if h >= MINER216_HEIGHT {
      for i := 0 to |outs|
        invariant forall k :: 0 <= k < i ==> outs[k].role == Validator ==> isPs1(outs[k].address)
      {
        if outs[i].role == Validator && !isPs1(outs[i].address) { return Some(ValidatorAddress); }
      }
    }
    return None;
  }

  lemma {:induction false} StageFails(u: UtxoMap, flags: seq<Flag>, cb: Tx, txs: seq<Tx>, i: nat, n: nat, h: nat)
    requires i <= n <= |txs| && Stage(u, flags, cb, txs, i, h).None?
    ensures Stage(u, flags, cb, txs, n, h).None?
  {
    if i < n { StageFails(u, flags, cb, txs, i, n - 1, h); }
  }

  /** The validation loop of `rpc_submitblock` on staged flags. */
  method StageAll(env: Env, u: UtxoMap, flags: seq<Flag>, cb: Tx, txs: seq<Tx>, h: nat) returns (r: Option<seq<Flag>>)
    ensures r == if (exists i :: 0 <= i < |txs| && !env.policy(txs[i])) then None
            else Stage(u, flags, cb, txs, |txs|, h)
  {
    hide Spendable;
    hide ApplyFlagTx;
    hide Release;
    var staged := flags;
    var prior := [cb];
    for i := 0 to |txs|
      invariant prior == Prior(cb, txs, i)
      invariant Stage(u, flags, cb, txs, i, h) == Some(staged)
      invariant forall k :: 0 <= k < i ==> env.policy(txs[k])
    {
      var ok := CheckSpendable(u, prior, txs[i], h, Release(txs[i], staged, prior));
      var applied := ApplyFlagTx(staged, txs[i], h);
      if !ok || !env.policy(txs[i]) || applied.Refused? {
        if !ok || applied.Refused? { StageFails(u, flags, cb, txs, i + 1, |txs|, h); }
        return None;
      }
      staged := applied.flags;
      prior := prior + [txs[i]];
    }
    return Some(staged);
  }

  lemma {:induction false} InsertPrefix(u: UtxoMap, credits: seq<Credit>, i: nat)
    requires i < |credits|
    ensures Insert(u, credits[..i + 1]) == Insert(u, credits[..i])[credits[i].point := credits[i].utxo]
  {
    assert credits[..i + 1][..i] == credits[..i];
  }

  class Storage {
    var store: seq<Block>
    var indexOf: map<Hash, nat>
    var headers: map<Hash, Header>
    var heights: seq<Hash>
    var bestHash: Hash
    var bestHeight: nat
    var utxo: UtxoMap
    var flags: seq<Flag>

    ghost function View(): NodeState
      reads this
    {
      NodeState(store, indexOf, headers, heights, bestHash, bestHeight, State(utxo, flags))
    }

    constructor ()
      ensures View() == START
    {
      store, indexOf, headers, heights, bestHash, bestHeight, utxo, flags := [], map[], map[], [], ZERO, 0, map[], [];
    }

    /** `apply_utxos`: two scans, then erase and insert; nothing moves unless both scans pass. */
    method ApplyUtxos(spends: seq<Outpoint>, credits: seq<Credit>) returns (ok: bool)
      modifies this`utxo
      ensures ok == Ledger.ApplyUtxos(old(utxo), spends, credits).Some?
      ensures utxo == if ok then Ledger.ApplyUtxos(old(utxo), spends, credits).value else old(utxo)
    {
      hide Insert;
      for i := 0 to |spends|
        invariant utxo == old(utxo) && forall k :: 0 <= k < i ==> spends[k] in utxo
      {
        if spends[i] !in utxo { return false; }
      }
      for i := 0 to |credits|
        invariant utxo == old(utxo) && forall k :: 0 <= k < i ==> credits[k].point !in utxo
      {
        if credits[i].point in utxo { return false; }
      }
      for i := 0 to |spends|
        invariant utxo == Erase(old(utxo), spends[..i])
      {
        assert spends[..i + 1] == spends[..i] + [spends[i]];
        utxo := utxo - {spends[i]};
      }
      assert spends[..|spends|] == spends;
      ghost var erased := utxo;
      assert Insert(erased, credits[..0]) == erased by { InsertNone(erased, credits); }
      for i := 0 to |credits|
        invariant utxo == Insert(erased, credits[..i])
      {
        InsertPrefix(erased, credits, i);
        utxo := utxo[credits[i].point := credits[i].utxo];
      }
      assert credits[..|credits|] == credits;
      return true;
    }

    /** `store_block_with_header`. */
    method StoreBlockWithHeader(b: Block)
      modifies this
      ensures View() == StoreBlock(old(View()), b)
    {
      store := store + [b];
      indexOf := indexOf[b.hash := |store| - 1];
      headers := headers[b.hash := HeaderOf(b)];
      heights := SetHeight(heights, b.height, b.hash);
      if b.height > bestHeight {
        bestHeight, bestHash := b.height, b.hash;
      }
    }

    /** `index_existing_block`. */
    method IndexExistingBlock(index: nat, b: Block)
      modifies this
      ensures View() == IndexExisting(old(View()), index, b)
    {
      indexOf := indexOf[b.hash := index];
      headers := headers[b.hash := HeaderOf(b)];
      heights := SetHeight(heights, b.height, b.hash);
      if b.height > bestHeight || bestHash == ZERO {
        bestHeight, bestHash := b.height, b.hash;
      }
    }

    /** `reset_active_chain` with the flag book emptied. */
    method ResetActiveChain()
      modifies this
      ensures View() == Reset(old(View()))
    {
      utxo, flags, heights, bestHash, bestHeight := map[], [], [], ZERO, 0;
    }

    /** `next_difficulty`. */
    method DemandedDifficulty() returns (bits: nat)
      ensures bits == NextDifficulty(View())
    {
      if heights == [] {
        return 4;
      }
      var tip := if bestHash in headers then Some(headers[bestHash]) else None;
      bits := ClampBits(if tip.None? || tip.value.difficulty == 0 then 4 else tip.value.difficulty);
      if tip.None? || tip.value.height < 10 {
        return;
      }
      var back := tip.value.height - 9;
      if back >= |heights| || heights[back] !in headers {
        return;
      }
      bits := RetargetDifficultyBits(bits, tip.value.timestamp - headers[heights[back]].timestamp);
    }

    /** The header checks of `rpc_submitblock`. */
    method CheckHeader(env: Env, b: Block) returns (why: Option<Why>)
      ensures why == HeaderRefusal(env, View(), b)
    {
      hide NextDifficulty;
      if !env.form(b) { return Some(BadForm); }
      if b.prev != (if heights == [] then ZERO else bestHash) { return Some(BadPrev); }
      if b.height != (if heights == [] then 1 else bestHeight + 1) { return Some(BadHeight); }
      if !env.challenge(b) { return Some(BadChallenge); }
      var bits := DemandedDifficulty();
      if b.difficulty != bits { return Some(BadDifficulty); }
      var parentTime := 0;
      if heights != [] {
        if bestHash !in headers { return Some(BadTimestamp); }
        parentTime := headers[bestHash].timestamp;
      }
      if b.timestamp <= parentTime || b.timestamp > env.now + 120 { return Some(BadTimestamp); }
      return None;
    }

    /** The coinbase and transaction checks, with the flags they stage. */
    method CheckBody(K: Oracle, env: Env, b: Block) returns (why: Option<Why>, staged: seq<Flag>)
      ensures why == BodyRefusal(K, env, View().ledger, b)
      ensures why.None? ==> StageBlock(K.sha, View().ledger, b) == Some(staged)
    {
      hide Stage;
      hide CoinbaseRefusal;
      hide Parsed;
      hide CoinbaseOf;
      hide FeeWord;
      hide NonZero;
      staged := [];
      for i := 0 to |b.txs|
        invariant forall k :: 0 <= k < i ==> Parsed(K.sha, b.txs[k], b.height)
      {
        if !Parsed(K.sha, b.txs[i], b.height) { return Some(BadTx), staged; }
      }
      var fees := TotalFees(b.txs);
      var refusal := CheckCoinbase(b.height, fees, b.payout, K.foundation, b.coinbase, K.isPs1);
      if refusal.Some? { return Some(BadCoinbase(refusal.value)), staged; }
      var cb := CoinbaseOf(K.sha, b);
      if NonZero(b.coinbase) == [] || (b.cbTxid.Some? && b.cbTxid.value != cb.txid) {
        return Some(BadCoinbase(CoinbaseMissing)), staged;
      }
      var r := StageAll(env, utxo, flags, cb, b.txs, b.height);
      if r.None? { return Some(BadSpend), staged; }
      return None, r.value;
    }

    /** The root, digest, work and size checks. */
    method CheckSeal(K: Oracle, env: Env, b: Block) returns (why: Option<Why>)
      ensures why == SealRefusal(K, env, b)
    {
      var root := Merkle.MerkleRoot(K.pair, TxIds(K, b));
      if b.merkle != root { return Some(BadMerkle); }
      if b.hash != K.digest(PreimageOf(b)) { return Some(BadDigest); }
      if !K.pow(b.hash, b.difficulty) { return Some(WeakDigest); }
      if !env.fits(Stored(K.sha, b)) { return Some(TooLarge); }
      return None;
    }

    /** The settling loop: coinbase credits, then each transaction; a failed update is skipped. */
    method SettleAll(cb: Tx, txs: seq<Tx>, h: nat)
      modifies this`utxo
      ensures utxo == Settle(SettleOne(old(utxo), cb, h), txs, |txs|, h)
    {
      hide Ledger.ApplyUtxos;
      var _ := ApplyUtxos(Spends(cb), Credits(cb.txid, cb.outputs, h));
      ghost var u1 := utxo;
      for i := 0 to |txs|
        invariant utxo == Settle(u1, txs, i, h)
      {
        var _ := ApplyUtxos(Spends(txs[i]), Credits(txs[i].txid, txs[i].outputs, h));
      }
    }

    /** `rpc_submitblock`. */
    method SubmitBlock(K: Oracle, env: Env, b: Block) returns (o: Outcome)
      modifies this
      ensures o == SubmitOutcome(K, env, old(View()), b)
      ensures View() == Submit(K, env, old(View()), b)
    {
      hide HeaderRefusal;
      hide BodyRefusal;
      hide SealRefusal;
      hide StoreBlock;
      hide Settle;
      hide SettleOne;
      hide CoinbaseOf;
      hide Stored;
      hide StageBlock;
      var why := CheckHeader(env, b);
      if why.Some? { return Rejected(why.value); }
      var staged;
      why, staged := CheckBody(K, env, b);
      if why.Some? { return Rejected(why.value); }
      why := CheckSeal(K, env, b);
      if why.Some? { return Rejected(why.value); }
      if b.hash in indexOf { return AlreadyKnown; }
      StoreBlockWithHeader(Stored(K.sha, b));
      StoreKeepsLedger(old(View()), Stored(K.sha, b));
      SettleAll(CoinbaseOf(K.sha, b), b.txs, b.height);
      flags := staged;
      return Accepted;
    }

    /** The credits loop of `apply_chain` over a stored coinbase. */
    method ReadCoinbase(txid: Hash, outs: seq<CbOut>, h: nat) returns (credits: seq<Credit>)
      ensures credits == ReadCredits(txid, outs, h)
    {
      credits := [];
      for vout := 0 to |outs|
        invariant credits == ReadCredits(txid, outs[..vout], h)
      {
        assert outs[..vout + 1][..vout] == outs[..vout];
        if outs[vout].units > 0 {
          credits := credits + [Credit(Outpoint(txid, vout), Utxo(outs[vout].units, outs[vout].address, h))];
        }
      }
      assert outs[..|outs|] == outs;
    }

    /** The transaction loop of `apply_chain`. */
    method ReplayTransactions(txs: seq<Tx>, h: nat) returns (ok: bool)
      modifies this`utxo, this`flags
      ensures ok == ReplayTxs(old(View()).ledger, txs, |txs|, h).Some?
      ensures ok ==> View().ledger == ReplayTxs(old(View()).ledger, txs, |txs|, h).value
    {
      hide Ledger.ApplyUtxos;
      hide ApplyFlagTx;
      ghost var s := View().ledger;
      for i := 0 to |txs|
        invariant ReplayTxs(s, txs, i, h) == Some(View().ledger)
      {
        var applied := ApplyUtxos(Spends(txs[i]), Credits(txs[i].txid, txs[i].outputs, h));
        var flagged := ApplyFlagTx(flags, txs[i], h);
        if !applied || flagged.Refused? {
          ReplayFails(s, txs, i + 1, |txs|, h);
          return false;
        }
        flags := flagged.flags;
      }
      return true;
    }

    /** One block of `apply_chain`. */
    method ReplayOne(b: Block) returns (ok: bool)
      modifies this`utxo, this`flags
      ensures ok == ReplayStored(old(View()).ledger, b).Some?
      ensures ok ==> View().ledger == ReplayStored(old(View()).ledger, b).value
    {
      hide Ledger.ApplyUtxos;
      hide ReplayTxs;
      hide ReadCredits;
      var credits := [];
      if b.cbTxid.Some? {
        credits := ReadCoinbase(b.cbTxid.value, b.coinbase, b.height);
      }
      var applied := ApplyUtxos([], credits);
      if !applied {
        return false;
      }
      ok := ReplayTransactions(b.txs, b.height);
    }

    /** `apply_chain`. */
    method ApplyFound(c: seq<FoundBlock<Block>>) returns (ok: bool)
      modifies this
      ensures ok == ApplyChain(old(View()), c, |c|).Some?
      ensures ok ==> View() == ApplyChain(old(View()), c, |c|).value
    {
      hide ReplayStored;
      hide IndexExisting;
      ghost var n := View();
      for i := 0 to |c|
        invariant ApplyChain(n, c, i) == Some(View())
      {
        ghost var m := View();
        IndexExistingBlock(c[i].index, c[i].obj);
        IndexKeepsLedger(m, c[i].index, c[i].obj);
        var replayed := ReplayOne(c[i].obj);
        if !replayed {
          ApplyFails(n, c, i + 1, |c|);
          return false;
        }
      }
      return true;
    }

    /** `load_found_blocks`, on records that parse. */
    method LoadFound() returns (found: seq<FoundBlock<Block>>)
      ensures found == Found(store)
    {
      found := [];
      for i := 0 to |store|
        invariant found == Found(store)[..i]
      {
        found := found + [FoundBlock(i, store[i].height, store[i].prev, store[i].hash, store[i])];
      }
    }

    /**
     * A restart: the block file is scanned, and `restore_chain` applies the longest chain in it. The
     * hash indexes start empty, so they end up listing that chain alone.
     */
    method RestoreChain() returns (ok: bool)
      modifies this
      ensures match Node.Restart(old(View()))
              case NoChain => false
              case Broken => !ok
              case Replayed(m) => ok && View() == m
    {
      hide ApplyChain;
      hide LongestChain;
      indexOf, headers := map[], map[];
      ResetActiveChain();
      var found := LoadFound();
      var chosen := ChooseLongestChain(found);
      if chosen == [] {
        NothingToApply(View());
        return true;
      }
      ok := ApplyFound(chosen);
    }

    /** `rpc_replay_chain`. */
    method ReplayChain(tip: Hash) returns (ok: bool)
      modifies this
      ensures match ReplayTo(old(View()), tip)
              case NoChain => !ok && View() == old(View())
              case Broken => !ok
              case Replayed(m) => ok && View() == m
    {
      hide ApplyChain;
      hide ChainTo;
      var found := LoadFound();
      var chosen := ChainEndingAt(found, tip);
      if chosen == [] || chosen[|chosen| - 1].hash != tip {
        return false;
      }
      ResetActiveChain();
      ok := ApplyFound(chosen);
    }

    /** The submission loop of `rpc_adopt_peer_chain`. */
    method FeedBlocks(K: Oracle, envs: seq<Env>, blocks: seq<Block>) returns (ok: bool)
      requires |envs| == |blocks|
      modifies this
      ensures Fed(View(), ok) == Feed(K, envs, old(View()), blocks, |blocks|)
    {
      hide Submit;
      hide SubmitOutcome;
      ghost var n := View();
      for i := 0 to |blocks|
        invariant Feed(K, envs, n, blocks, i) == Fed(View(), true)
      {
        var o := SubmitBlock(K, envs[i], blocks[i]);
        if o.Rejected? {
          FeedStops(K, envs, n, blocks, i + 1, |blocks|);
          return false;
        }
      }
      return true;
    }

    /** `rpc_adopt_peer_chain`. */
    method AdoptPeerChain(K: Oracle, envs: seq<Env>, ancestor: Hash, blocks: seq<Block>) returns (ok: bool)
      requires |envs| == |blocks|
      modifies this
      ensures match Adopt(K, envs, old(View()), ancestor, blocks)
              case Kept(m) => !ok && View() == m
              case Adopted(m) => ok && View() == m
              case Lost => !ok
    {
      hide ReplayTo;
      hide Feed;
      var localHeight := if heights == [] then 0 else bestHeight;
      if blocks == [] || blocks[|blocks| - 1].height <= localHeight {
        return false;
      }
      var had, oldTip := heights != [], bestHash;
      if !(had && oldTip == ancestor) {
        var replayed := ReplayChain(ancestor);
        if !replayed {
          return false;
        }
      }
      ok := FeedBlocks(K, envs, blocks);
      if !ok && had {
        var _ := ReplayChain(oldTip);
      }
    }
  }

  lemma {:induction false} ReplayFails(s: State, txs: seq<Tx>, i: nat, n: nat, h: nat)
    requires i <= n <= |txs| && ReplayTxs(s, txs, i, h).None?
    ensures ReplayTxs(s, txs, n, h).None?
  {
    hide ReplayTx;
    if i < n { ReplayFails(s, txs, i, n - 1, h); }
  }

  lemma {:induction false} ApplyFails(n: NodeState, c: seq<FoundBlock<Block>>, i: nat, k: nat)
    requires i <= k <= |c| && ApplyChain(n, c, i).None?
    ensures ApplyChain(n, c, k).None?
  {
    hide ReplayStored;
    hide IndexExisting;
    if i < k { ApplyFails(n, c, i, k - 1); }
  }

  lemma {:induction false} FeedStops(K: Oracle, envs: seq<Env>, n: NodeState, blocks: seq<Block>, i: nat, k: nat)
    requires |envs| == |blocks| && i <= k <= |blocks| && !Feed(K, envs, n, blocks, i).ok
    ensures Feed(K, envs, n, blocks, k) == Feed(K, envs, n, blocks, i)
  {
    hide Submit;
    hide SubmitOutcome;
    if i < k { FeedStops(K, envs, n, blocks, i, k - 1); }
  }

  lemma IndexKeepsLedger(n: NodeState, i: nat, b: Block)
    ensures IndexExisting(n, i, b).ledger == n.ledger
  {
  }

  lemma NothingToApply(n: NodeState)
    ensures ApplyChain(n, [], 0) == Some(n)
  {
  }

  lemma InsertNone(u: UtxoMap, credits: seq<Credit>)
    ensures Insert(u, credits[..0]) == u
  {
  }

  lemma StoreKeepsLedger(n: NodeState, b: Block)
    ensures StoreBlock(n, b).ledger == n.ledger
  {
  }
}
