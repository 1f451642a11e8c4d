/**
 * No outpoint is created twice and none is spent twice along a chain, so every UTXO update
 * that follows validation succeeds.
 *
 * The one assumption is that SHA-256 does not collide on the transaction encodings that
 * occur (`corpus`); everything else is derived from the checks of `rpc_submitblock`.
 */
module Freshness {
  import opened Types
  import opened Records
  import opened TxCodec
  import opened Flags
  import opened Ledger

  type Sha = Bytes -> Hash

  ghost predicate CollisionFree(sha: Sha, corpus: iset<Bytes>) {
    forall a, b :: a in corpus && b in corpus && sha(a) == sha(b) ==> a == b
  }

  /** The id is the hash of the encoding, and the record has the shape its kind gives it. */
  ghost predicate Honest(sha: Sha, corpus: iset<Bytes>, t: Tx) {
    && t.txid == sha(Canonical(t)) && Canonical(t) in corpus
    && (t.coinbase ==> t.flag.NoFlag? && t.reg.NoReg? && t.inputs == [] && t.height < U32)
    && (!t.coinbase ==> t.inputs != [] && |t.inputs| < U32 && InsFit(t.inputs))
  }

  ghost predicate AllHonest(sha: Sha, corpus: iset<Bytes>, txs: seq<Tx>) {
    forall i :: 0 <= i < |txs| ==> Honest(sha, corpus, txs[i])
  }

  ghost function Ids(txs: seq<Tx>): set<Hash> {
    if txs == [] then {} else Ids(txs[..|txs| - 1]) + {txs[|txs| - 1].txid}
  }

  lemma {:induction false} IdComesFrom(txs: seq<Tx>, id: Hash)
    ensures id in Ids(txs) <==> exists i :: 0 <= i < |txs| && txs[i].txid == id
  {
    if txs != [] {
      var n := |txs| - 1;
      IdComesFrom(txs[..n], id);
      if id in Ids(txs[..n]) {
        var i :| 0 <= i < n && txs[..n][i].txid == id;
        assert txs[i].txid == id;
      }
      if i :| 0 <= i < |txs| && txs[i].txid == id {
        if i < n { assert txs[..n][i].txid == id; }
      }
    }
  }

  lemma {:induction false} SpentContains(txs: seq<Tx>, i: nat)
    requires i < |txs|
    ensures forall k :: 0 <= k < |txs[i].inputs| ==> Point(txs[i].inputs[k]) in SpentIn(txs)
  {
    if i < |txs| - 1 { SpentContains(txs[..|txs| - 1], i); }
  }

  lemma AppendOne(txs: seq<Tx>, t: Tx)
    ensures Ids(txs + [t]) == Ids(txs) + {t.txid}
    ensures SpentIn(txs + [t]) == SpentIn(txs) + InPoints(t)
  {
    assert (txs + [t])[..|txs|] == txs;
  }

  /** A transaction whose first input is unspent so far has an id not seen so far. */
  lemma UserFresh(sha: Sha, corpus: iset<Bytes>, past: seq<Tx>, tx: Tx)
    requires CollisionFree(sha, corpus) && AllHonest(sha, corpus, past) && Honest(sha, corpus, tx)
    requires !tx.coinbase && Point(tx.inputs[0]) !in SpentIn(past)
    ensures tx.txid !in Ids(past)
  {
    hide Canonical;
    if tx.txid in Ids(past) {
      IdComesFrom(past, tx.txid);
      var i :| 0 <= i < |past| && past[i].txid == tx.txid;
      SameKind(past[i], tx);
      SameInputs(past[i], tx);
      SpentContains(past, i);
      assert false;
    }
  }

  /** A coinbase at a height not used so far has an id not seen so far. */
  lemma CoinbaseFresh(sha: Sha, corpus: iset<Bytes>, past: seq<Tx>, cb: Tx)
    requires CollisionFree(sha, corpus) && AllHonest(sha, corpus, past) && Honest(sha, corpus, cb)
    requires cb.coinbase && forall i :: 0 <= i < |past| && past[i].coinbase ==> past[i].height != cb.height
    ensures cb.txid !in Ids(past)
  {
    hide Canonical;
    if cb.txid in Ids(past) {
      IdComesFrom(past, cb.txid);
      var i :| 0 <= i < |past| && past[i].txid == cb.txid;
      SameKind(past[i], cb);
      SameHeight(past[i], cb);
      assert false;
    }
  }

  // ---- The running invariant ----

  /**
   * `past` lists every transaction applied so far, `u` is the UTXO set they left at height `h`:
   * every unspent output comes from `past`, and nothing `past` has spent is in the set.
   */
  ghost predicate Inv(past: seq<Tx>, u: UtxoMap, h: nat) {
    && (forall p :: p in u ==> p.txid in Ids(past))
    && (forall p :: p in u ==> p !in SpentIn(past))
    && (forall p :: p in SpentIn(past) ==> p.txid in Ids(past))
    && (forall p :: p in u ==> 1 <= u[p].height <= h)
  }

  lemma {:induction false} InsertCredits(u: UtxoMap, txid: Hash, outs: seq<TxOut>, n: nat, h: nat)
    requires n <= |outs|
    ensures var r := Insert(u, Credits(txid, outs, h)[..n]);
            && (forall p :: p in r <==> p in u || (p.txid == txid && p.vout < n))
            && (forall p :: p in r ==> r[p] == if p.txid == txid && p.vout < n
                                                then Utxo(outs[p.vout].value, outs[p.vout].address, h) else u[p])
  {
    hide Insert;
    var c := Credits(txid, outs, h);
    InsertSnoc(u, c, n);
    if n > 0 {
      InsertCredits(u, txid, outs, n - 1, h);
      assert c[n - 1] == Credit(Outpoint(txid, n - 1), Utxo(outs[n - 1].value, outs[n - 1].address, h));
      assert forall p: Outpoint :: p.txid == txid && p.vout == n - 1 ==> p == c[n - 1].point;
    }
  }

  lemma InsertSnoc(u: UtxoMap, c: seq<Credit>, n: nat)
    requires n <= |c|
    ensures Insert(u, c[..n]) == if n == 0 then u else Insert(u, c[..n - 1])[c[n - 1].point := c[n - 1].utxo]
  {
    assert n > 0 ==> c[..n][..n - 1] == c[..n - 1];
  }

  /** What a successful application leaves. */
  lemma ApplyTxMeans(u: UtxoMap, tx: Tx, h: nat)
    requires InPoints(tx) <= u.Keys
    requires forall p :: p in u ==> p.txid != tx.txid
    ensures ApplyTx(u, tx, h).Some?
    ensures var r := ApplyTx(u, tx, h).value;
            && (forall p :: p in r <==> (p in u && p !in InPoints(tx)) || (p.txid == tx.txid && p.vout < |tx.outputs|))
            && (forall p :: p in r ==> r[p] == if p.txid == tx.txid
                                                then Utxo(tx.outputs[p.vout].value, tx.outputs[p.vout].address, h)
                                                else u[p])
  {
    var c := Credits(tx.txid, tx.outputs, h);
    var e := Erase(u, Spends(tx));
    assert c[..|c|] == c;
    InsertCredits(e, tx.txid, tx.outputs, |tx.outputs|, h);
    forall i | 0 <= i < |tx.inputs| ensures Spends(tx)[i] in u { assert Point(tx.inputs[i]) in InPoints(tx); }
    assert forall p :: p in Spends(tx) <==> p in InPoints(tx);
  }

  lemma ApplyKeepsInv(past: seq<Tx>, u: UtxoMap, tx: Tx, h: nat)
    requires Inv(past, u, h) && h >= 1
    requires InPoints(tx) <= u.Keys && tx.txid !in Ids(past)
    ensures ApplyTx(u, tx, h).Some? && Inv(past + [tx], ApplyTx(u, tx, h).value, h)
  {
    hide ApplyTx;
    hide Ids;
    hide SpentIn;
    ApplyTxMeans(u, tx, h);
    AppendOne(past, tx);
  }

  // ---- Validation looks at the pre-block set and the earlier transactions; it sees the running set ----

  /** Looking an outpoint up in the pre-block set and `prior` is looking it up in the running set `u`. */
  ghost predicate View(u0: UtxoMap, prior: seq<Tx>, h: nat, u: UtxoMap) {
    && (forall p :: p in u <==> Lookup(u0, prior, p, h).Some? && p !in SpentIn(prior))
    && (forall p :: p in u ==> Lookup(u0, prior, p, h) == Some(u[p]))
  }

  lemma {:induction false} NotInPrior(prior: seq<Tx>, p: Outpoint, h: nat)
    requires p.txid !in Ids(prior)
    ensures LookupPrior(prior, p, h).None?
  {
    if prior != [] { NotInPrior(prior[..|prior| - 1], p, h); }
  }

  lemma LookupAppend(prior: seq<Tx>, t: Tx, p: Outpoint, h: nat)
    ensures LookupPrior(prior + [t], p, h) ==
            if LookupPrior(prior, p, h).Some? then LookupPrior(prior, p, h)
            else if t.txid == p.txid && p.vout < |t.outputs|
            then Some(Utxo(t.outputs[p.vout].value, t.outputs[p.vout].address, h))
            else None
  {
    assert (prior + [t])[..|prior|] == prior;
  }

  lemma ViewStart(past: seq<Tx>, u: UtxoMap, h: nat)
    requires Inv(past, u, h)
    ensures View(u, [], h, u)
  {
  }

  lemma ViewStep(u0: UtxoMap, prior: seq<Tx>, h: nat, u: UtxoMap, tx: Tx)
    requires View(u0, prior, h, u) && InPoints(tx) <= u.Keys
    requires tx.txid !in Ids(prior) && forall p :: p in u0 ==> p.txid != tx.txid
    requires forall p :: p in SpentIn(prior) ==> p.txid != tx.txid
    ensures ApplyTx(u, tx, h).Some? && View(u0, prior + [tx], h, ApplyTx(u, tx, h).value)
  {
    hide ApplyTx;
    hide SpentIn;
    hide LookupPrior;
    hide Ids;
    AppendOne(prior, tx);
    forall p: Outpoint | p.txid == tx.txid ensures p !in u && LookupPrior(prior, p, h).None? {
      NotInPrior(prior, p, h);
    }
    ApplyTxMeans(u, tx, h);
    forall p: Outpoint { LookupAppend(prior, tx, p, h); }
  }

  lemma {:induction false} InputsFound(u: UtxoMap, prior: seq<Tx>, inputs: seq<TxIn>, n: nat, h: nat)
    requires n <= |inputs| && InputValue(u, prior, inputs, n, h).Some?
    ensures forall i :: 0 <= i < n ==>
              Point(inputs[i]) !in SpentIn(prior) && Lookup(u, prior, Point(inputs[i]), h).Some?
  {
    if n > 0 { InputsFound(u, prior, inputs, n - 1, h); }
  }

  /** A transaction that passes `check_spendable` spends outputs of the running set. */
  lemma SpendsRunningSet(u0: UtxoMap, prior: seq<Tx>, h: nat, u: UtxoMap, tx: Tx, release: nat)
    requires View(u0, prior, h, u) && Spendable(u0, prior, tx, h, release)
    ensures InPoints(tx) <= u.Keys
  {
    hide Lookup;
    hide SpentIn;
    InputsFound(u0, prior, tx.inputs, |tx.inputs|, h);
  }

  ghost predicate Running(past: seq<Tx>, u0: UtxoMap, prior: seq<Tx>, u: UtxoMap, h: nat) {
    && Inv(past + prior, u, h)
    && View(u0, prior, h, u)
    && (forall p :: p in u0 ==> p.txid in Ids(past))
  }

  lemma {:induction false} IdsConcat(a: seq<Tx>, b: seq<Tx>)
    ensures Ids(a + b) == Ids(a) + Ids(b)
    ensures SpentIn(a + b) == SpentIn(a) + SpentIn(b)
  {
    if b == [] {
      assert a + b == a;
    } else {
      var n := |b| - 1;
      IdsConcat(a, b[..n]);
      AppendOne(a + b[..n], b[n]);
      AppendOne(b[..n], b[n]);
      assert a + b == (a + b[..n]) + [b[n]] && b == b[..n] + [b[n]];
    }
  }

  /** Applying a transaction whose id is new and whose inputs are unspent keeps everything. */
  lemma RunningStep(past: seq<Tx>, u0: UtxoMap, prior: seq<Tx>, u: UtxoMap, tx: Tx, h: nat)
    requires Running(past, u0, prior, u, h) && h >= 1
    requires InPoints(tx) <= u.Keys && tx.txid !in Ids(past + prior)
    ensures ApplyTx(u, tx, h).Some? && Running(past, u0, prior + [tx], ApplyTx(u, tx, h).value, h)
  {
    hide ApplyTx;
    hide SpentIn;
    hide Ids;
    hide View;
    IdsConcat(past, prior);
    ApplyKeepsInv(past + prior, u, tx, h);
    assert past + prior + [tx] == past + (prior + [tx]);
    ViewStep(u0, prior, h, u, tx);
  }

  // ---- One validated block ----

  /** The records of a block and of the chain below it, under the no-collision assumption. */
  ghost predicate Setting(sha: Sha, corpus: iset<Bytes>, past: seq<Tx>, cb: Tx, txs: seq<Tx>, h: nat) {
    && CollisionFree(sha, corpus)
    && AllHonest(sha, corpus, past) && Honest(sha, corpus, cb) && AllHonest(sha, corpus, txs)
    && cb.coinbase && cb.height == h
    && (forall i :: 0 <= i < |past| && past[i].coinbase ==> past[i].height != h)
    && (forall i :: 0 <= i < |txs| ==> !txs[i].coinbase)
  }

  lemma CoinbaseStep(sha: Sha, corpus: iset<Bytes>, past: seq<Tx>, u0: UtxoMap, cb: Tx, txs: seq<Tx>, h: nat)
    requires Setting(sha, corpus, past, cb, txs, h) && Inv(past, u0, h) && h >= 1
    ensures ApplyTx(u0, cb, h).Some? && Running(past, u0, [cb], ApplyTx(u0, cb, h).value, h)
  {
    hide ApplyTx;
    hide View;
    CoinbaseFresh(sha, corpus, past, cb);
    ViewStart(past, u0, h);
    assert past + [] == past;
    RunningStep(past, u0, [], u0, cb, h);
    assert [] + [cb] == [cb];
  }

  lemma TxStep(sha: Sha, corpus: iset<Bytes>, past: seq<Tx>, u0: UtxoMap, prior: seq<Tx>, u: UtxoMap, tx: Tx, h: nat,
               release: nat)
    requires CollisionFree(sha, corpus) && AllHonest(sha, corpus, past + prior) && Honest(sha, corpus, tx)
             && !tx.coinbase
    requires Running(past, u0, prior, u, h) && h >= 1
    requires Spendable(u0, prior, tx, h, release)
    ensures tx.txid !in Ids(past + prior)
    ensures ApplyTx(u, tx, h).Some? && Running(past, u0, prior + [tx], ApplyTx(u, tx, h).value, h)
  {
    hide ApplyTx;
    hide View;
    hide Ids;
    hide SpentIn;
    hide InputValue;
    hide Canonical;
    SpendsRunningSet(u0, prior, h, u, tx, release);
    assert Point(tx.inputs[0]) in InPoints(tx);
    UserFresh(sha, corpus, past + prior, tx);
    RunningStep(past, u0, prior, u, tx, h);
  }

  lemma PriorHonest(sha: Sha, corpus: iset<Bytes>, past: seq<Tx>, cb: Tx, txs: seq<Tx>, n: nat, h: nat)
    requires Setting(sha, corpus, past, cb, txs, h) && n <= |txs|
    ensures AllHonest(sha, corpus, past + Prior(cb, txs, n))
  {
    hide Honest;
    var all := past + Prior(cb, txs, n);
    forall i | 0 <= i < |all| ensures Honest(sha, corpus, all[i]) {
      if i > |past| { assert all[i] == txs[i - |past| - 1]; }
    }
  }

  /**
   * After validation every UTXO update succeeds. The running set the settling loop of
   * `rpc_submitblock` keeps, and the one the replay loop of `apply_chain` rebuilds, agree
   * after every transaction, with the staged flags beside them.
   */
  lemma {:induction false} TxsReplay(sha: Sha, corpus: iset<Bytes>, past: seq<Tx>, u0: UtxoMap, flags: seq<Flag>,
                                     cb: Tx, txs: seq<Tx>, n: nat, h: nat)
    requires Setting(sha, corpus, past, cb, txs, h) && Inv(past, u0, h) && h >= 1
    requires n <= |txs| && Stage(u0, flags, cb, txs, n, h).Some?
    ensures ApplyTx(u0, cb, h).Some?
    ensures var u1 := ApplyTx(u0, cb, h).value;
            && ReplayTxs(State(u1, flags), txs, n, h)
                == Some(State(Settle(u1, txs, n, h), Stage(u0, flags, cb, txs, n, h).value))
            && Running(past, u0, Prior(cb, txs, n), Settle(u1, txs, n, h), h)
            && forall k :: 0 <= k < n ==> ApplyTx(Settle(u1, txs, k, h), txs[k], h).Some?
  {
    hide ApplyTx;
    hide Running;
    hide ApplyFlagTx;
    hide Spendable;
    hide Honest;
    hide Ids;
    if n == 0 {
      CoinbaseStep(sha, corpus, past, u0, cb, txs, h);
      assert Prior(cb, txs, 0) == [cb];
    } else {
      TxsReplay(sha, corpus, past, u0, flags, cb, txs, n - 1, h);
      PriorHonest(sha, corpus, past, cb, txs, n - 1, h);
      var prior, tx := Prior(cb, txs, n - 1), txs[n - 1];
      var staged := Stage(u0, flags, cb, txs, n - 1, h).value;
      var u := Settle(ApplyTx(u0, cb, h).value, txs, n - 1, h);
      TxStep(sha, corpus, past, u0, prior, u, tx, h, Release(tx, staged, prior));
      assert prior + [tx] == Prior(cb, txs, n);
    }
  }

  /** A validated block replays to exactly what was settled, and keeps the invariant of its chain. */
  lemma BlockReplays(sha: Sha, corpus: iset<Bytes>, past: seq<Tx>, s: State, cb: Tx, txs: seq<Tx>, h: nat)
    requires Setting(sha, corpus, past, cb, txs, h) && Inv(past, s.utxo, h) && h >= 1
    requires Stage(s.utxo, s.flags, cb, txs, |txs|, h).Some?
    ensures var u1 := SettleOne(s.utxo, cb, h);
            && ReplayBlock(s, cb, txs, h)
                == Some(State(Settle(u1, txs, |txs|, h), Stage(s.utxo, s.flags, cb, txs, |txs|, h).value))
            && Inv(past + [cb] + txs, Settle(u1, txs, |txs|, h), h)
  {
    hide ApplyTx;
    hide Inv;
    hide View;
    hide Settle;
    hide Stage;
    hide ReplayTxs;
    TxsReplay(sha, corpus, past, s.utxo, s.flags, cb, txs, |txs|, h);
    assert txs[..|txs|] == txs;
    assert past + Prior(cb, txs, |txs|) == past + [cb] + txs;
  }

  // ---- Nothing is created or spent twice ----

  /** No id occurs twice, and no outpoint is spent by two transactions. */
  ghost predicate NeverReused(txs: seq<Tx>) {
    txs == [] ||
    var front, t := txs[..|txs| - 1], txs[|txs| - 1];
    NeverReused(front) && t.txid !in Ids(front) && InPoints(t) !! SpentIn(front)
  }

  lemma NeverReusedSnoc(txs: seq<Tx>, t: Tx)
    requires NeverReused(txs) && t.txid !in Ids(txs) && InPoints(t) !! SpentIn(txs)
    ensures NeverReused(txs + [t])
  {
    assert (txs + [t])[..|txs|] == txs;
  }

  /** Pairwise: two different transactions of such a list share neither their id nor an input. */
  lemma {:induction false} NeverReusedPairwise(txs: seq<Tx>, i: nat, j: nat)
    requires NeverReused(txs) && i < j < |txs|
    ensures txs[i].txid != txs[j].txid && InPoints(txs[i]) !! InPoints(txs[j])
  {
    var n := |txs| - 1;
    if j < n {
      NeverReusedPairwise(txs[..n], i, j);
    } else {
      IdComesFrom(txs[..n], txs[i].txid);
      assert txs[..n][i] == txs[i];
      SpentContains(txs[..n], i);
    }
  }

  lemma StepNeverReuses(past: seq<Tx>, u: UtxoMap, tx: Tx, h: nat)
    requires Inv(past, u, h) && InPoints(tx) <= u.Keys && tx.txid !in Ids(past) && NeverReused(past)
    ensures NeverReused(past + [tx])
  {
    hide Ids;
    hide SpentIn;
    hide NeverReused;
    NeverReusedSnoc(past, tx);
  }

  lemma CoinbaseSpendsNothing(sha: Sha, corpus: iset<Bytes>, cb: Tx)
    requires Honest(sha, corpus, cb) && cb.coinbase
    ensures InPoints(cb) == {}
  {
    hide Canonical;
  }

  lemma {:induction false} BlockNeverReuses(sha: Sha, corpus: iset<Bytes>, past: seq<Tx>, u0: UtxoMap, flags: seq<Flag>,
                                            cb: Tx, txs: seq<Tx>, n: nat, h: nat)
    requires Setting(sha, corpus, past, cb, txs, h) && Inv(past, u0, h) && h >= 1 && NeverReused(past)
    requires n <= |txs| && Stage(u0, flags, cb, txs, n, h).Some?
    ensures NeverReused(past + Prior(cb, txs, n))
  {
    hide ApplyTx;
    hide View;
    hide ApplyFlagTx;
    hide Spendable;
    hide Honest;
    hide NeverReused;
    hide Ids;
    hide SpentIn;
    hide ReplayTxs;
    if n == 0 {
      CoinbaseFresh(sha, corpus, past, cb);
      CoinbaseSpendsNothing(sha, corpus, cb);
      StepNeverReuses(past, u0, cb, h);
      assert Prior(cb, txs, 0) == [cb];
    } else {
      BlockNeverReuses(sha, corpus, past, u0, flags, cb, txs, n - 1, h);
      TxsReplay(sha, corpus, past, u0, flags, cb, txs, n - 1, h);
      PriorHonest(sha, corpus, past, cb, txs, n - 1, h);
      var prior, tx := Prior(cb, txs, n - 1), txs[n - 1];
      var staged := Stage(u0, flags, cb, txs, n - 1, h).value;
      var u := Settle(ApplyTx(u0, cb, h).value, txs, n - 1, h);
      var release := Release(tx, staged, prior);
      TxStep(sha, corpus, past, u0, prior, u, tx, h, release);
      SpendsRunningSet(u0, prior, h, u, tx, release);
      StepNeverReuses(past + prior, u, tx, h);
      assert past + prior + [tx] == past + Prior(cb, txs, n);
    }
  }
}
