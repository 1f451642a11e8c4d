/**
 * Ledgers compared by shape: the outpoints they hold, the heights these were made at, and the flags.
 *
 * A replay looks at nothing else. So ledgers of one shape replay alike, and two copies of a block that
 * pay different coinbase outputs under one id lead to one shape; `LedgersEqualIff` says when they lead
 * to one ledger.
 */
module Shape {
  import opened Types
  import opened Records
  import opened TxCodec
  import opened Flags
  import opened Ledger
  import opened Freshness

  /** The same outpoints, made at the same heights; values and owners may differ. */
  ghost predicate SameKeys(u: UtxoMap, v: UtxoMap) {
    u.Keys == v.Keys && forall p :: p in u ==> u[p].height == v[p].height
  }

  ghost predicate SameShape(s: State, t: State) { SameKeys(s.utxo, t.utxo) && s.flags == t.flags }

  /** Two transactions that move the same outpoints. */
  ghost predicate SameMoves(a: Tx, b: Tx) {
    a.txid == b.txid && Spends(a) == Spends(b) && |a.outputs| == |b.outputs|
  }

  /** What a transaction leaves, if all its inputs are there and none of its outputs is. */
  lemma ApplyIs(u: UtxoMap, tx: Tx, h: nat)
    ensures ApplyTx(u, tx, h).Some? <==>
              && (forall i :: 0 <= i < |tx.inputs| ==> Spends(tx)[i] in u)
              && (forall p :: p in u ==> !(p.txid == tx.txid && p.vout < |tx.outputs|))
    ensures ApplyTx(u, tx, h).Some? ==>
              var r := ApplyTx(u, tx, h).value;
              && (forall p :: p in r <==> (p in u && p !in Spends(tx)) || (p.txid == tx.txid && p.vout < |tx.outputs|))
              && (forall p :: p in r ==> r[p] == if p.txid == tx.txid && p.vout < |tx.outputs|
                                                 then Utxo(tx.outputs[p.vout].value, tx.outputs[p.vout].address, h)
                                                 else u[p])
  {
    hide Insert;
    var c, e := Credits(tx.txid, tx.outputs, h), Erase(u, Spends(tx));
    assert c[..|c|] == c;
    InsertCredits(e, tx.txid, tx.outputs, |tx.outputs|, h);
    forall p | p in u && p.txid == tx.txid && p.vout < |tx.outputs| ensures c[p.vout].point == p {
      var out := tx.outputs[p.vout];
      assert c[p.vout] == Credit(Outpoint(tx.txid, p.vout), Utxo(out.value, out.address, h));
    }
  }

  /** Applying transactions that move the same outpoints keeps one shape, and fails or succeeds alike. */
  lemma ApplyShape(u: UtxoMap, v: UtxoMap, a: Tx, b: Tx, h: nat)
    requires SameKeys(u, v) && SameMoves(a, b)
    ensures ApplyTx(u, a, h).Some? <==> ApplyTx(v, b, h).Some?
    ensures ApplyTx(u, a, h).Some? ==> SameKeys(ApplyTx(u, a, h).value, ApplyTx(v, b, h).value)
  {
    hide ApplyTx;
    ApplyIs(u, a, h);
    ApplyIs(v, b, h);
    assert forall i :: 0 <= i < |a.inputs| ==> Spends(a)[i] == Spends(b)[i];
    if ApplyTx(u, a, h).Some? && ApplyTx(v, b, h).Some? {
      var r, q := ApplyTx(u, a, h).value, ApplyTx(v, b, h).value;
      forall p ensures p in r <==> p in q {}
    }
  }

  // ---- One block on two ledgers of one shape ----

  lemma SameShapeMoves(a: Tx)
    ensures SameMoves(a, a)
  {
  }

  /** If a list replays on one ledger it replays on every ledger of that shape, to one shape. */
  lemma {:induction false} ReplayTxsShape(s: State, t: State, txs: seq<Tx>, n: nat, h: nat)
    requires n <= |txs| && SameShape(s, t) && ReplayTxs(t, txs, n, h).Some?
    ensures ReplayTxs(s, txs, n, h).Some? && SameShape(ReplayTxs(s, txs, n, h).value, ReplayTxs(t, txs, n, h).value)
  {
    hide ApplyTx;
    hide ApplyFlagTx;
    hide SameKeys;
    hide SameMoves;
    if n > 0 {
      ReplayTxsShape(s, t, txs, n - 1, h);
      SameShapeMoves(txs[n - 1]);
      ApplyShape(ReplayTxs(s, txs, n - 1, h).value.utxo, ReplayTxs(t, txs, n - 1, h).value.utxo,
                 txs[n - 1], txs[n - 1], h);
    }
  }

  lemma ReplayBlockShape(s: State, t: State, cb: Tx, txs: seq<Tx>, h: nat)
    requires SameShape(s, t) && ReplayBlock(t, cb, txs, h).Some?
    ensures ReplayBlock(s, cb, txs, h).Some?
    ensures SameShape(ReplayBlock(s, cb, txs, h).value, ReplayBlock(t, cb, txs, h).value)
  {
    hide ApplyTx;
    hide SameKeys;
    hide SameMoves;
    hide ReplayTxs;
    SameShapeMoves(cb);
    ApplyShape(s.utxo, t.utxo, cb, cb, h);
    ReplayTxsShape(State(ApplyTx(s.utxo, cb, h).value, s.flags), State(ApplyTx(t.utxo, cb, h).value, t.flags),
                   txs, |txs|, h);
  }

  // ---- Two copies of one block ----

  /** One id and the same committed fields; signatures and keys may differ. */
  ghost predicate SameTx(a: Tx, b: Tx) { a.txid == b.txid && Committed(a) == Committed(b) }

  ghost predicate SameTxs(xs: seq<Tx>, ys: seq<Tx>) {
    |xs| == |ys| && forall i :: 0 <= i < |xs| ==> SameTx(xs[i], ys[i])
  }

  lemma SameTxMoves(a: Tx, b: Tx)
    requires SameTx(a, b)
    ensures SameMoves(a, b) && a.outputs == b.outputs && a.flag == b.flag
  {
    forall i | 0 <= i < |a.inputs| ensures Spends(a)[i] == Spends(b)[i] {
      assert BareIns(a.inputs)[i] == BareIns(b.inputs)[i];
    }
    assert Spends(a) == Spends(b);
  }

  /** A key decides whether a claim succeeds, not what it does. */
  lemma SameFlagSame(a: Tx, b: Tx, flags: seq<Flag>, h: nat)
    requires SameTx(a, b) && ApplyFlagTx(flags, a, h).Done? && ApplyFlagTx(flags, b, h).Done?
    ensures ApplyFlagTx(flags, a, h) == ApplyFlagTx(flags, b, h)
  {
    SameTxMoves(a, b);
  }

  /** Two coinbases with one id and as many outputs. */
  ghost predicate SameId(a: Tx, b: Tx) {
    a.txid == b.txid && a.inputs == [] && b.inputs == [] && |a.outputs| == |b.outputs|
  }

  lemma {:induction false} CopiesShape(s: State, t: State, xs: seq<Tx>, ys: seq<Tx>, n: nat, h: nat)
    requires n <= |xs| && SameTxs(xs, ys) && SameShape(s, t)
    requires ReplayTxs(s, xs, n, h).Some? && ReplayTxs(t, ys, n, h).Some?
    ensures SameShape(ReplayTxs(s, xs, n, h).value, ReplayTxs(t, ys, n, h).value)
  {
    hide ApplyTx;
    hide ApplyFlagTx;
    hide SameKeys;
    hide SameMoves;
    hide SameTx;
    if n > 0 {
      CopiesShape(s, t, xs, ys, n - 1, h);
      var a, b := xs[n - 1], ys[n - 1];
      SameTxMoves(a, b);
      ApplyShape(ReplayTxs(s, xs, n - 1, h).value.utxo, ReplayTxs(t, ys, n - 1, h).value.utxo, a, b, h);
      SameFlagSame(a, b, ReplayTxs(s, xs, n - 1, h).value.flags, h);
    }
  }

  /** Copies of a block lead ledgers of one shape to ledgers of one shape, whatever their coinbases pay. */
  lemma CopiesOneShape(s: State, t: State, cx: Tx, cy: Tx, xs: seq<Tx>, ys: seq<Tx>, h: nat)
    requires SameShape(s, t) && SameId(cx, cy) && SameTxs(xs, ys)
    requires ReplayBlock(s, cx, xs, h).Some? && ReplayBlock(t, cy, ys, h).Some?
    ensures SameShape(ReplayBlock(s, cx, xs, h).value, ReplayBlock(t, cy, ys, h).value)
  {
    hide ApplyTx;
    hide SameKeys;
    hide ReplayTxs;
    hide SameTx;
    assert Spends(cx) == Spends(cy);
    ApplyShape(s.utxo, t.utxo, cx, cy, h);
    CopiesShape(State(ApplyTx(s.utxo, cx, h).value, s.flags), State(ApplyTx(t.utxo, cy, h).value, t.flags),
                xs, ys, |xs|, h);
  }

  // ---- When two copies leave one ledger ----

  /** Outputs a block does not itself spend agree. */
  ghost predicate OutputsAgree(cx: Tx, cy: Tx, txs: seq<Tx>) {
    forall v: nat :: v < |cx.outputs| && v < |cy.outputs| && Outpoint(cx.txid, v) !in SpentIn(txs) ==>
      cx.outputs[v] == cy.outputs[v]
  }

  /** `u` holds under id `cb.txid` the outputs of `cb` not in `spent`. */
  ghost predicate HoldsRest(u: UtxoMap, cb: Tx, spent: set<Outpoint>, h: nat) {
    && (forall p: Outpoint :: p.txid == cb.txid ==> (p in u <==> p.vout < |cb.outputs| && p !in spent))
    && (forall p :: p in u && p.txid == cb.txid && p.vout < |cb.outputs| ==>
          u[p] == Utxo(cb.outputs[p.vout].value, cb.outputs[p.vout].address, h))
  }

  ghost predicate SameElsewhere(u: UtxoMap, v: UtxoMap, id: Hash) {
    && (forall p: Outpoint :: p.txid != id ==> (p in u <==> p in v))
    && (forall p :: p in u && p in v && p.txid != id ==> u[p] == v[p])
  }

  lemma CoinbaseLeaves(u: UtxoMap, cx: Tx, cy: Tx, h: nat)
    requires SameId(cx, cy) && (forall p :: p in u ==> p.txid != cx.txid)
    requires ApplyTx(u, cx, h).Some? && ApplyTx(u, cy, h).Some?
    ensures var a, b := ApplyTx(u, cx, h).value, ApplyTx(u, cy, h).value;
            HoldsRest(a, cx, {}, h) && HoldsRest(b, cy, {}, h) && SameElsewhere(a, b, cx.txid)
  {
    hide ApplyTx;
    ApplyIs(u, cx, h);
    ApplyIs(u, cy, h);
    assert Spends(cx) == [] && Spends(cy) == [];
  }

  lemma TxLeavesRest(u: UtxoMap, cb: Tx, tx: Tx, spent: set<Outpoint>, h: nat)
    requires HoldsRest(u, cb, spent, h) && tx.txid != cb.txid && ApplyTx(u, tx, h).Some?
    ensures HoldsRest(ApplyTx(u, tx, h).value, cb, spent + InPoints(tx), h)
  {
    hide ApplyTx;
    ApplyIs(u, tx, h);
    assert forall p :: p in Spends(tx) <==> p in InPoints(tx);
  }

  lemma TxSameElsewhere(u: UtxoMap, v: UtxoMap, id: Hash, a: Tx, b: Tx, h: nat)
    requires SameElsewhere(u, v, id) && SameTx(a, b) && ApplyTx(u, a, h).Some? && ApplyTx(v, b, h).Some?
    ensures SameElsewhere(ApplyTx(u, a, h).value, ApplyTx(v, b, h).value, id)
  {
    hide ApplyTx;
    hide SameTx;
    SameTxMoves(a, b);
    ApplyIs(u, a, h);
    ApplyIs(v, b, h);
  }

  lemma {:induction false} TxsLeaveRest(s: State, cb: Tx, txs: seq<Tx>, n: nat, h: nat)
    requires n <= |txs| && ReplayTxs(s, txs, n, h).Some? && HoldsRest(s.utxo, cb, {}, h)
    requires forall i :: 0 <= i < |txs| ==> txs[i].txid != cb.txid
    ensures HoldsRest(ReplayTxs(s, txs, n, h).value.utxo, cb, SpentIn(txs[..n]), h)
  {
    hide ApplyTx;
    hide ApplyFlagTx;
    hide HoldsRest;
    if n == 0 {
      assert SpentIn(txs[..0]) == {};
    } else {
      TxsLeaveRest(s, cb, txs, n - 1, h);
      TxLeavesRest(ReplayTxs(s, txs, n - 1, h).value.utxo, cb, txs[n - 1], SpentIn(txs[..n - 1]), h);
      assert txs[..n][..n - 1] == txs[..n - 1];
    }
  }

  lemma {:induction false} TxsSameElsewhere(s: State, t: State, id: Hash, xs: seq<Tx>, ys: seq<Tx>, n: nat, h: nat)
    requires n <= |xs| && SameTxs(xs, ys) && SameElsewhere(s.utxo, t.utxo, id)
    requires ReplayTxs(s, xs, n, h).Some? && ReplayTxs(t, ys, n, h).Some?
    ensures SameElsewhere(ReplayTxs(s, xs, n, h).value.utxo, ReplayTxs(t, ys, n, h).value.utxo, id)
  {
    hide ApplyTx;
    hide ApplyFlagTx;
    hide SameElsewhere;
    hide SameTx;
    if n > 0 {
      TxsSameElsewhere(s, t, id, xs, ys, n - 1, h);
      TxSameElsewhere(ReplayTxs(s, xs, n - 1, h).value.utxo, ReplayTxs(t, ys, n - 1, h).value.utxo, id,
                      xs[n - 1], ys[n - 1], h);
    }
  }

  lemma {:induction false} SameSpent(xs: seq<Tx>, ys: seq<Tx>, n: nat)
    requires n <= |xs| && SameTxs(xs, ys)
    ensures SpentIn(xs[..n]) == SpentIn(ys[..n])
  {
    hide SameTx;
    if n > 0 {
      SameSpent(xs, ys, n - 1);
      var a, b := xs[n - 1], ys[n - 1];
      SameTxMoves(a, b);
      assert InPoints(a) == InPoints(b) by {
        assert forall p :: p in Spends(a) <==> p in InPoints(a);
        assert forall p :: p in Spends(b) <==> p in InPoints(b);
      }
      assert xs[..n][..n - 1] == xs[..n - 1] && ys[..n][..n - 1] == ys[..n - 1];
    }
  }

  lemma RestEqualIff(u: UtxoMap, v: UtxoMap, cx: Tx, cy: Tx, spent: set<Outpoint>, h: nat)
    requires SameId(cx, cy) && HoldsRest(u, cx, spent, h) && HoldsRest(v, cy, spent, h) && SameElsewhere(u, v, cx.txid)
    ensures u == v <==> forall k: nat :: k < |cx.outputs| && k < |cy.outputs| && Outpoint(cx.txid, k) !in spent ==>
                          cx.outputs[k] == cy.outputs[k]
  {
    if u == v {
      forall k: nat | k < |cx.outputs| && Outpoint(cx.txid, k) !in spent ensures cx.outputs[k] == cy.outputs[k] {
        var p := Outpoint(cx.txid, k);
        assert p in u && u[p] == v[p];
      }
    }
  }

  /**
   * Two copies of one block, on one ledger: they leave one ledger if and only if the coinbase outputs
   * that the block does not itself spend agree.
   */
  lemma LedgersEqualIff(s: State, cx: Tx, cy: Tx, xs: seq<Tx>, ys: seq<Tx>, h: nat)
    requires SameId(cx, cy) && SameTxs(xs, ys) && (forall p :: p in s.utxo ==> p.txid != cx.txid)
    requires forall i :: 0 <= i < |xs| ==> xs[i].txid != cx.txid
    requires ReplayBlock(s, cx, xs, h).Some? && ReplayBlock(s, cy, ys, h).Some?
    ensures ReplayBlock(s, cx, xs, h) == ReplayBlock(s, cy, ys, h) <==> OutputsAgree(cx, cy, xs)
  {
    hide ApplyTx;
    hide ReplayTxs;
    hide HoldsRest;
    hide SameElsewhere;
    hide SameTx;
    hide SameKeys;
    CoinbaseLeaves(s.utxo, cx, cy, h);
    var a, b := State(ApplyTx(s.utxo, cx, h).value, s.flags), State(ApplyTx(s.utxo, cy, h).value, s.flags);
    forall i | 0 <= i < |ys| ensures ys[i].txid != cy.txid { SameTxMoves(xs[i], ys[i]); SameTxId(xs[i], ys[i]); }
    TxsLeaveRest(a, cx, xs, |xs|, h);
    TxsLeaveRest(b, cy, ys, |ys|, h);
    TxsSameElsewhere(a, b, cx.txid, xs, ys, |xs|, h);
    SameSpent(xs, ys, |xs|);
    assert xs[..|xs|] == xs && ys[..|ys|] == ys;
    RestEqualIff(ReplayTxs(a, xs, |xs|, h).value.utxo, ReplayTxs(b, ys, |ys|, h).value.utxo, cx, cy, SpentIn(xs), h);
    ShapeSelf(s);
    CopiesOneShape(s, s, cx, cy, xs, ys, h);
  }

  lemma SameTxId(a: Tx, b: Tx)
    requires SameTx(a, b)
    ensures a.txid == b.txid
  {
  }

  lemma ShapeSelf(s: State)
    ensures SameShape(s, s)
  {
  }
}
