/**
 * Value conservation and the supply bound, in pi, across the unit switch at height 3000.
 *
 * The source does not check that the inputs of one transaction are distinct, nor that what a
 * transaction must cover fits in 64 bits. `Excess` is what a transaction gains by either: every
 * accepted transaction balances up to its excess, and `ConservedIff` says when value is conserved.
 */
module Supply {
  import opened Types
  import opened Records
  import opened Emission
  import opened Flags
  import opened Ledger
  import opened Freshness

  function Worth(o: Utxo): nat { o.value * Scale(o.height) }

  /** The value of a UTXO set in pi. */
  ghost function TotalPi(u: UtxoMap): nat
    decreases |u|
  {
    if u == map[] then 0 else
    var p :| p in u;
    Worth(u[p]) + TotalPi(u - {p})
  }

  lemma {:induction false} TotalRemove(u: UtxoMap, p: Outpoint)
    requires p in u
    ensures TotalPi(u) == Worth(u[p]) + TotalPi(u - {p})
    decreases |u|
  {
    var q :| q in u && TotalPi(u) == Worth(u[q]) + TotalPi(u - {q});
    if q != p {
      TotalRemove(u - {q}, p);
      TotalRemove(u - {p}, q);
      assert u - {q} - {p} == u - {p} - {q};
    }
  }

  lemma TotalAdd(u: UtxoMap, p: Outpoint, o: Utxo)
    requires p !in u
    ensures TotalPi(u[p := o]) == TotalPi(u) + Worth(o)
  {
    TotalRemove(u[p := o], p);
    assert u[p := o] - {p} == u;
  }

  ghost function WorthOf(u: UtxoMap, inputs: seq<TxIn>, n: nat): nat
    requires n <= |inputs| && forall i :: 0 <= i < n ==> Point(inputs[i]) in u
  {
    if n == 0 then 0 else WorthOf(u, inputs, n - 1) + Worth(u[Point(inputs[n - 1])])
  }

  ghost predicate DistinctInputs(tx: Tx) {
    forall i, j :: 0 <= i < j < |tx.inputs| ==> Point(tx.inputs[i]) != Point(tx.inputs[j])
  }

  ghost function FirstPoints(inputs: seq<TxIn>, n: nat): set<Outpoint>
    requires n <= |inputs|
  {
    set i | 0 <= i < n :: Point(inputs[i])
  }

  /** The worth counted again for inputs among the first `n` that are listed a second time. */
  ghost function RepeatedUpTo(u: UtxoMap, inputs: seq<TxIn>, n: nat): nat
    requires n <= |inputs|
  {
    if n == 0 then 0 else
    var p := Point(inputs[n - 1]);
    RepeatedUpTo(u, inputs, n - 1) + (if p in FirstPoints(inputs, n - 1) && p in u then Worth(u[p]) else 0)
  }

  ghost function Repeated(u: UtxoMap, tx: Tx): nat { RepeatedUpTo(u, tx.inputs, |tx.inputs|) }

  /** Erasing the inputs takes out their worth, once each. */
  lemma {:induction false} TotalErase(u: UtxoMap, tx: Tx, n: nat)
    requires n <= |tx.inputs|
    requires forall i :: 0 <= i < |tx.inputs| ==> Point(tx.inputs[i]) in u
    ensures TotalPi(u - FirstPoints(tx.inputs, n)) + WorthOf(u, tx.inputs, n)
            == TotalPi(u) + RepeatedUpTo(u, tx.inputs, n)
  {
    hide TotalPi;
    hide Worth;
    if n == 0 {
      assert u - FirstPoints(tx.inputs, 0) == u;
    } else {
      TotalErase(u, tx, n - 1);
      var p, seen := Point(tx.inputs[n - 1]), FirstPoints(tx.inputs, n - 1);
      assert FirstPoints(tx.inputs, n) == seen + {p};
      if p in seen {
        assert seen + {p} == seen;
      } else {
        TotalRemove(u - seen, p);
        assert u - (seen + {p}) == u - seen - {p};
      }
    }
  }

  lemma NextIsNew(u: UtxoMap, txid: Hash, outs: seq<TxOut>, n: nat, h: nat)
    requires n <= |outs| && forall p :: p in u ==> p.txid != txid
    ensures Outpoint(txid, n) !in Insert(u, Credits(txid, outs, h)[..n])
  {
    InsertCredits(u, txid, outs, n, h);
  }

  lemma Spread(a: nat, b: nat, k: nat)
    ensures (a + b) * k == a * k + b * k
  {
  }

  lemma {:induction false} TotalInsert(u: UtxoMap, txid: Hash, outs: seq<TxOut>, n: nat, h: nat)
    requires n <= |outs| && forall p :: p in u ==> p.txid != txid
    ensures TotalPi(Insert(u, Credits(txid, outs, h)[..n])) == TotalPi(u) + OutSum(outs[..n]) * Scale(h)
  {
    hide TotalPi;
    hide Scale;
    if n > 0 {
      var c, o := Credits(txid, outs, h), outs[n - 1];
      var r, p := Insert(u, c[..n - 1]), Outpoint(txid, n - 1);
      TotalInsert(u, txid, outs, n - 1, h);
      NextIsNew(u, txid, outs, n - 1, h);
      assert c[..n][..n - 1] == c[..n - 1] && c[..n][n - 1] == Credit(p, Utxo(o.value, o.address, h));
      assert Insert(u, c[..n]) == r[p := Utxo(o.value, o.address, h)];
      TotalAdd(r, p, Utxo(o.value, o.address, h));
      assert outs[..n][..n - 1] == outs[..n - 1];
      Spread(OutSum(outs[..n - 1]), o.value, Scale(h));
    } else {
      assert OutSum(outs[..0]) == 0;
    }
  }

  /** What applying a transaction does to the total. */
  lemma ApplyTotal(u: UtxoMap, tx: Tx, h: nat)
    requires InPoints(tx) <= u.Keys
    requires forall p :: p in u ==> p.txid != tx.txid
    requires forall i :: 0 <= i < |tx.inputs| ==> Point(tx.inputs[i]) in u
    ensures ApplyTx(u, tx, h).Some?
    ensures TotalPi(ApplyTx(u, tx, h).value) + WorthOf(u, tx.inputs, |tx.inputs|)
         == TotalPi(u) + Repeated(u, tx) + OutSum(tx.outputs) * Scale(h)
  {
    hide TotalPi;
    hide OutSum;
    hide WorthOf;
    hide RepeatedUpTo;
    hide Scale;
    hide Insert;
    TotalErase(u, tx, |tx.inputs|);
    var e := Erase(u, Spends(tx));
    assert e == u - FirstPoints(tx.inputs, |tx.inputs|) by {
      assert forall p :: p in Spends(tx) <==> p in FirstPoints(tx.inputs, |tx.inputs|);
    }
    var c := Credits(tx.txid, tx.outputs, h);
    TotalInsert(e, tx.txid, tx.outputs, |tx.outputs|, h);
    assert c[..|c|] == c && tx.outputs[..|tx.outputs|] == tx.outputs;
  }

  /** The total `check_spendable` adds up is the pi value of the outputs spent, in the unit of the spending block. */
  lemma {:induction false} InputValueIsWorth(u0: UtxoMap, prior: seq<Tx>, u: UtxoMap, inputs: seq<TxIn>, n: nat, h: nat)
    requires View(u0, prior, h, u) && forall p :: p in u ==> 1 <= u[p].height <= h
    requires n <= |inputs| && InputValue(u0, prior, inputs, n, h).Some?
    requires forall i :: 0 <= i < n ==> Point(inputs[i]) in u
    ensures InputValue(u0, prior, inputs, n, h).value * Scale(h) == WorthOf(u, inputs, n)
  {
    hide Lookup;
    hide SpentIn;
    if n > 0 {
      InputValueIsWorth(u0, prior, u, inputs, n - 1, h);
      var o := u[Point(inputs[n - 1])];
      assert Lookup(u0, prior, Point(inputs[n - 1]), h) == Some(o);
      assert InputWorth(o, h).value * Scale(h) == Worth(o);
    }
  }

  // ---- Escrow ----

  /**
   * Pi per unit of escrow in flag `i` of the book at height `h`. Locks made before the switch were
   * paid in old units; `early` is how many flags the book held then. A lock is not rescaled.
   */
  function Weight(h: nat, early: nat, i: nat): nat { if h < PI_HEIGHT || i < early then PI_PER_OLD_UNIT else 1 }

  /** What the locks still held were worth, in pi, when they were made. */
  ghost function EscrowPi(flags: seq<Flag>, h: nat, early: nat): nat {
    if flags == [] then 0
    else EscrowPi(flags[..|flags| - 1], h, early) + flags[|flags| - 1].escrow * Weight(h, early, |flags| - 1)
  }

  lemma {:induction false} EscrowUpdate(flags: seq<Flag>, i: nat, f: Flag, h: nat, early: nat)
    requires i < |flags|
    ensures EscrowPi(flags[i := f], h, early) + flags[i].escrow * Weight(h, early, i)
            == EscrowPi(flags, h, early) + f.escrow * Weight(h, early, i)
  {
    hide Weight;
    var n := |flags| - 1;
    if i < n {
      EscrowUpdate(flags[..n], i, f, h, early);
      assert flags[i := f][..n] == flags[..n][i := f];
    } else {
      assert flags[i := f][..n] == flags[..n];
    }
  }

  /**
   * A payment takes out of escrow exactly what it releases if and only if the bounty is zero, the
   * switch is still ahead, or the lock was made after it. Otherwise it takes a thousand times as much.
   */
  lemma LockKeepsWorthIff(flags: seq<Flag>, i: nat, f: Flag, h: nat, early: nat)
    requires i < |flags| && flags[i].bounty <= flags[i].escrow && f.escrow == flags[i].escrow - flags[i].bounty
    ensures EscrowPi(flags[i := f], h, early) + flags[i].bounty * Scale(h) == EscrowPi(flags, h, early)
       <==> flags[i].bounty == 0 || h < PI_HEIGHT || i >= early
    ensures h >= PI_HEIGHT && i < early ==>
              EscrowPi(flags[i := f], h, early) + flags[i].bounty * PI_PER_OLD_UNIT == EscrowPi(flags, h, early)
  {
    hide EscrowPi;
    EscrowUpdate(flags, i, f, h, early);
    var w := Weight(h, early, i);
    Spread(f.escrow, flags[i].bounty, w);
    assert f.escrow + flags[i].bounty == flags[i].escrow;
  }

  lemma EscrowLocks(flags: seq<Flag>, f: Flag, h: nat, early: nat)
    requires h >= PI_HEIGHT ==> early <= |flags|
    ensures EscrowPi(flags + [f], h, early) == EscrowPi(flags, h, early) + f.escrow * Scale(h)
  {
    assert (flags + [f])[..|flags|] == flags;
  }

  /** Every flag and every claim in the book was made by a transaction in `ids`. */
  ghost predicate ClaimsFrom(flags: seq<Flag>, ids: set<Hash>) {
    && (forall i :: 0 <= i < |flags| && flags[i].txid.Some? ==> flags[i].txid.value in ids)
    && (forall i, k :: 0 <= i < |flags| && 0 <= k < |flags[i].claimTxids| && flags[i].claimTxids[k].Some? ==>
          flags[i].claimTxids[k].value in ids)
  }

  /** What a claim takes out of a lock from before the switch beyond the number it pays. */
  ghost function Stranded(flags: seq<Flag>, tx: Tx, h: nat, early: nat): nat {
    if !tx.flag.Claim? then 0 else
    match Find(flags, tx.flag.flagId)
    case None => 0
    case Some(i) => flags[i].bounty * (Weight(h, early, i) - Scale(h))
  }

  /** A payment takes the bounty out of escrow, and what a lock from before the switch strands with it. */
  lemma EscrowPaysExactly(flags: seq<Flag>, i: nat, f: Flag, h: nat, early: nat)
    requires i < |flags| && flags[i].bounty <= flags[i].escrow && f.escrow == flags[i].escrow - flags[i].bounty
    ensures EscrowPi(flags[i := f], h, early) + flags[i].bounty * Scale(h)
            + flags[i].bounty * (Weight(h, early, i) - Scale(h)) == EscrowPi(flags, h, early)
  {
    hide EscrowPi;
    EscrowUpdate(flags, i, f, h, early);
    var w := Weight(h, early, i);
    Spread(f.escrow, flags[i].bounty, w);
    assert f.escrow + flags[i].bounty == flags[i].escrow;
  }

  lemma CreateStep(flags: seq<Flag>, tx: Tx, h: nat, ids: set<Hash>, early: nat)
    requires ApplyFlagTx(flags, tx, h).Done? && ClaimsFrom(flags, ids) && tx.txid !in ids && tx.flag.Create?
    requires h >= PI_HEIGHT ==> early <= |flags|
    ensures var fs := ApplyFlagTx(flags, tx, h).flags;
            && EscrowPi(fs, h, early) == EscrowPi(flags, h, early) + LockOf(tx) * Scale(h)
            && |flags| <= |fs| && ClaimsFrom(fs, ids + {tx.txid})
  {
    hide EscrowPi;
    hide Scale;
    var fs := ApplyFlagTx(flags, tx, h).flags;
    assert Find(flags, tx.flag.flagId).None?;
    assert fs == flags + [fs[|flags|]];
    EscrowLocks(flags, fs[|flags|], h, early);
  }

  lemma ClaimStep(flags: seq<Flag>, tx: Tx, h: nat, prior: seq<Tx>, ids: set<Hash>, early: nat)
    requires ApplyFlagTx(flags, tx, h).Done? && ClaimsFrom(flags, ids) && tx.txid !in ids && tx.flag.Claim?
    ensures var fs := ApplyFlagTx(flags, tx, h).flags;
            && EscrowPi(fs, h, early) + Release(tx, flags, prior) * Scale(h) + Stranded(flags, tx, h, early)
               == EscrowPi(flags, h, early)
            && |flags| <= |fs| && ClaimsFrom(fs, ids + {tx.txid})
  {
    hide EscrowPi;
    hide Scale;
    hide Weight;
    var fs := ApplyFlagTx(flags, tx, h).flags;
    var i := Find(flags, tx.flag.flagId).value;
    var op := FlagOpOf(tx, h);
    assert IndexOf(flags[i].claimants, op.recipient).None?;
    var paid := Flags.Paid(flags[i], op.recipient, op.txid);
    assert fs == flags[i := paid];
    EscrowPaysExactly(flags, i, paid, h, early);
  }

  /**
   * A flag transaction moves its lock into escrow, or its release out of it, to the unit and but for what a lock
   * from before the switch strands; a new id cannot claim for free.
   */
  lemma FlagStep(flags: seq<Flag>, tx: Tx, h: nat, prior: seq<Tx>, ids: set<Hash>, early: nat)
    requires ApplyFlagTx(flags, tx, h).Done? && ClaimsFrom(flags, ids) && tx.txid !in ids
    requires h >= PI_HEIGHT ==> early <= |flags|
    ensures var fs := ApplyFlagTx(flags, tx, h).flags;
            && EscrowPi(fs, h, early) + Release(tx, flags, prior) * Scale(h) + Stranded(flags, tx, h, early)
               == EscrowPi(flags, h, early) + LockOf(tx) * Scale(h)
            && |flags| <= |fs| && ClaimsFrom(fs, ids + {tx.txid})
  {
    hide EscrowPi;
    hide Scale;
    hide Weight;
    hide Apply;
    match tx.flag
    case NoFlag =>
    case Create(_, _, _, _, _, _, _) => CreateStep(flags, tx, h, ids, early);
    case Claim(_, _) => ClaimStep(flags, tx, h, prior, ids, early);
  }

  // ---- One transaction ----

  /** In pi: what the UTXO set holds plus what is locked in flags. */
  ghost function SupplyPi(s: State, h: nat, early: nat): nat { TotalPi(s.utxo) + EscrowPi(s.flags, h, early) }

  /** The amount a transaction must cover fits in 64 bits. The source does not check this. */
  predicate NeedFits(tx: Tx) { Need(tx) < U64 }

  /** What wraps away when the source adds up what a transaction must cover. */
  function WrappedNeed(tx: Tx): nat { Need(tx) / U64 * U64 }

  /** In pi, what a transaction gains by listing inputs twice and by letting its need wrap. */
  ghost function Excess(u: UtxoMap, tx: Tx, h: nat): nat { Repeated(u, tx) + WrappedNeed(tx) * Scale(h) }

  /** What a checked transaction counts as input but does not use. */
  ghost function Unused(u0: UtxoMap, prior: seq<Tx>, tx: Tx, h: nat, release: nat): int
    requires Spendable(u0, prior, tx, h, release)
  {
    InputValue(u0, prior, tx.inputs, |tx.inputs|, h).value + release - Need(tx) % U64
  }

  lemma UnusedNatural(u0: UtxoMap, prior: seq<Tx>, tx: Tx, h: nat, release: nat)
    requires Spendable(u0, prior, tx, h, release)
    ensures Unused(u0, prior, tx, h, release) >= 0
    ensures !tx.flag.NoFlag? && InputValue(u0, prior, tx.inputs, |tx.inputs|, h).value + release < U64
            ==> Unused(u0, prior, tx, h, release) == 0
  {
    hide InputValue;
    hide Need;
    var have := InputValue(u0, prior, tx.inputs, |tx.inputs|, h).value + release;
    assert have % U64 <= have;
  }

  /** The premises under which a checked transaction is applied to the running set `u`. */
  ghost predicate Applicable(u0: UtxoMap, prior: seq<Tx>, u: UtxoMap, tx: Tx, h: nat, release: nat) {
    && View(u0, prior, h, u) && (forall p :: p in u ==> 1 <= u[p].height <= h)
    && Spendable(u0, prior, tx, h, release)
    && (forall p :: p in u ==> p.txid != tx.txid)
  }

  lemma InputsInSet(u0: UtxoMap, prior: seq<Tx>, u: UtxoMap, tx: Tx, h: nat, release: nat)
    requires Applicable(u0, prior, u, tx, h, release)
    ensures InPoints(tx) <= u.Keys && forall i :: 0 <= i < |tx.inputs| ==> Point(tx.inputs[i]) in u
  {
    hide View;
    hide Spendable;
    SpendsRunningSet(u0, prior, h, u, tx, release);
    assert forall i :: 0 <= i < |tx.inputs| ==> Point(tx.inputs[i]) in InPoints(tx);
  }

  lemma NeedSplits(tx: Tx)
    ensures Need(tx) == Need(tx) % U64 + WrappedNeed(tx)
    ensures WrappedNeed(tx) == 0 <==> NeedFits(tx)
  {
    hide Need;
  }

  /**
   * The balance of every transaction that passes `check_spendable`, in pi and to the last unit: value
   * after, fee, lock and unused input equal value before, release and excess.
   */
  lemma TxBalances(u0: UtxoMap, prior: seq<Tx>, u: UtxoMap, tx: Tx, h: nat, release: nat)
    requires Applicable(u0, prior, u, tx, h, release)
    ensures ApplyTx(u, tx, h).Some?
    ensures TotalPi(ApplyTx(u, tx, h).value) + (tx.fee + LockOf(tx)) * Scale(h)
            + Unused(u0, prior, tx, h, release) * Scale(h)
         == TotalPi(u) + release * Scale(h) + Excess(u, tx, h)
  {
    hide View;
    hide InputValue;
    hide TotalPi;
    hide OutSum;
    hide WorthOf;
    hide LockOf;
    hide ApplyTx;
    hide Repeated;
    hide Scale;
    InputsInSet(u0, prior, u, tx, h, release);
    InputValueIsWorth(u0, prior, u, tx.inputs, |tx.inputs|, h);
    ApplyTotal(u, tx, h);
    NeedSplits(tx);
    Balance(OutSum(tx.outputs), tx.fee + LockOf(tx), Need(tx) % U64, WrappedNeed(tx),
            InputValue(u0, prior, tx.inputs, |tx.inputs|, h).value, release, Scale(h));
  }

  lemma Balance(outs: nat, feeAndLock: nat, need: nat, wrapped: nat, value: nat, release: nat, k: nat)
    requires outs + feeAndLock == need + wrapped
    ensures outs * k + feeAndLock * k + (value + release - need) * k == value * k + release * k + wrapped * k
  {
    assert outs * k + feeAndLock * k == (outs + feeAndLock) * k == need * k + wrapped * k;
    assert (value + release - need) * k == value * k + release * k - need * k;
  }

  /** Value is conserved by a checked transaction if and only if its excess is at most the input it leaves unused. */
  lemma ConservedIff(u0: UtxoMap, prior: seq<Tx>, u: UtxoMap, tx: Tx, h: nat, release: nat)
    requires Applicable(u0, prior, u, tx, h, release)
    ensures ApplyTx(u, tx, h).Some?
    ensures TotalPi(ApplyTx(u, tx, h).value) + (tx.fee + LockOf(tx)) * Scale(h) <= TotalPi(u) + release * Scale(h)
       <==> Excess(u, tx, h) <= Unused(u0, prior, tx, h, release) * Scale(h)
  {
    hide Applicable;
    hide ApplyTx;
    hide TotalPi;
    hide Excess;
    hide Unused;
    hide LockOf;
    hide Scale;
    TxBalances(u0, prior, u, tx, h, release);
  }

  ghost predicate Positive(u: UtxoMap) { forall p :: p in u ==> u[p].value > 0 }

  ghost predicate DistinctUpTo(tx: Tx, n: nat)
    requires n <= |tx.inputs|
  {
    forall i, j :: 0 <= i < j < n ==> Point(tx.inputs[i]) != Point(tx.inputs[j])
  }

  lemma {:induction false} RepeatedIff(u: UtxoMap, tx: Tx, n: nat)
    requires n <= |tx.inputs| && Positive(u)
    requires forall i :: 0 <= i < |tx.inputs| ==> Point(tx.inputs[i]) in u
    ensures RepeatedUpTo(u, tx.inputs, n) == 0 <==> DistinctUpTo(tx, n)
  {
    if n > 0 {
      RepeatedIff(u, tx, n - 1);
      var p := Point(tx.inputs[n - 1]);
      assert Worth(u[p]) > 0;
      if p in FirstPoints(tx.inputs, n - 1) {
        var i :| 0 <= i < n - 1 && Point(tx.inputs[i]) == p;
        assert !DistinctUpTo(tx, n);
      } else {
        assert DistinctUpTo(tx, n) <==> DistinctUpTo(tx, n - 1);
      }
    }
  }

  /** There is no excess if and only if no input is listed twice and the need fits 64 bits. */
  lemma NoExcessIff(u: UtxoMap, tx: Tx, h: nat)
    requires Positive(u) && forall i :: 0 <= i < |tx.inputs| ==> Point(tx.inputs[i]) in u
    ensures Excess(u, tx, h) == 0 <==> DistinctInputs(tx) && NeedFits(tx)
  {
    hide RepeatedUpTo;
    hide Positive;
    hide WrappedNeed;
    hide NeedFits;
    RepeatedIff(u, tx, |tx.inputs|);
    NeedSplits(tx);
  }

  /**
   * A checked transaction that uses all it is counted, as every flag transaction must, conserves value
   * if and only if no input is listed twice and its need fits 64 bits.
   */
  lemma TightConservedIff(u0: UtxoMap, prior: seq<Tx>, u: UtxoMap, tx: Tx, h: nat, release: nat)
    requires Applicable(u0, prior, u, tx, h, release) && Positive(u)
    requires Unused(u0, prior, tx, h, release) == 0
    ensures ApplyTx(u, tx, h).Some?
    ensures TotalPi(ApplyTx(u, tx, h).value) + (tx.fee + LockOf(tx)) * Scale(h) <= TotalPi(u) + release * Scale(h)
       <==> DistinctInputs(tx) && NeedFits(tx)
  {
    hide Applicable;
    hide ApplyTx;
    hide TotalPi;
    hide Excess;
    hide Unused;
    hide LockOf;
    hide Positive;
    hide NeedFits;
    InputsInSet(u0, prior, u, tx, h, release);
    ConservedIff(u0, prior, u, tx, h, release);
    NoExcessIff(u, tx, h);
  }

  /**
   * Each accepted transaction lowers the supply by exactly its fee, its unused input and what it strands, less its
   * excess; so by at least its fee, less its excess.
   */
  lemma TxConserves(past: seq<Tx>, u0: UtxoMap, prior: seq<Tx>, s: State, tx: Tx, h: nat, early: nat)
    requires Running(past, u0, prior, s.utxo, h) && ClaimsFrom(s.flags, Ids(past + prior))
    requires Spendable(u0, prior, tx, h, Release(tx, s.flags, prior)) && ApplyFlagTx(s.flags, tx, h).Done?
    requires tx.txid !in Ids(past + prior)
    requires h >= PI_HEIGHT ==> early <= |s.flags|
    ensures ApplyTx(s.utxo, tx, h).Some?
    ensures var t := State(ApplyTx(s.utxo, tx, h).value, ApplyFlagTx(s.flags, tx, h).flags);
            && SupplyPi(t, h, early) + tx.fee * Scale(h) + Stranded(s.flags, tx, h, early)
               + Unused(u0, prior, tx, h, Release(tx, s.flags, prior)) * Scale(h)
               == SupplyPi(s, h, early) + Excess(s.utxo, tx, h)
            && SupplyPi(t, h, early) + tx.fee * Scale(h) <= SupplyPi(s, h, early) + Excess(s.utxo, tx, h)
            && |s.flags| <= |t.flags| && ClaimsFrom(t.flags, Ids(past + prior + [tx]))
  {
    hide View;
    hide Ids;
    hide SpentIn;
    hide Spendable;
    hide ApplyTx;
    hide ApplyFlagTx;
    hide TotalPi;
    hide EscrowPi;
    hide Release;
    hide LockOf;
    hide Stranded;
    hide ClaimsFrom;
    hide Excess;
    hide Unused;
    hide Scale;
    var k, rel := Scale(h), Release(tx, s.flags, prior);
    TxBalances(u0, prior, s.utxo, tx, h, rel);
    UnusedNatural(u0, prior, tx, h, rel);
    FlagStep(s.flags, tx, h, prior, Ids(past + prior), early);
    AppendOne(past + prior, tx);
    Spread(tx.fee, LockOf(tx), k);
    assert Unused(u0, prior, tx, h, rel) * k >= 0;
  }

  // ---- What the missing checks let through ----

  ghost function OneOutput(p: Outpoint): UtxoMap { map[p := Utxo(10, [0], 1)] }

  /** An output of 10 listed twice, a fee of 1, and `v` paid out. */
  ghost predicate SpendsTwice(tx: Tx, p: Outpoint, v: nat) {
    && tx.inputs == [TxIn(p.txid, p.vout, [], []), TxIn(p.txid, p.vout, [], [])]
    && tx.fee == 1 && tx.flag.NoFlag? && tx.outputs == [TxOut(v, [0])]
  }

  lemma SpendsTwiceCounts(tx: Tx, p: Outpoint, v: nat)
    requires SpendsTwice(tx, p, v)
    ensures InputValue(OneOutput(p), [], tx.inputs, 2, 2) == Some(20)
    ensures Need(tx) == v + 1 && Repeated(OneOutput(p), tx) == 10 * PI_PER_OLD_UNIT
  {
    var u := OneOutput(p);
    assert Point(tx.inputs[0]) == p && Point(tx.inputs[1]) == p;
    assert InputValue(u, [], tx.inputs, 0, 2) == Some(0);
    assert InputValue(u, [], tx.inputs, 1, 2) == Some(10);
    assert tx.outputs[..0] == [] && OutSum(tx.outputs) == OutSum(tx.outputs[..0]) + v;
    assert FirstPoints(tx.inputs, 0) == {} && p in FirstPoints(tx.inputs, 1);
    assert RepeatedUpTo(u, tx.inputs, 1) == 0;
  }

  /** For example: one output of 10 listed twice pays for anything up to 19; from 10 on value is created. */
  lemma RepeatedInputPasses(tx: Tx, p: Outpoint, v: nat)
    requires SpendsTwice(tx, p, v) && 1 <= v <= 19 && p.txid != tx.txid
    ensures !DistinctInputs(tx) && Spendable(OneOutput(p), [], tx, 2, 0)
    ensures ApplyTx(OneOutput(p), tx, 2).Some?
    ensures TotalPi(ApplyTx(OneOutput(p), tx, 2).value) + tx.fee * Scale(2) <= TotalPi(OneOutput(p)) <==> v <= 9
  {
    hide TotalPi;
    hide ApplyTx;
    hide InputValue;
    hide Repeated;
    hide Need;
    var u := OneOutput(p);
    SpendsTwiceCounts(tx, p, v);
    assert Point(tx.inputs[0]) == Point(tx.inputs[1]);
    ConservedIff(u, [], u, tx, 2, 0);
  }

  /** For example: outputs 2^64 - 1, 1 and 5 with fee 1 pass against a single input of 10. */
  lemma WrappedNeedPasses(p: Outpoint, tx: Tx)
    requires tx.inputs == [TxIn(p.txid, p.vout, [], [])] && tx.fee == 1 && tx.flag.NoFlag?
    requires tx.outputs == [TxOut(U64 - 1, [0]), TxOut(1, [0]), TxOut(5, [0])]
    ensures Spendable(OneOutput(p), [], tx, 2, 0)
    ensures OutSum(tx.outputs) > 10
  {
    var u := OneOutput(p);
    assert Point(tx.inputs[0]) == p;
    assert InputValue(u, [], tx.inputs, 0, 2) == Some(0);
    assert InputValue(u, [], tx.inputs, 1, 2) == Some(10);
    var o := tx.outputs;
    assert OutSum(o[..1]) == U64 - 1 by { assert o[..1] == [o[0]]; assert OutSum([o[0]][..0]) == 0; }
    assert OutSum(o[..2]) == U64 by { assert o[..2][..1] == o[..1]; }
    assert OutSum(o) == U64 + 5 by { assert o[..3] == o && o[..3][..2] == o[..2]; }
  }

  /** And a wrapped need hides any fee: one of 2^59, whose product by 60 wraps, passes against an input of 10. */
  lemma WrappedFeePasses(p: Outpoint, tx: Tx)
    requires tx.inputs == [TxIn(p.txid, p.vout, [], [])] && tx.fee == U64 / 32 && tx.flag.NoFlag?
    requires tx.outputs == [TxOut(U64 - U64 / 32 + 5, [0])]
    ensures Spendable(OneOutput(p), [], tx, 2, 0) && tx.fee * 60 >= U64
  {
    var u := OneOutput(p);
    assert Point(tx.inputs[0]) == p;
    assert InputValue(u, [], tx.inputs, 0, 2) == Some(0);
    assert InputValue(u, [], tx.inputs, 1, 2) == Some(10);
    assert tx.outputs[..0] == [] && OutSum(tx.outputs) == OutSum(tx.outputs[..0]) + tx.outputs[0].value;
  }
}
