/**
 * When a transaction may be added to a ledger, said of the running ledger alone.
 *
 * The source checks a block against the UTXO set from before the block, the earlier transactions of the block and the
 * staged flags. `StageIff` says that this is the plain rule: each transaction in turn may be added to the
 * ledger that the ones before it leave.
 */
module Admission {
  import opened Types
  import opened Records
  import opened Flags
  import opened Ledger
  import opened Freshness
  import opened Supply

  // ---- The plain rule ----

  /** What an output counts when it is spent at height `h`: one from before the switch a thousand times its number. */
  function Counts(o: Utxo, h: nat): nat { if h >= 3000 && o.height < 3000 then 1000 * o.value else o.value }

  ghost function Input(u: UtxoMap, inputs: seq<TxIn>, n: nat, h: nat): nat
    requires n <= |inputs| && forall i :: 0 <= i < n ==> Point(inputs[i]) in u
  {
    if n == 0 then 0 else Input(u, inputs, n - 1, h) + Counts(u[Point(inputs[n - 1])], h)
  }

  /** The inputs are unspent, there is one, and what they count fits 64 bits. */
  ghost predicate InputsOk(u: UtxoMap, tx: Tx, h: nat) {
    && tx.inputs != [] && (forall i :: 0 <= i < |tx.inputs| ==> Point(tx.inputs[i]) in u)
    && Input(u, tx.inputs, |tx.inputs|, h) < U64
  }

  /** Flag `i` of the book is the one a claim names. */
  predicate Names(flags: seq<Flag>, tx: Tx, i: nat) { tx.flag.Claim? && i < |flags| && flags[i].id == tx.flag.flagId }

  /** Inputs cover outputs, fee and lock. Flag transactions are exact, and a claim has the bounty of its flag on top. */
  ghost predicate BalanceOk(s: State, tx: Tx, h: nat)
    requires InputsOk(s.utxo, tx, h)
  {
    var v, need := Input(s.utxo, tx.inputs, |tx.inputs|, h), Need(tx) % U64;
    match tx.flag
    case NoFlag => need <= v
    case Create(_, _, _, _, _, _, _) => need == v
    case Claim(_, _) => exists i: nat :: Names(s.flags, tx, i) && need == (v + s.flags[i].bounty) % U64
  }

  function KeyOf(tx: Tx): Bytes { if tx.inputs == [] then [] else tx.inputs[0].publicKey }

  /** The recipient of a claim is on the flag already, under this very transaction. */
  ghost predicate Repeats(f: Flag, tx: Tx)
    requires tx.flag.Claim?
  {
    exists k :: 0 <= k < |f.claimants| && k < |f.claimTxids| && f.claimants[k] == tx.flag.recipient
             && f.claimTxids[k] == Some(tx.txid)
  }

  /** A new flag has a new id and a payable lock; a claim is by a new recipient, with the key, in time, one left. */
  ghost predicate FlagOk(flags: seq<Flag>, tx: Tx, h: nat) {
    match tx.flag
    case NoFlag => true
    case Create(id, _, _, maxClaims, _, bounty, _) =>
      || ((forall j :: 0 <= j < |flags| ==> flags[j].id != id) && (maxClaims == 0 ==> bounty == 0)
          && bounty * maxClaims < U64)
      || (exists i :: 0 <= i < |flags| && flags[i].id == id && flags[i].txid == Some(tx.txid))
    case Claim(_, recipient) =>
      exists i: nat :: Names(flags, tx, i)
               && (if recipient in flags[i].claimants then Repeats(flags[i], tx) else MayClaim(flags[i], KeyOf(tx), h))
  }

  ghost predicate Admissible(s: State, tx: Tx, h: nat) {
    tx.fee >= (if h >= 3000 then 314 else 1) && InputsOk(s.utxo, tx, h) && BalanceOk(s, tx, h) && FlagOk(s.flags, tx, h)
  }

  /** Each of the first `n` transactions may be added to the ledger that those before it leave. */
  ghost predicate AllAdmissible(s: State, txs: seq<Tx>, n: nat, h: nat)
    requires n <= |txs|
  {
    n == 0 || (AllAdmissible(s, txs, n - 1, h) && ReplayTxs(s, txs, n - 1, h).Some?
               && Admissible(ReplayTxs(s, txs, n - 1, h).value, txs[n - 1], h))
  }

  // ---- Inputs ----

  lemma {:induction false} InputGrows(u: UtxoMap, inputs: seq<TxIn>, m: nat, n: nat, h: nat)
    requires m <= n <= |inputs| && forall i :: 0 <= i < n ==> Point(inputs[i]) in u
    ensures Input(u, inputs, m, h) <= Input(u, inputs, n, h)
  {
    if m < n { InputGrows(u, inputs, m, n - 1, h); }
  }

  /** The loop of `check_spendable` over the set before the block and the earlier transactions. */
  lemma {:induction false} InputValueIff(u0: UtxoMap, prior: seq<Tx>, u: UtxoMap, inputs: seq<TxIn>, n: nat, h: nat)
    requires View(u0, prior, h, u) && n <= |inputs|
    ensures InputValue(u0, prior, inputs, n, h).Some? <==>
              (forall i :: 0 <= i < n ==> Point(inputs[i]) in u) && Input(u, inputs, n, h) < U64
    ensures InputValue(u0, prior, inputs, n, h).Some? ==>
              InputValue(u0, prior, inputs, n, h).value == Input(u, inputs, n, h)
  {
    hide Lookup;
    hide SpentIn;
    if n > 0 {
      InputValueIff(u0, prior, u, inputs, n - 1, h);
      var p := Point(inputs[n - 1]);
      if p in u { assert Lookup(u0, prior, p, h) == Some(u[p]); }
    }
  }

  /** An output stored without a height counts as made by the spending block, so it is never scaled. */
  lemma HeightlessCounts(u: UtxoMap, prior: seq<Tx>, p: Outpoint, h: nat)
    requires p in u && u[p].height == 0
    ensures Lookup(u, prior, p, h).Some? && InputWorth(Lookup(u, prior, p, h).value, h) == Some(u[p].value)
  {
  }

  // ---- Flags ----

  lemma FlagOkIff(flags: seq<Flag>, tx: Tx, h: nat)
    requires BookInv(flags)
    ensures ApplyFlagTx(flags, tx, h).Done? <==> FlagOk(flags, tx, h)
  {
    match tx.flag
    case NoFlag =>
    case Create(id, _, _, _, _, _, _) => CreateOkIff(flags, tx, h);
    case Claim(id, recipient) => ClaimOkIff(flags, tx, h);
  }

  lemma CreateOkIff(flags: seq<Flag>, tx: Tx, h: nat)
    requires BookInv(flags) && tx.flag.Create?
    ensures ApplyFlagTx(flags, tx, h).Done? <==> FlagOk(flags, tx, h)
  {
    hide FlagInv;
    var f := FlagOpOf(tx, h).incoming;
    if i :| 0 <= i < |flags| && flags[i].id == f.id {
      CreateAgain(flags, i, f);
    } else {
      CreateLocksIff(flags, f);
    }
  }

  lemma ClaimOkIff(flags: seq<Flag>, tx: Tx, h: nat)
    requires BookInv(flags) && tx.flag.Claim?
    ensures ApplyFlagTx(flags, tx, h).Done? <==> FlagOk(flags, tx, h)
  {
    hide FlagInv;
    hide MayClaim;
    hide ClaimIn;
    var id, recipient, key, ref := tx.flag.flagId, tx.flag.recipient, KeyOf(tx), Some(tx.txid);
    UnknownIff(flags, id, recipient, key, h, ref);
    if i: nat :| Names(flags, tx, i) {
      OneName(flags, tx, i);
      if recipient in flags[i].claimants {
        var k :| 0 <= k < |flags[i].claimants| && flags[i].claimants[k] == recipient;
        ClaimAgainIff(flags, i, k, key, h, ref);
        OnlyClaim(flags, i, k, tx);
      } else {
        ClaimPaysIff(flags, i, recipient, key, h, ref);
      }
    } else {
      forall j | 0 <= j < |flags| ensures flags[j].id != id { assert !Names(flags, tx, j); }
    }
  }

  lemma OnlyClaim(flags: seq<Flag>, i: nat, k: nat, tx: Tx)
    requires BookInv(flags) && i < |flags| && tx.flag.Claim? && k < |flags[i].claimants|
    requires flags[i].claimants[k] == tx.flag.recipient
    ensures |flags[i].claimTxids| == |flags[i].claimants|
    ensures Repeats(flags[i], tx) <==> flags[i].claimTxids[k] == Some(tx.txid)
  {
    assert FlagInv(flags[i]);
  }

  /** A successful operation keeps the book in order. */
  lemma FlagTxKeepsBook(flags: seq<Flag>, tx: Tx, h: nat)
    requires BookInv(flags) && ApplyFlagTx(flags, tx, h).Done?
    ensures BookInv(ApplyFlagTx(flags, tx, h).flags)
  {
    hide BookInv;
    hide Apply;
    if !tx.flag.NoFlag? { StepKeepsInv(flags, FlagOpOf(tx, h)); }
  }

  /** What a claim counts on top of its inputs. */
  lemma ReleaseIs(flags: seq<Flag>, prior: seq<Tx>, tx: Tx, i: nat)
    requires BookInv(flags) && Names(flags, tx, i)
    ensures Release(tx, flags, prior) == flags[i].bounty
  {
    FindIff(flags, flags[i].id, i);
  }

  // ---- One transaction ----

  /** Next to the staged book the check of the source is the plain rule. */
  lemma SpendableIff(u0: UtxoMap, prior: seq<Tx>, s: State, tx: Tx, h: nat)
    requires View(u0, prior, h, s.utxo) && BookInv(s.flags)
    ensures Admissible(s, tx, h) <==>
              Spendable(u0, prior, tx, h, Release(tx, s.flags, prior)) && ApplyFlagTx(s.flags, tx, h).Done?
  {
    hide View;
    hide InputValue;
    hide Need;
    hide ApplyFlagTx;
    hide FlagOk;
    hide BookInv;
    hide Input;
    InputValueIff(u0, prior, s.utxo, tx.inputs, |tx.inputs|, h);
    FlagOkIff(s.flags, tx, h);
    if InputsOk(s.utxo, tx, h) && FlagOk(s.flags, tx, h) { BalanceIff(s, prior, tx, h); }
  }

  lemma BalanceIff(s: State, prior: seq<Tx>, tx: Tx, h: nat)
    requires BookInv(s.flags) && InputsOk(s.utxo, tx, h) && FlagOk(s.flags, tx, h)
    ensures var v, need := Input(s.utxo, tx.inputs, |tx.inputs|, h), Need(tx) % U64;
            var have := (v + Release(tx, s.flags, prior)) % U64;
            BalanceOk(s, tx, h) <==> if tx.flag.NoFlag? then need <= have else have == need
  {
    hide Need;
    hide FlagOk;
    hide BookInv;
    hide Input;
    if tx.flag.Claim? {
      var i := Named(s.flags, tx, h);
      ReleaseIs(s.flags, prior, tx, i);
      OneName(s.flags, tx, i);
    }
  }

  lemma Named(flags: seq<Flag>, tx: Tx, h: nat) returns (i: nat)
    requires tx.flag.Claim? && FlagOk(flags, tx, h)
    ensures Names(flags, tx, i)
  {
    hide MayClaim;
    hide Repeats;
    i :| Names(flags, tx, i);
  }

  lemma OneName(flags: seq<Flag>, tx: Tx, i: nat)
    requires BookInv(flags) && Names(flags, tx, i)
    ensures forall j: nat :: Names(flags, tx, j) ==> j == i
  {
    hide FlagInv;
  }

  // ---- A whole block ----

  /**
   * The validation loop of a block succeeds if and only if each transaction in turn may be added to the
   * running ledger; the staged flags are then those of that ledger.
   */
  lemma {:induction false} StageIff(sha: Sha, corpus: iset<Bytes>, past: seq<Tx>, u0: UtxoMap, flags: seq<Flag>,
                                    cb: Tx, txs: seq<Tx>, n: nat, h: nat)
    requires Setting(sha, corpus, past, cb, txs, h) && Inv(past, u0, h) && h >= 1 && n <= |txs| && BookInv(flags)
    ensures ApplyTx(u0, cb, h).Some?
    ensures var s := State(ApplyTx(u0, cb, h).value, flags);
            && (Stage(u0, flags, cb, txs, n, h).Some? <==> AllAdmissible(s, txs, n, h))
            && (Stage(u0, flags, cb, txs, n, h).Some? ==> BookInv(Stage(u0, flags, cb, txs, n, h).value))
  {
    hide Setting;
    hide Inv;
    hide ApplyTx;
    hide Running;
    hide ApplyFlagTx;
    hide Spendable;
    hide BookInv;
    hide Admissible;
    hide Release;
    hide ReplayTxs;
    hide Settle;
    if n == 0 {
      TxsReplay(sha, corpus, past, u0, flags, cb, txs, 0, h);
    } else {
      StageIff(sha, corpus, past, u0, flags, cb, txs, n - 1, h);
      if Stage(u0, flags, cb, txs, n - 1, h).Some? {
        TxsReplay(sha, corpus, past, u0, flags, cb, txs, n - 1, h);
        var t := ReplayTxs(State(ApplyTx(u0, cb, h).value, flags), txs, n - 1, h).value;
        RunningViews(past, u0, Prior(cb, txs, n - 1), t.utxo, h);
        SpendableIff(u0, Prior(cb, txs, n - 1), t, txs[n - 1], h);
        if ApplyFlagTx(t.flags, txs[n - 1], h).Done? { FlagTxKeepsBook(t.flags, txs[n - 1], h); }
      }
    }
  }

  lemma RunningViews(past: seq<Tx>, u0: UtxoMap, prior: seq<Tx>, u: UtxoMap, h: nat)
    requires Running(past, u0, prior, u, h)
    ensures View(u0, prior, h, u)
  {
    hide View;
    hide Inv;
    hide Ids;
  }

  // ---- What a claim pays ----

  /**
   * A claim that may be added, under a new id, has the bounty of its flag on top of its inputs, to the unit where that
   * fits 64 bits. It takes exactly that bounty out of that flag's escrow and leaves every other flag alone.
   */
  lemma ClaimPaysOut(s: State, tx: Tx, h: nat, ids: set<Hash>) returns (i: nat)
    requires Admissible(s, tx, h) && tx.flag.Claim? && BookInv(s.flags) && ClaimsFrom(s.flags, ids) && tx.txid !in ids
    ensures Names(s.flags, tx, i) && ApplyFlagTx(s.flags, tx, h).Done?
    ensures var v, fs, f := Input(s.utxo, tx.inputs, |tx.inputs|, h), ApplyFlagTx(s.flags, tx, h).flags, s.flags[i];
            && (v + f.bounty < U64 ==> v + f.bounty == Need(tx) % U64)
            && |fs| == |s.flags| && fs[i].escrow + f.bounty == f.escrow && f.bounty <= f.escrow
            && PaidOnce(f, fs[i], tx.flag.recipient, Some(tx.txid))
            && forall j :: 0 <= j < |fs| && j != i ==> fs[j] == s.flags[j]
  {
    hide Need;
    hide BookInv;
    hide Input;
    hide FlagOk;
    hide ClaimsFrom;
    hide ClaimIn;
    hide PaidOnce;
    hide MayClaim;
    FlagOkIff(s.flags, tx, h);
    var v := Input(s.utxo, tx.inputs, |tx.inputs|, h);
    i :| Names(s.flags, tx, i) && Need(tx) % U64 == (v + s.flags[i].bounty) % U64;
    ClaimantNew(s.flags, tx, h, ids, i);
    ClaimPaysIff(s.flags, i, tx.flag.recipient, KeyOf(tx), h, Some(tx.txid));
    Escrowed(s.flags, i, tx, h, ApplyFlagTx(s.flags, tx, h).flags[i]);
  }

  /** A creation that may be added, under a new id, books one flag at the end: its terms, no claims, all in escrow. */
  lemma CreateBooks(s: State, tx: Tx, h: nat, ids: set<Hash>)
    requires Admissible(s, tx, h) && tx.flag.Create? && BookInv(s.flags) && ClaimsFrom(s.flags, ids) && tx.txid !in ids
    ensures ApplyFlagTx(s.flags, tx, h).Done?
    ensures var fs, n, op := ApplyFlagTx(s.flags, tx, h).flags, |s.flags|, tx.flag;
            && |fs| == n + 1 && fs[..n] == s.flags && (forall j :: 0 <= j < n ==> s.flags[j].id != op.flagId)
            && fs[n].id == op.flagId && fs[n].commitment == op.commitment && fs[n].awardsKey == op.awardsKey
            && fs[n].maxClaims == op.maxClaims && fs[n].expiresHeight == op.expiresHeight && fs[n].note == op.note
            && fs[n].bounty == op.bounty && fs[n].txid == Some(tx.txid)
            && fs[n].claimants == [] && fs[n].claimTxids == [] && fs[n].escrow == op.bounty * op.maxClaims
  {
    hide Need;
    hide FlagInv;
    hide Input;
    hide InputsOk;
    hide BalanceOk;
    FlagOkIff(s.flags, tx, h);
    CreateLocksIff(s.flags, FlagOpOf(tx, h).incoming);
  }

  lemma ClaimantNew(flags: seq<Flag>, tx: Tx, h: nat, ids: set<Hash>, i: nat)
    requires FlagOk(flags, tx, h) && BookInv(flags) && ClaimsFrom(flags, ids) && tx.txid !in ids && Names(flags, tx, i)
    ensures tx.flag.recipient !in flags[i].claimants && MayClaim(flags[i], KeyOf(tx), h)
  {
    hide FlagInv;
    hide MayClaim;
    OneName(flags, tx, i);
    assert !Repeats(flags[i], tx);
  }

  lemma Escrowed(flags: seq<Flag>, i: nat, tx: Tx, h: nat, g: Flag)
    requires BookInv(flags) && i < |flags| && MayClaim(flags[i], KeyOf(tx), h) && tx.flag.Claim?
    requires PaidOnce(flags[i], g, tx.flag.recipient, Some(tx.txid))
    ensures flags[i].bounty <= flags[i].escrow && g.escrow + flags[i].bounty == flags[i].escrow
  {
    EscrowCoversBounty(flags[i]);
  }

  // ---- The second look-up of claim_release ----

  predicate Creates(tx: Tx, id: Text) { tx.flag.Create? && tx.flag.flagId == id }

  /** The first creation of that id earlier in the block decides. */
  lemma {:induction false} PriorBountyIs(prior: seq<Tx>, id: Text, i: nat)
    requires i <= |prior| && forall j :: 0 <= j < i ==> !Creates(prior[j], id)
    ensures i == |prior| ==> PriorBounty(prior, id) == 0
    ensures i < |prior| && Creates(prior[i], id) ==> PriorBounty(prior, id) == prior[i].flag.bounty
  {
    if i > 0 { PriorBountyIs(prior[1..], id, i - 1); }
  }

  /** `claim_release` on a flag the book does not have: the first creation earlier in the block, or nothing. */
  lemma ReleaseFromPrior(flags: seq<Flag>, prior: seq<Tx>, tx: Tx, i: nat)
    requires tx.flag.Claim? && forall j :: 0 <= j < |flags| ==> flags[j].id != tx.flag.flagId
    requires i <= |prior| && forall j :: 0 <= j < i ==> !Creates(prior[j], tx.flag.flagId)
    ensures i == |prior| ==> Release(tx, flags, prior) == 0
    ensures i < |prior| && Creates(prior[i], tx.flag.flagId) ==> Release(tx, flags, prior) == prior[i].flag.bounty
  {
    FindIff(flags, tx.flag.flagId, |flags|);
    PriorBountyIs(prior, tx.flag.flagId, i);
  }

  /** A successful operation keeps the terms of every flag, and adds one only by creating it. */
  lemma TermsStay(flags: seq<Flag>, tx: Tx, h: nat, id: Text)
    requires ApplyFlagTx(flags, tx, h).Done?
    ensures var fs := ApplyFlagTx(flags, tx, h).flags;
            && (Find(flags, id).Some? ==> Find(fs, id) == Find(flags, id)
                                          && fs[Find(fs, id).value].bounty == flags[Find(flags, id).value].bounty)
            && (Find(flags, id).None? && !Creates(tx, id) ==> Find(fs, id).None?)
            && (Find(flags, id).None? && Creates(tx, id) ==>
                  Find(fs, id) == Some(|flags|) && fs[|flags|].bounty == tx.flag.bounty)
  {
    hide EscrowLock;
    var fs := ApplyFlagTx(flags, tx, h).flags;
    if Find(flags, id).Some? {
      FindKeeps(flags, fs, id);
    } else {
      FindNone(flags, id);
      FindIff(fs, id, if Creates(tx, id) then |flags| else |fs|);
    }
  }

  /**
   * The two look-ups of `claim_release` agree: a flag new in this block is in the staged book as soon as it is created,
   * with the bounty that searching the earlier transactions gives.
   */
  lemma {:induction false} LookupsAgree(u: UtxoMap, flags: seq<Flag>, cb: Tx, txs: seq<Tx>, n: nat, h: nat, id: Text)
    requires n <= |txs| && Stage(u, flags, cb, txs, n, h).Some? && Find(flags, id).None? && cb.flag.NoFlag?
    ensures var staged, prior := Stage(u, flags, cb, txs, n, h).value, Prior(cb, txs, n);
            match Find(staged, id)
            case None => forall j :: 0 <= j < |prior| ==> !Creates(prior[j], id)
            case Some(i) => staged[i].bounty == PriorBounty(prior, id)
                            && exists j :: 0 <= j < |prior| && Creates(prior[j], id)
  {
    hide Spendable;
    hide ApplyFlagTx;
    hide Find;
    var prior := Prior(cb, txs, n);
    if n > 0 {
      LookupsAgree(u, flags, cb, txs, n - 1, h, id);
      var staged, front, tx := Stage(u, flags, cb, txs, n - 1, h).value, Prior(cb, txs, n - 1), txs[n - 1];
      assert prior == front + [tx];
      TermsStay(staged, tx, h, id);
      if Find(staged, id).Some? {
        var j :| 0 <= j < |front| && Creates(front[j], id);
        assert Creates(prior[j], id);
        SameBounty(front, tx, id, j);
      } else if Creates(tx, id) {
        PriorBountyIs(prior, id, |front|);
        assert Creates(prior[|front|], id);
      }
    }
  }

  lemma {:induction false} SameBounty(front: seq<Tx>, tx: Tx, id: Text, j: nat)
    requires j < |front| && Creates(front[j], id)
    ensures PriorBounty(front + [tx], id) == PriorBounty(front, id)
  {
    if !Creates(front[0], id) {
      SameBounty(front[1..], tx, id, j - 1);
      assert (front + [tx])[1..] == front[1..] + [tx];
    }
  }
}
