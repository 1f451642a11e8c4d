/**
 * Two coinbases with one id. Nothing limits the length of coinbase addresses for stakers and loans, nor
 * for validators below height 32, and `canonical_tx` writes lengths in 16 bits.
 */
module Oversize {
  import opened Types
  import opened LittleEndian
  import opened Records
  import opened Emission
  import opened Freshness
  import opened Chain

  // ---- One string of bytes read in two ways ----

  function Filler(n: nat): (r: Bytes)
    ensures |r| == n && forall i :: 0 <= i < n ==> r[i] == 97
  {
    seq(n, _ => 97)
  }

  /** A value of 1 and a length that reads 1 in 16 bits. */
  const HEAD: Bytes := LE(1, 8) + LE(1, 2)

  const GAP: nat := U16 - 10

  const SHORT: Text := [97]

  ghost function Long1(): Text { (Filler(GAP) + HEAD) + SHORT }

  ghost function Long2(): Text { (SHORT + HEAD) + Filler(GAP) }

  lemma LongTexts()
    ensures |Long1()| == U16 + 1 && |Long2()| == U16 + 1
    ensures EncodeOut(TxOut(1, SHORT)) == HEAD + SHORT
    ensures EncodeOut(TxOut(1, Long1())) == HEAD + Long1() && EncodeOut(TxOut(1, Long2())) == HEAD + Long2()
  {
    var n := U16 + 1;
    assert LE(n, 2) == LE(1, 2) by {
      assert LE(n / 256, 1) == [0] && LE(0, 1) == [0];
    }
  }

  /** Head, short, head, gap, head, short. */
  lemma TwoReadings(h: Bytes, z: Bytes, g: Bytes)
    ensures (h + z) + (h + ((g + h) + z)) == (h + ((z + h) + g)) + (h + z)
  {
    Associates(h, z, h + ((g + h) + z));
    Associates(h, (z + h) + g, h + z);
    Associates(g, h, z);
    Associates(z, h, g + (h + z));
    Associates(z + h, g, h + z);
  }

  lemma {:induction false} EncodeOutsConcat(a: seq<TxOut>, b: seq<TxOut>)
    ensures EncodeOuts(a + b) == EncodeOuts(a) + EncodeOuts(b)
  {
    hide EncodeOut;
    if a == [] {
      assert a + b == b && EncodeOuts(a) + EncodeOuts(b) == EncodeOuts(b);
    } else {
      EncodeOutsConcat(a[1..], b);
      assert (a + b)[1..] == a[1..] + b && (a + b)[0] == a[0];
      Associates(EncodeOut(a[0]), EncodeOuts(a[1..]), EncodeOuts(b));
    }
  }

  lemma TwoOuts(x: TxOut, y: TxOut)
    ensures EncodeOuts([x, y]) == EncodeOut(x) + EncodeOut(y)
  {
    hide EncodeOut;
    var tail := [x, y][1..];
    assert tail == [y] && tail[1..] == [];
    assert EncodeOuts(tail) == EncodeOut(y) + EncodeOuts([]);
    assert EncodeOut(y) + [] == EncodeOut(y);
  }

  ghost function Pair1(): seq<TxOut> { [TxOut(1, SHORT), TxOut(1, Long1())] }

  ghost function Pair2(): seq<TxOut> { [TxOut(1, Long2()), TxOut(1, SHORT)] }

  /** Wherever it stands in an output list, one pair may be replaced by the other. */
  lemma PairsEncodeAlike(before: seq<TxOut>, after: seq<TxOut>)
    ensures EncodeOuts(before + Pair1() + after) == EncodeOuts(before + Pair2() + after)
    ensures before + Pair1() + after != before + Pair2() + after
  {
    hide EncodeOut;
    hide EncodeOuts;
    LongTexts();
    TwoOuts(TxOut(1, SHORT), TxOut(1, Long1()));
    TwoOuts(TxOut(1, Long2()), TxOut(1, SHORT));
    TwoReadings(HEAD, SHORT, Filler(GAP));
    EncodeOutsConcat(before + Pair1(), after);
    EncodeOutsConcat(before + Pair2(), after);
    EncodeOutsConcat(before, Pair1());
    EncodeOutsConcat(before, Pair2());
    assert (before + Pair1() + after)[|before|] == TxOut(1, SHORT);
    assert (before + Pair2() + after)[|before|] == TxOut(1, Long2());
  }

  // ---- What the JSON record of such an address takes ----

  /** Bytes a character takes in a JSON string: escapes for quote, backslash and control characters. */
  function Escaped(c: Byte): nat {
    if c == 0x22 || c == 0x5C || c == 8 || c == 9 || c == 10 || c == 12 || c == 13 then 2
    else if c < 0x20 then 6 else 1
  }

  function DumpLength(t: Text): nat {
    if t == [] then 0 else DumpLength(t[..|t| - 1]) + Escaped(t[|t| - 1])
  }

  lemma {:induction false} DumpConcat(a: Text, b: Text)
    ensures DumpLength(a + b) == DumpLength(a) + DumpLength(b)
  {
    if b == [] {
      assert a + b == a;
    } else {
      DumpConcat(a, b[..|b| - 1]);
      assert (a + b)[..|a + b| - 1] == a + b[..|b| - 1];
    }
  }

  lemma {:induction false} DumpFiller(n: nat)
    ensures DumpLength(Filler(n)) == n
  {
    if n > 0 {
      DumpFiller(n - 1);
      assert Filler(n)[..n - 1] == Filler(n - 1);
    }
  }

  lemma DumpHead()
    ensures DumpLength(HEAD) <= 60 && DumpLength(SHORT) == 1
  {
    DumpBound(HEAD);
    assert SHORT[..0] == [];
  }

  lemma {:induction false} DumpBound(t: Text)
    ensures DumpLength(t) <= 6 * |t|
  {
    if t != [] { DumpBound(t[..|t| - 1]); }
  }

  /** The long addresses take about 64 KiB of the 256 KiB a block record may have. */
  lemma LongDumps()
    ensures DumpLength(Long1()) <= U16 + 51 && DumpLength(Long2()) <= U16 + 51
  {
    hide DumpLength;
    DumpConcat(Filler(GAP) + HEAD, SHORT);
    DumpConcat(Filler(GAP), HEAD);
    DumpConcat(SHORT + HEAD, Filler(GAP));
    DumpConcat(SHORT, HEAD);
    DumpFiller(GAP);
    DumpHead();
  }

  // ---- Coinbases that pass ----

  lemma NonZeroOfPaid(outs: seq<CbOut>)
    requires forall i :: 0 <= i < |outs| ==> outs[i].units > 0
    ensures NonZero(outs) == outs
  {
    NonZeroIdempotent(outs);
  }

  /** Two coinbases of one height with other outputs and one id, encoding and all. */
  ghost predicate Collide(sha: Sha, h: nat, a: seq<CbOut>, b: seq<CbOut>) {
    var x, y := CoinbaseFrom(sha, h, a), CoinbaseFrom(sha, h, b);
    x.txid == y.txid && Canonical(x) == Canonical(y) && x.outputs != y.outputs && |x.outputs| == |y.outputs|
  }

  lemma PairsCollide(sha: Sha, h: nat, a: seq<CbOut>, b: seq<CbOut>, before: seq<TxOut>, after: seq<TxOut>)
    requires (forall i :: 0 <= i < |a| ==> a[i].units > 0) && (forall i :: 0 <= i < |b| ==> b[i].units > 0)
    requires AsOuts(a) == before + Pair1() + after && AsOuts(b) == before + Pair2() + after
    ensures Collide(sha, h, a, b)
  {
    hide EncodeOuts;
    hide NonZero;
    hide Pair1;
    hide Pair2;
    NonZeroOfPaid(a);
    NonZeroOfPaid(b);
    PairsEncodeAlike(before, after);
    assert |AsOuts(a)| == |AsOuts(b)| by { PairsAsLong(before, after); }
    CanonicalIgnoresId(CoinbaseFrom(sha, h, a), ZERO);
    CanonicalIgnoresId(CoinbaseFrom(sha, h, b), ZERO);
  }

  lemma PairsAsLong(before: seq<TxOut>, after: seq<TxOut>)
    ensures |before + Pair1() + after| == |before + Pair2() + after|
  {
  }

  /** Miner 198 and two validators with 1 each. */
  function TwoValidators(wallet: Text, a: Text, b: Text): seq<CbOut> {
    [CbOut(Miner, wallet, 198), CbOut(Validator, a, 1), CbOut(Validator, b, 1)]
  }

  lemma TwoValidatorsPass(h: nat, wallet: Text, a: Text, b: Text, foundation: Text, isPs1: Text -> bool)
    requires h < MINER216_HEIGHT && wallet != [] && a != [] && b != []
    ensures CoinbaseRefusal(h, 0, wallet, foundation, TwoValidators(wallet, a, b), isPs1).None?
  {
    hide RoleSum;
    hide RowsRefusal;
    hide RolesRefusal;
    var outs := TwoValidators(wallet, a, b);
    forall role ensures RoleSum(outs, role) == if role == Miner then 198 else if role == Validator then 2 else 0 {
      RoleSumMaybe(outs[0], true, role);
      RoleSumSnoc([outs[0]], outs[1], role);
      RoleSumSnoc([outs[0]] + [outs[1]], outs[2], role);
      assert outs == [outs[0]] + [outs[1]] + [outs[2]];
    }
    ScansPassIff(outs, wallet, foundation);
    assert Emission.Paid(outs, Miner) == 198 && Emission.Paid(outs, Validator) == 2;
  }

  ghost function Validators1(wallet: Text): seq<CbOut> { TwoValidators(wallet, SHORT, Long1()) }

  ghost function Validators2(wallet: Text): seq<CbOut> { TwoValidators(wallet, Long2(), SHORT) }

  /** At every height below 32, without fees: two coinbases that pass every check and have one id. */
  lemma ValidatorsCollide(sha: Sha, h: nat, wallet: Text, foundation: Text, isPs1: Text -> bool)
    requires h < MINER216_HEIGHT && wallet != []
    ensures CoinbaseRefusal(h, 0, wallet, foundation, Validators1(wallet), isPs1).None?
    ensures CoinbaseRefusal(h, 0, wallet, foundation, Validators2(wallet), isPs1).None?
    ensures Collide(sha, h, Validators1(wallet), Validators2(wallet))
  {
    hide CoinbaseRefusal;
    hide Collide;
    TwoValidatorsPass(h, wallet, SHORT, Long1(), foundation, isPs1);
    TwoValidatorsPass(h, wallet, Long2(), SHORT, foundation, isPs1);
    var before := [TxOut(198, wallet)];
    assert AsOuts(Validators1(wallet)) == before + Pair1() + [];
    assert AsOuts(Validators2(wallet)) == before + Pair2() + [];
    PairsCollide(sha, h, Validators1(wallet), Validators2(wallet), before, []);
  }

  /** The template of a height and a fee total with the stakers' share cut to two outputs of 1. */
  function TwoStakers(h: nat, fee: nat, wallet: Text, validator: Text, foundation: Text, a: Text, b: Text): seq<CbOut> {
    var e := EmissionFor(h, fee);
    [CbOut(Miner, wallet, e.minerCap), CbOut(Validator, validator, e.validator),
     CbOut(Stakers, a, 1), CbOut(Stakers, b, 1)]
    + (if e.shares.foundation > 0 then [CbOut(Foundation, foundation, e.shares.foundation)] else [])
  }

  lemma TwoStakersSums(h: nat, fee: nat, wallet: Text, validator: Text, foundation: Text, a: Text, b: Text, role: Role)
    ensures RoleSum(TwoStakers(h, fee, wallet, validator, foundation, a, b), role) ==
            match role
            case Miner => EmissionFor(h, fee).minerCap
            case Validator => EmissionFor(h, fee).validator
            case Stakers => 2
            case Foundation => EmissionFor(h, fee).shares.foundation
            case _ => 0
  {
    hide RoleSum;
    hide FeeShares;
    var outs, e := TwoStakers(h, fee, wallet, validator, foundation, a, b), EmissionFor(h, fee);
    var m, v, s, t := outs[0], outs[1], outs[2], outs[3];
    var f := CbOut(Foundation, foundation, e.shares.foundation);
    RoleSumMaybe(m, true, role);
    RoleSumSnoc([m], v, role);
    RoleSumSnoc([m] + [v], s, role);
    RoleSumSnoc([m] + [v] + [s], t, role);
    RoleSumMaybe(f, f.units > 0, role);
    var four := [m] + [v] + [s] + [t];
    RoleSumConcat(four, if f.units > 0 then [f] else [], role);
    assert four == [m, v, s, t];
  }

  /** At every height, with fees: stakers' addresses are not limited at all. */
  lemma StakersPass(h: nat, fee: nat, wallet: Text, validator: Text, foundation: Text, a: Text, b: Text,
                    isPs1: Text -> bool)
    requires fee < U64 && FeeShares(fee).stakers >= 2
    requires wallet != [] && validator != [] && foundation != [] && a != [] && b != []
    requires h >= MINER216_HEIGHT ==> isPs1(validator)
    ensures var outs := TwoStakers(h, fee, wallet, validator, foundation, a, b);
            CoinbaseRefusal(h, fee, wallet, foundation, outs, isPs1).None?
  {
    hide RoleSum;
    hide RowsRefusal;
    hide RolesRefusal;
    hide FeeShares;
    var outs := TwoStakers(h, fee, wallet, validator, foundation, a, b);
    forall role ensures Emission.Paid(outs, role) == RoleSum(outs, role) {
      TwoStakersSums(h, fee, wallet, validator, foundation, a, b, role);
    }
    TwoStakersSums(h, fee, wallet, validator, foundation, a, b, Miner);
    TwoStakersSums(h, fee, wallet, validator, foundation, a, b, Validator);
    TwoStakersSums(h, fee, wallet, validator, foundation, a, b, Stakers);
    TwoStakersSums(h, fee, wallet, validator, foundation, a, b, Loans);
    TwoStakersSums(h, fee, wallet, validator, foundation, a, b, Foundation);
    ScansPassIff(outs, wallet, foundation);
  }

  lemma StakersCollide(sha: Sha, h: nat, fee: nat, wallet: Text, validator: Text, foundation: Text, isPs1: Text -> bool)
    requires fee < U64 && FeeShares(fee).stakers >= 2 && wallet != [] && validator != [] && foundation != []
    requires h >= MINER216_HEIGHT ==> isPs1(validator)
    ensures var a, b := TwoStakers(h, fee, wallet, validator, foundation, SHORT, Long1()),
                        TwoStakers(h, fee, wallet, validator, foundation, Long2(), SHORT);
            && CoinbaseRefusal(h, fee, wallet, foundation, a, isPs1).None?
            && CoinbaseRefusal(h, fee, wallet, foundation, b, isPs1).None?
            && Collide(sha, h, a, b)
  {
    hide CoinbaseRefusal;
    hide Collide;
    hide FeeShares;
    StakersPass(h, fee, wallet, validator, foundation, SHORT, Long1(), isPs1);
    StakersPass(h, fee, wallet, validator, foundation, Long2(), SHORT, isPs1);
    var e := EmissionFor(h, fee);
    var before := [TxOut(e.minerCap, wallet), TxOut(e.validator, validator)];
    var after := if e.shares.foundation > 0 then [TxOut(e.shares.foundation, foundation)] else [];
    var a, b := TwoStakers(h, fee, wallet, validator, foundation, SHORT, Long1()),
                TwoStakers(h, fee, wallet, validator, foundation, Long2(), SHORT);
    assert AsOuts(a) == before + Pair1() + after;
    assert AsOuts(b) == before + Pair2() + after;
    PairsCollide(sha, h, a, b, before, after);
  }
}
