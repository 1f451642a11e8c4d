/** The subsidy schedule, the fee split, and the coinbase rules across the unit switch at height 3000. */
module Emission {
  import opened Types

  const MINER216_HEIGHT: nat := 32
  const PI_HEIGHT: nat := 3000
  const PI_PER_OLD_UNIT: nat := 1000
  const SUBSIDY_PI: nat := 218000

  function SubsidyFor(h: nat): nat { if h >= PI_HEIGHT then SUBSIDY_PI else if h >= MINER216_HEIGHT then 218 else 200 }
  function ValidatorFor(h: nat): nat { if h >= PI_HEIGHT then 2000 else 2 }
  function MinerSubsidyFor(h: nat): nat { SubsidyFor(h) - ValidatorFor(h) }
  function MinFeeFor(h: nat): nat { if h >= PI_HEIGHT then 314 else 1 }

  /** Pi per stored unit in a block of this height. */
  function Scale(h: nat): nat { if h >= PI_HEIGHT then 1 else PI_PER_OLD_UNIT }

  /** `stored_to_pi`: the value in pi of an amount stored at `created`, unless it overflows. */
  function StoredToPi(stored: nat, created: nat): (r: Option<nat>)
    requires stored < U64
    ensures r == if stored * Scale(created) < U64 then Some(stored * Scale(created)) else None
  {
    if created >= PI_HEIGHT then Some(stored)
    else if stored > (U64 - 1) / PI_PER_OLD_UNIT then None
    else Some(stored * PI_PER_OLD_UNIT)
  }

  datatype Shares = Shares(miner: nat, stakers: nat, loans: nat, foundation: nat, burn: nat)

  /** `fee_shares`, with each product taken modulo 2^64 as the source computes it. */
  function FeeShares(fee: nat): (s: Shares)
    ensures s.miner + s.stakers + s.loans + s.foundation + s.burn == fee
    ensures 100 * (s.miner + s.stakers + s.loans + s.foundation) <= 95 * fee
    ensures fee * 60 < U64 ==> s.miner == fee * 60 / 100 && s.stakers == fee * 20 / 100
                               && s.loans == fee * 8 / 100 && s.foundation == fee * 7 / 100
  {
    var miner := (fee * 60) % U64 / 100;
    var stakers := (fee * 20) % U64 / 100;
    var loans := (fee * 8) % U64 / 100;
    var foundation := (fee * 7) % U64 / 100;
    Wrapped(fee * 60); Wrapped(fee * 20); Wrapped(fee * 8); Wrapped(fee * 7);
    WrapLosesShare(fee * 60); WrapLosesShare(fee * 20); WrapLosesShare(fee * 8); WrapLosesShare(fee * 7);
    Shares(miner, stakers, loans, foundation, fee - (miner + stakers + loans + foundation))
  }

  lemma Wrapped(x: nat)
    ensures 100 * (x % U64 / 100) <= x
  {
  }

  /** The burn is at least 5% of the fee, whatever wraps. */
  lemma BurnAtLeastFivePercent(fee: nat)
    ensures 100 * FeeShares(fee).burn >= 5 * fee
  {
  }

  /** The miner gets the documented 60% (rounded down) exactly when `fee * 60` fits in 64 bits. */
  lemma MinerShareExactIff(fee: nat)
    ensures FeeShares(fee).miner == fee * 60 / 100 <==> fee * 60 < U64
  {
    WrapLosesShare(fee * 60);
  }

  /** Likewise 20% for stakers, 8% for loans and 7% for the foundation, each exactly when its product fits. */
  lemma SharesExactIff(fee: nat)
    ensures FeeShares(fee).stakers == fee * 20 / 100 <==> fee * 20 < U64
    ensures FeeShares(fee).loans == fee * 8 / 100 <==> fee * 8 < U64
    ensures FeeShares(fee).foundation == fee * 7 / 100 <==> fee * 7 < U64
  {
    WrapLosesShare(fee * 20);
    WrapLosesShare(fee * 8);
    WrapLosesShare(fee * 7);
  }

  lemma WrapLosesShare(x: nat)
    ensures x % U64 / 100 == x / 100 <==> x < U64
  {
    if x >= U64 {
      var y := x % U64;
      assert y <= x - U64;
      assert 100 * (y / 100) <= y;
      assert x < 100 * (x / 100) + 100;
    }
  }

  datatype Role = Miner | Validator | Stakers | Loans | Foundation | Burn | OtherRole
  datatype CbOut = CbOut(role: Role, address: Text, units: nat)

  datatype Refusal = CoinbaseMissing | WalletMissing | ExceedsEmission | FoundationAddress
                   | SubsidyMismatch | ValidatorAmount | ValidatorAddress

  /** `coinbase_subsidy_ok`. */
  function SubsidyRefusal(h: nat, fee: nat, paidMiner: nat, paidValidator: nat): Option<Refusal> {
    if h >= PI_HEIGHT && (paidMiner == 216 || paidMiner == 218 || paidMiner == 198) then Some(SubsidyMismatch)
    else if paidValidator != ValidatorFor(h) then Some(ValidatorAmount)
    else
      var share := FeeShares(fee).miner;
      if h >= MINER216_HEIGHT then
        (if paidMiner != MinerSubsidyFor(h) + share then Some(SubsidyMismatch) else None)
      else if paidMiner != 198 + share && paidMiner != 216 + share then Some(SubsidyMismatch)
      else None
  }

  /** What a list of coinbase outputs pays one role, exactly. */
  function RoleSum(outs: seq<CbOut>, role: Role): nat {
    if outs == [] then 0
    else RoleSum(outs[..|outs| - 1], role) + (if outs[|outs| - 1].role == role then outs[|outs| - 1].units else 0)
  }

  function TotalUnits(outs: seq<CbOut>): nat {
    if outs == [] then 0 else TotalUnits(outs[..|outs| - 1]) + outs[|outs| - 1].units
  }

  /** The 64-bit accumulator the source keeps for one role. */
  function Paid(outs: seq<CbOut>, role: Role): nat { RoleSum(outs, role) % U64 }

  /** The per-role accumulators do not wrap. The source does not check this. */
  predicate SumsFit(outs: seq<CbOut>) {
    forall role :: RoleSum(outs, role) < U64
  }

  predicate PayableRole(role: Role) { role != Burn && role != OtherRole }

  /** Why one output is refused when the list is read; `payout` is the resolved miner address. */
  function RowRefusal(o: CbOut, payout: Text): Option<Refusal> {
    if o.address == [] then Some(CoinbaseMissing)
    else if o.role == Miner && o.address != payout then Some(WalletMissing)
    else None
  }

  function RowsRefusal(outs: seq<CbOut>, payout: Text): Option<Refusal> {
    if outs == [] then None else
    var front := RowsRefusal(outs[..|outs| - 1], payout);
    if front.Some? then front else RowRefusal(outs[|outs| - 1], payout)
  }

  /** Why one output is refused when the roles are added up. */
  function RoleRefusal(o: CbOut, foundation: Text): Option<Refusal> {
    if !PayableRole(o.role) then Some(ExceedsEmission)
    else if o.role == Foundation && o.address != foundation then Some(FoundationAddress)
    else None
  }

  function RolesRefusal(outs: seq<CbOut>, foundation: Text): Option<Refusal> {
    if outs == [] then None else
    var front := RolesRefusal(outs[..|outs| - 1], foundation);
    if front.Some? then front else RoleRefusal(outs[|outs| - 1], foundation)
  }

  /** Everything the coinbase of a submitted block must satisfy, in the order it is tested. */
  function CoinbaseRefusal(h: nat, fee: nat, payout: Text, foundation: Text, outs: seq<CbOut>,
                           isPs1: Text -> bool): Option<Refusal> {
    var s := FeeShares(fee);
    if RowsRefusal(outs, payout).Some? then RowsRefusal(outs, payout)
    else if RolesRefusal(outs, foundation).Some? then RolesRefusal(outs, foundation)
    else if Paid(outs, Stakers) > s.stakers || Paid(outs, Loans) > s.loans || Paid(outs, Foundation) != s.foundation
    then Some(ExceedsEmission)
    else if SubsidyRefusal(h, fee, Paid(outs, Miner), Paid(outs, Validator)).Some?
    then SubsidyRefusal(h, fee, Paid(outs, Miner), Paid(outs, Validator))
    else if h >= MINER216_HEIGHT && exists i :: 0 <= i < |outs| && outs[i].role == Validator && !isPs1(outs[i].address)
    then Some(ValidatorAddress)
    else None
  }

  /** The two list scans pass exactly when every output passes. */
  lemma {:induction false} ScansPassIff(outs: seq<CbOut>, payout: Text, foundation: Text)
    ensures RowsRefusal(outs, payout).None? <==> forall i :: 0 <= i < |outs| ==> RowRefusal(outs[i], payout).None?
    ensures RolesRefusal(outs, foundation).None? <==>
              forall i :: 0 <= i < |outs| ==> RoleRefusal(outs[i], foundation).None?
  {
    hide RowRefusal;
    hide RoleRefusal;
    if outs != [] {
      var n := |outs| - 1;
      ScansPassIff(outs[..n], payout, foundation);
      assert forall i :: 0 <= i < n ==> outs[..n][i] == outs[i];
    }
  }

  /** The addresses and roles a coinbase of height `h` must have. */
  ghost predicate RowsOk(h: nat, payout: Text, foundation: Text, outs: seq<CbOut>, isPs1: Text -> bool) {
    forall i :: 0 <= i < |outs| ==>
      && outs[i].address != [] && outs[i].role != Burn && outs[i].role != OtherRole
      && (outs[i].role == Miner ==> outs[i].address == payout)
      && (outs[i].role == Foundation ==> outs[i].address == foundation)
      && (outs[i].role == Validator && h >= 32 ==> isPs1(outs[i].address))
  }

  /** What a coinbase of height `h` must pay each role out of `fee` units of fees, to the unit. */
  ghost predicate PaysOk(h: nat, fee: nat, outs: seq<CbOut>) {
    && (RoleSum(outs, Miner) == (if h >= 3000 then 216000 else 216) + fee * 60 / 100
        || (h < 32 && RoleSum(outs, Miner) == 198 + fee * 60 / 100))
    && RoleSum(outs, Validator) == (if h >= 3000 then 2000 else 2)
    && RoleSum(outs, Stakers) <= fee * 20 / 100
    && RoleSum(outs, Loans) <= fee * 8 / 100
    && RoleSum(outs, Foundation) == fee * 7 / 100
  }

  lemma SumsAreExact(outs: seq<CbOut>)
    requires SumsFit(outs)
    ensures forall role :: Paid(outs, role) == RoleSum(outs, role)
  {
    hide RoleSum;
  }

  lemma SharesExact(fee: nat)
    requires fee * 60 < U64
    ensures var s := FeeShares(fee);
            && s.miner == fee * 60 / 100 && s.stakers == fee * 20 / 100
            && s.loans == fee * 8 / 100 && s.foundation == fee * 7 / 100
  {
  }

  /** Where nothing wraps, a coinbase is accepted if and only if its rows are in order and each role is paid its due. */
  lemma CoinbaseAcceptedIff(h: nat, fee: nat, payout: Text, foundation: Text, outs: seq<CbOut>, isPs1: Text -> bool)
    requires SumsFit(outs) && fee * 60 < U64
    ensures CoinbaseRefusal(h, fee, payout, foundation, outs, isPs1).None? <==>
              RowsOk(h, payout, foundation, outs, isPs1) && PaysOk(h, fee, outs)
  {
    hide FeeShares;
    hide RoleSum;
    hide RowsRefusal;
    hide RolesRefusal;
    hide Paid;
    hide SumsFit;
    SumsAreExact(outs);
    SharesExact(fee);
    ScansPassIff(outs, payout, foundation);
  }

  /** From the switch on the old miner amounts are refused as such, whatever the validator is paid and the fees are. */
  lemma OldSubsidyRefused(h: nat, fee: nat, paidMiner: nat, paidValidator: nat)
    requires h >= 3000 && (paidMiner == 216 || paidMiner == 218 || paidMiner == 198)
    ensures SubsidyRefusal(h, fee, paidMiner, paidValidator) == Some(SubsidyMismatch)
  {
  }

  /** A refused coinbase does violate the rule it is refused for. */
  ghost predicate Breaks(h: nat, fee: nat, payout: Text, foundation: Text, outs: seq<CbOut>, isPs1: Text -> bool,
                         why: Refusal)
  {
    var s := FeeShares(fee);
    match why
    case CoinbaseMissing => exists i :: 0 <= i < |outs| && outs[i].address == []
    case WalletMissing => exists i :: 0 <= i < |outs| && outs[i].role == Miner && outs[i].address != payout
    case FoundationAddress => exists i :: 0 <= i < |outs| && outs[i].role == Foundation && outs[i].address != foundation
    case ExceedsEmission =>
      || (exists i :: 0 <= i < |outs| && !PayableRole(outs[i].role))
      || Paid(outs, Stakers) > s.stakers || Paid(outs, Loans) > s.loans || Paid(outs, Foundation) != s.foundation
    case SubsidyMismatch => Paid(outs, Miner) != (if h >= 3000 then 216000 else 216) + s.miner
    case ValidatorAmount => Paid(outs, Validator) != if h >= 3000 then 2000 else 2
    case ValidatorAddress =>
      h >= 32 && exists i :: 0 <= i < |outs| && outs[i].role == Validator && !isPs1(outs[i].address)
  }

  lemma {:induction false} RowsReason(outs: seq<CbOut>, payout: Text) returns (i: nat)
    requires RowsRefusal(outs, payout).Some?
    ensures i < |outs| && RowRefusal(outs[i], payout) == RowsRefusal(outs, payout)
  {
    hide RowRefusal;
    var n := |outs| - 1;
    i := n;
    if RowsRefusal(outs[..n], payout).Some? { i := RowsReason(outs[..n], payout); }
  }

  lemma {:induction false} RolesReason(outs: seq<CbOut>, foundation: Text) returns (i: nat)
    requires RolesRefusal(outs, foundation).Some?
    ensures i < |outs| && RoleRefusal(outs[i], foundation) == RolesRefusal(outs, foundation)
  {
    hide RoleRefusal;
    var n := |outs| - 1;
    i := n;
    if RolesRefusal(outs[..n], foundation).Some? { i := RolesReason(outs[..n], foundation); }
  }

  lemma RefusalBreaks(h: nat, fee: nat, payout: Text, foundation: Text, outs: seq<CbOut>, isPs1: Text -> bool)
    requires CoinbaseRefusal(h, fee, payout, foundation, outs, isPs1).Some?
    ensures Breaks(h, fee, payout, foundation, outs, isPs1,
                   CoinbaseRefusal(h, fee, payout, foundation, outs, isPs1).value)
  {
    hide FeeShares;
    hide Paid;
    hide RowsRefusal;
    hide RolesRefusal;
    if RowsRefusal(outs, payout).Some? {
      var i := RowsReason(outs, payout);
    } else if RolesRefusal(outs, foundation).Some? {
      var i := RolesReason(outs, foundation);
    }
  }

  lemma {:induction false} TotalIsSumOfRoles(outs: seq<CbOut>)
    requires forall i :: 0 <= i < |outs| ==> PayableRole(outs[i].role)
    ensures TotalUnits(outs) == RoleSum(outs, Miner) + RoleSum(outs, Validator) + RoleSum(outs, Stakers)
                              + RoleSum(outs, Loans) + RoleSum(outs, Foundation)
  {
    if outs != [] { TotalIsSumOfRoles(outs[..|outs| - 1]); }
  }

  /** What wraps away in the accumulators of the five payable roles: a multiple of 2^64 for each. */
  function MintExcess(outs: seq<CbOut>): nat {
    Lost(outs, Miner) + Lost(outs, Validator) + Lost(outs, Stakers) + Lost(outs, Loans) + Lost(outs, Foundation)
  }

  function Lost(outs: seq<CbOut>, role: Role): nat { RoleSum(outs, role) / U64 * U64 }

  lemma LostIs(outs: seq<CbOut>, role: Role)
    ensures RoleSum(outs, role) == Paid(outs, role) + Lost(outs, role)
    ensures Lost(outs, role) == 0 <==> RoleSum(outs, role) < U64
    ensures Lost(outs, role) != 0 ==> Lost(outs, role) >= U64
  {
    hide RoleSum;
  }

  lemma {:induction false} UnpayableUnpaid(outs: seq<CbOut>, role: Role)
    requires !PayableRole(role) && forall i :: 0 <= i < |outs| ==> PayableRole(outs[i].role)
    ensures RoleSum(outs, role) == 0
  {
    if outs != [] { UnpayableUnpaid(outs[..|outs| - 1], role); }
  }

  /** Nothing wraps exactly when every accumulator is the true sum. */
  lemma NoExcessIff(outs: seq<CbOut>)
    requires forall i :: 0 <= i < |outs| ==> PayableRole(outs[i].role)
    ensures MintExcess(outs) == 0 <==> SumsFit(outs)
    ensures MintExcess(outs) != 0 ==> MintExcess(outs) >= U64
  {
    hide RoleSum;
    hide Lost;
    forall role ensures Lost(outs, role) == 0 <==> RoleSum(outs, role) < U64
      ensures Lost(outs, role) != 0 ==> Lost(outs, role) >= U64
      ensures !PayableRole(role) ==> RoleSum(outs, role) == 0
    {
      LostIs(outs, role);
      if !PayableRole(role) { UnpayableUnpaid(outs, role); }
    }
  }

  /** The true total of an accepted coinbase: the excess on top of a lawful amount. */
  lemma CoinbaseTotal(h: nat, fee: nat, payout: Text, foundation: Text, outs: seq<CbOut>, isPs1: Text -> bool)
    requires CoinbaseRefusal(h, fee, payout, foundation, outs, isPs1).None?
    ensures forall i :: 0 <= i < |outs| ==> PayableRole(outs[i].role)
    ensures TotalUnits(outs) + FeeShares(fee).burn
         <= (if h >= PI_HEIGHT then SUBSIDY_PI else 218) + fee + MintExcess(outs)
  {
    hide FeeShares;
    hide RoleSum;
    hide TotalUnits;
    hide RowsRefusal;
    hide RolesRefusal;
    hide Paid;
    hide Lost;
    ScansPassIff(outs, payout, foundation);
    TotalIsSumOfRoles(outs);
    LostIs(outs, Miner);
    LostIs(outs, Validator);
    LostIs(outs, Stakers);
    LostIs(outs, Loans);
    LostIs(outs, Foundation);
  }

  /**
   * For every accepted coinbase: in pi, its outputs and the burned share together are at most 218000
   * plus the fees plus what its role accumulators wrapped away.
   */
  lemma CoinbaseBound(h: nat, fee: nat, payout: Text, foundation: Text, outs: seq<CbOut>, isPs1: Text -> bool)
    requires CoinbaseRefusal(h, fee, payout, foundation, outs, isPs1).None?
    ensures TotalUnits(outs) * Scale(h) + FeeShares(fee).burn * Scale(h)
         <= SUBSIDY_PI + fee * Scale(h) + MintExcess(outs) * Scale(h)
  {
    hide FeeShares;
    hide TotalUnits;
    hide CoinbaseRefusal;
    hide MintExcess;
    CoinbaseTotal(h, fee, payout, foundation, outs, isPs1);
  }

  /** So an accepted coinbase keeps to 218000 pi plus the fees if and only if no role sum wraps. */
  lemma CoinbaseBoundIff(h: nat, fee: nat, payout: Text, foundation: Text, outs: seq<CbOut>, isPs1: Text -> bool)
    requires CoinbaseRefusal(h, fee, payout, foundation, outs, isPs1).None? && fee < U64
    ensures TotalUnits(outs) * Scale(h) + FeeShares(fee).burn * Scale(h) <= SUBSIDY_PI + fee * Scale(h)
            <==> SumsFit(outs)
  {
    hide FeeShares;
    hide TotalUnits;
    hide RoleSum;
    hide CoinbaseRefusal;
    hide MintExcess;
    hide SumsFit;
    CoinbaseTotal(h, fee, payout, foundation, outs, isPs1);
    NoExcessIff(outs);
    ExcessIsMinted(outs);
    BurnAtLeastFivePercent(fee);
    var burn := FeeShares(fee).burn;
    if !SumsFit(outs) {
      assert 100 * (TotalUnits(outs) + burn) > 100 * (SUBSIDY_PI + fee);
      assert (TotalUnits(outs) + burn) * Scale(h) > SUBSIDY_PI + fee * Scale(h);
    }
  }

  /** What wrapped away is still paid out, and on top of it every accumulator's remainder. */
  lemma ExcessIsMinted(outs: seq<CbOut>)
    requires forall i :: 0 <= i < |outs| ==> PayableRole(outs[i].role)
    ensures MintExcess(outs) <= TotalUnits(outs)
  {
    hide RoleSum;
    hide TotalUnits;
    hide Paid;
    hide Lost;
    TotalIsSumOfRoles(outs);
    LostIs(outs, Miner);
    LostIs(outs, Validator);
    LostIs(outs, Stakers);
    LostIs(outs, Loans);
    LostIs(outs, Foundation);
  }

  /** The list that mints more than 2^64 units in the first block. */
  function WrappedCoinbase(wallet: Text, validator: Text): seq<CbOut> {
    [CbOut(Miner, wallet, U64 - 1), CbOut(Miner, wallet, 199), CbOut(Validator, validator, 2)]
  }

  lemma WrappedSums(wallet: Text, validator: Text, role: Role)
    ensures var outs := WrappedCoinbase(wallet, validator);
            && RoleSum(outs, role) == (if role == Miner then U64 + 198 else if role == Validator then 2 else 0)
            && TotalUnits(outs) == U64 + 200
  {
    var outs := WrappedCoinbase(wallet, validator);
    var one, two := outs[..1], outs[..2];
    assert two[..1] == one && outs[..3] == outs && outs[..3][..2] == two;
    assert one[..0] == [];
    assert RoleSum(one, role) == if role == Miner then U64 - 1 else 0;
    assert RoleSum(two, role) == if role == Miner then U64 + 198 else 0;
    assert TotalUnits(one) == U64 - 1 && TotalUnits(two) == U64 + 198;
  }

  /** For example: at height 1 the miner is paid 2^64 - 1 and 199, which the accumulator reads as 198. */
  lemma WrappedCoinbasePasses(wallet: Text, validator: Text, foundation: Text, isPs1: Text -> bool)
    requires wallet != [] && validator != []
    ensures CoinbaseRefusal(1, 0, wallet, foundation, WrappedCoinbase(wallet, validator), isPs1).None?
    ensures TotalUnits(WrappedCoinbase(wallet, validator)) == U64 + 200
    ensures !SumsFit(WrappedCoinbase(wallet, validator))
  {
    hide RoleSum;
    hide TotalUnits;
    hide RowsRefusal;
    hide RolesRefusal;
    var outs := WrappedCoinbase(wallet, validator);
    forall role { WrappedSums(wallet, validator, role); }
    ScansPassIff(outs, wallet, foundation);
    assert RoleSum(outs, Miner) == U64 + 198;
  }

  // ---- The template a miner is given ----

  datatype Parts = Parts(minerCap: nat, validator: nat, shares: Shares)

  function EmissionFor(h: nat, fee: nat): Parts {
    Parts(MinerSubsidyFor(h) + FeeShares(fee).miner, ValidatorFor(h), FeeShares(fee))
  }

  function TemplateCoinbase(wallet: Text, validator: Text, foundation: Text, e: Parts): seq<CbOut> {
    [CbOut(Miner, wallet, e.minerCap), CbOut(Validator, validator, e.validator)]
    + (if e.shares.stakers > 0 then [CbOut(Stakers, [115, 116, 97, 107, 101, 114, 115], e.shares.stakers)] else [])
    + (if e.shares.loans > 0 then [CbOut(Loans, [108, 111, 97, 110, 115], e.shares.loans)] else [])
    + (if e.shares.foundation > 0 then [CbOut(Foundation, foundation, e.shares.foundation)] else [])
  }

  lemma RoleSumSnoc(outs: seq<CbOut>, o: CbOut, role: Role)
    ensures RoleSum(outs + [o], role) == RoleSum(outs, role) + (if o.role == role then o.units else 0)
  {
    assert (outs + [o])[..|outs|] == outs;
  }

  lemma {:induction false} RoleSumConcat(a: seq<CbOut>, b: seq<CbOut>, role: Role)
    ensures RoleSum(a + b, role) == RoleSum(a, role) + RoleSum(b, role)
  {
    if b == [] {
      assert a + b == a;
    } else {
      RoleSumConcat(a, b[..|b| - 1], role);
      assert (a + b)[..|a + b| - 1] == a + b[..|b| - 1];
    }
  }

  lemma RoleSumMaybe(o: CbOut, on: bool, role: Role)
    ensures RoleSum(if on then [o] else [], role) == if on && o.role == role then o.units else 0
  {
    assert RoleSum([o][..0], role) == 0;
  }

  /** The template pays every role exactly its part. */
  lemma TemplateSums(wallet: Text, validator: Text, foundation: Text, e: Parts, role: Role)
    ensures RoleSum(TemplateCoinbase(wallet, validator, foundation, e), role) ==
            match role
            case Miner => e.minerCap
            case Validator => e.validator
            case Stakers => e.shares.stakers
            case Loans => e.shares.loans
            case Foundation => e.shares.foundation
            case _ => 0
  {
    hide RoleSum;
    var m, v := CbOut(Miner, wallet, e.minerCap), CbOut(Validator, validator, e.validator);
    var s, l, f := CbOut(Stakers, [115, 116, 97, 107, 101, 114, 115], e.shares.stakers),
                   CbOut(Loans, [108, 111, 97, 110, 115], e.shares.loans),
                   CbOut(Foundation, foundation, e.shares.foundation);
    var s', l', f' := if s.units > 0 then [s] else [], if l.units > 0 then [l] else [], if f.units > 0 then [f] else [];
    RoleSumMaybe(m, true, role);
    RoleSumMaybe(s, s.units > 0, role);
    RoleSumMaybe(l, l.units > 0, role);
    RoleSumMaybe(f, f.units > 0, role);
    RoleSumSnoc([m], v, role);
    assert [m] + [v] == [m, v];
    RoleSumConcat([m, v], s', role);
    RoleSumConcat([m, v] + s', l', role);
    RoleSumConcat([m, v] + s' + l', f', role);
    assert TemplateCoinbase(wallet, validator, foundation, e) == [m, v] + s' + l' + f';
  }

  /** The template's rows: only payable roles, each at its own address. */
  lemma TemplateRows(wallet: Text, validator: Text, foundation: Text, e: Parts, i: nat)
    requires wallet != [] && validator != [] && foundation != []
    requires i < |TemplateCoinbase(wallet, validator, foundation, e)|
    ensures var o := TemplateCoinbase(wallet, validator, foundation, e)[i];
            && o.address != [] && PayableRole(o.role)
            && (o.role == Miner ==> o.address == wallet)
            && (o.role == Validator ==> o.address == validator)
            && (o.role == Foundation ==> o.address == foundation)
  {
  }

  /**
   * For every height and every fee total, what `template_coinbase` builds passes every role, address
   * and amount check of `rpc_submitblock`, and outputs plus burn equal subsidy plus fees to the unit.
   */
  lemma TemplateAccepted(h: nat, fee: nat, wallet: Text, validator: Text, foundation: Text, isPs1: Text -> bool)
    requires fee < U64 && wallet != [] && validator != [] && foundation != []
    requires h >= MINER216_HEIGHT ==> isPs1(validator)
    ensures var outs := TemplateCoinbase(wallet, validator, foundation, EmissionFor(h, fee));
            && SumsFit(outs)
            && CoinbaseRefusal(h, fee, wallet, foundation, outs, isPs1).None?
            && TotalUnits(outs) + FeeShares(fee).burn == SubsidyFor(h) + fee
  {
    hide FeeShares;
    hide RoleSum;
    hide TotalUnits;
    hide TemplateCoinbase;
    hide RowsRefusal;
    hide RolesRefusal;
    var e := EmissionFor(h, fee);
    var outs := TemplateCoinbase(wallet, validator, foundation, e);
    forall role ensures RoleSum(outs, role) < U64 && Paid(outs, role) == RoleSum(outs, role) {
      TemplateSums(wallet, validator, foundation, e, role);
    }
    forall i | 0 <= i < |outs|
      ensures outs[i].address != [] && PayableRole(outs[i].role)
      ensures outs[i].role == Miner ==> outs[i].address == wallet
      ensures outs[i].role == Validator ==> outs[i].address == validator
      ensures outs[i].role == Foundation ==> outs[i].address == foundation
    {
      TemplateRows(wallet, validator, foundation, e, i);
    }
    TemplateSums(wallet, validator, foundation, e, Miner);
    TemplateSums(wallet, validator, foundation, e, Validator);
    TemplateSums(wallet, validator, foundation, e, Stakers);
    TemplateSums(wallet, validator, foundation, e, Loans);
    TemplateSums(wallet, validator, foundation, e, Foundation);
    ScansPassIff(outs, wallet, foundation);
    TotalIsSumOfRoles(outs);
  }
}
