/** Flag escrow: `FlagBook`, its rules as functions of the flag list, and what every run keeps. */
module Flags {
  import opened Types

  /** `None` stands for an empty txid string. */
  type TxRef = Option<Hash>

  datatype Flag = Flag(id: Text, commitment: Hash, awardsKey: Hash, maxClaims: nat, expiresHeight: nat, bounty: nat,
                       note: Text, escrow: nat, txid: TxRef, claimants: seq<Text>, claimTxids: seq<TxRef>)

  datatype Reason = DuplicateFlag | UnlimitedCannotPay | Malformed | UnknownFlag | AlreadyClaimed
                  | AwardsSignature | Expired | Exhausted

  datatype Verdict = Done(flags: seq<Flag>) | Refused(reason: Reason)

  /** `escrow_lock`: what a flag must lock when it is created. */
  function EscrowLock(maxClaims: nat, bounty: nat): (r: Option<nat>)
    ensures r.Some? <==> (maxClaims == 0 ==> bounty == 0) && bounty * maxClaims < U64
    ensures r.Some? ==> r.value == bounty * maxClaims
  {
    if maxClaims == 0 then (if bounty != 0 then None else Some(0))
    else if bounty != 0 && bounty > (U64 - 1) / maxClaims then
      assert bounty * maxClaims >= U64 by { LockTooBig(maxClaims, bounty); }
      None
    else
      assert bounty * maxClaims < U64 by { LockFits(maxClaims, bounty); }
      Some(bounty * maxClaims)
  }

  lemma LockTooBig(m: nat, b: nat)
    requires m > 0 && b > (U64 - 1) / m
    ensures b * m >= U64
  {
    var q := (U64 - 1) / m;
    assert q * m + (U64 - 1) % m == U64 - 1;
    assert b * m >= (q + 1) * m;
    assert (q + 1) * m == q * m + m;
  }

  lemma LockFits(m: nat, b: nat)
    requires m > 0 && b <= (U64 - 1) / m
    ensures b * m < U64
  {
    var q := (U64 - 1) / m;
    assert q * m <= U64 - 1;
    assert b * m <= q * m;
  }

  /** The first flag with this id. */
  function Find(flags: seq<Flag>, id: Text): (r: Option<nat>)
    ensures r.Some? ==> r.value < |flags| && flags[r.value].id == id
  {
    if flags == [] then None
    else if flags[0].id == id then Some(0)
    else
      match Find(flags[1..], id)
      case None => None
      case Some(j) => Some(j + 1)
  }

  function IndexOf(s: seq<Text>, x: Text): (r: Option<nat>)
    ensures r.Some? ==> r.value < |s| && s[r.value] == x
  {
    if s == [] then None
    else if s[0] == x then Some(0)
    else
      match IndexOf(s[1..], x)
      case None => None
      case Some(j) => Some(j + 1)
  }

  lemma {:induction false} FindIff(flags: seq<Flag>, id: Text, i: nat)
    requires i <= |flags| && forall j :: 0 <= j < i ==> flags[j].id != id
    ensures i == |flags| ==> Find(flags, id).None?
    ensures i < |flags| && flags[i].id == id ==> Find(flags, id) == Some(i)
  {
    if i > 0 { FindIff(flags[1..], id, i - 1); }
  }

  lemma {:induction false} FindNone(flags: seq<Flag>, id: Text)
    requires Find(flags, id).None?
    ensures forall j :: 0 <= j < |flags| ==> flags[j].id != id
  {
    if flags != [] {
      FindNone(flags[1..], id);
      forall j | 0 <= j < |flags| ensures flags[j].id != id { if j > 0 { assert flags[j] == flags[1..][j - 1]; } }
    }
  }

  lemma {:induction false} IndexOfIff(s: seq<Text>, x: Text, i: nat)
    requires i <= |s| && forall j :: 0 <= j < i ==> s[j] != x
    ensures i == |s| ==> IndexOf(s, x).None?
    ensures i < |s| && s[i] == x ==> IndexOf(s, x) == Some(i)
  {
    if i > 0 { IndexOfIff(s[1..], x, i - 1); }
  }

  lemma {:induction false} IndexOfNone(s: seq<Text>, x: Text)
    requires IndexOf(s, x).None?
    ensures x !in s
  {
    if s != [] { IndexOfNone(s[1..], x); }
  }

  /** `FlagBook::create`. */
  function CreateIn(flags: seq<Flag>, incoming: Flag): Verdict {
    match Find(flags, incoming.id)
    case Some(i) =>
      if incoming.txid.Some? && flags[i].txid == incoming.txid then Done(flags) else Refused(DuplicateFlag)
    case None =>
      match EscrowLock(incoming.maxClaims, incoming.bounty)
      case None => Refused(if incoming.maxClaims == 0 then UnlimitedCannotPay else Malformed)
      case Some(lock) => Done(flags + [incoming.(escrow := lock)])
  }

  /** Why `FlagBook::claim` refuses a recipient who has not claimed this flag yet, if it does. */
  function ClaimRefusal(f: Flag, key: Bytes, height: nat): Option<Reason> {
    if key != f.awardsKey then Some(AwardsSignature)
    else if f.expiresHeight != 0 && height > f.expiresHeight then Some(Expired)
    else if f.maxClaims != 0 && |f.claimants| >= f.maxClaims then Some(Exhausted)
    else if f.bounty > f.escrow then Some(Exhausted)
    else None
  }

  function Paid(f: Flag, recipient: Text, txid: TxRef): Flag
    requires f.bounty <= f.escrow
  {
    f.(escrow := f.escrow - f.bounty, claimants := f.claimants + [recipient], claimTxids := f.claimTxids + [txid])
  }

  /** `FlagBook::claim`. */
  function ClaimIn(flags: seq<Flag>, id: Text, recipient: Text, key: Bytes, height: nat, txid: TxRef): Verdict {
    match Find(flags, id)
    case None => Refused(UnknownFlag)
    case Some(i) =>
      var f := flags[i];
      match IndexOf(f.claimants, recipient)
      case Some(k) =>
        if txid.Some? && k < |f.claimTxids| && f.claimTxids[k] == txid then Done(flags) else Refused(AlreadyClaimed)
      case None =>
        match ClaimRefusal(f, key, height)
        case Some(reason) => Refused(reason)
        case None => Done(flags[i := Paid(f, recipient, txid)])
  }

  datatype Op =
    | CreateOp(incoming: Flag)
    | ClaimOp(id: Text, recipient: Text, key: Bytes, height: nat, txid: TxRef)

  function OpTxid(op: Op): TxRef { if op.CreateOp? then op.incoming.txid else op.txid }

  function Apply(flags: seq<Flag>, op: Op): Verdict {
    match op
    case CreateOp(f) => CreateIn(flags, f)
    case ClaimOp(id, recipient, key, height, txid) => ClaimIn(flags, id, recipient, key, height, txid)
  }

  function After(flags: seq<Flag>, op: Op): seq<Flag> {
    match Apply(flags, op) case Done(fs) => fs case Refused(_) => flags
  }

  /** The list after the first `n` operations of a run; a refused operation leaves it as it was. */
  function Run(ops: seq<Op>, n: nat): seq<Flag>
    requires n <= |ops|
  {
    if n == 0 then [] else After(Run(ops, n - 1), ops[n - 1])
  }

  /** A new flag arrives without claims, as every caller builds it. */
  predicate Unclaimed(op: Op) { op.CreateOp? ==> op.incoming.claimants == [] && op.incoming.claimTxids == [] }

  // ---- The invariant ----

  ghost predicate FlagInv(f: Flag) {
    && |f.claimTxids| == |f.claimants|
    && Distinct(f.claimants)
    && (f.maxClaims == 0 ==> f.bounty == 0)
    && (f.maxClaims != 0 ==> |f.claimants| <= f.maxClaims)
    && f.escrow == (if f.maxClaims == 0 then 0 else f.bounty * (f.maxClaims - |f.claimants|))
  }

  ghost predicate BookInv(flags: seq<Flag>) {
    && (forall i, j :: 0 <= i < j < |flags| ==> flags[i].id != flags[j].id)
    && (forall i :: 0 <= i < |flags| ==> FlagInv(flags[i]))
  }

  /** With a claim left, the escrow covers a bounty: the second "exhausted" branch is dead. */
  lemma EscrowCoversBounty(f: Flag)
    requires FlagInv(f) && (f.maxClaims != 0 ==> |f.claimants| < f.maxClaims)
    ensures f.bounty <= f.escrow
  {
    if f.maxClaims != 0 {
      var left := f.maxClaims - |f.claimants|;
      assert f.bounty * left == f.bounty + f.bounty * (left - 1);
    }
  }

  lemma PaidKeepsInv(f: Flag, recipient: Text, key: Bytes, height: nat, txid: TxRef)
    requires FlagInv(f) && recipient !in f.claimants && ClaimRefusal(f, key, height).None?
    ensures FlagInv(Paid(f, recipient, txid))
  {
    if f.maxClaims != 0 {
      var left := f.maxClaims - |f.claimants|;
      assert f.bounty * left == f.bounty + f.bounty * (left - 1);
    }
  }

  lemma ClaimKeepsInv(flags: seq<Flag>, op: Op)
    requires BookInv(flags) && op.ClaimOp? && Apply(flags, op).Done? && After(flags, op) != flags
    ensures BookInv(After(flags, op))
  {
    var i := Find(flags, op.id).value;
    IndexOfNone(flags[i].claimants, op.recipient);
    PaidKeepsInv(flags[i], op.recipient, op.key, op.height, op.txid);
    assert After(flags, op) == flags[i := Paid(flags[i], op.recipient, op.txid)];
  }

  lemma StepKeepsInv(flags: seq<Flag>, op: Op)
    requires BookInv(flags) && Unclaimed(op)
    ensures BookInv(After(flags, op))
  {
    if op.ClaimOp? && After(flags, op) != flags {
      ClaimKeepsInv(flags, op);
    }
    if op.CreateOp? && After(flags, op) != flags {
      FindNone(flags, op.incoming.id);
    }
  }

  /**
   * Every run keeps ids unique, claimants distinct, and each escrow equal to the bounty
   * times the claims left (zero for an unlimited flag).
   */
  lemma {:induction false} EveryRunKeepsInv(ops: seq<Op>, n: nat)
    requires n <= |ops| && forall i :: 0 <= i < n ==> Unclaimed(ops[i])
    ensures BookInv(Run(ops, n))
  {
    if n > 0 {
      EveryRunKeepsInv(ops, n - 1);
      StepKeepsInv(Run(ops, n - 1), ops[n - 1]);
    }
  }

  /** So a claim is refused as exhausted if and only if the claim count is used up; escrow never runs short first. */
  lemma ExhaustedIff(flags: seq<Flag>, i: nat, key: Bytes, height: nat)
    requires BookInv(flags) && i < |flags|
    requires key == flags[i].awardsKey && (flags[i].expiresHeight == 0 || height <= flags[i].expiresHeight)
    ensures ClaimRefusal(flags[i], key, height) ==
            if flags[i].maxClaims != 0 && |flags[i].claimants| == flags[i].maxClaims then Some(Exhausted) else None
  {
    var f := flags[i];
    if f.maxClaims == 0 || |f.claimants| < f.maxClaims {
      EscrowCoversBounty(f);
    }
  }

  // ---- Who is paid, and when ----

  /** The flag after one more claim: the recipient and the transaction at the end, a bounty less in escrow. */
  ghost predicate PaidOnce(f: Flag, g: Flag, recipient: Text, txid: TxRef) {
    && g.claimants == f.claimants + [recipient] && g.claimTxids == f.claimTxids + [txid]
    && g.escrow == f.escrow - f.bounty && SameTerms(f, g)
  }

  ghost predicate SameTerms(f: Flag, g: Flag) {
    && f.id == g.id && f.commitment == g.commitment && f.awardsKey == g.awardsKey && f.maxClaims == g.maxClaims
    && f.expiresHeight == g.expiresHeight && f.bounty == g.bounty && f.note == g.note && f.txid == g.txid
  }

  /** The key, the time and the count that a claim by a new recipient needs. */
  ghost predicate MayClaim(f: Flag, key: Bytes, height: nat) {
    && key == f.awardsKey && (f.expiresHeight == 0 || height <= f.expiresHeight)
    && (f.maxClaims == 0 || |f.claimants| < f.maxClaims)
  }

  /**
   * On a reachable book a claim by a new recipient succeeds if and only if it is made with the awards key, in time and
   * with a claim left; it then pays that recipient alone, from that flag alone.
   */
  lemma ClaimPaysIff(flags: seq<Flag>, i: nat, recipient: Text, key: Bytes, height: nat, txid: TxRef)
    requires BookInv(flags) && i < |flags| && recipient !in flags[i].claimants
    ensures var v := ClaimIn(flags, flags[i].id, recipient, key, height, txid);
            && (v.Done? <==> MayClaim(flags[i], key, height))
            && (v.Done? ==> |v.flags| == |flags| && PaidOnce(flags[i], v.flags[i], recipient, txid)
                            && forall j :: 0 <= j < |flags| && j != i ==> v.flags[j] == flags[j])
            && (v == Refused(AwardsSignature) <==> key != flags[i].awardsKey)
            && (v == Refused(Expired) <==> key == flags[i].awardsKey && 0 < flags[i].expiresHeight < height)
  {
    FindIff(flags, flags[i].id, i);
    if flags[i].maxClaims == 0 || |flags[i].claimants| < flags[i].maxClaims { EscrowCoversBounty(flags[i]); }
  }

  /** A recipient who has claimed is answered again only with the same transaction, and nothing is paid. */
  lemma ClaimAgainIff(flags: seq<Flag>, i: nat, k: nat, key: Bytes, height: nat, txid: TxRef)
    requires BookInv(flags) && i < |flags| && k < |flags[i].claimants|
    ensures ClaimIn(flags, flags[i].id, flags[i].claimants[k], key, height, txid) ==
            if txid.Some? && flags[i].claimTxids[k] == txid then Done(flags) else Refused(AlreadyClaimed)
  {
    FindIff(flags, flags[i].id, i);
    assert FlagInv(flags[i]);
    IndexOfIff(flags[i].claimants, flags[i].claimants[k], k);
  }

  lemma UnknownIff(flags: seq<Flag>, id: Text, recipient: Text, key: Bytes, height: nat, txid: TxRef)
    ensures ClaimIn(flags, id, recipient, key, height, txid) == Refused(UnknownFlag) <==>
              forall j :: 0 <= j < |flags| ==> flags[j].id != id
  {
    if Find(flags, id).None? { FindNone(flags, id); }
  }

  /** A flag with a new id is booked if and only if its lock is payable and fits 64 bits, all of it in escrow. */
  lemma CreateLocksIff(flags: seq<Flag>, incoming: Flag)
    requires forall j :: 0 <= j < |flags| ==> flags[j].id != incoming.id
    ensures var v := CreateIn(flags, incoming);
            && (v.Done? <==> (incoming.maxClaims == 0 ==> incoming.bounty == 0)
                             && incoming.bounty * incoming.maxClaims < U64)
            && (v.Done? ==> |v.flags| == |flags| + 1 && v.flags[..|flags|] == flags
                            && SameTerms(incoming, v.flags[|flags|])
                            && v.flags[|flags|].claimants == incoming.claimants
                            && v.flags[|flags|].claimTxids == incoming.claimTxids
                            && v.flags[|flags|].escrow == incoming.bounty * incoming.maxClaims)
  {
    FindIff(flags, incoming.id, |flags|);
  }

  /** A second flag of one id is refused, unless it is the same transaction again, which changes nothing. */
  lemma CreateAgain(flags: seq<Flag>, i: nat, incoming: Flag)
    requires BookInv(flags) && i < |flags| && flags[i].id == incoming.id
    ensures CreateIn(flags, incoming) ==
            if incoming.txid.Some? && flags[i].txid == incoming.txid then Done(flags) else Refused(DuplicateFlag)
  {
    FindIff(flags, incoming.id, i);
  }

  /** Operation `j` of the run booked flag `f`. */
  ghost predicate BookedAt(ops: seq<Op>, j: nat, f: Flag) {
    j < |ops| && ops[j].CreateOp? && SameTerms(ops[j].incoming, f)
  }

  /** Operation `j` of the run is the claim that put claimant `k` on flag `f`: with its key, and in time. */
  ghost predicate ClaimedAt(ops: seq<Op>, j: nat, f: Flag, k: nat) {
    && k < |f.claimants| && |f.claimTxids| == |f.claimants|
    && j < |ops| && ops[j].ClaimOp? && ops[j].id == f.id && ops[j].recipient == f.claimants[k]
    && ops[j].txid == f.claimTxids[k] && ops[j].key == f.awardsKey
    && (f.expiresHeight == 0 || ops[j].height <= f.expiresHeight)
  }

  ghost predicate Booked(ops: seq<Op>, n: nat, f: Flag) { exists j :: 0 <= j < n && BookedAt(ops, j, f) }

  /** Every claimant on `f` was put there by one of the first `n` operations. */
  ghost predicate Claimed(ops: seq<Op>, n: nat, f: Flag) {
    && |f.claimTxids| == |f.claimants|
    && forall k :: 0 <= k < |f.claimants| ==> ClaimedBefore(ops, n, f, k)
  }

  ghost predicate ClaimedBefore(ops: seq<Op>, n: nat, f: Flag, k: nat) {
    exists j :: 0 <= j < n && ClaimedAt(ops, j, f, k)
  }

  ghost predicate Accounted(ops: seq<Op>, n: nat, flags: seq<Flag>) {
    forall i :: 0 <= i < |flags| ==> Booked(ops, n, flags[i]) && Claimed(ops, n, flags[i])
  }

  lemma AccountedLater(ops: seq<Op>, n: nat, f: Flag)
    requires n < |ops| && Booked(ops, n, f) && Claimed(ops, n, f)
    ensures Booked(ops, n + 1, f) && Claimed(ops, n + 1, f)
  {
    hide BookedAt;
    hide ClaimedAt;
    var m := n + 1;
    forall k | 0 <= k < |f.claimants| ensures ClaimedBefore(ops, m, f, k) { assert ClaimedBefore(ops, n, f, k); }
  }

  lemma ClaimAccounted(ops: seq<Op>, n: nat, f: Flag, g: Flag)
    requires n < |ops| && ops[n].ClaimOp? && MayClaim(f, ops[n].key, ops[n].height) && ops[n].id == f.id
    requires PaidOnce(f, g, ops[n].recipient, ops[n].txid) && Booked(ops, n + 1, f) && Claimed(ops, n + 1, f)
    ensures Booked(ops, n + 1, g) && Claimed(ops, n + 1, g)
  {
    var m := n + 1;
    forall k | 0 <= k < |g.claimants| ensures ClaimedBefore(ops, m, g, k) {
      if k == |f.claimants| {
        assert ClaimedAt(ops, n, g, k);
      } else {
        assert ClaimedBefore(ops, n + 1, f, k);
        var j :| 0 <= j < n + 1 && ClaimedAt(ops, j, f, k);
        assert ClaimedAt(ops, j, g, k);
      }
    }
    var j :| 0 <= j < n + 1 && BookedAt(ops, j, f);
    assert BookedAt(ops, j, g);
  }

  lemma StepAccounted(ops: seq<Op>, n: nat, flags: seq<Flag>)
    requires n < |ops| && BookInv(flags) && Accounted(ops, n + 1, flags) && Unclaimed(ops[n])
    ensures Accounted(ops, n + 1, After(flags, ops[n]))
  {
    hide Booked;
    hide Claimed;
    var op, fs := ops[n], After(flags, ops[n]);
    if fs != flags && op.ClaimOp? {
      var i := Find(flags, op.id).value;
      IndexOfNone(flags[i].claimants, op.recipient);
      ClaimPaysIff(flags, i, op.recipient, op.key, op.height, op.txid);
      ClaimAccounted(ops, n, flags[i], fs[i]);
    } else if fs != flags {
      assert fs == flags + [fs[|flags|]];
      NewAccounted(ops, n, fs[|flags|]);
    }
  }

  lemma NewAccounted(ops: seq<Op>, n: nat, f: Flag)
    requires n < |ops| && BookedAt(ops, n, f) && f.claimants == [] && f.claimTxids == []
    ensures Booked(ops, n + 1, f) && Claimed(ops, n + 1, f)
  {
  }

  /**
   * Over every run: each flag has the terms it was created with, and each claimant on it was put there by a claim made
   * with that flag's awards key, within its expiry, under the transaction recorded.
   */
  lemma {:induction false} EveryClaimAuthorised(ops: seq<Op>, n: nat)
    requires n <= |ops| && forall i :: 0 <= i < n ==> Unclaimed(ops[i])
    ensures Accounted(ops, n, Run(ops, n))
  {
    hide Booked;
    hide Claimed;
    hide BookInv;
    hide Apply;
    if n > 0 {
      EveryClaimAuthorised(ops, n - 1);
      EveryRunKeepsInv(ops, n - 1);
      var flags := Run(ops, n - 1);
      forall i | 0 <= i < |flags| ensures Booked(ops, n, flags[i]) && Claimed(ops, n, flags[i]) {
        AccountedLater(ops, n - 1, flags[i]);
      }
      StepAccounted(ops, n - 1, flags);
    }
  }

  // ---- Re-application ----

  lemma {:induction false} FindKeeps(flags: seq<Flag>, more: seq<Flag>, id: Text)
    requires |flags| <= |more| && forall j :: 0 <= j < |flags| ==> more[j].id == flags[j].id
    requires Find(flags, id).Some?
    ensures Find(more, id) == Find(flags, id)
  {
    if flags[0].id != id { FindKeeps(flags[1..], more[1..], id); }
  }

  lemma {:induction false} IndexOfKeeps(s: seq<Text>, last: Text, x: Text)
    ensures IndexOf(s, x).Some? ==> IndexOf(s + [last], x) == IndexOf(s, x)
    ensures IndexOf(s, last).None? ==> IndexOf(s + [last], last) == Some(|s|)
  {
    if s != [] {
      IndexOfKeeps(s[1..], last, x);
      assert (s + [last])[1..] == s[1..] + [last];
    }
  }

  lemma FindAppended(flags: seq<Flag>, f: Flag)
    requires Find(flags, f.id).None?
    ensures Find(flags + [f], f.id) == Some(|flags|)
  {
    FindNone(flags, f.id);
    FindIff(flags + [f], f.id, |flags|);
  }

  /** An operation that succeeds can be repeated at once with no effect. */
  lemma RepeatsAtOnce(flags: seq<Flag>, op: Op)
    requires BookInv(flags) && Apply(flags, op).Done? && OpTxid(op).Some?
    ensures Apply(After(flags, op), op) == Done(After(flags, op))
  {
    match op
    case CreateOp(f) =>
      if Find(flags, f.id).None? { FindAppended(flags, f.(escrow := f.bounty * f.maxClaims)); }
    case ClaimOp(id, recipient, _, _, _) =>
      var f := flags[Find(flags, id).value];
      assert FlagInv(f);
      FindKeeps(flags, After(flags, op), id);
      IndexOfKeeps(f.claimants, recipient, recipient);
  }

  /** And it stays repeatable, whatever operation comes next. */
  lemma StaysRepeatable(flags: seq<Flag>, op: Op, done: Op)
    requires Apply(flags, done) == Done(flags)
    ensures Apply(After(flags, op), done) == Done(After(flags, op))
  {
    var id := if done.CreateOp? then done.incoming.id else done.id;
    FindKeeps(flags, After(flags, op), id);
    if op.ClaimOp? && done.ClaimOp? {
      IndexOfKeeps(flags[Find(flags, id).value].claimants, op.recipient, done.recipient);
    }
  }

  /**
   * At any later point of any run, repeating an operation that succeeded earlier, with
   * its non-empty txid, succeeds and changes nothing.
   */
  lemma {:induction false} Idempotent(ops: seq<Op>, i: nat, n: nat)
    requires i < n <= |ops| && forall k :: 0 <= k < n ==> Unclaimed(ops[k])
    requires Apply(Run(ops, i), ops[i]).Done? && OpTxid(ops[i]).Some?
    ensures Apply(Run(ops, n), ops[i]) == Done(Run(ops, n))
  {
    hide Apply;
    hide BookInv;
    if i == n - 1 {
      EveryRunKeepsInv(ops, i);
      RepeatsAtOnce(Run(ops, i), ops[i]);
    } else {
      Idempotent(ops, i, n - 1);
      StaysRepeatable(Run(ops, n - 1), ops[n - 1], ops[i]);
    }
  }

  // ---- The class ----

  class FlagBook {
    var flags: seq<Flag>

    constructor ()
      ensures flags == []
    {
      flags := [];
    }

    method FindIndex(id: Text) returns (r: Option<nat>)
      ensures r == Find(flags, id)
    {
      for i := 0 to |flags|
        invariant forall j :: 0 <= j < i ==> flags[j].id != id
      {
        if flags[i].id == id {
          FindIff(flags, id, i);
          return Some(i);
        }
      }
      FindIff(flags, id, |flags|);
      return None;
    }

    /** `create`: the list becomes what `CreateIn` says; on refusal it is untouched. */
    method Create(incoming: Flag) returns (v: Verdict)
      modifies this
      ensures v == CreateIn(old(flags), incoming)
      ensures flags == After(old(flags), CreateOp(incoming))
    {
      var existing := FindIndex(incoming.id);
      if existing.Some? {
        if incoming.txid.Some? && flags[existing.value].txid == incoming.txid {
          return Done(flags);
        }
        return Refused(DuplicateFlag);
      }
      var lock := EscrowLock(incoming.maxClaims, incoming.bounty);
      if lock.None? {
        return Refused(if incoming.maxClaims == 0 then UnlimitedCannotPay else Malformed);
      }
      flags := flags + [incoming.(escrow := lock.value)];
      return Done(flags);
    }

    /** `claim`: the list becomes what `ClaimIn` says; on refusal it is untouched. */
    method Claim(id: Text, recipient: Text, key: Bytes, height: nat, txid: TxRef) returns (v: Verdict)
      modifies this
      ensures v == ClaimIn(old(flags), id, recipient, key, height, txid)
      ensures flags == After(old(flags), ClaimOp(id, recipient, key, height, txid))
    {
      var at := FindIndex(id);
      if at.None? {
        return Refused(UnknownFlag);
      }
      var f := flags[at.value];
      for k := 0 to |f.claimants|
        invariant forall j :: 0 <= j < k ==> f.claimants[j] != recipient
      {
        if f.claimants[k] == recipient {
          IndexOfIff(f.claimants, recipient, k);
          if txid.Some? && k < |f.claimTxids| && f.claimTxids[k] == txid {
            return Done(flags);
          }
          return Refused(AlreadyClaimed);
        }
      }
      IndexOfIff(f.claimants, recipient, |f.claimants|);
      if key != f.awardsKey {
        return Refused(AwardsSignature);
      }
      if f.expiresHeight != 0 && height > f.expiresHeight {
        return Refused(Expired);
      }
      if f.maxClaims != 0 && |f.claimants| >= f.maxClaims {
        return Refused(Exhausted);
      }
      if f.bounty > f.escrow {
        return Refused(Exhausted);
      }
      flags := flags[at.value := Paid(f, recipient, txid)];
      return Done(flags);
    }
  }
}
