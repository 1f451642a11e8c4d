/** Sequences of calls of `adoptLaterPeerChain` with no new block noted between them. */
module LaterRuns {
  import opened Types
  import opened Freshness
  import opened Chain
  import opened Node
  import opened NodeInvariant
  import opened NodeReplay
  import opened NodeAdopt
  import opened NodeRuns
  import opened HeldBranches
  import opened LaterPeers
  import opened Copies
  import opened Adoption

  // ---- Offers come to an end ----

  /** Held tips that may still be offered. */
  ghost function Pending(s: Later): set<Hash> { set x | x in s.held && x.block.hash !in s.refused :: x.block.hash }

  lemma SmallerSet(a: set<Hash>, b: set<Hash>, h: Hash)
    requires a <= b && h in b && h !in a
    ensures |a| < |b|
  {
    SubsetSize(a, b - {h});
  }

  lemma RefuseKeeps(refused: seq<Hash>, tip: Hash, h: Hash)
    requires |refused| < MAX_REFUSED || tip in refused
    ensures h in Refuse(refused, tip) <==> h in refused || h == tip
  {
  }

  /** A call that offers takes a tip out of `Pending`, as long as the refused list has room. */
  lemma OfferSpends(K: Oracle, W: World, envOf: nat -> Env, s: Later, now: nat)
    requires CollisionFree(K.sha, W.corpus) && LaterInv(K, W, s)
    requires |s.refused| + |Pending(s)| <= MAX_REFUSED
    ensures var t := LaterStep(K, envOf, s, now);
            && |t.refused| + |Pending(t)| <= MAX_REFUSED
            && |Pending(t)| + (if OfferOf(s, now).Some? then 1 else 0) <= |Pending(s)|
  {
    hide NodeInv;
    hide MayStore;
    hide Adopt;
    hide CollisionFree;
    hide LaterStep;
    var V, t := PoolFor(s, now), LaterStep(K, envOf, s, now);
    PoolIsPool(K, W, s, now);
    if OfferOf(s, now).None? {
      NothingOffered(K, envOf, s, now);
      assert Pending(t) <= Pending(s);
      SubsetSize(Pending(t), Pending(s));
    } else {
      OfferNotEmpty(s, now);
      OutcomeRemembered(K, W, envOf, s, now);
      var x := V.held[OfferOf(s, now).value];
      assert x in V.held && x in s.held;
      TipSpent(s, t, V.held, x, Hashes(Offered(s, now)));
    }
  }

  lemma NothingOffered(K: Oracle, envOf: nat -> Env, s: Later, now: nat)
    requires OfferOf(s, now).None?
    ensures LaterStep(K, envOf, s, now) == s.(held := PoolFor(s, now).held)
  {
    hide PoolFor;
  }

  lemma TipSpent(s: Later, t: Later, held: seq<Held>, x: Held, gone: set<Hash>)
    requires x in s.held && x.block.hash !in s.refused && forall y :: y in held ==> y in s.held
    requires |s.refused| + |Pending(s)| <= MAX_REFUSED
    requires (t.held == held && t.refused == Refuse(s.refused, x.block.hash))
             || (t.held == Without(held, gone) && t.refused == s.refused && x.block.hash in gone)
    ensures |t.refused| + |Pending(t)| <= MAX_REFUSED && |Pending(t)| < |Pending(s)|
  {
    hide Without;
    var h := x.block.hash;
    assert h in Pending(s);
    assert |Pending(s)| > 0 by { SubsetSize({h}, Pending(s)); }
    if t.refused != s.refused {
      forall g { RefuseKeeps(s.refused, h, g); }
    } else {
      WithoutMeans(held, gone);
      if t.held == held { assert h in Refuse(s.refused, h); }
    }
    assert Pending(t) <= Pending(s) && h !in Pending(t);
    SmallerSet(Pending(t), Pending(s), h);
  }

  /** The clock and the environments of a sequence of calls. */
  datatype Call = Call(envOf: nat -> Env, now: nat)

  /** The state after `k` calls with no new block noted between them. */
  ghost function Calls(K: Oracle, s: Later, calls: seq<Call>, k: nat): Later
    requires k <= |calls|
  {
    if k == 0 then s else LaterStep(K, calls[k - 1].envOf, Calls(K, s, calls, k - 1), calls[k - 1].now)
  }

  ghost function OffersMade(K: Oracle, s: Later, calls: seq<Call>, k: nat): nat
    requires k <= |calls|
  {
    if k == 0 then 0 else
    OffersMade(K, s, calls, k - 1) + (if OfferOf(Calls(K, s, calls, k - 1), calls[k - 1].now).Some? then 1 else 0)
  }

  /** The condition on copies, for each of the first `k` calls. */
  ghost predicate CallsAgree(K: Oracle, W: World, s: Later, calls: seq<Call>, k: nat)
    requires k <= |calls|
  {
    forall j :: 0 <= j < k ==> CallAgrees(K, W, calls[j].envOf, Calls(K, s, calls, j), calls[j].now)
  }

  lemma FewerAgree(K: Oracle, W: World, s: Later, calls: seq<Call>, k: nat)
    requires k < |calls| && CallsAgree(K, W, s, calls, k + 1)
    ensures CallsAgree(K, W, s, calls, k)
    ensures CallAgrees(K, W, calls[k].envOf, Calls(K, s, calls, k), calls[k].now)
  {
    hide Calls;
    hide CallAgrees;
  }

  lemma MoreAgree(K: Oracle, W: World, s: Later, calls: seq<Call>, k: nat)
    requires k < |calls| && CallsAgree(K, W, s, calls, k)
    requires CallAgrees(K, W, calls[k].envOf, Calls(K, s, calls, k), calls[k].now)
    ensures CallsAgree(K, W, s, calls, k + 1)
  {
    hide Calls;
    hide CallAgrees;
  }

  /** Throughout the calls the node invariant holds, the tip never falls, and store and index only grow. */
  lemma {:induction false} CallsKeep(K: Oracle, W: World, s: Later, calls: seq<Call>, k: nat)
    requires CollisionFree(K.sha, W.corpus) && LaterInv(K, W, s) && k <= |calls| && CallsAgree(K, W, s, calls, k)
    ensures var t := Calls(K, s, calls, k);
            LaterInv(K, W, t) && LocalHeight(s.node) <= LocalHeight(t.node) && Appended(s.node, t.node)
  {
    hide LaterInv;
    hide LaterStep;
    hide CallAgrees;
    hide CollisionFree;
    hide LocalHeight;
    if k > 0 {
      CallsKeep(K, W, s, calls, k - 1);
      var t, call := Calls(K, s, calls, k - 1), calls[k - 1];
      LaterKeeps(K, W, call.envOf, t, call.now);
      hide Appended;
      AppendedTwice(s.node, t.node, LaterStep(K, call.envOf, t, call.now).node);
    }
  }

  lemma FullIndexCallAgrees(K: Oracle, W: World, envOf: nat -> Env, s: Later, now: nat)
    requires CollisionFree(K.sha, W.corpus) && LaterInv(K, W, s) && FullIndex(s.node)
    ensures CallAgrees(K, W, envOf, s, now)
  {
    hide NodeInv;
    hide OfferOf;
    hide Offered;
    hide StepAgrees;
    hide DistinctHeld;
    hide MayStore;
    hide CollisionFree;
    hide FullIndex;
    hide ActiveChain;
    if OfferOf(s, now).Some? && Offered(s, now) != [] {
      FullIndexStepAgrees(K, W, s.node, ActiveChain(s.node), StepOf(envOf, s, now));
    }
  }

  /** Before the first restart the condition holds of itself. */
  lemma {:induction false} FullIndexCallsAgree(K: Oracle, W: World, s: Later, calls: seq<Call>, k: nat)
    requires CollisionFree(K.sha, W.corpus) && LaterInv(K, W, s) && FullIndex(s.node) && k <= |calls|
    ensures CallsAgree(K, W, s, calls, k)
  {
    hide LaterInv;
    hide Calls;
    hide CallAgrees;
    hide CollisionFree;
    hide FullIndex;
    hide Appended;
    hide LocalHeight;
    if k > 0 {
      FullIndexCallsAgree(K, W, s, calls, k - 1);
      CallsKeep(K, W, s, calls, k - 1);
      var t, call := Calls(K, s, calls, k - 1), calls[k - 1];
      AppendedFull(s.node, t.node);
      FullIndexCallAgrees(K, W, call.envOf, t, call.now);
      MoreAgree(K, W, s, calls, k - 1);
    }
  }

  /**
   * And at any time it holds of a call whose blocks, if accepted, have no hash collision with copies of them
   * stored before.
   */
  lemma ApartCallAgrees(K: Oracle, W: World, envOf: nat -> Env, s: Later, now: nat)
    requires CollisionFree(K.sha, W.corpus) && LaterInv(K, W, s)
    requires OfferOf(s, now).Some? && Offered(s, now) != [] ==> StepApart(K, W, s.node, StepOf(envOf, s, now))
    ensures CallAgrees(K, W, envOf, s, now)
  {
    hide NodeInv;
    hide OfferOf;
    hide Offered;
    hide StepAgrees;
    hide StepApart;
    hide MayStore;
    hide CollisionFree;
    hide AllMayStore;
    if OfferOf(s, now).Some? && Offered(s, now) != [] {
      OfferMayStore(K, W, s, now);
      StepApartAgrees(K, W, s.node, ActiveChain(s.node), StepOf(envOf, s, now));
    }
  }

  /**
   * Without new blocks, however often it is called and whatever the offers lead to, `adoptLaterPeerChain`
   * makes at most one offer for each held tip not refused yet, provided that those and the refused tips
   * together fit the refused list.
   */
  lemma {:induction false} OffersEnd(K: Oracle, W: World, s: Later, calls: seq<Call>, k: nat)
    requires CollisionFree(K.sha, W.corpus) && LaterInv(K, W, s) && k <= |calls| && CallsAgree(K, W, s, calls, k)
    requires |s.refused| + |Pending(s)| <= MAX_REFUSED
    ensures var t := Calls(K, s, calls, k);
            && |t.refused| + |Pending(t)| <= MAX_REFUSED
            && OffersMade(K, s, calls, k) + |Pending(t)| <= |Pending(s)|
  {
    hide LaterInv;
    hide LaterStep;
    hide CallAgrees;
    hide OfferOf;
    hide Pending;
    hide CollisionFree;
    if k > 0 {
      OffersEnd(K, W, s, calls, k - 1);
      CallsKeep(K, W, s, calls, k - 1);
      OfferSpends(K, W, calls[k - 1].envOf, Calls(K, s, calls, k - 1), calls[k - 1].now);
    }
  }

  // ---- When every offer fails ----

  /** A refused tip is forgotten by the next refusal if and only if the list is full and it is the oldest. */
  lemma ForgottenIff(refused: seq<Hash>, tip: Hash, h: Hash)
    requires Distinct(refused) && tip !in refused && h in refused
    ensures h !in Refuse(refused, tip) <==> |refused| >= MAX_REFUSED && h == refused[0]
  {
    if |refused| >= MAX_REFUSED {
      assert refused == [refused[0]] + refused[1..];
      assert refused[0] !in refused[1..];
    }
  }

  lemma RefusedAfter(refused: seq<Hash>, tip: Hash, h: Hash)
    requires Distinct(refused) && |refused| == MAX_REFUSED && tip !in refused
    ensures h in Refuse(refused, tip) <==> (h in refused && h != refused[0]) || h == tip
  {
    if h in refused { ForgottenIff(refused, tip, h); }
  }

  /**
   * So when the list is full and its oldest entry is held, a failed call leaves as many tips to offer as
   * there were.
   */
  lemma FullListMakesNoProgress(K: Oracle, W: World, envOf: nat -> Env, s: Later, now: nat, x: Held)
    requires CollisionFree(K.sha, W.corpus) && LaterInv(K, W, s) && OfferOf(s, now).Some? && Offered(s, now) != []
    requires AdoptionOf(K, envOf, s, now).Kept? && Distinct(s.refused) && |s.refused| == MAX_REFUSED
    requires x in PoolFor(s, now).held && x.block.hash == s.refused[0]
    ensures |Pending(LaterStep(K, envOf, s, now))| == |Pending(s.(held := PoolFor(s, now).held))|
  {
    hide Refuse;
    hide LaterInv;
    hide LaterStep;
    hide CollisionFree;
    hide PoolFor;
    hide AdoptionOf;
    var t, V := LaterStep(K, envOf, s, now), PoolFor(s, now);
    var first, tip := s.refused[0], V.held[OfferOf(s, now).value];
    OutcomeRemembered(K, W, envOf, s, now);
    forall h { RefusedAfter(s.refused, tip.block.hash, h); }
    var before := Pending(s.(held := V.held));
    assert tip in V.held;
    assert tip.block.hash in before && first in Pending(t) && first !in before;
    assert Pending(t) == before - {tip.block.hash} + {first};
  }

  /** Tips that this clock would let the node offer if none were refused. */
  ghost predicate Ripe(V: Pool, i: nat) { Eligible(V.(refused := []), i) }

  ghost function RipeTips(s: Later, now: nat): set<Hash> {
    var V := PoolFor(s, now);
    set i | 0 <= i < |V.held| && Ripe(V, i) :: V.held[i].block.hash
  }

  /** Pools that differ at most in the refused tips and in headers off the canonical chain. */
  ghost predicate SamePool(V: Pool, Y: Pool) {
    && V.held == Y.held && V.canonical == Y.canonical && V.localHeight == Y.localHeight && V.now == Y.now
    && (forall h :: h in V.canonical ==> (h in V.headers <==> h in Y.headers))
    && (forall h :: h in V.canonical && h in V.headers ==> V.headers[h] == Y.headers[h])
  }

  lemma SameRoot(V: Pool, Y: Pool, b: Block)
    requires SamePool(V, Y)
    ensures RootOk(V, b) == RootOk(Y, b) && V.held == Y.held && V.canonical == Y.canonical
  {
  }

  lemma {:induction false} SameWithin(V: Pool, Y: Pool, i: nat, steps: nat)
    requires SamePool(V, Y) && i < |V.held|
    ensures BranchWithin(V, i, steps) == BranchWithin(Y, i, steps)
    decreases steps
  {
    hide At;
    hide RootOk;
    hide SamePool;
    SameRoot(V, Y, V.held[i].block);
    var prev := V.held[i].block.prev;
    var at := At(V.held, |V.held|, prev);
    if prev != ZERO && prev !in V.canonical && at.Some? && steps > 0 { SameWithin(V, Y, at.value, steps - 1); }
  }

  lemma {:induction false} SameAhead(V: Pool, Y: Pool, p: seq<nat>)
    requires SamePool(V, Y) && forall k :: 0 <= k < |p| ==> p[k] < |V.held|
    ensures Ahead(V, p) == Ahead(Y, p)
  {
    if p != [] { SameAhead(V, Y, p[1..]); }
  }

  lemma SameRipe(V: Pool, Y: Pool, i: nat)
    requires SamePool(V, Y)
    ensures Ripe(V, i) == Ripe(Y, i)
  {
    hide BranchWithin;
    hide Ahead;
    hide SamePool;
    if i < |V.held| && i < |Y.held| {
      var V0, Y0 := V.(refused := []), Y.(refused := []);
      assert SamePool(V0, Y0) by { SameUnrefused(V, Y); }
      SameWithin(V0, Y0, i, |V.held|);
      assert V0.held == Y0.held by { SameUnrefused(V, Y); }
      SameAhead(V0, Y0, Branch(V0, i));
    }
    SameUnrefused(V, Y);
  }

  lemma SameUnrefused(V: Pool, Y: Pool)
    requires SamePool(V, Y)
    ensures SamePool(V.(refused := []), Y.(refused := [])) && V.held == Y.held && V.localHeight == Y.localHeight
  {
  }

  /** Eligible means ripe and not refused. */
  lemma RipeIs(V: Pool, i: nat)
    ensures Eligible(V, i) <==> Ripe(V, i) && V.held[i].block.hash !in V.refused
  {
    hide BranchWithin;
    hide Ahead;
    if i < |V.held| {
      var Y := V.(refused := []);
      SameWithin(V, Y, i, |V.held|);
      SameAhead(V, Y, Branch(V, i));
    }
  }

  /** A call offers a ripe tip that is not refused, as soon as there is one. */
  lemma OffersIff(s: Later, now: nat)
    ensures OfferOf(s, now).Some? <==> exists h :: h in RipeTips(s, now) && h !in s.refused
    ensures OfferOf(s, now).Some? ==> PoolFor(s, now).held[OfferOf(s, now).value].block.hash in RipeTips(s, now)
  {
    hide Eligible;
    hide Ripe;
    var V := PoolFor(s, now);
    hide PoolFor;
    assert V.refused == s.refused by { RefusedOf(s, now); }
    BestTipMeans(V, |V.held|);
    forall i: nat { RipeIs(V, i); }
    if h :| h in RipeTips(s, now) && h !in s.refused {
      var i :| 0 <= i < |V.held| && Ripe(V, i) && V.held[i].block.hash == h;
      assert Eligible(V, i);
    }
    if OfferOf(s, now).Some? { assert Eligible(V, OfferOf(s, now).value); }
  }

  lemma RefusedOf(s: Later, now: nat)
    ensures PoolFor(s, now).refused == s.refused
  {
  }

  /** The call makes no offer, or one that fails. */
  ghost predicate Fails(K: Oracle, s: Later, call: Call) {
    OfferOf(s, call.now).Some? && Offered(s, call.now) != [] ==> AdoptionOf(K, call.envOf, s, call.now).Kept?
  }

  /** Same active chain, and held blocks the same but for canonical ones: nothing the choice looks at moved. */
  ghost predicate Unmoved(s: Later, t: Later) {
    && ActiveChain(t.node) == ActiveChain(s.node) && LocalHeight(t.node) == LocalHeight(s.node)
    && Without(t.held, Hashes(ActiveChain(s.node))) == Without(s.held, Hashes(ActiveChain(s.node)))
  }

  lemma {:induction false} WithoutTwice(held: seq<Held>, gone: set<Hash>)
    ensures Without(Without(held, gone), gone) == Without(held, gone)
  {
    if held != [] { WithoutTwice(held[..|held| - 1], gone); }
  }

  lemma ActiveStays(K: Oracle, W: World, n: NodeState, m: NodeState)
    requires NodeInv(K, W, n, ActiveChain(n)) && SamePlace(n, m) && Appended(n, m)
    ensures ActiveChain(m) == ActiveChain(n)
  {
    hide NodeInv;
    hide ChainAt;
    hide NotStored;
    hide GoodChain;
    hide Placed;
    hide Replay;
    HadTip(K, W, n, ActiveChain(n));
    if n.heights != [] {
      TipStored(K, W, n, ActiveChain(n));
      var more := m.store[|n.store|..];
      assert m.store == n.store + more;
      ChainStays(n.store, more, n.bestHash);
    }
  }

  lemma FailedUnmoved(K: Oracle, W: World, s: Later, call: Call)
    requires CollisionFree(K.sha, W.corpus) && LaterInv(K, W, s) && Fails(K, s, call)
    ensures Unmoved(s, LaterStep(K, call.envOf, s, call.now))
  {
    hide NodeInv;
    hide MayStore;
    hide DistinctHeld;
    hide CollisionFree;
    hide ActiveChain;
    hide Adopt;
    hide BestTip;
    hide Offered;
    hide Without;
    hide Hashes;
    WithoutTwice(s.held, Hashes(ActiveChain(s.node)));
    if OfferOf(s, call.now).Some? {
      OfferNotEmpty(s, call.now);
      NeverLost(K, W, call.envOf, s, call.now);
      ActiveStays(K, W, s.node, AdoptionOf(K, call.envOf, s, call.now).node);
    }
  }

  lemma ActiveHeader(K: Oracle, W: World, n: NodeState, h: Hash) returns (b: Block)
    requires NodeInv(K, W, n, ActiveChain(n)) && h in Hashes(ActiveChain(n))
    ensures h in n.headers && n.headers[h] == HeaderOf(b) && b in ActiveChain(n) && b.hash == h
  {
    hide NodeInv;
    hide ActiveChain;
    var k := InHashes(ActiveChain(n), h);
    ChainFacts(K, W, n, ActiveChain(n), k);
    b := ActiveChain(n)[k];
  }

  lemma OneHeader(K: Oracle, W: World, n: NodeState, b: Block)
    requires NodeInv(K, W, n, ActiveChain(n)) && b in ActiveChain(n)
    ensures b.hash in n.headers && n.headers[b.hash] == HeaderOf(b)
  {
    hide NodeInv;
    hide ActiveChain;
    var k :| 0 <= k < |ActiveChain(n)| && ActiveChain(n)[k] == b;
    ChainFacts(K, W, n, ActiveChain(n), k);
  }

  /** So the same tips are ripe, at any clock. */
  lemma UnmovedRipe(K: Oracle, W: World, s: Later, t: Later, now: nat)
    requires LaterInv(K, W, s) && LaterInv(K, W, t) && Unmoved(s, t)
    ensures RipeTips(t, now) == RipeTips(s, now)
  {
    hide NodeInv;
    hide MayStore;
    hide DistinctHeld;
    hide ActiveChain;
    hide Ripe;
    hide Hashes;
    hide Without;
    hide LocalHeight;
    var V, Y := PoolFor(s, now), PoolFor(t, now);
    forall h | h in V.canonical ensures h in V.headers && h in Y.headers && V.headers[h] == Y.headers[h] {
      var b := ActiveHeader(K, W, s.node, h);
      OneHeader(K, W, t.node, b);
    }
    forall i: nat { SameRipe(V, Y, i); }
  }

  // ---- Exactly when failing offers end ----

  /** Each of the first `k` calls fails or offers nothing, and the ripe tips, in the state to begin with, are `ripe`. */
  ghost predicate AllFail(K: Oracle, s: Later, calls: seq<Call>, k: nat, ripe: set<Hash>)
    requires k <= |calls|
  {
    forall j :: 0 <= j < k ==> Fails(K, Calls(K, s, calls, j), calls[j]) && RipeTips(s, calls[j].now) == ripe
  }

  lemma UnmovedTwice(s: Later, t: Later, r: Later)
    requires Unmoved(s, t) && Unmoved(t, r)
    ensures Unmoved(s, r)
  {
    hide ActiveChain;
    hide Without;
    hide Hashes;
    hide LocalHeight;
  }

  lemma FewerFail(K: Oracle, s: Later, calls: seq<Call>, k: nat, ripe: set<Hash>)
    requires k < |calls| && AllFail(K, s, calls, k + 1, ripe)
    ensures AllFail(K, s, calls, k, ripe)
    ensures Fails(K, Calls(K, s, calls, k), calls[k]) && RipeTips(s, calls[k].now) == ripe
  {
    hide Calls;
    hide Fails;
    hide RipeTips;
  }

  /** Failing calls move nothing the choice looks at. */
  lemma {:induction false} AllUnmoved(K: Oracle, W: World, s: Later, calls: seq<Call>, k: nat, ripe: set<Hash>)
    requires CollisionFree(K.sha, W.corpus) && LaterInv(K, W, s) && k <= |calls| && CallsAgree(K, W, s, calls, k)
    requires AllFail(K, s, calls, k, ripe)
    ensures LaterInv(K, W, Calls(K, s, calls, k)) && Unmoved(s, Calls(K, s, calls, k))
  {
    hide LaterInv;
    hide LaterStep;
    hide CallsAgree;
    hide AllFail;
    hide CollisionFree;
    hide Fails;
    hide Unmoved;
    CallsKeep(K, W, s, calls, k);
    if k == 0 {
      StaysUnmoved(s);
    } else {
      FewerAgree(K, W, s, calls, k - 1);
      FewerFail(K, s, calls, k - 1, ripe);
      AllUnmoved(K, W, s, calls, k - 1, ripe);
      FailedUnmoved(K, W, Calls(K, s, calls, k - 1), calls[k - 1]);
      UnmovedTwice(s, Calls(K, s, calls, k - 1), Calls(K, s, calls, k));
    }
  }

  lemma StaysUnmoved(s: Later)
    ensures Unmoved(s, s)
  {
  }

  /** What a failing call does to the refused list. */
  lemma FailRefuses(K: Oracle, W: World, s: Later, call: Call)
    requires CollisionFree(K.sha, W.corpus) && LaterInv(K, W, s) && Fails(K, s, call)
    ensures var t := LaterStep(K, call.envOf, s, call.now);
            if (exists h :: h in RipeTips(s, call.now) && h !in s.refused)
            then exists h :: h in RipeTips(s, call.now) && h !in s.refused && t.refused == Refuse(s.refused, h)
            else t.refused == s.refused
  {
    hide LaterInv;
    hide CollisionFree;
    hide RipeTips;
    hide Refuse;
    hide AdoptionOf;
    hide LaterStep;
    hide PoolFor;
    hide BestTip;
    hide Offered;
    OffersIff(s, call.now);
    if OfferOf(s, call.now).None? {
      NothingOffered(K, call.envOf, s, call.now);
    } else {
      OfferNotEmpty(s, call.now);
      OutcomeRemembered(K, W, call.envOf, s, call.now);
    }
  }

  /** The last `m` refused tips are ripe and pairwise distinct. */
  ghost predicate Tail(refused: seq<Hash>, m: nat, ripe: set<Hash>) {
    && m <= |refused| && Distinct(refused[|refused| - m..])
    && (forall i :: |refused| - m <= i < |refused| ==> refused[i] in ripe)
  }

  lemma TailGrows(refused: seq<Hash>, m: nat, ripe: set<Hash>, h: Hash)
    requires Tail(refused, m, ripe) && h in ripe && h !in refused && m < MAX_REFUSED
    ensures Tail(Refuse(refused, h), m + 1, ripe)
  {
    var r := Refuse(refused, h);
    assert r[|r| - m - 1..] == refused[|refused| - m..] + [h];
  }

  lemma SetOfDistinct(q: seq<Hash>)
    requires Distinct(q)
    ensures |set h | h in q| == |q|
  {
    if q != [] {
      var front, last := q[..|q| - 1], q[|q| - 1];
      SetOfDistinct(front);
      assert (set h | h in q) == (set h | h in front) + {last};
    }
  }

  /** As many distinct ripe tips refused as there are ripe tips: none is left to offer. */
  lemma TailFull(refused: seq<Hash>, m: nat, ripe: set<Hash>, h: Hash)
    requires Tail(refused, m, ripe) && m >= |ripe| && h in ripe
    ensures h in refused
  {
    var q := refused[|refused| - m..];
    var all := set g | g in q;
    SetOfDistinct(q);
    assert all <= ripe;
    if h !in refused { SmallerSet(all, ripe, h); }
  }

  /** A list shorter than the ripe tips leaves one to offer. */
  lemma {:induction false} RefusedFew(refused: seq<Hash>, ripe: set<Hash>) returns (h: Hash)
    requires |refused| < |ripe|
    ensures h in ripe && h !in refused
  {
    var all := set g | g in refused;
    AtMost(refused);
    if ripe <= all { SubsetSize(ripe, all); }
    h :| h in ripe && h !in all;
  }

  lemma {:induction false} AtMost(q: seq<Hash>)
    ensures |set h | h in q| <= |q|
  {
    if q != [] {
      var front, last := q[..|q| - 1], q[|q| - 1];
      AtMost(front);
      assert (set h | h in q) == (set h | h in front) + {last};
    }
  }

  /** With at most 256 ripe tips a failing offer adds a new one to those refused last. */
  lemma FewRipe(K: Oracle, W: World, t: Later, call: Call, ripe: set<Hash>, m: nat)
    requires CollisionFree(K.sha, W.corpus) && LaterInv(K, W, t) && Fails(K, t, call) && RipeTips(t, call.now) == ripe
    requires Tail(t.refused, m, ripe) && m <= |ripe| <= MAX_REFUSED
    ensures var r, offers := LaterStep(K, call.envOf, t, call.now), if OfferOf(t, call.now).Some? then 1 else 0;
            m + offers <= |ripe| && Tail(r.refused, m + offers, ripe)
  {
    hide LaterInv;
    hide LaterStep;
    hide CollisionFree;
    hide OfferOf;
    hide RipeTips;
    hide Fails;
    hide Tail;
    hide Refuse;
    OffersIff(t, call.now);
    FailRefuses(K, W, t, call);
    if OfferOf(t, call.now).Some? {
      var h :| h in ripe && h !in t.refused && LaterStep(K, call.envOf, t, call.now).refused == Refuse(t.refused, h);
      if m == |ripe| { TailFull(t.refused, m, ripe, h); }
      TailGrows(t.refused, m, ripe, h);
    }
  }

  /** With more there is always one to offer. */
  lemma ManyRipe(t: Later, now: nat)
    requires |t.refused| <= MAX_REFUSED < |RipeTips(t, now)|
    ensures OfferOf(t, now).Some?
  {
    hide OfferOf;
    hide RipeTips;
    OffersIff(t, now);
    var _ := RefusedFew(t.refused, RipeTips(t, now));
  }

  lemma RefusedBounded(K: Oracle, envOf: nat -> Env, t: Later, now: nat)
    requires |t.refused| <= MAX_REFUSED
    ensures |LaterStep(K, envOf, t, now).refused| <= MAX_REFUSED
  {
    hide PoolFor;
    hide BestTip;
    hide Offered;
    hide Adopt;
    hide Unrefuse;
    if OfferOf(t, now).Some? {
      UnrefuseShorter(t.refused, PoolFor(t, now).held[OfferOf(t, now).value].block.hash);
    }
  }

  lemma {:induction false} UnrefuseShorter(refused: seq<Hash>, tip: Hash)
    ensures |Unrefuse(refused, tip)| <= |refused|
  {
    if refused != [] { UnrefuseShorter(refused[..|refused| - 1], tip); }
  }

  lemma {:induction false} CallsRefused(K: Oracle, s: Later, calls: seq<Call>, k: nat)
    requires |s.refused| <= MAX_REFUSED && k <= |calls|
    ensures |Calls(K, s, calls, k).refused| <= MAX_REFUSED
  {
    hide LaterStep;
    if k > 0 {
      CallsRefused(K, s, calls, k - 1);
      RefusedBounded(K, calls[k - 1].envOf, Calls(K, s, calls, k - 1), calls[k - 1].now);
    }
  }

  /** What `made` offers in `k` failing calls leave. */
  ghost predicate Accounted(refused: seq<Hash>, made: nat, k: nat, ripe: set<Hash>) {
    if |ripe| <= MAX_REFUSED then made <= |ripe| && Tail(refused, made, ripe) else made == k
  }

  lemma OneMore(K: Oracle, W: World, t: Later, call: Call, ripe: set<Hash>, made: nat, k: nat)
    requires CollisionFree(K.sha, W.corpus) && LaterInv(K, W, t) && Fails(K, t, call) && RipeTips(t, call.now) == ripe
    requires |t.refused| <= MAX_REFUSED && Accounted(t.refused, made, k, ripe)
    ensures var offers := if OfferOf(t, call.now).Some? then 1 else 0;
            Accounted(LaterStep(K, call.envOf, t, call.now).refused, made + offers, k + 1, ripe)
  {
    hide LaterInv;
    hide LaterStep;
    hide CollisionFree;
    hide OfferOf;
    hide RipeTips;
    hide Fails;
    hide Tail;
    if |ripe| > MAX_REFUSED { ManyRipe(t, call.now); } else { FewRipe(K, W, t, call, ripe, made); }
  }

  lemma {:induction false} FailuresAccounted(K: Oracle, W: World, s: Later, calls: seq<Call>, k: nat, ripe: set<Hash>)
    requires CollisionFree(K.sha, W.corpus) && LaterInv(K, W, s) && k <= |calls| && CallsAgree(K, W, s, calls, k)
    requires |s.refused| <= MAX_REFUSED && AllFail(K, s, calls, k, ripe)
    ensures Accounted(Calls(K, s, calls, k).refused, OffersMade(K, s, calls, k), k, ripe)
  {
    hide LaterInv;
    hide LaterStep;
    hide CallsAgree;
    hide AllFail;
    hide CollisionFree;
    hide OfferOf;
    hide RipeTips;
    hide Fails;
    hide Unmoved;
    hide Accounted;
    hide ActiveChain;
    if k == 0 {
      NoneAccounted(s.refused, ripe);
    } else {
      FewerAgree(K, W, s, calls, k - 1);
      FewerFail(K, s, calls, k - 1, ripe);
      FailuresAccounted(K, W, s, calls, k - 1, ripe);
      AllUnmoved(K, W, s, calls, k - 1, ripe);
      CallsRefused(K, s, calls, k - 1);
      var t, call := Calls(K, s, calls, k - 1), calls[k - 1];
      UnmovedRipe(K, W, s, t, call.now);
      OneMore(K, W, t, call, ripe, OffersMade(K, s, calls, k - 1), k - 1);
    }
  }

  /**
   * Offers that all fail come to an end if and only if at most 256 held tips are ripe. Then there is at most one
   * offer for each, however full the refused list was; otherwise every single call replays a chain in vain.
   */
  lemma FailingOffersEndIff(K: Oracle, W: World, s: Later, calls: seq<Call>, k: nat, ripe: set<Hash>)
    requires CollisionFree(K.sha, W.corpus) && LaterInv(K, W, s) && k <= |calls| && CallsAgree(K, W, s, calls, k)
    requires |s.refused| <= MAX_REFUSED && AllFail(K, s, calls, k, ripe)
    ensures |ripe| <= MAX_REFUSED ==> OffersMade(K, s, calls, k) <= |ripe|
    ensures |ripe| > MAX_REFUSED ==> OffersMade(K, s, calls, k) == k
    ensures ActiveChain(Calls(K, s, calls, k).node) == ActiveChain(s.node)
  {
    hide LaterInv;
    hide CallsAgree;
    hide AllFail;
    hide CollisionFree;
    hide Calls;
    hide OffersMade;
    hide ActiveChain;
    hide Tail;
    hide Without;
    FailuresAccounted(K, W, s, calls, k, ripe);
    AllUnmoved(K, W, s, calls, k, ripe);
  }

  lemma NoneAccounted(refused: seq<Hash>, ripe: set<Hash>)
    ensures Accounted(refused, 0, 0, ripe)
  {
  }

  // ---- When a call reorganises ----

  /**
   * Completeness: a call whose offer is valid block by block on the chain of its ancestor, with a tip not indexed yet,
   * leaves the node on that tip, above the one it had, and the branch is no longer held.
   */
  lemma ValidOfferAdopted(K: Oracle, W: World, envOf: nat -> Env, s: Later, now: nat)
    requires CollisionFree(K.sha, W.corpus) && LaterInv(K, W, s) && OfferOf(s, now).Some? && Offered(s, now) != []
    requires var blocks := Offered(s, now);
             && Adoptable(K, Envs(envOf, |blocks|), s.node, blocks[0].prev, blocks)
             && blocks[|blocks| - 1].hash !in s.node.indexOf
    ensures var t, blocks := LaterStep(K, envOf, s, now), Offered(s, now);
            && t.node.bestHash == blocks[|blocks| - 1].hash == PoolFor(s, now).held[OfferOf(s, now).value].block.hash
            && LocalHeight(s.node) < t.node.bestHeight
            && forall x :: x in t.held ==> x.block.hash !in Hashes(blocks)
  {
    hide NodeInv;
    hide MayStore;
    hide ActiveChain;
    hide CollisionFree;
    hide DistinctHeld;
    hide AllMayStore;
    hide Branch;
    hide Ahead;
    hide Adopt;
    hide Adoptable;
    hide BestTip;
    hide Without;
    hide ChainAt;
    hide StoredForms;
    hide LedgerOn;
    hide Placed;
    hide Hashes;
    var V, i, blocks := PoolFor(s, now), OfferOf(s, now).value, Offered(s, now);
    PoolIsPool(K, W, s, now);
    OfferMayStore(K, W, s, now);
    OfferIsPeerList(V, i);
    AncestorOnChain(K, W, s.node, blocks[0].prev, V.headers[blocks[0].prev].height);
    AdoptIff(K, W, Envs(envOf, |blocks|), s.node, ActiveChain(s.node), blocks[0].prev, blocks);
    WithoutMeans(V.held, Hashes(blocks));
  }

  /** An ancestor on the active chain is stored at its height, and everything below it is indexed. */
  lemma AncestorOnChain(K: Oracle, W: World, n: NodeState, h: Hash, height: nat)
    requires NodeInv(K, W, n, ActiveChain(n)) && h in Hashes(ActiveChain(n))
    requires h in n.headers && n.headers[h].height == height
    ensures !NotStored(n.store, h) && |ChainAt(n.store, h)| == height && Known(n, ChainAt(n.store, h)) == n.indexOf.Keys
  {
    hide NodeInv;
    hide ActiveChain;
    hide ChainAt;
    hide Hashes;
    var c := ActiveChain(n);
    var k := InHashes(c, h);
    ChainFacts(K, W, n, c, k);
    PrefixIsChain(K, W, n, c, k);
    PrefixKnown(K, W, n, c, k + 1);
    ChainAtStored(n.store, h);
  }

  // ---- A branch fed in part is lost ----

  lemma {:induction false} CopyHashes(K: Oracle, store: seq<Block>, blocks: seq<Block>, k: nat)
    requires k <= |blocks|
    ensures Hashes(FirstCopies(K, store, blocks, k)) == HashSet(blocks, k)
  {
    hide FirstCopy;
    hide Stored;
    if k > 0 {
      CopyHashes(K, store, blocks, k - 1);
      CopyHash(store, Stored(K.sha, blocks[k - 1]));
      StoredHash(K.sha, blocks[k - 1]);
      hide Hashes;
      HashesSnoc(FirstCopies(K, store, blocks, k - 1), FirstCopy(store, Stored(K.sha, blocks[k - 1])));
    }
  }

  lemma HashesConcat(c: seq<Block>, a: nat, d: seq<Block>, h: Hash)
    requires a <= |c| && h in Hashes(c[..a] + d)
    ensures h in Hashes(c) || h in Hashes(d)
  {
    var e := c[..a] + d;
    var k := InHashes(e, h);
    if k < a { assert e[k] == c[k]; } else { assert e[k] == d[k - a]; }
  }

  /** Hash `h` is indexed and off the active chain. */
  ghost predicate Aside(n: NodeState, h: Hash) { h in n.indexOf && h !in Hashes(ActiveChain(n)) }

  lemma AdoptedLeavesAside(K: Oracle, W: World, envOf: nat -> Env, s: Later, now: nat, h: Hash)
    requires CollisionFree(K.sha, W.corpus) && LaterInv(K, W, s) && CallAgrees(K, W, envOf, s, now)
    requires OfferOf(s, now).Some? && Offered(s, now) != [] && AdoptionOf(K, envOf, s, now).Adopted? && Aside(s.node, h)
    ensures h !in Hashes(ActiveChain(AdoptionOf(K, envOf, s, now).node))
  {
    hide NodeInv;
    hide MayStore;
    hide DistinctHeld;
    hide CollisionFree;
    hide ActiveChain;
    hide Adopt;
    hide AdoptAgrees;
    hide PoolFor;
    hide Hashes;
    hide FirstCopies;
    hide HashSet;
    hide Eligible;
    hide Branch;
    hide AllMayStore;
    var V, c, blocks := PoolFor(s, now), ActiveChain(s.node), Offered(s, now);
    var envs, m := Envs(envOf, |blocks|), AdoptionOf(K, envOf, s, now).node;
    PoolIsPool(K, W, s, now);
    OfferMayStore(K, W, s, now);
    var a := OfferReorganises(K, W, envs, s.node, c, V, OfferOf(s, now).value, blocks);
    var top := FirstCopies(K, s.node.store, blocks, KeptOf(s.node, blocks));
    ActiveIs(K, W, m, c[..a] + top);
    CopyHashes(K, s.node.store, blocks, KeptOf(s.node, blocks));
    if h in Hashes(ActiveChain(m)) { HashesConcat(c, a, top, h); }
  }

  lemma StepLeavesAside(K: Oracle, W: World, envOf: nat -> Env, s: Later, now: nat, h: Hash)
    requires CollisionFree(K.sha, W.corpus) && LaterInv(K, W, s) && CallAgrees(K, W, envOf, s, now) && Aside(s.node, h)
    ensures Aside(LaterStep(K, envOf, s, now).node, h)
  {
    hide NodeInv;
    hide MayStore;
    hide DistinctHeld;
    hide CollisionFree;
    hide ActiveChain;
    hide AdoptionOf;
    hide PoolFor;
    hide Hashes;
    hide CallAgrees;
    hide BestTip;
    hide Offered;
    LaterKeeps(K, W, envOf, s, now);
    if OfferOf(s, now).Some? {
      OfferNotEmpty(s, now);
      NeverLost(K, W, envOf, s, now);
      var r := AdoptionOf(K, envOf, s, now);
      if r.Adopted? { AdoptedLeavesAside(K, W, envOf, s, now, h); } else { ActiveStays(K, W, s.node, r.node); }
    }
  }

  /**
   * A block that was stored and indexed on the way to a failed adoption, and is off the active chain, never
   * becomes active again by any number of calls: such a branch is lost until a restart or a replay.
   */
  lemma {:induction false} AsideForever(K: Oracle, W: World, s: Later, calls: seq<Call>, k: nat, h: Hash)
    requires CollisionFree(K.sha, W.corpus) && LaterInv(K, W, s) && k <= |calls| && CallsAgree(K, W, s, calls, k)
    requires Aside(s.node, h)
    ensures Aside(Calls(K, s, calls, k).node, h)
  {
    hide LaterInv;
    hide LaterStep;
    hide CallAgrees;
    hide CollisionFree;
    hide Aside;
    if k > 0 {
      AsideForever(K, W, s, calls, k - 1, h);
      CallsKeep(K, W, s, calls, k - 1);
      StepLeavesAside(K, W, calls[k - 1].envOf, Calls(K, s, calls, k - 1), calls[k - 1].now, h);
    }
  }
}
