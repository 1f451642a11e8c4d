/**
 * `adoptLaterPeerChain` as one step: collect the canonical hashes, drop held blocks that became
 * canonical, choose a branch, offer it, and remember the outcome in `heldBlocks_` and `refusedTips_`.
 */
module LaterPeers {
  import opened Types
  import opened Ledger
  import opened Freshness
  import opened Chain
  import opened Node
  import opened NodeInvariant
  import opened NodeReplay
  import opened NodeAdopt
  import opened NodeRuns
  import opened NodeStorage
  import opened HeldBranches

  /** The node, the held blocks and the refused tips, oldest first. */
  datatype Later = Later(node: NodeState, held: seq<Held>, refused: seq<Hash>)

  const MAX_REFUSED: nat := 256

  /** Adding a refused tip: once, at the end, and the oldest goes when the list is full. */
  function Refuse(refused: seq<Hash>, tip: Hash): seq<Hash> {
    if tip in refused then refused
    else (if |refused| >= MAX_REFUSED then refused[1..] else refused) + [tip]
  }

  function Unrefuse(refused: seq<Hash>, tip: Hash): seq<Hash> {
    if refused == [] then [] else
    var front, last := Unrefuse(refused[..|refused| - 1], tip), refused[|refused| - 1];
    if last == tip then front else front + [last]
  }

  /** Releasing a tip takes it out of the list, wherever it stands, and nothing else. */
  lemma {:induction false} UnrefuseMeans(refused: seq<Hash>, tip: Hash, h: Hash)
    ensures h in Unrefuse(refused, tip) <==> h in refused && h != tip
  {
    if refused != [] {
      UnrefuseMeans(refused[..|refused| - 1], tip, h);
      assert refused == refused[..|refused| - 1] + [refused[|refused| - 1]];
    }
  }

  ghost function PoolFor(s: Later, now: nat): Pool {
    var canonical := Hashes(ActiveChain(s.node));
    Pool(Without(s.held, canonical), canonical, s.node.headers, LocalHeight(s.node), s.refused, now)
  }

  /** The tip this call would offer. */
  ghost function OfferOf(s: Later, now: nat): (r: Option<nat>)
    ensures r.Some? ==> r.value < |PoolFor(s, now).held| && Eligible(PoolFor(s, now), r.value)
  {
    BestTip(PoolFor(s, now), |PoolFor(s, now).held|)
  }

  function Envs(envOf: nat -> Env, n: nat): (r: seq<Env>)
    ensures |r| == n
  {
    if n == 0 then [] else Envs(envOf, n - 1) + [envOf(n - 1)]
  }

  ghost function Offered(s: Later, now: nat): seq<Block>
    requires OfferOf(s, now).Some?
  {
    BlocksOf(PoolFor(s, now), Branch(PoolFor(s, now), OfferOf(s, now).value))
  }

  /** The adoption this call asks for. */
  ghost function AdoptionOf(K: Oracle, envOf: nat -> Env, s: Later, now: nat): Adoption
    requires OfferOf(s, now).Some? && Offered(s, now) != []
  {
    var blocks := Offered(s, now);
    Adopt(K, Envs(envOf, |blocks|), s.node, blocks[0].prev, blocks)
  }

  lemma OfferNotEmpty(s: Later, now: nat)
    requires OfferOf(s, now).Some?
    ensures Offered(s, now) != []
  {
    hide PoolFor;
    hide Branch;
    hide Ahead;
  }

  /** One call. The blocks of an adopted branch are no longer held; the tip of a failed one is refused. */
  ghost function LaterStep(K: Oracle, envOf: nat -> Env, s: Later, now: nat): Later {
    var V := PoolFor(s, now);
    match OfferOf(s, now)
    case None => s.(held := V.held)
    case Some(i) =>
      OfferNotEmpty(s, now);
      var tip := V.held[i].block;
      match AdoptionOf(K, envOf, s, now)
      case Adopted(m) => Later(m, Without(V.held, Hashes(Offered(s, now))), Unrefuse(s.refused, tip.hash))
      case Kept(m) => Later(m, V.held, if tip.height > LocalHeight(m) then Refuse(s.refused, tip.hash) else s.refused)
      case Lost => s
  }

  // ---- What every call keeps ----

  ghost predicate LaterInv(K: Oracle, W: World, s: Later) {
    && NodeInv(K, W, s.node, ActiveChain(s.node))
    && DistinctHeld(s.held) && (forall x :: x in s.held ==> MayStore(K, W, x.block))
  }

  lemma PoolIsPool(K: Oracle, W: World, s: Later, now: nat)
    requires LaterInv(K, W, s)
    ensures PoolOf(PoolFor(s, now), s.node, ActiveChain(s.node))
    ensures forall x :: x in PoolFor(s, now).held ==> x in s.held
  {
    hide NodeInv;
    hide MayStore;
    hide ActiveChain;
    hide Hashes;
    var V := PoolFor(s, now);
    WithoutMeans(s.held, V.canonical);
    forall k | 0 <= k < |V.held| ensures V.held[k].block.hash !in V.canonical { assert V.held[k] in V.held; }
  }

  lemma OfferMayStore(K: Oracle, W: World, s: Later, now: nat)
    requires LaterInv(K, W, s) && OfferOf(s, now).Some?
    ensures AllMayStore(K, W, Offered(s, now))
  {
    hide NodeInv;
    hide MayStore;
    hide PoolFor;
    hide Branch;
    PoolIsPool(K, W, s, now);
    var V, p := PoolFor(s, now), Branch(PoolFor(s, now), OfferOf(s, now).value);
    forall k | 0 <= k < |p| ensures MayStore(K, W, V.held[p[k]].block) { assert V.held[p[k]] in V.held; }
  }

  /** The adoption of this call as a step of the node. */
  ghost function StepOf(envOf: nat -> Env, s: Later, now: nat): (r: Step)
    requires OfferOf(s, now).Some? && Offered(s, now) != []
    ensures Sized(r) && r.AdoptStep?
  {
    var blocks := Offered(s, now);
    AdoptStep(Envs(envOf, |blocks|), blocks[0].prev, blocks)
  }

  /** Every block accepted in this call does what the copy of it stored first does. */
  ghost predicate CallAgrees(K: Oracle, W: World, envOf: nat -> Env, s: Later, now: nat) {
    OfferOf(s, now).Some? && Offered(s, now) != [] ==> StepAgrees(K, W, s.node, StepOf(envOf, s, now))
  }

  lemma HeldLater(K: Oracle, W: World, s: Later, now: nat, gone: set<Hash>)
    requires LaterInv(K, W, s)
    ensures var held := Without(PoolFor(s, now).held, gone);
            DistinctHeld(held) && forall x :: x in held ==> MayStore(K, W, x.block)
  {
    hide NodeInv;
    hide MayStore;
    hide ActiveChain;
    hide Hashes;
    PoolIsPool(K, W, s, now);
    WithoutMeans(PoolFor(s, now).held, gone);
  }

  /**
   * Every call keeps the node invariant and the held blocks apart, never lowers the tip, and only ever
   * appends to store and index.
   */
  lemma LaterKeeps(K: Oracle, W: World, envOf: nat -> Env, s: Later, now: nat)
    requires CollisionFree(K.sha, W.corpus) && LaterInv(K, W, s) && CallAgrees(K, W, envOf, s, now)
    ensures LaterInv(K, W, LaterStep(K, envOf, s, now))
    ensures LocalHeight(s.node) <= LocalHeight(LaterStep(K, envOf, s, now).node)
    ensures Appended(s.node, LaterStep(K, envOf, s, now).node)
  {
    hide NodeInv;
    hide MayStore;
    hide ActiveChain;
    hide PoolFor;
    hide Adopt;
    hide AdoptAgrees;
    hide CollisionFree;
    hide DistinctHeld;
    hide AllMayStore;
    hide Offered;
    hide LocalHeight;
    PoolIsPool(K, W, s, now);
    if OfferOf(s, now).Some? {
      hide Appended;
      OfferNotEmpty(s, now);
      OfferMayStore(K, W, s, now);
      var blocks := Offered(s, now);
      HeldLater(K, W, s, now, Hashes(blocks));
      var d := AdoptKeeps(K, W, Envs(envOf, |blocks|), s.node, ActiveChain(s.node), blocks[0].prev, blocks);
      var m := AdoptionOf(K, envOf, s, now).node;
      ActiveIs(K, W, m, d);
      HadTip(K, W, s.node, ActiveChain(s.node));
      HadTip(K, W, m, d);
    }
  }

  /** No call loses the node. */
  lemma NeverLost(K: Oracle, W: World, envOf: nat -> Env, s: Later, now: nat)
    requires CollisionFree(K.sha, W.corpus) && LaterInv(K, W, s) && OfferOf(s, now).Some? && Offered(s, now) != []
    ensures !AdoptionOf(K, envOf, s, now).Lost?
    ensures AdoptionOf(K, envOf, s, now).Kept? ==>
              var m := AdoptionOf(K, envOf, s, now).node; SamePlace(s.node, m) && Appended(s.node, m)
  {
    hide NodeInv;
    hide MayStore;
    hide ActiveChain;
    hide PoolFor;
    hide Adopt;
    hide CollisionFree;
    hide DistinctHeld;
    hide Offered;
    hide OfferOf;
    hide Appended;
    var blocks := Offered(s, now);
    AdoptNothing(K, W, Envs(envOf, |blocks|), s.node, ActiveChain(s.node), blocks[0].prev, blocks);
  }

  /** A failed offer always puts its tip on the refused list; a successful one always releases it. */
  lemma OutcomeRemembered(K: Oracle, W: World, envOf: nat -> Env, s: Later, now: nat)
    requires CollisionFree(K.sha, W.corpus) && LaterInv(K, W, s) && OfferOf(s, now).Some? && Offered(s, now) != []
    ensures var t, V := LaterStep(K, envOf, s, now), PoolFor(s, now);
            var tip := V.held[OfferOf(s, now).value].block.hash;
            && tip !in s.refused
            && (AdoptionOf(K, envOf, s, now).Kept? ==> t.held == V.held && t.refused == Refuse(s.refused, tip))
            && (!AdoptionOf(K, envOf, s, now).Kept? ==>
                  t.held == Without(V.held, Hashes(Offered(s, now))) && t.refused == s.refused
                      && tip in Hashes(Offered(s, now)))
  {
    hide NodeInv;
    hide MayStore;
    hide ActiveChain;
    hide Adopt;
    hide CollisionFree;
    hide Branch;
    hide Ahead;
    hide SamePlace;
    hide Without;
    hide Appended;
    var V, i, blocks := PoolFor(s, now), OfferOf(s, now).value, Offered(s, now);
    PoolIsPool(K, W, s, now);
    NeverLost(K, W, envOf, s, now);
    NotThere(s.refused, V.held[i].block.hash);
    OfferIsPeerList(V, i);
    assert blocks[|blocks| - 1].hash in Hashes(blocks);
    if AdoptionOf(K, envOf, s, now).Kept? { SameHeight(s.node, AdoptionOf(K, envOf, s, now).node); }
  }

  lemma SameHeight(n: NodeState, m: NodeState)
    requires SamePlace(n, m)
    ensures LocalHeight(n) == LocalHeight(m)
  {
  }

  lemma {:induction false} NotThere(refused: seq<Hash>, tip: Hash)
    requires tip !in refused
    ensures Unrefuse(refused, tip) == refused
  {
    if refused != [] { NotThere(refused[..|refused| - 1], tip); }
  }

  // ---- The source's own form ----

  lemma WithoutNothing(held: seq<Held>)
    ensures Without(held, {}) == held
  {
    if held != [] { WithoutNothing(held[..|held| - 1]); }
  }

  method CollectBlocks(V: Pool, p: seq<nat>) returns (blocks: seq<Block>, hashes: set<Hash>)
    requires forall k :: 0 <= k < |p| ==> p[k] < |V.held|
    ensures blocks == BlocksOf(V, p) && hashes == Hashes(blocks)
  {
    blocks, hashes := [], {};
    for k := 0 to |p|
      invariant blocks == BlocksOf(V, p)[..k] && hashes == Hashes(blocks)
    {
      HashesSnoc(blocks, V.held[p[k]].block);
      blocks := blocks + [V.held[p[k]].block];
      hashes := hashes + {V.held[p[k]].block.hash};
    }
  }

  method Environments(envOf: nat -> Env, n: nat) returns (envs: seq<Env>)
    ensures envs == Envs(envOf, n)
  {
    envs := [];
    for k := 0 to n
      invariant envs == Envs(envOf, k)
    {
      envs := envs + [envOf(k)];
    }
  }

  /** `refusedTips_` after a failed offer. */
  method AddRefused(refused: seq<Hash>, tip: Hash) returns (r: seq<Hash>)
    ensures r == Refuse(refused, tip)
  {
    for k := 0 to |refused|
      invariant tip !in refused[..k]
    {
      if refused[k] == tip {
        return refused;
      }
    }
    assert refused[..|refused|] == refused;
    r := refused;
    if |r| >= MAX_REFUSED {
      r := r[1..];
    }
    r := r + [tip];
  }

  /** `refusedTips_` after a successful one. */
  method RemoveRefused(refused: seq<Hash>, tip: Hash) returns (r: seq<Hash>)
    ensures r == Unrefuse(refused, tip)
  {
    r := [];
    for k := 0 to |refused|
      invariant r == Unrefuse(refused[..k], tip)
    {
      assert refused[..k + 1][..k] == refused[..k];
      if refused[k] != tip {
        r := r + [refused[k]];
      }
    }
    assert refused[..|refused|] == refused;
  }

  class Server {
    const storage: Storage
    var heldBlocks: seq<Held>
    var refusedTips: seq<Hash>

    ghost function View(): Later
      reads this, storage
    {
      Later(storage.View(), heldBlocks, refusedTips)
    }

    constructor (storage: Storage)
      ensures this.storage == storage && heldBlocks == [] && refusedTips == []
    {
      this.storage := storage;
      heldBlocks, refusedTips := [], [];
    }

    /** The pool the choice looks at; held blocks that became canonical are dropped on the way. */
    method BuildPool(K: Oracle, ghost W: World, now: nat) returns (V: Pool)
      requires LaterInv(K, W, View())
      modifies this`heldBlocks
      ensures V == PoolFor(old(View()), now) && heldBlocks == V.held && DistinctHeld(V.held)
    {
      hide NodeInv;
      hide ActiveChain;
      hide MayStore;
      ghost var s := View();
      var n := NodeState(storage.store, storage.indexOf, storage.headers, storage.heights, storage.bestHash,
                         storage.bestHeight, State(storage.utxo, storage.flags));
      var canonical := CollectCanonical(n, K, W, ActiveChain(n));
      WithoutNothing(heldBlocks);
      if canonical != {} {
        heldBlocks := RemoveHeld(heldBlocks, canonical);
      }
      PoolIsPool(K, W, s, now);
      V := Pool(heldBlocks, canonical, n.headers, if n.heights == [] then 0 else n.bestHeight, refusedTips, now);
    }

    /** `adoptLaterPeerChain`. */
    method AdoptLater(K: Oracle, ghost W: World, envOf: nat -> Env, now: nat)
      requires CollisionFree(K.sha, W.corpus) && LaterInv(K, W, View())
      modifies this, storage
      ensures View() == LaterStep(K, envOf, old(View()), now)
    {
      hide LaterInv;
      hide CollisionFree;
      hide PoolFor;
      hide Adopt;
      hide BestTip;
      hide Branch;
      ghost var s := View();
      if OfferOf(s, now).Some? && Offered(s, now) != [] { NeverLost(K, W, envOf, s, now); }
      var V := BuildPool(K, W, now);
      var choice := ChooseBranch(V);
      if choice.None? {
        return;
      }
      var i, p := choice.value.0, choice.value.1;
      var blocks, hashes := CollectBlocks(V, p);
      assert blocks == Offered(s, now);
      var envs := Environments(envOf, |blocks|);
      var ok := storage.AdoptPeerChain(K, envs, blocks[0].prev, blocks);
      if !ok {
        var after := if storage.heights == [] then 0 else storage.bestHeight;
        if V.held[i].block.height > after {
          refusedTips := AddRefused(refusedTips, V.held[i].block.hash);
        }
        return;
      }
      heldBlocks := RemoveHeld(heldBlocks, hashes);
      refusedTips := RemoveRefused(refusedTips, V.held[i].block.hash);
    }
  }
}
