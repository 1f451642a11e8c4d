/** Submission, replay of a stored chain and restart keep the node invariant. */
module NodeReplay {
  import opened Types
  import opened Ledger
  import opened Freshness
  import opened Shape
  import opened Chain
  import opened ForkChoice
  import opened Node
  import opened NodeInvariant

  // ---- rpc_submitblock ----

  /** The active chain after a submission. */
  ghost function ChainAfter(K: Oracle, env: Env, n: NodeState, c: seq<Block>, b: Block): seq<Block> {
    if SubmitOutcome(K, env, n, b) == Accepted then c + [FirstCopy(n.store, Stored(K.sha, b))] else c
  }

  lemma PassingHeight(K: Oracle, W: World, env: Env, n: NodeState, c: seq<Block>, b: Block)
    requires NodeInv(K, W, n, c) && SubmitRefusal(K, env, n, b).None?
    ensures b.height == |c| + 1 && b.prev == TipHash(c)
  {
    hide ChainAt;
    hide StoreGood;
    hide GoodChain;
    hide Indexed;
    hide Listed;
    hide Replay;
    hide NextDifficulty;
    hide BodyRefusal;
    hide SealRefusal;
  }

  /** What an accepted block leaves, in terms of its stored form. */
  lemma AcceptedConnects(K: Oracle, W: World, env: Env, n: NodeState, c: seq<Block>, b: Block)
    requires NodeInv(K, W, n, c) && MayStore(K, W, b) && SubmitOutcome(K, env, n, b) == Accepted
    ensures var y := Stored(K.sha, b);
            && Link(K, W, c, y) && BodyOk(K, n.ledger, y) && y.hash == b.hash && y.hash !in n.indexOf
            && StageBlock(K.sha, n.ledger, y).Some? && Submit(K, env, n, b) == AfterConnect(K, n, y)
  {
    hide NodeInv;
    hide SubmitRefusal;
    hide Link;
    hide BodyOk;
    hide StageBlock;
    hide SettleBlock;
    hide Connect;
    hide Stored;
    hide InCorpus;
    PassingHeight(K, W, env, n, c, b);
    PassingIsLink(K, W, env, n, c, b);
    ConnectIsStored(K, n, b, StageBlock(K.sha, n.ledger, b).value);
    StoredHash(K.sha, b);
  }

  /**
   * `rpc_submitblock` keeps the invariant: an accepted block becomes the tip with the UTXO set and flags
   * that replaying the longer stored chain gives; anything else changes nothing.
   */
  lemma SubmitKeeps(K: Oracle, W: World, env: Env, n: NodeState, c: seq<Block>, b: Block)
    requires CollisionFree(K.sha, W.corpus) && NodeInv(K, W, n, c) && MayStore(K, W, b) && Agrees(K, W, env, n, b)
    ensures NodeInv(K, W, Submit(K, env, n, b), ChainAfter(K, env, n, c, b))
  {
    hide NodeInv;
    hide SubmitRefusal;
    hide Link;
    hide BodyOk;
    hide StageBlock;
    hide AfterConnect;
    hide Connect;
    hide Stored;
    hide MayStore;
    hide FirstCopy;
    hide SameEffect;
    if SubmitOutcome(K, env, n, b) == Accepted {
      AcceptedConnects(K, W, env, n, c, b);
      ConnectKeeps(K, W, n, c, Stored(K.sha, b));
    }
  }

  /**
   * Exactly when: for an accepted block with the header, ids and committed fields of its first stored copy,
   * the invariant holds afterwards, for the one chain it can hold for, if and only if the coinbase outputs
   * the block leaves unspent are those of that copy. The ledger has the shape of the replayed one anyway.
   */
  lemma SubmitKeepsIff(K: Oracle, W: World, env: Env, n: NodeState, c: seq<Block>, b: Block, e: seq<Block>)
    requires W.exact && CollisionFree(K.sha, W.corpus) && NodeInv(K, W, n, c) && MayStore(K, W, b)
    requires SubmitOutcome(K, env, n, b) == Accepted
    requires SameBody(K, FirstCopy(n.store, Stored(K.sha, b)), Stored(K.sha, b))
    ensures var x, m := FirstCopy(n.store, Stored(K.sha, b)), Submit(K, env, n, b);
            && (NodeInv(K, W, m, e) <==> e == c + [x] && SameOutputs(K, x, Stored(K.sha, b)))
            && Replay(c + [x]).Some? && SameShape(Replay(c + [x]).value, m.ledger)
  {
    hide NodeInv;
    hide Link;
    hide BodyOk;
    hide StageBlock;
    hide AfterConnect;
    hide Connect;
    hide SubmitRefusal;
    hide Submit;
    hide Stored;
    hide MayStore;
    hide FirstCopy;
    hide SameBody;
    hide SameOutputs;
    hide SameShape;
    hide CollisionFree;
    hide ChainAt;
    hide Replay;
    var y := Stored(K.sha, b);
    var d := c + [FirstCopy(n.store, y)];
    AcceptedConnects(K, W, env, n, c, b);
    ConnectKeepsIf(K, W, n, c, y);
    ExactFollows(K, W, n, c);
    if NodeInv(K, W, Submit(K, env, n, b), e) { OneActive(K, W, n, y, e, d); }
  }

  lemma ExactFollows(K: Oracle, W: World, n: NodeState, c: seq<Block>)
    requires W.exact && NodeInv(K, W, n, c)
    ensures Replay(c) == Some(n.ledger)
  {
    hide ChainAt;
    hide Replay;
    hide StoreGood;
    hide GoodChain;
  }

  /** The invariant can hold for one chain only. */
  lemma OneActive(K: Oracle, W: World, n: NodeState, y: Block, e: seq<Block>, d: seq<Block>)
    requires StageBlock(K.sha, n.ledger, y).Some? && NodeInv(K, W, AfterConnect(K, n, y), e)
    requires ChainAt(AfterConnect(K, n, y).store, AfterConnect(K, n, y).bestHash) == d
    ensures e == d
  {
    hide ChainAt;
    hide Replay;
    hide StoreGood;
    hide GoodChain;
    hide StageBlock;
    hide SettleBlock;
    hide SetHeight;
    hide HeightsOf;
    hide Indexed;
    hide Listed;
  }

  /** `m` is `n` with blocks appended, each of them indexed, and nothing taken out of the index. */
  ghost predicate Appended(n: NodeState, m: NodeState) {
    && n.store <= m.store && n.indexOf.Keys <= m.indexOf.Keys
    && (forall i :: |n.store| <= i < |m.store| ==> m.store[i].hash in m.indexOf)
  }

  lemma SubmitAppends(K: Oracle, env: Env, n: NodeState, b: Block)
    ensures Appended(n, Submit(K, env, n, b))
  {
    hide SubmitRefusal;
    hide StageBlock;
    hide SettleBlock;
    hide SetHeight;
    hide HeaderOf;
    hide NonZero;
    hide CoinbaseOf;
  }

  lemma AppendedFull(n: NodeState, m: NodeState)
    requires Appended(n, m) && FullIndex(n)
    ensures FullIndex(m)
  {
    forall i | 0 <= i < |m.store| ensures m.store[i].hash in m.indexOf {
      if i < |n.store| { assert m.store[i] == n.store[i]; }
    }
  }

  lemma AppendedTwice(n: NodeState, m: NodeState, r: NodeState)
    requires Appended(n, m) && Appended(m, r)
    ensures Appended(n, r)
  {
    forall i | |n.store| <= i < |r.store| ensures r.store[i].hash in r.indexOf {
      if i < |m.store| { assert r.store[i] == m.store[i]; }
    }
  }

  lemma StillNotStored(n: NodeState, m: NodeState, h: Hash)
    requires Appended(n, m) && NotStored(n.store, h) && h !in m.indexOf
    ensures NotStored(m.store, h)
  {
    forall i | 0 <= i < |m.store| ensures m.store[i].hash != h {
      if i < |n.store| { assert m.store[i] == n.store[i]; }
    }
  }

  lemma NotStoredNoChain(store: seq<Block>, h: Hash)
    requires NotStored(store, h)
    ensures ChainAt(store, h) == []
  {
    hide ChainAt;
    if ChainAt(store, h) != [] { ChainAtStored(store, h); }
  }

  /** Appending leaves the first copy of a block that is not indexed where it was. */
  lemma CopyStays(K: Oracle, W: World, n: NodeState, m: NodeState, b: Block)
    requires StoreGood(K, W, n.store) && Appended(n, m) && b.hash !in m.indexOf
    ensures FirstCopy(m.store, b) == FirstCopy(n.store, b)
  {
    hide ChainAt;
    hide GoodChain;
    hide NotStored;
    hide StoreGood;
    StoredChain(K, W, n.store, b.hash);
    if ChainAt(n.store, b.hash) != [] {
      var more := m.store[|n.store|..];
      assert m.store == n.store + more;
      ChainStays(n.store, more, b.hash);
    } else {
      StillNotStored(n, m, b.hash);
      NotStoredNoChain(m.store, b.hash);
    }
  }

  lemma StoreIsGood(K: Oracle, W: World, n: NodeState, c: seq<Block>)
    requires NodeInv(K, W, n, c)
    ensures StoreGood(K, W, n.store)
  {
    hide StoreGood;
    hide ChainAt;
    hide GoodChain;
    hide Replay;
  }

  // ---- apply_chain ----

  ghost function Hashes(c: seq<Block>): set<Hash> { set k | 0 <= k < |c| :: c[k].hash }

  lemma HashesSnoc(c: seq<Block>, b: Block)
    ensures Hashes(c + [b]) == Hashes(c) + {b.hash}
  {
    var d := c + [b];
    forall k | 0 <= k < |c| ensures c[k].hash in Hashes(d) { assert d[k] == c[k]; }
    assert d[|c|] == b;
  }

  /** Tip, height index and ledger are those of chain `c`, to the last value. */
  ghost predicate Active(n: NodeState, c: seq<Block>) { Placed(n, c) && Replay(c) == Some(n.ledger) }

  /** `m` is `z` after chain `c` was applied to it: same store, `c` active, and its hashes added to the index. */
  ghost predicate Applied(z: NodeState, m: NodeState, c: seq<Block>) {
    && m.store == z.store && Indexed(m) && Listed(m, c) && Active(m, c)
    && m.indexOf.Keys == z.indexOf.Keys + Hashes(c)
  }

  lemma IndexOne(m: NodeState, b: Block, i: nat, s: State)
    requires Indexed(m) && i < |m.store| && m.store[i] == b
    ensures var r := IndexExisting(m, i, b).(ledger := s);
            r.store == m.store && Indexed(r) && r.indexOf.Keys == m.indexOf.Keys + {b.hash}
  {
    hide SetHeight;
    hide HeaderOf;
    KeysUpdate(m.indexOf, b.hash, i);
    KeysUpdate(m.headers, b.hash, HeaderOf(b));
  }

  lemma ListOne(m: NodeState, c: seq<Block>, b: Block, i: nat, s: State)
    requires Listed(m, c) && forall k :: 0 <= k < |c| ==> c[k].hash != b.hash
    ensures Listed(IndexExisting(m, i, b).(ledger := s), c + [b])
  {
    hide SetHeight;
    hide HeaderOf;
  }

  lemma ActivateOne(m: NodeState, c: seq<Block>, b: Block, i: nat, s: State)
    requires Active(m, c) && b.height == |c| + 1 && Replay(c + [b]) == Some(s)
    ensures Active(IndexExisting(m, i, b).(ledger := s), c + [b])
  {
    hide Replay;
    hide HeightsOf;
    hide SetHeight;
    HeightsGrow(c, b);
  }

  lemma ApplyStep(z: NodeState, m: NodeState, c: seq<Block>, b: Block, i: nat, s: State)
    requires Applied(z, m, c) && i < |m.store| && m.store[i] == b
    requires forall k :: 0 <= k < |c| ==> c[k].hash != b.hash
    requires b.height == |c| + 1 && Replay(c + [b]) == Some(s)
    ensures Applied(z, IndexExisting(m, i, b).(ledger := s), c + [b])
  {
    hide Replay;
    hide Active;
    hide Indexed;
    hide Listed;
    hide Hashes;
    hide IndexExisting;
    IndexOne(m, b, i, s);
    ListOne(m, c, b, i, s);
    ActivateOne(m, c, b, i, s);
    HashesSnoc(c, b);
  }

  lemma ChainDistinct(store: seq<Block>, tip: Hash, k: nat)
    requires k < |ChainAt(store, tip)|
    ensures forall j :: 0 <= j < k ==> ChainAt(store, tip)[j].hash != ChainAt(store, tip)[k].hash
  {
    hide ChainTo;
    var f := ChainTo(Found(store), tip);
    ChainSound(Found(store), tip);
    ObjHash(store, tip, k);
    forall j | 0 <= j < k ensures f[j].obj.hash != f[k].obj.hash { ObjHash(store, tip, j); }
  }

  /** Applying a stored good chain to a state without an active chain never fails, and activates exactly that chain. */
  lemma {:induction false} ApplyChainActive(K: Oracle, W: World, z: NodeState, tip: Hash, k: nat)
    requires CollisionFree(K.sha, W.corpus) && Applied(z, z, [])
    requires GoodChain(K, W, ChainAt(z.store, tip)) && k <= |ChainAt(z.store, tip)|
    ensures var r := ApplyChain(z, ChainTo(Found(z.store), tip), k);
            r.Some? && Applied(z, r.value, ChainAt(z.store, tip)[..k])
  {
    hide Replay;
    hide ReplayStored;
    hide ChainTo;
    hide GoodChain;
    hide Found;
    hide IndexExisting;
    hide CollisionFree;
    hide Applied;
    var d := ChainAt(z.store, tip);
    if k == 0 {
      assert d[..0] == [];
    } else {
      ApplyChainActive(K, W, z, tip, k - 1);
      var m := ApplyChain(z, ChainTo(Found(z.store), tip), k - 1).value;
      var i := FoundSits(z.store, tip, k - 1);
      PrefixReplays(K, W, d, k);
      AppliedLedger(z, m, d[..k - 1]);
      ChainDistinct(z.store, tip, k - 1);
      assert d[..k] == d[..k - 1] + [d[k - 1]];
      ApplyStep(z, m, d[..k - 1], d[k - 1], i, Replay(d[..k]).value);
    }
  }

  lemma PrefixReplays(K: Oracle, W: World, d: seq<Block>, k: nat)
    requires CollisionFree(K.sha, W.corpus) && GoodChain(K, W, d) && 0 < k <= |d|
    ensures Replay(d[..k]).Some? && Replay(d[..k - 1]).Some?
    ensures ReplayStored(Replay(d[..k - 1]).value, d[k - 1]) == Replay(d[..k])
  {
    hide ReplayStored;
    hide GoodChain;
    hide CollisionFree;
    GoodPrefix(K, W, d, k);
    GoodChainSound(K, W, d[..k]);
    assert d[..k][..k - 1] == d[..k - 1];
  }

  lemma AppliedLedger(z: NodeState, m: NodeState, c: seq<Block>)
    requires Applied(z, m, c)
    ensures Replay(c) == Some(m.ledger) && m.store == z.store
  {
    hide Replay;
  }

  lemma NothingApplied(n: NodeState)
    requires Indexed(n)
    ensures Applied(Reset(n), Reset(n), []) && Applied(Emptied(n), Emptied(n), [])
  {
    assert Hashes([]) == {};
  }

  /** Block `k` of a found chain carries its own store position. */
  lemma FoundSits(store: seq<Block>, tip: Hash, k: nat) returns (i: nat)
    requires k < |ChainAt(store, tip)|
    ensures var f := ChainTo(Found(store), tip)[k];
            && i < |store| && f.index == i && f.obj == store[i] && store[i] == ChainAt(store, tip)[k]
            && store[i].height == k + 1
  {
    hide LowestOf;
    hide PathTo;
    var f := ChainTo(Found(store), tip);
    ChainSound(Found(store), tip);
    assert Answers(Found(store), f[k]);
    i := Lowest(Found(store), f[k].hash).value;
  }

  lemma AlikeSelf(W: World, s: State)
    ensures Alike(W, s, s)
  {
    ShapeSelf(s);
  }

  /** The invariant of a node on which a stored good chain has been applied. */
  lemma Reactivate(K: Oracle, W: World, z: NodeState, m: NodeState, tip: Hash)
    requires StoreGood(K, W, z.store) && Applied(z, m, ChainAt(z.store, tip)) && ChainAt(z.store, tip) != []
    requires GoodChain(K, W, ChainAt(z.store, tip))
    ensures NodeInv(K, W, m, ChainAt(z.store, tip))
  {
    hide Replay;
    hide GoodChain;
    hide StoreGood;
    hide HeightsOf;
    hide ChainTo;
    hide Alike;
    var _ := ChainSits(z.store, tip);
    AlikeSelf(W, m.ledger);
  }

  // ---- rpc_replay_chain ----

  lemma StoredChain(K: Oracle, W: World, store: seq<Block>, tip: Hash)
    requires StoreGood(K, W, store)
    ensures ChainAt(store, tip) == [] <==> NotStored(store, tip)
    ensures !NotStored(store, tip) ==> GoodChain(K, W, ChainAt(store, tip))
  {
    hide ChainAt;
    hide GoodChain;
    if ChainAt(store, tip) != [] { ChainAtStored(store, tip); }
  }

  /** What replaying to a stored tip leaves. */
  ghost predicate ReplaysTo(K: Oracle, W: World, n: NodeState, m: NodeState, tip: Hash) {
    && m.store == n.store && m.indexOf.Keys == n.indexOf.Keys + Hashes(ChainAt(n.store, tip))
    && ChainAt(n.store, tip) != [] && NodeInv(K, W, m, ChainAt(n.store, tip))
  }

  /** Replaying to the tip of a stored good chain, whatever else is stored. */
  lemma ReplayGood(K: Oracle, W: World, n: NodeState, tip: Hash)
    requires CollisionFree(K.sha, W.corpus) && Indexed(n)
    requires ChainAt(n.store, tip) != [] && GoodChain(K, W, ChainAt(n.store, tip))
    ensures ReplayTo(n, tip).Replayed? && Applied(Reset(n), ReplayTo(n, tip).node, ChainAt(n.store, tip))
  {
    hide Replay;
    hide GoodChain;
    hide ApplyChain;
    hide ChainTo;
    hide Found;
    hide CollisionFree;
    hide Applied;
    hide Indexed;
    var d := ChainAt(n.store, tip);
    NothingApplied(n);
    ApplyChainActive(K, W, Reset(n), tip, |d|);
    assert d[..|d|] == d;
    LastFound(n.store, tip);
  }

  /**
   * `rpc_replay_chain` on any reachable state: it succeeds exactly for the tips that are stored, never
   * breaks off part way, and makes the chain to that tip active with its own replayed ledger.
   */
  lemma ReplayWorks(K: Oracle, W: World, n: NodeState, c: seq<Block>, tip: Hash)
    requires CollisionFree(K.sha, W.corpus) && NodeInv(K, W, n, c)
    ensures NotStored(n.store, tip) ==> ReplayTo(n, tip) == NoChain
    ensures !NotStored(n.store, tip) ==>
              && ReplayTo(n, tip).Replayed? && ReplaysTo(K, W, n, ReplayTo(n, tip).node, tip)
              && Active(ReplayTo(n, tip).node, ChainAt(n.store, tip))
  {
    hide Replay;
    hide GoodChain;
    hide ApplyChain;
    hide HeightsOf;
    hide ChainTo;
    hide Found;
    hide CollisionFree;
    hide StoreGood;
    hide NotStored;
    hide Indexed;
    hide Listed;
    hide Hashes;
    hide Alike;
    StoredChain(K, W, n.store, tip);
    if ChainAt(n.store, tip) != [] {
      ReplayGood(K, W, n, tip);
      Reactivate(K, W, Reset(n), ReplayTo(n, tip).node, tip);
    }
  }

  lemma LastFound(store: seq<Block>, tip: Hash)
    requires ChainTo(Found(store), tip) != []
    ensures ChainTo(Found(store), tip)[|ChainTo(Found(store), tip)| - 1].hash == tip
  {
    hide Found;
    hide PathTo;
    ChainSound(Found(store), tip);
  }

  lemma ReplaysAppend(K: Oracle, W: World, n: NodeState, m: NodeState, tip: Hash)
    requires ReplaysTo(K, W, n, m, tip)
    ensures Appended(n, m)
  {
    hide NodeInv;
    hide ChainAt;
  }

  // ---- restore_chain ----

  /** The chain a restart makes active. */
  ghost function RestoredChain(n: NodeState): seq<Block> { Objs(LongestChain(Found(n.store))) }

  /** It is the stored chain under some stored block, and no stored chain is longer. */
  lemma RestoredIsLongest(n: NodeState, tip: Hash) returns (best: Hash)
    ensures |ChainAt(n.store, tip)| <= |RestoredChain(n)|
    ensures RestoredChain(n) != [] ==> LongestChain(Found(n.store)) == ChainTo(Found(n.store), best)
  {
    hide ChainTo;
    hide LongestChain;
    LongestIsLongest(Found(n.store), tip);
    best := tip;
    if RestoredChain(n) != [] {
      var i :| 0 <= i < |n.store| && LongestChain(Found(n.store)) == ChainTo(Found(n.store), Found(n.store)[i].hash);
      best := Found(n.store)[i].hash;
    }
  }

  /**
   * `restore_chain` after a restart on any reachable store: it never fails, makes a longest stored chain
   * active with its own replayed ledger, and so never comes back below the tip the node had. Only the
   * blocks of that chain are indexed.
   */
  lemma RestartWorks(K: Oracle, W: World, n: NodeState, c: seq<Block>)
    requires CollisionFree(K.sha, W.corpus) && NodeInv(K, W, n, c)
    ensures Restart(n).Replayed? && Restart(n).node.store == n.store && Active(Restart(n).node, RestoredChain(n))
    ensures NodeInv(K, W, Restart(n).node, RestoredChain(n)) && |c| <= |RestoredChain(n)|
    ensures Restart(n).node.indexOf.Keys == Hashes(RestoredChain(n))
  {
    hide Replay;
    hide GoodChain;
    hide ApplyChain;
    hide HeightsOf;
    hide ChainTo;
    hide LongestChain;
    hide Found;
    hide CollisionFree;
    hide StoreGood;
    hide NotStored;
    hide Indexed;
    hide Listed;
    hide Hashes;
    hide ReplayStored;
    var d, z := RestoredChain(n), Emptied(n);
    var best := RestoredIsLongest(n, n.bestHash);
    NothingApplied(n);
    if d == [] {
      NothingRestored(z);
    } else {
      StoredChain(K, W, n.store, best);
      ApplyChainActive(K, W, z, best, |d|);
      assert d[..|d|] == d;
      Reactivate(K, W, z, ApplyChain(z, ChainTo(Found(n.store), best), |d|).value, best);
    }
  }

  lemma NothingRestored(z: NodeState)
    ensures ApplyChain(z, [], 0) == Some(z)
  {
  }
}
