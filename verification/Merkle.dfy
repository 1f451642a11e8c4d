/** The merkle tree over transaction ids, and what a block root commits to. */
module Merkle {
  import opened Types
  import opened Records

  type PairHash = (Hash, Hash) -> Hash

  /** An odd level repeats its last id. */
  function Padded(ids: seq<Hash>): (r: seq<Hash>)
    ensures |r| % 2 == 0 && |ids| <= |r| <= |ids| + 1 && r[..|ids|] == ids
  {
    if |ids| % 2 == 1 then ids + [ids[|ids| - 1]] else ids
  }

  function Pairs(ids: seq<Hash>): (r: seq<(Hash, Hash)>)
    requires |ids| % 2 == 0
    ensures |r| == |ids| / 2
    ensures forall i :: 0 <= i < |r| ==> r[i] == (ids[2 * i], ids[2 * i + 1])
  {
    seq(|ids| / 2, i requires 0 <= i < |ids| / 2 => (ids[2 * i], ids[2 * i + 1]))
  }

  function Level(H: PairHash, ids: seq<Hash>): (r: seq<Hash>)
    ensures |r| == (|ids| + 1) / 2
    ensures var p := Pairs(Padded(ids)); forall i :: 0 <= i < |r| ==> r[i] == H(p[i].0, p[i].1)
  {
    var p := Pairs(Padded(ids));
    seq(|p|, i requires 0 <= i < |p| => H(p[i].0, p[i].1))
  }

  function Root(H: PairHash, ids: seq<Hash>): Hash
    decreases |ids|
  {
    if ids == [] then ZERO else if |ids| == 1 then ids[0] else Root(H, Level(H, ids))
  }

  /** One pass of `merkle_root`: pad an odd list, then hash neighbours. */
  method HashLevel(H: PairHash, idsIn: seq<Hash>) returns (next: seq<Hash>)
    ensures next == Level(H, idsIn)
  {
    var ids := idsIn;
    if |ids| % 2 == 1 {
      ids := ids + [ids[|ids| - 1]];
    }
    next := [];
    var i := 0;
    while i < |ids|
      invariant i == 2 * |next| <= |ids|
      invariant next == Level(H, idsIn)[..|next|]
    {
      assert Pairs(ids)[|next|] == (ids[i], ids[i + 1]);
      next := next + [H(ids[i], ids[i + 1])];
      i := i + 2;
    }
  }

  /** `merkle_root`: levels until one id is left. */
  method MerkleRoot(H: PairHash, idsIn: seq<Hash>) returns (root: Hash)
    ensures root == Root(H, idsIn)
  {
    var ids := idsIn;
    if ids == [] {
      return ZERO;
    }
    while |ids| > 1
      invariant ids != [] && Root(H, ids) == Root(H, idsIn)
      decreases |ids|
    {
      ids := HashLevel(H, ids);
    }
    return ids[0];
  }

  /** Every pair of nodes that is hashed on the way to the root. */
  ghost function Hashed(H: PairHash, ids: seq<Hash>): set<(Hash, Hash)>
    decreases |ids|
  {
    if |ids| <= 1 then {} else (set p | p in Pairs(Padded(ids))) + Hashed(H, Level(H, ids))
  }

  ghost predicate NoCollision(H: PairHash, nodes: set<(Hash, Hash)>) {
    forall p, q :: p in nodes && q in nodes && H(p.0, p.1) == H(q.0, q.1) ==> p == q
  }

  lemma LevelFixesPadded(H: PairHash, a: seq<Hash>, b: seq<Hash>)
    requires Level(H, a) == Level(H, b)
    requires NoCollision(H, (set p | p in Pairs(Padded(a))) + (set p | p in Pairs(Padded(b))))
    ensures Padded(a) == Padded(b)
  {
    hide Padded;
    var pa, pb := Pairs(Padded(a)), Pairs(Padded(b));
    assert |pa| == |Level(H, a)| == |pb|;
    forall i | 0 <= i < |pa| ensures pa[i] == pb[i] {
      assert pa[i] in pa && pb[i] in pb;
      assert Level(H, a)[i] == Level(H, b)[i];
    }
    forall k | 0 <= k < |Padded(a)| ensures Padded(a)[k] == Padded(b)[k] {
      assert pa[k / 2] == pb[k / 2];
      assert k == 2 * (k / 2) || k == 2 * (k / 2) + 1;
    }
  }

  /** Under no collision among the nodes hashed, the root and the count fix the ordered ids. */
  lemma {:induction false} RootAndCountFixIds(H: PairHash, a: seq<Hash>, b: seq<Hash>)
    requires |a| == |b|
    requires NoCollision(H, Hashed(H, a) + Hashed(H, b))
    requires Root(H, a) == Root(H, b)
    ensures a == b
    decreases |a|
  {
    if |a| > 1 {
      RootAndCountFixIds(H, Level(H, a), Level(H, b));
      LevelFixesPadded(H, a, b);
      assert a == Padded(a)[..|a|] && b == Padded(b)[..|a|];
    }
  }

  /** The count is needed: repeating the last id of an odd list of three or more keeps the root. */
  lemma RootForgetsRepeatedLast(H: PairHash, ids: seq<Hash>)
    requires |ids| % 2 == 1 && |ids| > 1
    ensures Root(H, ids + [ids[|ids| - 1]]) == Root(H, ids)
  {
    var more := ids + [ids[|ids| - 1]];
    assert Padded(more) == Padded(ids);
    assert Level(H, more) == Level(H, ids);
  }

  // ---- Without the count ----

  /** The value of every node hashed on the way to the root. */
  ghost predicate IsInner(H: PairHash, ids: seq<Hash>, h: Hash) {
    exists p :: p in Hashed(H, ids) && H(p.0, p.1) == h
  }

  function Depth(n: nat): nat { if n <= 1 then 0 else 1 + Depth((n + 1) / 2) }

  lemma LevelHashed(H: PairHash, ids: seq<Hash>, h: Hash)
    requires |ids| > 1 && h in Level(H, ids)
    ensures exists p :: p in Pairs(Padded(ids)) && H(p.0, p.1) == h
    ensures IsInner(H, ids, h)
  {
    var i :| 0 <= i < |Level(H, ids)| && Level(H, ids)[i] == h;
    var p := Pairs(Padded(ids))[i];
    assert p in Pairs(Padded(ids)) && p in Hashed(H, ids);
  }

  lemma {:induction false} RootIsInner(H: PairHash, ids: seq<Hash>)
    requires |ids| > 1
    ensures IsInner(H, ids, Root(H, ids))
    decreases |ids|
  {
    var next := Level(H, ids);
    if |next| == 1 {
      assert Root(H, ids) == next[0];
      LevelHashed(H, ids, next[0]);
    } else {
      RootIsInner(H, next);
      var p :| p in Hashed(H, next) && H(p.0, p.1) == Root(H, next);
      assert p in Hashed(H, ids);
    }
  }

  /** A pair hashed above the bottom level starts with an inner node. */
  lemma {:induction false} UpperPairs(H: PairHash, ids: seq<Hash>, p: (Hash, Hash))
    requires |ids| > 1 && p in Hashed(H, Level(H, ids))
    ensures IsInner(H, ids, p.0)
    decreases |ids|
  {
    var next := Level(H, ids);
    if p in Pairs(Padded(next)) {
      var i :| 0 <= i < |Pairs(Padded(next))| && Pairs(Padded(next))[i] == p;
      assert Padded(next)[2 * i] == next[2 * i];
      LevelHashed(H, ids, p.0);
    } else {
      UpperPairs(H, next, p);
      var q :| q in Hashed(H, next) && H(q.0, q.1) == p.0;
      assert q in Hashed(H, ids);
    }
  }

  /** Under one root a shallower tree has a leaf that is an inner node of the deeper one. */
  lemma {:induction false} ShallowLeafIsInner(H: PairHash, a: seq<Hash>, b: seq<Hash>) returns (leaf: Hash)
    requires a != [] && Depth(|a|) < Depth(|b|) && Root(H, a) == Root(H, b)
    requires NoCollision(H, Hashed(H, a) + Hashed(H, b))
    ensures leaf in a && IsInner(H, b, leaf)
    decreases |a|
  {
    if |a| == 1 {
      leaf := a[0];
      RootIsInner(H, b);
    } else {
      var x := ShallowLeafIsInner(H, Level(H, a), Level(H, b));
      var p :| p in Hashed(H, Level(H, b)) && H(p.0, p.1) == x;
      leaf := LeafUnder(H, a, b, x, p);
    }
  }

  lemma LeafUnder(H: PairHash, a: seq<Hash>, b: seq<Hash>, x: Hash, p: (Hash, Hash)) returns (leaf: Hash)
    requires |a| > 1 && |b| > 1 && NoCollision(H, Hashed(H, a) + Hashed(H, b))
    requires x in Level(H, a) && p in Hashed(H, Level(H, b)) && H(p.0, p.1) == x
    ensures leaf in a && IsInner(H, b, leaf)
  {
    LevelHashed(H, a, x);
    var q :| q in Pairs(Padded(a)) && H(q.0, q.1) == x;
    assert q in Hashed(H, a) && p in Hashed(H, b);
    var i :| 0 <= i < |Pairs(Padded(a))| && Pairs(Padded(a))[i] == q;
    leaf := Padded(a)[2 * i];
    assert leaf == a[2 * i];
    UpperPairs(H, b, p);
  }

  /** Distinct ids make every level distinct. */
  lemma LevelDistinct(H: PairHash, ids: seq<Hash>)
    requires Distinct(ids) && NoCollision(H, set p | p in Pairs(Padded(ids)))
    ensures Distinct(Level(H, ids))
  {
    var ps := Pairs(Padded(ids));
    forall i, j | 0 <= i < j < |ps| ensures Level(H, ids)[i] != Level(H, ids)[j] {
      assert ps[i] in ps && ps[j] in ps;
      assert Padded(ids)[2 * i] == ids[2 * i] && Padded(ids)[2 * j] == ids[2 * j];
    }
  }

  /** Padding repeats an id, so distinct lists that pad to one list are equal. */
  lemma PaddedFixesDistinct(a: seq<Hash>, b: seq<Hash>)
    requires Distinct(a) && Distinct(b) && Padded(a) == Padded(b)
    ensures a == b
  {
    assert forall c: seq<Hash> :: |c| % 2 == 1 ==> Padded(c)[|c| - 1] == Padded(c)[|c|];
    assert a == Padded(a)[..|a|] && b == Padded(b)[..|b|];
  }

  lemma {:induction false} EqualDepthFixes(H: PairHash, a: seq<Hash>, b: seq<Hash>)
    requires a != [] && b != [] && Depth(|a|) == Depth(|b|) && Root(H, a) == Root(H, b)
    requires Distinct(a) && Distinct(b) && NoCollision(H, Hashed(H, a) + Hashed(H, b))
    ensures a == b
    decreases |a|
  {
    if |a| > 1 {
      LevelDistinct(H, a);
      LevelDistinct(H, b);
      EqualDepthFixes(H, Level(H, a), Level(H, b));
      LevelFixesPadded(H, a, b);
      PaddedFixesDistinct(a, b);
    }
  }

  /** No id of the list is also the value of an inner node of either tree. */
  ghost predicate LeavesApart(H: PairHash, ids: seq<Hash>, other: seq<Hash>) {
    forall x :: x in ids ==> !IsInner(H, other, x)
  }

  /**
   * For lists without a repeated id the root alone fixes the ids, count included, when no nodes
   * collide and no id is the value of an inner node.
   */
  lemma RootFixesDistinctIds(H: PairHash, a: seq<Hash>, b: seq<Hash>)
    requires a != [] && b != [] && Distinct(a) && Distinct(b) && Root(H, a) == Root(H, b)
    requires NoCollision(H, Hashed(H, a) + Hashed(H, b)) && LeavesApart(H, a, b) && LeavesApart(H, b, a)
    ensures a == b
  {
    if Depth(|a|) < Depth(|b|) {
      var leaf := ShallowLeafIsInner(H, a, b);
    } else if Depth(|b|) < Depth(|a|) {
      var leaf := ShallowLeafIsInner(H, b, a);
    } else {
      EqualDepthFixes(H, a, b);
    }
  }

  /** Which it must not be: a pair of ids and the one node above them have the same root. */
  lemma RootOfInnerNode(H: PairHash, x: Hash, y: Hash)
    ensures Root(H, [H(x, y)]) == Root(H, [x, y])
  {
    assert Level(H, [x, y]) == [H(x, y)];
  }

  function Ids(txs: seq<Tx>): (r: seq<Hash>)
    ensures |r| == |txs|
    ensures forall i :: 0 <= i < |txs| ==> r[i] == txs[i].txid
  {
    seq(|txs|, i requires 0 <= i < |txs| => txs[i].txid)
  }
}
