/**
 * Off-tip blocks a node holds, and which branch of them `adoptLaterPeerChain` offers for adoption.
 * Held blocks come from peers: they may be unconnected, may form cycles, and carry any height.
 */
module HeldBranches {
  import opened Types
  import opened Freshness
  import opened Chain
  import opened Node
  import opened NodeInvariant
  import opened NodeReplay
  import opened NodeAdopt
  import ForkChoice

  /** A held block; `stamp` is its timestamp if the record has one. */
  datatype Held = Held(block: Block, stamp: Option<nat>)

  /**
   * What the selection looks at: held blocks, hashes of the canonical chain, known headers, local
   * height, refused tips, clock.
   */
  datatype Pool = Pool(held: seq<Held>, canonical: set<Hash>, headers: map<Hash, Header>, localHeight: nat,
                       refused: seq<Hash>, now: nat)

  const MAX_HELD: nat := 4000

  ghost predicate DistinctHeld(held: seq<Held>) {
    forall i, j :: 0 <= i < j < |held| ==> held[i].block.hash != held[j].block.hash
  }

  /**
   * `noteOffTipBlock` on a record that parses: replace a block already held, else drop the oldest if
   * full, and append.
   */
  method NoteOffTip(held: seq<Held>, item: Held) returns (r: seq<Held>)
    requires DistinctHeld(held) && |held| <= MAX_HELD
    ensures DistinctHeld(r) && |r| <= MAX_HELD
    ensures item.block.height == 0 ==> r == held
    ensures item.block.height > 0 ==> item in r
    ensures item.block.height > 0 && (exists i :: 0 <= i < |held| && held[i].block.hash == item.block.hash) ==>
              |r| == |held| && forall i :: 0 <= i < |held| ==>
                r[i] == if held[i].block.hash == item.block.hash then item else held[i]
    ensures item.block.height > 0 && (forall i :: 0 <= i < |held| ==> held[i].block.hash != item.block.hash) ==>
              r == (if |held| < MAX_HELD then held else held[1..]) + [item]
  {
    if item.block.height == 0 {
      return held;
    }
    for i := 0 to |held|
      invariant forall k :: 0 <= k < i ==> held[k].block.hash != item.block.hash
    {
      if held[i].block.hash == item.block.hash {
        r := held[i := item];
        assert r[i] == item;
        assert forall k :: 0 <= k < |held| && k != i ==> r[k] == held[k];
        return;
      }
    }
    var kept := if |held| >= MAX_HELD then held[1..] else held;
    return kept + [item];
  }

  // ---- Branches ----

  ghost predicate RootOk(V: Pool, b: Block) {
    && b.prev != ZERO && b.prev in V.canonical
    && b.prev in V.headers && b.height == V.headers[b.prev].height + 1
  }

  /**
   * `p` lists held positions from the block that attaches to the canonical chain up to a tip:
   * parents link, heights are consecutive from the ancestor on, and only the first parent is canonical.
   */
  ghost predicate IsBranch(V: Pool, p: seq<nat>) {
    && |p| > 0
    && (forall k :: 0 <= k < |p| ==> p[k] < |V.held|)
    && RootOk(V, V.held[p[0]].block)
    && (forall k :: 0 < k < |p| ==> V.held[p[k]].block.prev != ZERO && V.held[p[k]].block.prev !in V.canonical)
    && (forall i, k :: 0 <= i < k == i + 1 < |p| ==> V.held[p[k]].block.prev == V.held[p[i]].block.hash)
    && (forall k :: 0 <= k < |p| ==> V.held[p[k]].block.height == V.held[p[0]].block.height + k)
  }

  /** The held position of a hash. */
  ghost function At(held: seq<Held>, n: nat, h: Hash): (r: Option<nat>)
    requires n <= |held|
    ensures r.Some? ==> r.value < n && held[r.value].block.hash == h
  {
    if n == 0 then None else if held[n - 1].block.hash == h then Some(n - 1) else At(held, n - 1, h)
  }

  lemma {:induction false} AtIs(held: seq<Held>, n: nat, i: nat)
    requires DistinctHeld(held) && i < n <= |held|
    ensures At(held, n, held[i].block.hash) == Some(i)
  {
    if i < n - 1 { AtIs(held, n - 1, i); }
  }

  /** The branch up to position `i` if it has at most `steps + 1` blocks; otherwise the empty sequence. */
  ghost function BranchWithin(V: Pool, i: nat, steps: nat): (p: seq<nat>)
    requires i < |V.held|
    ensures forall k :: 0 <= k < |p| ==> p[k] < |V.held|
    decreases steps
  {
    var b := V.held[i].block;
    if b.prev == ZERO then []
    else if b.prev in V.canonical then (if RootOk(V, b) then [i] else [])
    else
      var at := At(V.held, |V.held|, b.prev);
      if at.None? || steps == 0 then [] else
      var p := BranchWithin(V, at.value, steps - 1);
      if p != [] && b.height == V.held[p[|p| - 1]].block.height + 1 then p + [i] else []
  }

  ghost function Branch(V: Pool, i: nat): (p: seq<nat>)
    requires i < |V.held|
    ensures forall k :: 0 <= k < |p| ==> p[k] < |V.held|
  {
    BranchWithin(V, i, |V.held|)
  }

  lemma {:induction false} WithinIsBranch(V: Pool, i: nat, steps: nat)
    requires i < |V.held| && BranchWithin(V, i, steps) != []
    ensures IsBranch(V, BranchWithin(V, i, steps))
    ensures BranchWithin(V, i, steps)[|BranchWithin(V, i, steps)| - 1] == i
    decreases steps
  {
    hide At;
    hide RootOk;
    var b := V.held[i].block;
    if b.prev !in V.canonical {
      WithinIsBranch(V, At(V.held, |V.held|, b.prev).value, steps - 1);
    }
  }

  lemma BranchFront(V: Pool, p: seq<nat>)
    requires IsBranch(V, p) && |p| > 1
    ensures IsBranch(V, p[..|p| - 1])
    ensures var b, a := V.held[p[|p| - 1]].block, V.held[p[|p| - 2]].block;
            b.prev != ZERO && b.prev !in V.canonical && b.prev == a.hash && b.height == a.height + 1
  {
    hide RootOk;
  }

  lemma {:induction false} BranchIsWithin(V: Pool, p: seq<nat>, i: nat, steps: nat)
    requires DistinctHeld(V.held) && IsBranch(V, p) && p[|p| - 1] == i && |p| <= steps + 1
    ensures BranchWithin(V, i, steps) == p
    decreases steps
  {
    hide At;
    hide DistinctHeld;
    var n := |p| - 1;
    assert p == p[..n] + [i];
    if n > 0 {
      var j := p[n - 1];
      BranchFront(V, p);
      AtIs(V.held, |V.held|, j);
      BranchIsWithin(V, p[..n], j, steps - 1);
      BranchSnoc(V, p[..n], i, j, steps);
    }
  }

  lemma BranchSnoc(V: Pool, p: seq<nat>, i: nat, j: nat, steps: nat)
    requires i < |V.held| && j < |V.held| && steps > 0 && p != [] && p[|p| - 1] == j
             && BranchWithin(V, j, steps - 1) == p
    requires var b := V.held[i].block;
             && b.prev != ZERO && b.prev !in V.canonical && At(V.held, |V.held|, b.prev) == Some(j)
             && b.height == V.held[j].block.height + 1
    ensures BranchWithin(V, i, steps) == p + [i]
  {
    hide At;
    hide RootOk;
  }

  /** Consecutive heights keep the positions, and so the hashes, of a branch apart; the guard never cuts one off. */
  lemma BranchFits(V: Pool, p: seq<nat>)
    requires DistinctHeld(V.held) && IsBranch(V, p)
    ensures |p| <= |V.held|
    ensures forall i, j :: 0 <= i < j < |p| ==> V.held[p[i]].block.hash != V.held[p[j]].block.hash
  {
    forall i, j | 0 <= i < j < |p| ensures p[i] != p[j] {
      assert V.held[p[i]].block.height != V.held[p[j]].block.height;
    }
    Pigeonhole(p, |V.held|);
  }

  /** `Branch` is exactly the branch predicate. */
  lemma BranchIff(V: Pool, p: seq<nat>, i: nat)
    requires DistinctHeld(V.held) && i < |V.held|
    ensures p != [] && p == Branch(V, i) <==> IsBranch(V, p) && p[|p| - 1] == i
  {
    if p != [] && p == Branch(V, i) { WithinIsBranch(V, i, |V.held|); }
    if IsBranch(V, p) && p[|p| - 1] == i {
      BranchFits(V, p);
      BranchIsWithin(V, p, i, |V.held|);
    }
  }

  // ---- The backward walk ----

  /** Positions the walk from `i` has visited: parents link, and none but the last may attach. */
  ghost predicate IsTrail(V: Pool, rev: seq<nat>, i: nat) {
    && |rev| > 0 && rev[0] == i
    && (forall k :: 0 <= k < |rev| ==> rev[k] < |V.held|)
    && (forall k :: 0 <= k < |rev| - 1 ==>
          V.held[rev[k]].block.prev != ZERO && V.held[rev[k]].block.prev !in V.canonical)
    && (forall a, b :: 0 <= a < b == a + 1 < |rev| ==> V.held[rev[a]].block.prev == V.held[rev[b]].block.hash)
  }

  lemma {:induction false} TrailFollows(V: Pool, rev: seq<nat>, p: seq<nat>, i: nat, k: nat)
    requires DistinctHeld(V.held) && IsTrail(V, rev, i) && IsBranch(V, p) && p[|p| - 1] == i && k < |rev|
    ensures k < |p| && rev[k] == p[|p| - 1 - k]
  {
    if k > 0 {
      TrailFollows(V, rev, p, i, k - 1);
      assert V.held[rev[k - 1]].block.prev !in V.canonical;
      assert V.held[rev[k - 1]].block.prev == V.held[rev[k]].block.hash;
      assert V.held[p[|p| - k]].block.prev == V.held[p[|p| - k - 1]].block.hash;
    }
  }

  /** While the trail has not attached, a branch has a further block, held and not yet visited. */
  lemma TrailGoesOn(V: Pool, rev: seq<nat>, p: seq<nat>, i: nat)
    requires DistinctHeld(V.held) && IsTrail(V, rev, i) && IsBranch(V, p) && p[|p| - 1] == i
    requires V.held[rev[|rev| - 1]].block.prev !in V.canonical
    ensures |rev| < |p| && p[|p| - 1 - |rev|] < |V.held|
    ensures V.held[rev[|rev| - 1]].block.prev == V.held[p[|p| - 1 - |rev|]].block.hash
    ensures V.held[rev[|rev| - 1]].block.prev !in Visited(V, rev)
  {
    TrailFollows(V, rev, p, i, |rev| - 1);
    assert V.held[p[|p| - |rev|]].block.prev == V.held[p[|p| - |rev| - 1]].block.hash;
    BranchFits(V, p);
    forall k | 0 <= k < |rev| ensures V.held[rev[k]].block.hash != V.held[p[|p| - 1 - |rev|]].block.hash {
      TrailFollows(V, rev, p, i, k);
    }
  }

  ghost function Visited(V: Pool, rev: seq<nat>): set<Hash>
    requires forall k :: 0 <= k < |rev| ==> rev[k] < |V.held|
  {
    set k | 0 <= k < |rev| :: V.held[rev[k]].block.hash
  }

  lemma VisitedSnoc(V: Pool, rev: seq<nat>, next: nat)
    requires forall k :: 0 <= k < |rev| ==> rev[k] < |V.held|
    requires next < |V.held|
    ensures Visited(V, rev + [next]) == Visited(V, rev) + {V.held[next].block.hash}
  {
    var all := rev + [next];
    forall k | 0 <= k < |rev| ensures V.held[rev[k]].block.hash in Visited(V, all) { assert all[k] == rev[k]; }
    assert all[|rev|] == next;
  }

  /** An attached trail can only be the branch reversed. */
  lemma AttachedIsOnlyBranch(V: Pool, rev: seq<nat>, p: seq<nat>, i: nat)
    requires DistinctHeld(V.held) && IsTrail(V, rev, i) && IsBranch(V, p) && p[|p| - 1] == i
    requires V.held[rev[|rev| - 1]].block.prev in V.canonical
    ensures p == ForkChoice.Reversed(rev)
  {
    TrailFollows(V, rev, p, i, |rev| - 1);
    assert |p| == |rev|;
    forall k | 0 <= k < |p| ensures p[k] == ForkChoice.Reversed(rev)[k] {
      TrailFollows(V, rev, p, i, |rev| - 1 - k);
    }
  }

  method IndexHeld(held: seq<Held>) returns (byHash: map<Hash, nat>)
    requires DistinctHeld(held)
    ensures forall h :: h in byHash ==> byHash[h] < |held| && held[byHash[h]].block.hash == h
    ensures forall i :: 0 <= i < |held| ==> held[i].block.hash in byHash
  {
    byHash := map[];
    for i := 0 to |held|
      invariant forall h :: h in byHash ==> byHash[h] < i && held[byHash[h]].block.hash == h
      invariant forall k :: 0 <= k < i ==> held[k].block.hash in byHash
    {
      byHash := byHash[held[i].block.hash := i];
    }
  }

  lemma TrailStep(V: Pool, rev: seq<nat>, i: nat, next: nat)
    requires IsTrail(V, rev, i) && next < |V.held|
    requires var b := V.held[rev[|rev| - 1]].block;
             b.prev != ZERO && b.prev !in V.canonical && b.prev == V.held[next].block.hash
    ensures IsTrail(V, rev + [next], i)
  {
  }

  /**
   * The inner walk of `adoptLaterPeerChain`. It ends after at most `held.size() + 1` steps even on a
   * cycle, and it reports no attachment only when position `i` tops no branch.
   */
  method WalkToCanonical(V: Pool, byHash: map<Hash, nat>, i: nat) returns (rev: seq<nat>, found: bool)
    requires DistinctHeld(V.held) && i < |V.held|
    requires forall h :: h in byHash ==> byHash[h] < |V.held| && V.held[byHash[h]].block.hash == h
    requires forall k :: 0 <= k < |V.held| ==> V.held[k].block.hash in byHash
    ensures found ==> IsTrail(V, rev, i)
    ensures found ==> V.held[rev[|rev| - 1]].block.prev in V.canonical && V.held[rev[|rev| - 1]].block.prev != ZERO
    ensures !found ==> Branch(V, i) == []
  {
    hide Branch;
    hide IsBranch;
    hide IsTrail;
    hide DistinctHeld;
    hide Visited;
    ghost var p := Branch(V, i);
    BranchIff(V, p, i);
    if p != [] { BranchFits(V, p); }
    rev := [i];
    SingleTrail(V, i);
    var cursor := i;
    var seen := {V.held[i].block.hash};
    var guard := 0;
    while guard < |V.held| + 1
      invariant guard <= |V.held| + 1 && |rev| == guard + 1
      invariant forall k :: 0 <= k < |rev| ==> rev[k] < |V.held|
      invariant IsTrail(V, rev, i) && cursor == rev[|rev| - 1]
      invariant seen == Visited(V, rev)
      invariant p != [] ==> |rev| <= |p|
    {
      var prev := V.held[cursor].block.prev;
      if p != [] {
        if prev !in V.canonical { TrailGoesOn(V, rev, p, i); }
        TrailEnds(V, rev, p, i);
      }
      if prev == ZERO {
        return rev, false;
      }
      if prev in V.canonical {
        return rev, true;
      }
      if prev !in byHash || prev in seen {
        return rev, false;
      }
      var next := byHash[prev];
      TrailStep(V, rev, i, next);
      VisitedSnoc(V, rev, next);
      rev, cursor, seen := rev + [next], next, seen + {prev};
      guard := guard + 1;
    }
    return rev, false;
  }

  lemma SingleTrail(V: Pool, i: nat)
    requires i < |V.held|
    ensures IsTrail(V, [i], i) && Visited(V, [i]) == {V.held[i].block.hash}
  {
  }

  /** On a branch no visited block has the zero parent. */
  lemma TrailEnds(V: Pool, rev: seq<nat>, p: seq<nat>, i: nat)
    requires DistinctHeld(V.held) && IsTrail(V, rev, i) && IsBranch(V, p) && p[|p| - 1] == i
    ensures V.held[rev[|rev| - 1]].block.prev != ZERO
  {
    TrailFollows(V, rev, p, i, |rev| - 1);
  }

  // ---- The forward check and the choice ----

  /** An attached trail read forward is a branch as soon as its heights count up from the ancestor's. */
  lemma AttachedIsBranch(V: Pool, rev: seq<nat>, i: nat)
    requires IsTrail(V, rev, i) && RootOk(V, V.held[rev[|rev| - 1]].block)
    requires forall k :: 0 <= k < |rev| ==>
               V.held[rev[k]].block.height == V.held[rev[|rev| - 1]].block.height + (|rev| - 1 - k)
    ensures IsBranch(V, ForkChoice.Reversed(rev)) && ForkChoice.Reversed(rev)[|rev| - 1] == i
  {
    hide RootOk;
    var n, p := |rev|, ForkChoice.Reversed(rev);
    forall a, b | 0 <= a < b == a + 1 < n ensures V.held[p[b]].block.prev == V.held[p[a]].block.hash {
      assert V.held[rev[n - 1 - b]].block.prev == V.held[rev[n - b]].block.hash;
    }
  }

  /** The heights of a branch, along the trail. */
  lemma BranchHeights(V: Pool, rev: seq<nat>, i: nat, k: nat)
    requires DistinctHeld(V.held) && IsTrail(V, rev, i) && V.held[rev[|rev| - 1]].block.prev in V.canonical
    requires i < |V.held| && Branch(V, i) != [] && k < |rev|
    ensures RootOk(V, V.held[rev[|rev| - 1]].block)
    ensures V.held[rev[k]].block.height == V.held[rev[|rev| - 1]].block.height + (|rev| - 1 - k)
  {
    hide RootOk;
    var p := Branch(V, i);
    BranchIff(V, p, i);
    AttachedIsOnlyBranch(V, rev, p, i);
    assert p[|rev| - 1 - k] == rev[k] && p[0] == rev[|rev| - 1];
  }

  /** The branch that position `i` tops, or the empty sequence. */
  method BranchOf(V: Pool, byHash: map<Hash, nat>, i: nat) returns (p: seq<nat>)
    requires DistinctHeld(V.held) && i < |V.held|
    requires forall h :: h in byHash ==> byHash[h] < |V.held| && V.held[byHash[h]].block.hash == h
    requires forall k :: 0 <= k < |V.held| ==> V.held[k].block.hash in byHash
    ensures p == Branch(V, i)
  {
    hide Branch;
    hide IsBranch;
    hide DistinctHeld;
    var rev, found := WalkToCanonical(V, byHash, i);
    if !found {
      return [];
    }
    var n := |rev|;
    var root := V.held[rev[n - 1]].block;
    if Branch(V, i) != [] { BranchHeights(V, rev, i, 0); }
    if root.prev !in V.headers {
      return [];
    }
    var want := V.headers[root.prev].height + 1;
    p := [];
    var k := n;
    while k > 0
      invariant 0 <= k <= n && |p| == n - k && want == V.headers[root.prev].height + 1 + (n - k)
      invariant forall j :: k <= j < n ==> V.held[rev[j]].block.height == V.headers[root.prev].height + 1 + (n - 1 - j)
      invariant p == ForkChoice.Reversed(rev)[..n - k]
    {
      k := k - 1;
      if Branch(V, i) != [] { BranchHeights(V, rev, i, k); }
      if V.held[rev[k]].block.height != want {
        return [];
      }
      p := p + [rev[k]];
      want := want + 1;
    }
    AttachedIsBranch(V, rev, i);
    BranchIff(V, ForkChoice.Reversed(rev), i);
  }

  /** A block of the branch, before any without a timestamp, is stamped more than 120 seconds ahead. */
  function Ahead(V: Pool, p: seq<nat>): bool
    requires forall k :: 0 <= k < |p| ==> p[k] < |V.held|
  {
    p != [] && V.held[p[0]].stamp.Some? && (V.held[p[0]].stamp.value > V.now + 120 || Ahead(V, p[1..]))
  }

  /** The timestamp scan. */
  method IsAhead(V: Pool, p: seq<nat>) returns (r: bool)
    requires forall k :: 0 <= k < |p| ==> p[k] < |V.held|
    ensures r == Ahead(V, p)
  {
    for k := 0 to |p|
      invariant Ahead(V, p) == Ahead(V, p[k..])
    {
      assert p[k..][1..] == p[k + 1..];
      if V.held[p[k]].stamp.None? {
        return false;
      }
      if V.held[p[k]].stamp.value > V.now + 120 {
        return true;
      }
    }
    return false;
  }

  /** Tip `i` may be offered: taller than the local tip, not refused before, attached, linked, and not stamped ahead. */
  ghost predicate Eligible(V: Pool, i: nat) {
    && i < |V.held| && V.held[i].block.height > V.localHeight && V.held[i].block.hash !in V.refused
    && Branch(V, i) != [] && !Ahead(V, Branch(V, i))
  }

  /** The best of the first `n` held tips: a taller eligible tip replaces the one before. */
  ghost function BestTip(V: Pool, n: nat): (r: Option<nat>)
    requires n <= |V.held|
    ensures r.Some? ==> r.value < n && Eligible(V, r.value)
  {
    if n == 0 then None else
    var r := BestTip(V, n - 1);
    if Eligible(V, n - 1) && (r.None? || V.held[n - 1].block.height > V.held[r.value].block.height)
    then Some(n - 1) else r
  }

  /**
   * It is eligible and of maximal height among all eligible tips, the first such; there is none only
   * if no tip is eligible.
   */
  lemma {:induction false} BestTipMeans(V: Pool, n: nat)
    requires n <= |V.held|
    ensures var r := BestTip(V, n);
            && (r.None? ==> forall j: nat :: j < n ==> !Eligible(V, j))
            && (r.Some? ==> forall j: nat :: j < n && Eligible(V, j) ==>
                  && V.held[j].block.height <= V.held[r.value].block.height
                  && (j < r.value ==> V.held[j].block.height < V.held[r.value].block.height))
  {
    hide Eligible;
    if n > 0 { BestTipMeans(V, n - 1); }
  }

  /** Block `k` of the branch is stamped more than 120 seconds ahead, and none up to it lacks a timestamp. */
  ghost predicate AheadAt(V: Pool, p: seq<nat>, k: nat)
    requires forall j :: 0 <= j < |p| ==> p[j] < |V.held|
  {
    && k < |p| && (forall j :: 0 <= j <= k ==> V.held[p[j]].stamp.Some?)
    && V.held[p[k]].stamp.value > V.now + 120
  }

  lemma {:induction false} AheadIff(V: Pool, p: seq<nat>)
    requires forall k :: 0 <= k < |p| ==> p[k] < |V.held|
    ensures Ahead(V, p) <==> exists k: nat :: AheadAt(V, p, k)
  {
    if p != [] {
      var q := p[1..];
      AheadIff(V, q);
      if V.held[p[0]].stamp.Some? {
        forall k: nat ensures AheadAt(V, q, k) <==> AheadAt(V, p, k + 1) { AheadShifts(V, p, k); }
        if k: nat :| AheadAt(V, q, k) { assert AheadAt(V, p, k + 1); }
        if k: nat :| AheadAt(V, p, k) { assert k > 0 ==> AheadAt(V, q, k - 1); }
        assert V.held[p[0]].stamp.value > V.now + 120 ==> AheadAt(V, p, 0);
      }
    }
  }

  lemma AheadShifts(V: Pool, p: seq<nat>, k: nat)
    requires p != [] && (forall j :: 0 <= j < |p| ==> p[j] < |V.held|) && V.held[p[0]].stamp.Some?
    ensures AheadAt(V, p[1..], k) <==> AheadAt(V, p, k + 1)
  {
    var q := p[1..];
    assert forall j :: 0 <= j < |q| ==> q[j] == p[j + 1];
    if AheadAt(V, q, k) {
      forall j | 0 <= j <= k + 1 ensures V.held[p[j]].stamp.Some? { if j > 0 { assert p[j] == q[j - 1]; } }
    }
  }

  /** A branch that may be offered: it ends above the local tip, its tip is not refused, none is stamped ahead. */
  ghost predicate Offerable(V: Pool, p: seq<nat>) {
    && IsBranch(V, p)
    && V.held[p[|p| - 1]].block.height > V.localHeight && V.held[p[|p| - 1]].block.hash !in V.refused
    && (forall k: nat :: !AheadAt(V, p, k))
  }

  lemma EligibleIff(V: Pool, i: nat)
    requires DistinctHeld(V.held) && i < |V.held|
    ensures Eligible(V, i) <==> Branch(V, i) != [] && Offerable(V, Branch(V, i))
  {
    hide Branch;
    hide Ahead;
    hide DistinctHeld;
    hide IsBranch;
    BranchIff(V, Branch(V, i), i);
    AheadIff(V, Branch(V, i));
  }

  /**
   * The choice, exactly: a branch is offered if and only if one may be, and the one offered is of maximal height among
   * all that may be, wherever they sit.
   */
  lemma OfferIff(V: Pool, p: seq<nat>)
    requires DistinctHeld(V.held)
    ensures BestTip(V, |V.held|).Some? ==> Offerable(V, Branch(V, BestTip(V, |V.held|).value))
    ensures Offerable(V, p) ==>
              && BestTip(V, |V.held|).Some?
              && V.held[p[|p| - 1]].block.height <= V.held[BestTip(V, |V.held|).value].block.height
  {
    hide Branch;
    hide Eligible;
    hide DistinctHeld;
    BestTipMeans(V, |V.held|);
    if BestTip(V, |V.held|).Some? { EligibleIff(V, BestTip(V, |V.held|).value); }
    if Offerable(V, p) {
      var i := p[|p| - 1];
      BranchIff(V, p, i);
      EligibleIff(V, i);
    }
  }

  /** `adoptLaterPeerChain`, the choice: the best tip, and the branch it tops. */
  method ChooseBranch(V: Pool) returns (r: Option<(nat, seq<nat>)>)
    requires DistinctHeld(V.held)
    ensures r.None? <==> BestTip(V, |V.held|).None?
    ensures r.Some? ==> BestTip(V, |V.held|) == Some(r.value.0) && r.value.1 == Branch(V, r.value.0)
  {
    hide Branch;
    hide Ahead;
    hide DistinctHeld;
    r := None;
    var byHash := IndexHeld(V.held);
    for i := 0 to |V.held|
      invariant r.None? <==> BestTip(V, i).None?
      invariant r.Some? ==> BestTip(V, i) == Some(r.value.0) && r.value.1 == Branch(V, r.value.0)
    {
      if V.held[i].block.height > V.localHeight && V.held[i].block.hash !in V.refused {
        var p := BranchOf(V, byHash, i);
        if p != [] {
          var ahead := IsAhead(V, p);
          if !ahead && (r.None? || V.held[i].block.height > V.held[r.value.0].block.height) {
            r := Some((i, p));
          }
        }
      }
    }
  }

  // ---- What is offered is a proper peer list ----

  ghost function BlocksOf(V: Pool, p: seq<nat>): (r: seq<Block>)
    requires forall k :: 0 <= k < |p| ==> p[k] < |V.held|
    ensures |r| == |p|
    ensures forall k :: 0 <= k < |p| ==> r[k] == V.held[p[k]].block
  {
    seq(|p|, k requires 0 <= k < |p| => V.held[p[k]].block)
  }

  /**
   * What is offered to `rpc_adopt_peer_chain` is linked from a canonical ancestor, repeats no hash,
   * counts heights up from the ancestor, and ends strictly above the local tip.
   */
  lemma OfferIsPeerList(V: Pool, i: nat)
    requires DistinctHeld(V.held) && Eligible(V, i)
    requires forall k :: 0 <= k < |V.held| ==> V.held[k].block.hash !in V.canonical
    ensures var blocks := BlocksOf(V, Branch(V, i));
            && PeerList(blocks)
            && blocks[0].prev in V.canonical && blocks[0].prev in V.headers
            && (forall k :: 0 <= k < |blocks| ==> blocks[k].height == V.headers[blocks[0].prev].height + 1 + k)
            && blocks[|blocks| - 1] == V.held[i].block && blocks[|blocks| - 1].height > V.localHeight
  {
    hide Branch;
    hide Ahead;
    var p := Branch(V, i);
    BranchIff(V, p, i);
    BranchFits(V, p);
    var blocks := BlocksOf(V, p);
    assert blocks[0].hash !in V.canonical;
  }

  // ---- Where the pool comes from, and what adopting an offer does ----

  ghost function HashesFrom(c: seq<Block>, lo: nat): set<Hash> { set k | lo <= k < |c| :: c[k].hash }

  lemma ChainFacts(K: Oracle, W: World, n: NodeState, c: seq<Block>, k: nat)
    requires NodeInv(K, W, n, c) && k < |c|
    ensures c[k].hash in n.headers && n.headers[c[k].hash] == HeaderOf(c[k])
    ensures c[k].height == k + 1 && c[k].hash != ZERO
    ensures c[k].prev == if k == 0 then ZERO else c[k - 1].hash
  {
    hide ChainAt;
    hide StoreGood;
    hide GoodChain;
    hide Indexed;
    hide Listed;
    hide Replay;
    ActiveHeaders(K, W, n, c, k);
    GoodChainHeaders(K, W, c);
  }

  /**
   * The first loop: on a reachable node the guard of local height plus two lets the walk collect the
   * whole active chain, and nothing else.
   */
  method CollectCanonical(n: NodeState, ghost K: Oracle, ghost W: World, ghost c: seq<Block>)
      returns (canonical: set<Hash>)
    requires NodeInv(K, W, n, c)
    ensures canonical == Hashes(c)
  {
    hide NodeInv;
    canonical := {};
    HadTip(K, W, n, c);
    if n.heights == [] {
      return;
    }
    HeightIs(K, W, n, c);
    var cursor, guard := n.bestHash, n.bestHeight + 2;
    ghost var k := |c|;
    while guard > 0
      invariant 0 < k <= |c| && guard == k + 2 && cursor == c[k - 1].hash
      invariant canonical == HashesFrom(c, k)
      decreases guard
    {
      ChainFacts(K, W, n, c, k - 1);
      guard := guard - 1;
      canonical := canonical + {cursor};
      k := k - 1;
      if cursor !in n.headers || n.headers[cursor].prev == ZERO {
        if k > 0 { ChainFacts(K, W, n, c, k - 1); }
        return;
      }
      cursor := n.headers[cursor].prev;
    }
  }

  /** Held blocks without those in a set of hashes, in order. */
  function Without(held: seq<Held>, gone: set<Hash>): (r: seq<Held>)
    ensures |r| <= |held|
  {
    if held == [] then [] else
    var front, last := Without(held[..|held| - 1], gone), held[|held| - 1];
    if last.block.hash in gone then front else front + [last]
  }

  lemma {:induction false} WithoutMeans(held: seq<Held>, gone: set<Hash>)
    ensures forall x :: x in Without(held, gone) <==> x in held && x.block.hash !in gone
    ensures DistinctHeld(held) ==> DistinctHeld(Without(held, gone))
  {
    if held != [] {
      var n := |held| - 1;
      var front, r := Without(held[..n], gone), Without(held, gone);
      WithoutMeans(held[..n], gone);
      assert held == held[..n] + [held[n]];
      if DistinctHeld(held) {
        forall i, j | 0 <= i < j < |r| ensures r[i].block.hash != r[j].block.hash {
          if j == |front| { assert front[i] in held[..n]; }
        }
      }
    }
  }

  /** The `remove_if` calls on `heldBlocks_`. */
  method RemoveHeld(held: seq<Held>, gone: set<Hash>) returns (r: seq<Held>)
    ensures r == Without(held, gone)
  {
    r := [];
    for i := 0 to |held|
      invariant r == Without(held[..i], gone)
    {
      assert held[..i + 1][..i] == held[..i];
      if held[i].block.hash !in gone {
        r := r + [held[i]];
      }
    }
    assert held[..|held|] == held;
  }

  /** The stored chain under a block of the active chain is the active chain cut there. */
  lemma PrefixIsChain(K: Oracle, W: World, n: NodeState, c: seq<Block>, k: nat)
    requires NodeInv(K, W, n, c) && k < |c|
    ensures ChainAt(n.store, c[k].hash) == c[..k + 1]
  {
    hide StoreGood;
    hide GoodChain;
    hide Replay;
    hide ChainAt;
    hide HeightsOf;
    hide Indexed;
    hide Listed;
    ChainCut(n.store, n.bestHash, k);
  }

  lemma PrefixKnown(K: Oracle, W: World, n: NodeState, c: seq<Block>, a: nat)
    requires NodeInv(K, W, n, c) && a <= |c|
    ensures Known(n, c[..a]) == n.indexOf.Keys
  {
    hide NodeInv;
    ListedKnown(K, W, n, c);
    forall k | 0 <= k < a ensures c[..a][k].hash in n.indexOf {
      assert c[k].hash in Hashes(c);
    }
  }

  /** The pool `adoptLaterPeerChain` builds on node `n` with active chain `c`. */
  ghost predicate PoolOf(V: Pool, n: NodeState, c: seq<Block>) {
    && DistinctHeld(V.held) && V.canonical == Hashes(c) && V.headers == n.headers && V.localHeight == LocalHeight(n)
    && (forall k :: 0 <= k < |V.held| ==> V.held[k].block.hash !in V.canonical)
  }

  /** `blocks` is the branch of the eligible tip `i`. */
  ghost predicate IsOffer(V: Pool, i: nat, blocks: seq<Block>) {
    Eligible(V, i) && blocks == BlocksOf(V, Branch(V, i)) && blocks != []
  }

  /** The blocks of an adopted list that become active: all, without the last one if `n` had that indexed. */
  ghost function KeptOf(n: NodeState, blocks: seq<Block>): (k: nat)
    requires blocks != []
    ensures k <= |blocks|
  {
    if blocks[|blocks| - 1].hash in n.indexOf then |blocks| - 1 else |blocks|
  }

  /** Node `m` has the first `a` blocks of `c` and those blocks on top; none of them was indexed in `n`. */
  ghost predicate Reorganised(K: Oracle, W: World, n: NodeState, c: seq<Block>, a: nat, blocks: seq<Block>,
                              m: NodeState)
    requires a <= |c| && blocks != []
  {
    var last := blocks[|blocks| - 1];
    && NodeInv(K, W, m, c[..a] + FirstCopies(K, n.store, blocks, KeptOf(n, blocks)))
    && (m.bestHash == last.hash <==> last.hash !in n.indexOf)
    && n.indexOf.Keys !! HashSet(blocks, KeptOf(n, blocks))
  }

  lemma InHashes(c: seq<Block>, h: Hash) returns (k: nat)
    requires h in Hashes(c)
    ensures k < |c| && c[k].hash == h
  {
    k :| 0 <= k < |c| && c[k].hash == h;
  }

  /**
   * Adopting an offer reorganises: the active chain up to the common ancestor stays, and the blocks of
   * the branch replace what was above it. The last one is missing exactly when it was indexed already.
   */
  lemma OfferReorganises(K: Oracle, W: World, envs: seq<Env>, n: NodeState, c: seq<Block>, V: Pool, i: nat,
                         blocks: seq<Block>) returns (a: nat)
    requires CollisionFree(K.sha, W.corpus) && NodeInv(K, W, n, c) && PoolOf(V, n, c)
    requires IsOffer(V, i, blocks)
    requires |envs| == |blocks| && AllMayStore(K, W, blocks) && AdoptAgrees(K, W, envs, n, blocks[0].prev, blocks)
    requires Adopt(K, envs, n, blocks[0].prev, blocks).Adopted?
    ensures 1 <= a <= |c| && c[a - 1].hash == blocks[0].prev && a + |blocks| == V.held[i].block.height > |c|
    ensures Reorganised(K, W, n, c, a, blocks, Adopt(K, envs, n, blocks[0].prev, blocks).node)
  {
    hide NodeInv;
    hide Branch;
    hide Ahead;
    hide ChainAt;
    hide Adopt;
    hide CollisionFree;
    hide AllMayStore;
    hide FirstCopies;
    hide DistinctHeld;
    hide AdoptAgrees;
    hide Hashes;
    OfferIsPeerList(V, i);
    var k := InHashes(c, blocks[0].prev);
    a := k + 1;
    ChainFacts(K, W, n, c, k);
    HadTip(K, W, n, c);
    PrefixIsChain(K, W, n, c, k);
    PrefixKnown(K, W, n, c, a);
    AdoptWhole(K, W, envs, n, c, blocks[0].prev, blocks);
  }
}
