/**
 * Fork choice over the block store: `chain_ending_at` and `choose_longest_chain`.
 *
 * The store is append-only and may hold stale branches, repeated hashes, broken
 * links and link cycles. Nothing below assumes the found blocks are well formed.
 */
module ForkChoice {
  import opened Types

  datatype FoundBlock<+T> = FoundBlock(index: nat, height: nat, prev: Hash, hash: Hash, obj: T)

  /**
   * Which of the first `n` positions answers for hash `h`: the lowest store index,
   * and the earliest position among equal indices.
   */
  ghost function LowestOf<T>(found: seq<FoundBlock<T>>, n: nat, h: Hash): (r: Option<nat>)
    requires n <= |found|
    ensures r.Some? ==> r.value < n && found[r.value].hash == h
  {
    if n == 0 then None else
    var r := LowestOf(found, n - 1, h);
    var b := found[n - 1];
    if b.hash == h && (r.None? || b.index < found[r.value].index) then Some(n - 1) else r
  }

  ghost function Lowest<T>(found: seq<FoundBlock<T>>, h: Hash): (r: Option<nat>)
    ensures r.Some? ==> r.value < |found| && found[r.value].hash == h
  {
    LowestOf(found, |found|, h)
  }

  /** What answering for a hash means, without the recursion. */
  lemma {:induction false} LowestOfMeans<T>(found: seq<FoundBlock<T>>, n: nat, h: Hash)
    requires n <= |found|
    ensures var r := LowestOf(found, n, h);
            && (r.None? <==> forall j :: 0 <= j < n ==> found[j].hash != h)
            && (r.Some? ==> forall j :: 0 <= j < n && found[j].hash == h ==>
                    && found[r.value].index <= found[j].index
                    && (j < r.value ==> found[r.value].index < found[j].index))
  {
    if n > 0 { LowestOfMeans(found, n - 1, h); }
  }

  /**
   * `p` lists store positions of a complete chain that ends at `tip`: it starts at
   * a block whose parent is the zero hash, every later block links to the one
   * before it, and heights run 1, 2, 3, ... Each block answers for its own hash.
   */
  ghost predicate IsPath<T>(found: seq<FoundBlock<T>>, p: seq<nat>, tip: Hash) {
    && |p| > 0
    && (forall k :: 0 <= k < |p| ==> p[k] < |found|)
    && (forall k :: 0 <= k < |p| ==> Lowest(found, found[p[k]].hash) == Some(p[k]))
    && (forall k :: 0 <= k < |p| ==> found[p[k]].height == k + 1)
    && found[p[0]].prev == ZERO
    && (forall i, k :: 0 <= i < k == i + 1 < |p| ==> found[p[k]].prev == found[p[i]].hash)
    && (forall k :: 0 < k < |p| ==> found[p[k]].prev != ZERO)
    && found[p[|p| - 1]].hash == tip
  }

  /** The path to `tip` if it takes at most `steps + 1` blocks; otherwise the empty sequence. */
  ghost function PathWithin<T>(found: seq<FoundBlock<T>>, tip: Hash, steps: nat): (p: seq<nat>)
    ensures forall k :: 0 <= k < |p| ==> p[k] < |found|
    decreases steps
  {
    var at := Lowest(found, tip);
    if at.None? then [] else
    var b := found[at.value];
    if b.prev == ZERO then (if b.height == 1 then [at.value] else [])
    else if steps == 0 then []
    else
      var p := PathWithin(found, b.prev, steps - 1);
      if p != [] && b.height == |p| + 1 then p + [at.value] else []
  }

  ghost function PathTo<T>(found: seq<FoundBlock<T>>, tip: Hash): (p: seq<nat>)
    ensures forall k :: 0 <= k < |p| ==> p[k] < |found|
  {
    PathWithin(found, tip, |found|)
  }

  lemma {:induction false} PathWithinIsPath<T>(found: seq<FoundBlock<T>>, tip: Hash, steps: nat)
    requires PathWithin(found, tip, steps) != []
    ensures IsPath(found, PathWithin(found, tip, steps), tip)
    decreases steps
  {
    var b := found[Lowest(found, tip).value];
    if b.prev != ZERO { PathWithinIsPath(found, b.prev, steps - 1); }
  }

  lemma {:induction false} PathIsWithin<T>(found: seq<FoundBlock<T>>, p: seq<nat>, tip: Hash, steps: nat)
    requires IsPath(found, p, tip) && |p| <= steps + 1
    ensures PathWithin(found, tip, steps) == p
    decreases steps
  {
    var n := |p| - 1;
    assert p == p[..n] + [p[n]];
    if n > 0 {
      assert found[p[n]].prev == found[p[n - 1]].hash;
      PathIsWithin(found, p[..n], found[p[n]].prev, steps - 1);
    }
  }

  /** `PathTo` is exactly the path predicate: `p` is a complete path to `tip` if and only if it is the one found. */
  lemma PathIff<T>(found: seq<FoundBlock<T>>, p: seq<nat>, tip: Hash)
    ensures p != [] && p == PathTo(found, tip) <==> IsPath(found, p, tip)
  {
    if p != [] && p == PathTo(found, tip) { PathWithinIsPath(found, tip, |found|); }
    if IsPath(found, p, tip) {
      PathFits(found, p, tip);
      PathIsWithin(found, p, tip, |found|);
    }
  }

  /** The chain that ends at `tip`, or the empty sequence when the store holds none. */
  ghost function ChainTo<T>(found: seq<FoundBlock<T>>, tip: Hash): seq<FoundBlock<T>> {
    Pick(found, PathTo(found, tip))
  }

  /** A complete chain never repeats a store position, so it is no longer than the store. */
  lemma PathFits<T>(found: seq<FoundBlock<T>>, p: seq<nat>, tip: Hash)
    requires IsPath(found, p, tip)
    ensures |p| <= |found|
    ensures forall i, j :: 0 <= i < j < |p| ==> found[p[i]].hash != found[p[j]].hash
  {
    forall i, j | 0 <= i < j < |p| ensures found[p[i]].hash != found[p[j]].hash {
      assert found[p[i]].height == i + 1 && found[p[j]].height == j + 1;
      assert Lowest(found, found[p[i]].hash) == Some(p[i]) && Lowest(found, found[p[j]].hash) == Some(p[j]);
    }
    assert Distinct(p);
    Pigeonhole(p, |found|);
  }

  /** The positions the backward walk has visited: each one answers for the parent of the one before. */
  ghost predicate IsWalk<T>(found: seq<FoundBlock<T>>, rev: seq<nat>, tip: Hash) {
    && (forall k :: 0 <= k < |rev| ==> rev[k] < |found|)
    && (|rev| > 0 ==> Lowest(found, tip) == Some(rev[0]))
    && (forall k :: 0 <= k < |rev| - 1 ==> found[rev[k]].prev != ZERO)
    && (forall i, k :: 0 <= i < k == i + 1 < |rev| ==> Lowest(found, found[rev[i]].prev) == Some(rev[k]))
  }

  ghost function Cursor<T>(found: seq<FoundBlock<T>>, rev: seq<nat>, tip: Hash): Hash
    requires IsWalk(found, rev, tip)
  {
    if rev == [] then tip else found[rev[|rev| - 1]].prev
  }

  /** The walk follows the complete path backwards as long as both run. */
  lemma {:induction false} WalkFollowsPath<T>(found: seq<FoundBlock<T>>, rev: seq<nat>, p: seq<nat>, tip: Hash, k: nat)
    requires IsWalk(found, rev, tip) && IsPath(found, p, tip)
    requires k < |rev|
    ensures |p| > k && rev[k] == p[|p| - 1 - k]
  {
    if k > 0 {
      WalkFollowsPath(found, rev, p, tip, k - 1);
      assert found[rev[k - 1]].prev != ZERO;
      assert found[p[|p| - k]].prev == found[p[|p| - k - 1]].hash;
    }
  }

  /** The walk cannot fall off a complete path: while it is short of the root the next parent is stored. */
  lemma WalkCanContinue<T>(found: seq<FoundBlock<T>>, rev: seq<nat>, p: seq<nat>, tip: Hash)
    requires IsWalk(found, rev, tip) && IsPath(found, p, tip)
    requires rev != [] ==> found[rev[|rev| - 1]].prev != ZERO
    ensures |rev| < |p| && Lowest(found, Cursor(found, rev, tip)) == Some(p[|p| - 1 - |rev|])
  {
    if rev != [] {
      WalkFollowsPath(found, rev, p, tip, |rev| - 1);
      assert found[p[|p| - |rev|]].prev == found[p[|p| - |rev| - 1]].hash;
    }
  }

  ghost function Reversed(s: seq<nat>): (r: seq<nat>)
    ensures |r| == |s|
    ensures forall k :: 0 <= k < |s| ==> r[k] == s[|s| - 1 - k]
  {
    seq(|s|, k requires 0 <= k < |s| => s[|s| - 1 - k])
  }

  /** A walk that reaches the root can only be the reverse of the path. */
  lemma RootedWalkIsOnlyPath<T>(found: seq<FoundBlock<T>>, rev: seq<nat>, p: seq<nat>, tip: Hash)
    requires IsWalk(found, rev, tip) && rev != [] && IsPath(found, p, tip)
    requires found[rev[|rev| - 1]].prev == ZERO
    ensures p == Reversed(rev)
  {
    var n := |rev|;
    WalkFollowsPath(found, rev, p, tip, n - 1);
    assert |p| == n;
    forall i | 0 <= i < n ensures p[i] == Reversed(rev)[i] {
      WalkFollowsPath(found, rev, p, tip, n - 1 - i);
    }
  }

  /** A walk that reaches the root is a path as soon as the heights count up from 1. */
  lemma RootedWalkIsPath<T>(found: seq<FoundBlock<T>>, rev: seq<nat>, tip: Hash)
    requires IsWalk(found, rev, tip) && rev != []
    requires found[rev[|rev| - 1]].prev == ZERO
    requires forall k :: 0 <= k < |rev| ==> found[rev[k]].height == |rev| - k
    ensures IsPath(found, Reversed(rev), tip)
  {
    var n, r := |rev|, Reversed(rev);
    forall k | 0 <= k < n ensures Lowest(found, found[r[k]].hash) == Some(r[k]) {
      var w := n - 1 - k;
      assert w > 0 ==> Lowest(found, found[rev[w - 1]].prev) == Some(rev[w]);
    }
    forall k | 0 < k < n ensures found[r[k]].prev == found[r[k - 1]].hash && found[r[k]].prev != ZERO {
      var w := n - k;
      assert Lowest(found, found[rev[w - 1]].prev) == Some(rev[w]);
    }
  }

  /** The hash table of `chain_ending_at`. */
  method IndexByHash<T>(found: seq<FoundBlock<T>>) returns (byHash: map<Hash, nat>)
    ensures forall h :: Lowest(found, h) == if h in byHash then Some(byHash[h]) else None
  {
    byHash := map[];
    var i := 0;
    while i < |found|
      invariant i <= |found|
      invariant forall h :: h in byHash ==> byHash[h] < i
      invariant forall h: Hash :: LowestOf(found, i, h) == if h in byHash then Some(byHash[h]) else None
    {
      var b := found[i];
      assert LowestOf(found, i, b.hash) == if b.hash in byHash then Some(byHash[b.hash]) else None;
      if b.hash !in byHash || b.index < found[byHash[b.hash]].index {
        byHash := byHash[b.hash := i];
      }
      i := i + 1;
    }
  }

  lemma WalkStep<T>(found: seq<FoundBlock<T>>, rev: seq<nat>, next: nat, tip: Hash)
    requires IsWalk(found, rev, tip) && Lowest(found, Cursor(found, rev, tip)) == Some(next)
    requires rev != [] ==> Cursor(found, rev, tip) != ZERO
    ensures IsWalk(found, rev + [next], tip) && Cursor(found, rev + [next], tip) == found[next].prev
  {
  }

  /** First loop: follow parents back from `tip` for at most `found.size() + 1` steps. */
  method WalkBack<T>(found: seq<FoundBlock<T>>, byHash: map<Hash, nat>, tip: Hash) returns (rev: seq<nat>)
    requires forall h: Hash :: Lowest(found, h) == if h in byHash then Some(byHash[h]) else None
    ensures rev == [] ==> PathTo(found, tip) == []
    ensures rev != [] ==> IsWalk(found, rev, tip) && found[rev[|rev| - 1]].prev == ZERO
  {
    rev := [];
    var cursor := tip;
    ghost var path := PathTo(found, tip);
    PathIff(found, path, tip);
    if path != [] { PathFits(found, path, tip); }
    var guard := 0;
    while guard < |found| + 1
      invariant guard <= |found| + 1 && |rev| == guard
      invariant IsWalk(found, rev, tip) && cursor == Cursor(found, rev, tip)
      invariant rev != [] ==> cursor != ZERO
    {
      if path != [] { WalkCanContinue(found, rev, path, tip); }
      if cursor !in byHash {
        return [];
      }
      WalkStep(found, rev, byHash[cursor], tip);
      rev := rev + [byHash[cursor]];
      cursor := found[byHash[cursor]].prev;
      if cursor == ZERO {
        return;
      }
      guard := guard + 1;
    }
    if path != [] { WalkCanContinue(found, rev, path, tip); }
    return [];
  }

  /** The heights of a walk read from the root count 1, 2, 3, ... down to position `i`. */
  ghost predicate CountsFrom<T>(found: seq<FoundBlock<T>>, rev: seq<nat>, i: nat)
    requires forall k :: 0 <= k < |rev| ==> rev[k] < |found|
  {
    forall k :: i <= k < |rev| ==> found[rev[k]].height == |rev| - k
  }

  /** The chain such a walk is. */
  lemma CountedIsChain<T>(found: seq<FoundBlock<T>>, rev: seq<nat>, tip: Hash)
    requires IsWalk(found, rev, tip) && rev != [] && found[rev[|rev| - 1]].prev == ZERO && CountsFrom(found, rev, 0)
    ensures ChainTo(found, tip) == Pick(found, Reversed(rev))
  {
    hide PathTo;
    hide Lowest;
    RootedWalkIsPath(found, rev, tip);
    PathIff(found, Reversed(rev), tip);
  }

  /** If there is a chain, the walk has its heights and links. */
  lemma ChainIsCounted<T>(found: seq<FoundBlock<T>>, rev: seq<nat>, tip: Hash, i: nat)
    requires IsWalk(found, rev, tip) && i < |rev| && found[rev[|rev| - 1]].prev == ZERO && ChainTo(found, tip) != []
    ensures found[rev[i]].height == |rev| - i
    ensures found[rev[i]].prev == if i == |rev| - 1 then ZERO else found[rev[i + 1]].hash
  {
    hide PathTo;
    var path := PathTo(found, tip);
    PathIff(found, path, tip);
    RootedWalkIsOnlyPath(found, rev, path, tip);
    assert path[|rev| - 1 - i] == rev[i];
    if i < |rev| - 1 { assert path[|rev| - 2 - i] == rev[i + 1]; }
  }

  /** Second loop: from the root up, heights must count 1, 2, 3, ... and parents must match. */
  method CheckForward<T>(found: seq<FoundBlock<T>>, rev: seq<nat>, tip: Hash) returns (chain: seq<FoundBlock<T>>)
    requires IsWalk(found, rev, tip) && rev != [] && found[rev[|rev| - 1]].prev == ZERO
    ensures chain == ChainTo(found, tip)
  {
    hide ChainTo;
    hide Lowest;
    chain := [];
    var wantHeight, wantPrev := 1, ZERO;
    var i := |rev|;
    while i > 0
      invariant 0 <= i <= |rev|
      invariant wantHeight == |rev| - i + 1
      invariant wantPrev == if i == |rev| then ZERO else found[rev[i]].hash
      invariant chain == Pick(found, Reversed(rev))[..|rev| - i]
      invariant CountsFrom(found, rev, i)
    {
      i := i - 1;
      var block := found[rev[i]];
      if ChainTo(found, tip) != [] { ChainIsCounted(found, rev, tip, i); }
      if block.height != wantHeight || block.prev != wantPrev {
        return [];
      }
      chain := chain + [block];
      wantPrev := block.hash;
      wantHeight := wantHeight + 1;
    }
    CountedIsChain(found, rev, tip);
  }

  /**
   * `chain_ending_at`: sound and complete. The result is the one complete chain that
   * ends at `tip`, and it is empty only when there is none; the guard of
   * `found.size() + 1` steps never cuts a complete chain off.
   */
  method ChainEndingAt<T>(found: seq<FoundBlock<T>>, tip: Hash) returns (chain: seq<FoundBlock<T>>)
    ensures chain == ChainTo(found, tip)
  {
    var byHash := IndexByHash(found);
    var rev := WalkBack(found, byHash, tip);
    if rev == [] {
      return [];
    }
    chain := CheckForward(found, rev, tip);
  }

  // ---- What the chain is, and how it behaves as the store grows ----

  /** Blocks linked from the zero hash with heights 1, 2, 3, ... */
  ghost predicate Linked<T>(c: seq<FoundBlock<T>>) {
    && (forall k :: 0 <= k < |c| ==> c[k].height == k + 1)
    && (|c| > 0 ==> c[0].prev == ZERO)
    && (forall k :: 0 < k < |c| ==> c[k].prev != ZERO)
    && (forall i, k :: 0 <= i < k == i + 1 < |c| ==> c[k].prev == c[i].hash)
  }

  ghost predicate Answers<T>(found: seq<FoundBlock<T>>, b: FoundBlock<T>) {
    Lowest(found, b.hash).Some? && found[Lowest(found, b.hash).value] == b
  }

  /**
   * `chain_ending_at` returns `c` if and only if `c` is linked from the zero hash, counts
   * heights from 1, ends at the tip, and uses for every hash the copy stored first; and then
   * no hash repeats in it.
   */
  lemma ChainIff<T>(found: seq<FoundBlock<T>>, tip: Hash, c: seq<FoundBlock<T>>)
    requires c != []
    ensures ChainTo(found, tip) == c
       <==> (Linked(c) && c[|c| - 1].hash == tip && forall k :: 0 <= k < |c| ==> Answers(found, c[k]))
    ensures ChainTo(found, tip) == c ==> forall i, j :: 0 <= i < j < |c| ==> c[i].hash != c[j].hash
  {
    if ChainTo(found, tip) == c {
      ChainSound(found, tip);
    }
    if Linked(c) && c[|c| - 1].hash == tip && forall k :: 0 <= k < |c| ==> Answers(found, c[k]) {
      ChainComplete(found, tip, c);
    }
  }

  lemma ChainSound<T>(found: seq<FoundBlock<T>>, tip: Hash)
    requires ChainTo(found, tip) != []
    ensures var c := ChainTo(found, tip);
            && Linked(c)
            && c[|c| - 1].hash == tip
            && (forall k :: 0 <= k < |c| ==> Answers(found, c[k]))
            && (forall i, j :: 0 <= i < j < |c| ==> c[i].hash != c[j].hash)
  {
    PathIff(found, PathTo(found, tip), tip);
    PathFits(found, PathTo(found, tip), tip);
  }

  lemma ChainComplete<T>(found: seq<FoundBlock<T>>, tip: Hash, c: seq<FoundBlock<T>>)
    requires c != [] && Linked(c) && c[|c| - 1].hash == tip
    requires forall k :: 0 <= k < |c| ==> Answers(found, c[k])
    ensures ChainTo(found, tip) == c
  {
    var q := PositionsOf(found, c);
    assert IsPath(found, q, tip);
    PathIff(found, q, tip);
  }

  ghost function PositionsOf<T>(found: seq<FoundBlock<T>>, c: seq<FoundBlock<T>>): (q: seq<nat>)
    requires forall k :: 0 <= k < |c| ==> Answers(found, c[k])
    ensures |q| == |c|
    ensures forall k :: 0 <= k < |c| ==> Lowest(found, c[k].hash) == Some(q[k])
    ensures forall k :: 0 <= k < |c| ==> q[k] < |found|
    ensures forall k :: 0 <= k < |c| ==> found[q[k]] == c[k]
  {
    seq(|c|, k requires 0 <= k < |c| && Answers(found, c[k]) => Lowest(found, c[k].hash).value)
  }

  lemma {:induction false} LowestOfPrefix<T>(found: seq<FoundBlock<T>>, more: seq<FoundBlock<T>>, n: nat, h: Hash)
    requires n <= |found|
    ensures LowestOf(found + more, n, h) == LowestOf(found, n, h)
  {
    if n > 0 { LowestOfPrefix(found, more, n - 1, h); }
  }

  /** A block appended later never answers for a hash that was already stored. */
  lemma {:induction false} AppendKeepsAnswers<T>(found: seq<FoundBlock<T>>, more: seq<FoundBlock<T>>, n: nat, h: Hash)
    requires |found| <= n <= |found| + |more|
    requires forall x, y :: x in found && y in more ==> x.index <= y.index
    requires Lowest(found, h).Some?
    ensures LowestOf(found + more, n, h) == Lowest(found, h)
  {
    if n == |found| {
      LowestOfPrefix(found, more, n, h);
    } else {
      AppendKeepsAnswers(found, more, n - 1, h);
      assert (found + more)[n - 1] in more;
      assert found[Lowest(found, h).value] in found;
    }
  }

  /** Appending blocks to the store never changes a chain that was complete before. */
  lemma AppendKeepsChain<T>(found: seq<FoundBlock<T>>, more: seq<FoundBlock<T>>, tip: Hash)
    requires forall x, y :: x in found && y in more ==> x.index <= y.index
    requires ChainTo(found, tip) != []
    ensures ChainTo(found + more, tip) == ChainTo(found, tip)
  {
    var c := ChainTo(found, tip);
    ChainIff(found, tip, c);
    forall k | 0 <= k < |c| ensures Answers(found + more, c[k]) {
      assert Answers(found, c[k]);
      AppendKeepsAnswers(found, more, |found + more|, c[k].hash);
    }
    ChainIff(found + more, tip, c);
  }

  /** A stored block on top of a chain, or at the root, is the tip of the longer chain. */
  lemma ChainExtends<T>(found: seq<FoundBlock<T>>, c: seq<FoundBlock<T>>, b: FoundBlock<T>)
    requires Answers(found, b) && b.height == |c| + 1
    requires if c == [] then b.prev == ZERO else b.prev != ZERO && ChainTo(found, b.prev) == c
    ensures ChainTo(found, b.hash) == c + [b]
  {
    hide ChainTo;
    hide Answers;
    if c != [] { ChainSound(found, b.prev); }
    ChainComplete(found, b.hash, c + [b]);
  }

  /** A chain cut at one of its blocks is the chain that ends there. */
  lemma ChainPrefix<T>(found: seq<FoundBlock<T>>, tip: Hash, k: nat)
    requires k < |ChainTo(found, tip)|
    ensures ChainTo(found, ChainTo(found, tip)[k].hash) == ChainTo(found, tip)[..k + 1]
  {
    hide ChainTo;
    hide Answers;
    ChainSound(found, tip);
    var c := ChainTo(found, tip);
    ChainComplete(found, c[k].hash, c[..k + 1]);
  }

  // ---- choose_longest_chain ----

  /** Height of the complete chain that ends at the hash of position `j`; 0 when there is none. */
  ghost function Tall<T>(found: seq<FoundBlock<T>>, j: nat): nat
    requires j < |found|
  {
    |ChainTo(found, found[j].hash)|
  }

  /**
   * The best of the first `n` positions so far: a greater height, or an equal one with a lower store
   * index, replaces it.
   */
  ghost function BestOf<T>(found: seq<FoundBlock<T>>, n: nat): (r: Option<nat>)
    requires n <= |found|
    ensures r.Some? ==> r.value < n
  {
    if n == 0 then None else
    var r, h := BestOf(found, n - 1), Tall(found, n - 1);
    if h > 0 && (r.None? || h > Tall(found, r.value)
                 || (h == Tall(found, r.value) && found[n - 1].index < found[r.value].index))
    then Some(n - 1) else r
  }

  ghost function LongestChain<T>(found: seq<FoundBlock<T>>): seq<FoundBlock<T>> {
    match BestOf(found, |found|)
    case None => []
    case Some(i) => ChainTo(found, found[i].hash)
  }

  /** The best position has a chain, none has a longer one, and none as long has a lower store index. */
  lemma {:induction false} BestMeans<T>(found: seq<FoundBlock<T>>, n: nat)
    requires n <= |found|
    ensures var r := BestOf(found, n);
            && (r.None? <==> forall j :: 0 <= j < n ==> Tall(found, j) == 0)
            && (r.Some? ==> Tall(found, r.value) > 0 && forall j :: 0 <= j < n ==>
                    Tall(found, j) < Tall(found, r.value)
                    || (Tall(found, j) == Tall(found, r.value) && found[r.value].index <= found[j].index))
  {
    hide Tall;
    if n > 0 { BestMeans(found, n - 1); }
  }

  /** No hash whatever has a longer chain than the one chosen. */
  lemma LongestIsLongest<T>(found: seq<FoundBlock<T>>, tip: Hash)
    ensures |ChainTo(found, tip)| <= |LongestChain(found)|
    ensures LongestChain(found) != [] ==>
              exists i :: 0 <= i < |found| && LongestChain(found) == ChainTo(found, found[i].hash)
  {
    hide BestOf;
    hide PathTo;
    BestMeans(found, |found|);
    var p := PathTo(found, tip);
    if p != [] {
      PathIff(found, p, tip);
      assert Tall(found, p[|p| - 1]) == |ChainTo(found, tip)|;
    }
  }

  /** `chain.back().height` for the chain ending at one found block, or 0 where the scan skips it. */
  method ChainHeight<T>(found: seq<FoundBlock<T>>, i: nat) returns (height: nat)
    requires i < |found|
    ensures height == Tall(found, i)
  {
    var chain := ChainEndingAt(found, found[i].hash);
    if chain != [] { ChainSound(found, found[i].hash); }
    height := if chain == [] || chain[|chain| - 1].height != |chain| then 0 else chain[|chain| - 1].height;
  }

  /**
   * `choose_longest_chain`: a tallest complete chain, ties to the lowest store index; empty only when
   * no block has one.
   */
  method ChooseLongestChain<T>(found: seq<FoundBlock<T>>) returns (chain: seq<FoundBlock<T>>)
    ensures chain == LongestChain(found)
  {
    hide Tall;
    var best := |found|;
    var bestHeight: nat, bestIndex: nat := 0, 0;
    for i := 0 to |found|
      invariant best == |found| <==> BestOf(found, i).None?
      invariant best != |found| ==>
                  BestOf(found, i) == Some(best) && bestHeight == Tall(found, best) && bestIndex == found[best].index
    {
      var height := ChainHeight(found, i);
      var better := height > bestHeight || (height == bestHeight && found[i].index < bestIndex);
      if height > 0 && (best == |found| || better) {
        best, bestHeight, bestIndex := i, height, found[i].index;
      }
    }
    if best == |found| {
      return [];
    }
    chain := ChainEndingAt(found, found[best].hash);
  }
}
