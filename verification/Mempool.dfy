/** `mempool_txs`: parents before children, as far as the pool allows. */
module Mempool {
  import opened Types
  import opened Records

  /** Transaction `i` of the pool spends an output of transaction `j`. */
  ghost predicate Parent(txs: seq<Tx>, j: nat, i: nat) {
    && i < |txs| && j < |txs| && i != j
    && exists k :: 0 <= k < |txs[i].inputs| && txs[i].inputs[k].prev == txs[j].txid
  }

  /** `order` lists positions of the pool without repetition. */
  ghost predicate Listing(txs: seq<Tx>, order: seq<nat>) {
    Distinct(order) && forall k :: 0 <= k < |order| ==> order[k] < |txs|
  }

  /** Each listed transaction comes after every one of its parents in the pool. */
  ghost predicate ParentsFirst(txs: seq<Tx>, order: seq<nat>) {
    forall p, j: nat :: 0 <= p < |order| && Parent(txs, j, order[p]) ==> j in order[..p]
  }

  /** A walk along parents. */
  ghost predicate Ascent(txs: seq<Tx>, walk: seq<nat>) {
    && (forall k :: 0 <= k < |walk| ==> walk[k] < |txs|)
    && (forall a, b :: 0 <= a < b == a + 1 < |walk| ==> Parent(txs, walk[b], walk[a]))
  }

  ghost predicate Cyclic(txs: seq<Tx>) {
    exists walk :: |walk| > 1 && Ascent(txs, walk) && walk[0] == walk[|walk| - 1]
  }

  /** `ordered` is the pool in the order of the positions `order`, each exactly once. */
  ghost predicate Permutes(txs: seq<Tx>, order: seq<nat>, ordered: seq<Tx>) {
    Listing(txs, order) && |order| == |txs| && ordered == Pick(txs, order)
  }

  // ---- A pool that gets stuck has a cycle ----

  ghost predicate Stuck(txs: seq<Tx>, order: seq<nat>) {
    forall i: nat :: i < |txs| && i !in order ==> exists j: nat :: j < |txs| && j !in order && Parent(txs, j, i)
  }

  lemma StuckParent(txs: seq<Tx>, order: seq<nat>, i: nat) returns (j: nat)
    requires Stuck(txs, order) && i < |txs| && i !in order
    ensures j < |txs| && j !in order && Parent(txs, j, i)
  {
    hide Parent;
    j :| j < |txs| && j !in order && Parent(txs, j, i);
  }

  lemma {:induction false} Climb(txs: seq<Tx>, order: seq<nat>, i: nat, n: nat) returns (walk: seq<nat>)
    requires Stuck(txs, order) && i < |txs| && i !in order
    ensures |walk| == n + 1 && Ascent(txs, walk) && walk[|walk| - 1] !in order
  {
    hide Stuck;
    hide Parent;
    if n == 0 {
      walk := [i];
    } else {
      var w := Climb(txs, order, i, n - 1);
      var j := StuckParent(txs, order, w[|w| - 1]);
      walk := w + [j];
    }
  }

  /** A walk that comes back to a place has a cycle in it. */
  lemma AscentCut(txs: seq<Tx>, walk: seq<nat>, a: nat, b: nat)
    requires Ascent(txs, walk) && a < b < |walk| && walk[a] == walk[b]
    ensures Cyclic(txs)
  {
    hide Parent;
    var loop := walk[a..b + 1];
    forall i, k | 0 <= i < k == i + 1 < |loop| ensures Parent(txs, loop[k], loop[i]) {
      assert Parent(txs, walk[a + k], walk[a + i]);
    }
    assert Ascent(txs, loop) && loop[0] == loop[|loop| - 1];
  }

  lemma StuckIsCyclic(txs: seq<Tx>, order: seq<nat>, i: nat)
    requires Stuck(txs, order) && i < |txs| && i !in order
    ensures Cyclic(txs)
  {
    hide Stuck;
    hide Cyclic;
    var walk := Climb(txs, order, i, |txs|);
    if Distinct(walk) {
      Pigeonhole(walk, |txs|);
    } else {
      var a, b :| 0 <= a < b < |walk| && walk[a] == walk[b];
      AscentCut(txs, walk, a, b);
    }
  }

  /** Along a listing with parents first a walk to parents only moves left, so it never returns. */
  lemma {:induction false} WalkMovesLeft(txs: seq<Tx>, order: seq<nat>, walk: seq<nat>, p: nat, k: nat) returns (q: nat)
    requires ParentsFirst(txs, order) && Ascent(txs, walk) && k < |walk| && p < |order| && order[p] == walk[0]
    ensures q < |order| && order[q] == walk[k] && (k > 0 ==> q < p) && q <= p
  {
    if k == 0 {
      q := p;
    } else {
      var r := WalkMovesLeft(txs, order, walk, p, k - 1);
      assert Parent(txs, walk[k], walk[k - 1]);
      assert walk[k] in order[..r];
      q :| 0 <= q < r && order[..r][q] == walk[k];
    }
  }

  lemma PermutationHas(txs: seq<Tx>, order: seq<nat>, i: nat)
    requires Listing(txs, order) && |order| == |txs| && i < |txs|
    ensures i in order
  {
    if i !in order {
      var more := order + [i];
      assert Distinct(more);
      Pigeonhole(more, |txs|);
    }
  }

  lemma CyclicCannotSort(txs: seq<Tx>, order: seq<nat>)
    requires Listing(txs, order) && |order| == |txs| && Cyclic(txs)
    ensures !ParentsFirst(txs, order)
  {
    var walk :| |walk| > 1 && Ascent(txs, walk) && walk[0] == walk[|walk| - 1];
    if ParentsFirst(txs, order) {
      PermutationHas(txs, order, walk[0]);
      var p: nat :| p < |order| && order[p] == walk[0];
      var q := WalkMovesLeft(txs, order, walk, p, |walk| - 1);
    }
  }

  // ---- The loops ----

  /** Whether some unused transaction of the pool is a parent of `i`. */
  method Waiting(txs: seq<Tx>, used: array<bool>, i: nat) returns (waiting: bool)
    requires used.Length == |txs| && i < |txs|
    ensures waiting <==> exists j: nat :: j < |txs| && !used[j] && Parent(txs, j, i)
  {
    waiting := false;
    var inputs := txs[i].inputs;
    for k := 0 to |inputs|
      invariant waiting ==> exists j: nat :: j < |txs| && !used[j] && Parent(txs, j, i)
      invariant forall m, j: nat :: 0 <= m < k && j < |txs| && j != i && !used[j] ==>
                  txs[j].txid == inputs[m].prev ==> waiting
    {
      for j := 0 to |txs|
        invariant waiting ==> exists j: nat :: j < |txs| && !used[j] && Parent(txs, j, i)
        invariant forall m, j: nat :: 0 <= m < k && j < |txs| && j != i && !used[j] ==>
                    txs[j].txid == inputs[m].prev ==> waiting
        invariant forall l: nat :: l < j && l != i && !used[l] && txs[l].txid == inputs[k].prev ==> waiting
      {
        if i == j || used[j] {
          continue;
        }
        if txs[j].txid == inputs[k].prev {
          assert Parent(txs, j, i);
          waiting := true;
        }
      }
    }
  }

  ghost predicate Marks(used: array<bool>, order: seq<nat>)
    reads used
  {
    forall i: nat :: i < used.Length ==> (used[i] <==> i in order)
  }

  lemma AppendPlaced(txs: seq<Tx>, order: seq<nat>, i: nat)
    requires Listing(txs, order) && ParentsFirst(txs, order) && i < |txs| && i !in order
    requires forall j: nat :: Parent(txs, j, i) ==> j in order
    ensures Listing(txs, order + [i]) && ParentsFirst(txs, order + [i])
  {
    var more := order + [i];
    forall p, j: nat | 0 <= p < |more| && Parent(txs, j, more[p]) ensures j in more[..p] {
      if p < |order| {
        assert more[..p] == order[..p];
      } else {
        assert more[..p] == order;
      }
    }
  }

  /** One pass of the outer loop over the pool. */
  method Pass(txs: seq<Tx>, used: array<bool>, ghost order: seq<nat>, ordered: seq<Tx>)
    returns (more: seq<Tx>, progress: bool, ghost now: seq<nat>)
    requires used.Length == |txs| && Listing(txs, order) && ParentsFirst(txs, order) && Marks(used, order)
    requires ordered == Pick(txs, order)
    modifies used
    ensures Listing(txs, now) && ParentsFirst(txs, now) && Marks(used, now) && more == Pick(txs, now)
    ensures progress ==> |now| > |order|
    ensures !progress ==> now == order && Stuck(txs, order)
  {
    hide Parent;
    hide ParentsFirst;
    hide Distinct;
    more, progress, now := ordered, false, order;
    for i := 0 to |txs|
      invariant Listing(txs, now) && ParentsFirst(txs, now) && Marks(used, now) && more == Pick(txs, now)
      invariant progress ==> |now| > |order|
      invariant !progress ==> now == order
      invariant !progress ==>
                  forall k: nat :: k < i && k !in order ==>
                    exists j: nat :: j < |txs| && j !in order && Parent(txs, j, k)
    {
      if used[i] {
        continue;
      }
      var waiting := Waiting(txs, used, i);
      if !waiting {
        ParentsUsed(txs, used, now, i);
        AppendPlaced(txs, now, i);
        used[i] := true;
        more := more + [txs[i]];
        now := now + [i];
        progress := true;
      } else {
        ghost var j: nat :| j < |txs| && !used[j] && Parent(txs, j, i);
        assert j !in now;
      }
    }
  }

  lemma ParentsUsed(txs: seq<Tx>, used: array<bool>, order: seq<nat>, i: nat)
    requires used.Length == |txs| && Marks(used, order)
    requires !exists j: nat :: j < |txs| && !used[j] && Parent(txs, j, i)
    ensures forall j: nat :: Parent(txs, j, i) ==> j in order
  {
  }

  /**
   * `mempool_txs`: always a permutation of the pool. It puts every transaction after all its parents
   * in the pool exactly when the pool has no dependency cycle, and it terminates either way.
   */
  method OrderPool(txs: seq<Tx>) returns (ordered: seq<Tx>)
    ensures exists order :: Permutes(txs, order, ordered) && (ParentsFirst(txs, order) <==> !Cyclic(txs))
  {
    hide Parent;
    hide ParentsFirst;
    hide Cyclic;
    hide Stuck;
    var used := new bool[|txs|](_ => false);
    ordered := [];
    ghost var order: seq<nat> := [];
    NothingListed(txs);
    var progress := true;
    while |ordered| < |txs| && progress
      invariant Listing(txs, order) && ParentsFirst(txs, order) && Marks(used, order) && ordered == Pick(txs, order)
      invariant !progress ==> Stuck(txs, order)
      decreases |txs| - |ordered|, progress
    {
      ListingFits(txs, order);
      ordered, progress, order := Pass(txs, used, order, ordered);
      ListingFits(txs, order);
    }
    ghost var placed := order;
    ordered, order := AppendRest(txs, used, order, ordered);
    PermutationSize(txs, order);
    Conclude(txs, placed, order);
    assert Permutes(txs, order, ordered);
  }

  /** The final loop: what is still unused goes to the end. */
  method AppendRest(txs: seq<Tx>, used: array<bool>, ghost order: seq<nat>, ordered: seq<Tx>)
      returns (all: seq<Tx>, ghost full: seq<nat>)
    requires used.Length == |txs| && Listing(txs, order) && Marks(used, order) && ordered == Pick(txs, order)
    ensures Listing(txs, full) && all == Pick(txs, full) && order <= full
    ensures forall i: nat :: i < |txs| ==> i in full
    ensures (forall i: nat :: i < |txs| ==> i in order) ==> full == order
  {
    all, full := ordered, order;
    for i := 0 to |txs|
      invariant Listing(txs, full) && all == Pick(txs, full) && order <= full
      invariant forall k: nat :: k < i ==> k in full
      invariant forall k: nat :: k in full ==> k in order || k < i
      invariant (forall k: nat :: k < |txs| ==> k in order) ==> full == order
    {
      if !used[i] {
        all := all + [txs[i]];
        full := full + [i];
        assert full[|full| - 1] == i;
      }
    }
  }

  lemma NothingListed(txs: seq<Tx>)
    ensures ParentsFirst(txs, [])
  {
  }

  lemma ListingFits(txs: seq<Tx>, order: seq<nat>)
    requires Listing(txs, order)
    ensures |order| <= |txs|
  {
    Pigeonhole(order, |txs|);
  }

  lemma PermutationSize(txs: seq<Tx>, order: seq<nat>)
    requires Listing(txs, order) && forall i: nat :: i < |txs| ==> i in order
    ensures |order| == |txs|
  {
    ListingFits(txs, order);
    SizeOfDistinct(order);
    var members := set k | 0 <= k < |order| :: order[k];
    forall i: nat | i < |txs| ensures i in members {
      assert i in order;
    }
    assert Below(|txs|) <= members;
    SubsetSize(Below(|txs|), members);
  }

  lemma Conclude(txs: seq<Tx>, placed: seq<nat>, order: seq<nat>)
    requires Listing(txs, placed) && ParentsFirst(txs, placed) && (|placed| == |txs| || Stuck(txs, placed))
    requires Listing(txs, order) && |order| == |txs| && placed <= order
    requires (forall i: nat :: i < |txs| ==> i in placed) ==> order == placed
    ensures ParentsFirst(txs, order) <==> !Cyclic(txs)
  {
    hide Parent;
    hide ParentsFirst;
    hide Cyclic;
    hide Stuck;
    hide Distinct;
    if Cyclic(txs) {
      CyclicCannotSort(txs, order);
    } else if |placed| == |txs| {
      assert placed == order;
    } else if i: nat :| i < |txs| && i !in placed {
      StuckIsCyclic(txs, placed, i);
    }
  }
}
