/** What the tip and the indexes are after any sequence of stored or re-indexed blocks, reachable or not. */
module Tips {
  import opened Types
  import opened Ledger
  import opened Chain
  import opened Node

  /** `store_block_with_header` for each block in turn. */
  function StoreAll(n: NodeState, blocks: seq<Block>, k: nat): NodeState
    requires k <= |blocks|
  {
    if k == 0 then n else StoreBlock(StoreAll(n, blocks, k - 1), blocks[k - 1])
  }

  /** `index_existing_block` for each block in turn, at its own position. */
  function IndexAll(n: NodeState, blocks: seq<Block>, k: nat): NodeState
    requires k <= |blocks|
  {
    if k == 0 then n else IndexExisting(IndexAll(n, blocks, k - 1), k - 1, blocks[k - 1])
  }

  /** Block `j` is the first of the first `k` that none of them exceeds in height. */
  ghost predicate FirstHighest(blocks: seq<Block>, k: nat, j: nat) {
    && j < k <= |blocks|
    && (forall i :: 0 <= i < k ==> blocks[i].height <= blocks[j].height)
    && (forall i :: 0 <= i < j ==> blocks[i].height < blocks[j].height)
  }

  /** Slot `h` holds the last of the first `k` blocks at that height, or the zero hash. */
  ghost predicate SlotIs(blocks: seq<Block>, k: nat, h: nat, hash: Hash)
    requires k <= |blocks|
  {
    || (hash == ZERO && forall i :: 0 <= i < k ==> blocks[i].height != h)
    || (exists j :: 0 <= j < k && blocks[j].height == h && blocks[j].hash == hash
                 && forall i :: j < i < k ==> blocks[i].height != h)
  }

  ghost predicate SlotsAre(blocks: seq<Block>, k: nat, heights: seq<Hash>)
    requires k <= |blocks|
  {
    && (forall h :: 0 <= h < |heights| ==> SlotIs(blocks, k, h, heights[h]))
    && (forall i :: 0 <= i < k ==> blocks[i].height < |heights|)
  }

  lemma SlotSet(blocks: seq<Block>, k: nat, heights: seq<Hash>)
    requires k < |blocks| && SlotsAre(blocks, k, heights)
    ensures SlotsAre(blocks, k + 1, SetHeight(heights, blocks[k].height, blocks[k].hash))
  {
    var r, b := SetHeight(heights, blocks[k].height, blocks[k].hash), blocks[k];
    forall h | 0 <= h < |r| ensures SlotIs(blocks, k + 1, h, r[h]) {
      if h == b.height {
        assert blocks[k].height == h && blocks[k].hash == r[h];
      } else if h < |heights| {
        assert r[h] == heights[h] && SlotIs(blocks, k, h, heights[h]);
      } else {
        assert r[h] == ZERO;
      }
    }
  }

  /** Position `p` is the last of the first `k` with its hash. */
  ghost predicate Latest(blocks: seq<Block>, k: nat, p: nat) {
    p < k <= |blocks| && forall q :: p < q < k ==> blocks[q].hash != blocks[p].hash
  }

  /** The hash index has the last position of every hash, and the header cache its header. */
  ghost predicate IndexIs(blocks: seq<Block>, k: nat, n: NodeState) {
    forall p: nat :: Latest(blocks, k, p) ==>
      && blocks[p].hash in n.indexOf && n.indexOf[blocks[p].hash] == p
      && blocks[p].hash in n.headers && n.headers[blocks[p].hash] == HeaderOf(blocks[p])
  }

  lemma IndexSet(blocks: seq<Block>, k: nat, n: NodeState, m: NodeState)
    requires k < |blocks| && IndexIs(blocks, k, n) && m.indexOf == n.indexOf[blocks[k].hash := k]
    requires m.headers == n.headers[blocks[k].hash := HeaderOf(blocks[k])]
    ensures IndexIs(blocks, k + 1, m)
  {
    hide HeaderOf;
    forall p: nat | Latest(blocks, k + 1, p) && p < k
      ensures Latest(blocks, k, p) && blocks[p].hash != blocks[k].hash
    {
    }
  }

  /** The first highest of one block more. */
  lemma HighestStep(blocks: seq<Block>, k: nat, j: nat)
    requires k < |blocks| && (k == 0 || FirstHighest(blocks, k, j))
    ensures FirstHighest(blocks, k + 1, if k == 0 || blocks[k].height > blocks[j].height then k else j)
  {
  }

  lemma NothingYet(blocks: seq<Block>, n: NodeState)
    requires n.heights == []
    ensures SlotsAre(blocks, 0, n.heights) && IndexIs(blocks, 0, n)
  {
  }

  /** Storing from nothing: a height slot holds the last block of its height, the hash index the last of each hash. */
  lemma {:induction false} StoredIndexes(blocks: seq<Block>, k: nat)
    requires k <= |blocks|
    ensures var n := StoreAll(START, blocks, k);
            n.store == blocks[..k] && SlotsAre(blocks, k, n.heights) && IndexIs(blocks, k, n) && n.ledger == EMPTY
  {
    hide SetHeight;
    hide HeaderOf;
    hide SlotsAre;
    hide IndexIs;
    if k == 0 {
      NothingYet(blocks, START);
    } else {
      StoredIndexes(blocks, k - 1);
      var n := StoreAll(START, blocks, k - 1);
      SlotSet(blocks, k - 1, n.heights);
      IndexSet(blocks, k - 1, n, StoreAll(START, blocks, k));
      assert blocks[..k] == blocks[..k - 1] + [blocks[k - 1]];
    }
  }

  /** And the tip is the first highest block, if that is above zero: a block of the same height never replaces it. */
  lemma {:induction false} StoredTip(blocks: seq<Block>, k: nat) returns (j: nat)
    requires k <= |blocks|
    ensures var n := StoreAll(START, blocks, k);
            if k == 0 then n == START else
            && FirstHighest(blocks, k, j) && n.bestHeight == blocks[j].height
            && n.bestHash == if blocks[j].height > 0 then blocks[j].hash else ZERO
  {
    hide SetHeight;
    hide HeaderOf;
    j := 0;
    if k > 0 {
      j := StoredTip(blocks, k - 1);
      HighestStep(blocks, k - 1, j);
      if k == 1 || blocks[k - 1].height > blocks[j].height { j := k - 1; }
    }
  }

  /** Re-indexing on an emptied active chain: the same for slots and hashes, and no hash is taken out of the index. */
  lemma {:induction false} ReindexedIndexes(n: NodeState, blocks: seq<Block>, k: nat)
    requires k <= |blocks|
    ensures var m := IndexAll(Reset(n), blocks, k);
            && m.store == n.store && SlotsAre(blocks, k, m.heights) && IndexIs(blocks, k, m) && m.ledger == EMPTY
            && n.indexOf.Keys <= m.indexOf.Keys && n.headers.Keys <= m.headers.Keys
  {
    hide SetHeight;
    hide HeaderOf;
    hide SlotsAre;
    hide IndexIs;
    if k == 0 {
      NothingYet(blocks, Reset(n));
    } else {
      ReindexedIndexes(n, blocks, k - 1);
      var m := IndexAll(Reset(n), blocks, k - 1);
      SlotSet(blocks, k - 1, m.heights);
      IndexSet(blocks, k - 1, m, IndexAll(Reset(n), blocks, k));
    }
  }

  /** And the tip is the first highest block, at height zero too. */
  lemma {:induction false} ReindexedTip(n: NodeState, blocks: seq<Block>, k: nat) returns (j: nat)
    requires k <= |blocks| && forall i :: 0 <= i < |blocks| ==> blocks[i].hash != ZERO
    ensures var m := IndexAll(Reset(n), blocks, k);
            if k == 0 then m == Reset(n) else
            FirstHighest(blocks, k, j) && m.bestHeight == blocks[j].height && m.bestHash == blocks[j].hash
  {
    hide SetHeight;
    hide HeaderOf;
    j := 0;
    if k > 0 {
      j := ReindexedTip(n, blocks, k - 1);
      HighestStep(blocks, k - 1, j);
      if k == 1 || blocks[k - 1].height > blocks[j].height { j := k - 1; }
    }
  }
}
