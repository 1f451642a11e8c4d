/** Runs of the node: any sequence of submissions, adoptions, replays and restarts. */
module NodeRuns {
  import opened Types
  import opened Freshness
  import opened Chain
  import opened Node
  import opened NodeInvariant
  import opened NodeReplay
  import opened NodeAdopt

  datatype Step =
    | SubmitStep(env: Env, block: Block)
    | AdoptStep(envs: seq<Env>, ancestor: Hash, blocks: seq<Block>)
    | ReplayStep(tip: Hash)
    | RestartStep

  predicate Sized(step: Step) { step.AdoptStep? ==> |step.envs| == |step.blocks| }

  ghost predicate AllSized(steps: seq<Step>) { forall i :: 0 <= i < |steps| ==> Sized(steps[i]) }

  ghost predicate StepOk(K: Oracle, W: World, step: Step) {
    match step
    case SubmitStep(_, b) => MayStore(K, W, b)
    case AdoptStep(_, _, blocks) => Sized(step) && AllMayStore(K, W, blocks)
    case ReplayStep(_) => true
    case RestartStep => true
  }

  /** One locked RPC, or a restart, as one atomic step. `Lost` and `Broken` have no defined state and do not occur. */
  ghost function After(K: Oracle, n: NodeState, step: Step): NodeState
    requires Sized(step)
  {
    match step
    case SubmitStep(env, b) => Submit(K, env, n, b)
    case AdoptStep(envs, ancestor, blocks) =>
      (match Adopt(K, envs, n, ancestor, blocks) case Kept(m) => m case Adopted(m) => m case Lost => START)
    case ReplayStep(tip) =>
      (match ReplayTo(n, tip) case Replayed(m) => m case NoChain => n case Broken => START)
    case RestartStep =>
      (match Restart(n) case Replayed(m) => m case NoChain => n case Broken => START)
  }

  ghost function RunTo(K: Oracle, steps: seq<Step>, k: nat): NodeState
    requires AllSized(steps) && k <= |steps|
  {
    if k == 0 then START else After(K, RunTo(K, steps, k - 1), steps[k - 1])
  }

  /** Every block accepted in this step does what the copy of it stored first does. */
  ghost predicate StepAgrees(K: Oracle, W: World, n: NodeState, step: Step)
    requires Sized(step)
  {
    match step
    case SubmitStep(env, b) => Agrees(K, W, env, n, b)
    case AdoptStep(envs, ancestor, blocks) => AdoptAgrees(K, W, envs, n, ancestor, blocks)
    case ReplayStep(_) => true
    case RestartStep => true
  }

  ghost predicate Restarted(steps: seq<Step>, k: nat)
    requires k <= |steps|
  {
    exists j :: 0 <= j < k && steps[j].RestartStep?
  }

  /**
   * A run of `k` steps, with one condition after the first restart. The hash index then lacks side
   * branches, so a stored block can be accepted again; it must do what the copy stored first does: in an
   * exact world to the last value, otherwise only as far as header, ids and committed fields go.
   */
  ghost predicate RunOk(K: Oracle, W: World, steps: seq<Step>, k: nat)
    requires k <= |steps|
  {
    && AllSized(steps) && (forall i :: 0 <= i < |steps| ==> StepOk(K, W, steps[i]))
    && (forall j :: 0 <= j < k && Restarted(steps, j) ==> StepAgrees(K, W, RunTo(K, steps, j), steps[j]))
  }

  /** The active chain, read off the state. */
  ghost function ActiveChain(n: NodeState): seq<Block> {
    if n.heights == [] then [] else ChainAt(n.store, n.bestHash)
  }

  lemma ActiveIs(K: Oracle, W: World, n: NodeState, c: seq<Block>)
    requires NodeInv(K, W, n, c)
    ensures c == ActiveChain(n)
  {
    hide ChainAt;
    hide Replay;
    hide StoreGood;
    hide GoodChain;
    hide Indexed;
    hide Listed;
    hide Alike;
  }

  /**
   * Every step keeps the invariant; only an explicit replay may lower the tip, and only a restart may
   * thin the index.
   */
  lemma StepKeeps(K: Oracle, W: World, n: NodeState, c: seq<Block>, step: Step) returns (d: seq<Block>)
    requires CollisionFree(K.sha, W.corpus) && NodeInv(K, W, n, c)
    requires Sized(step) && StepOk(K, W, step) && StepAgrees(K, W, n, step)
    ensures NodeInv(K, W, After(K, n, step), d)
    ensures !step.ReplayStep? ==> |d| >= |c|
    ensures !step.RestartStep? ==> Appended(n, After(K, n, step))
  {
    hide NodeInv;
    hide ReplayTo;
    hide Restart;
    hide RestoredChain;
    hide Adopt;
    hide Submit;
    hide SubmitOutcome;
    hide ChainAt;
    hide CollisionFree;
    hide MayStore;
    hide AllMayStore;
    hide Agrees;
    hide AdoptAgrees;
    hide NotStored;
    hide Appended;
    hide Active;
    match step
    case SubmitStep(env, b) =>
      SubmitKeeps(K, W, env, n, c, b);
      SubmitAppends(K, env, n, b);
      d := ChainAfter(K, env, n, c, b);
    case AdoptStep(envs, ancestor, blocks) =>
      d := AdoptKeeps(K, W, envs, n, c, ancestor, blocks);
    case ReplayStep(tip) =>
      ReplayCases(K, W, n, c, tip);
      d := if ReplayTo(n, tip).Replayed? then ChainAt(n.store, tip) else c;
    case RestartStep =>
      RestartWorks(K, W, n, c);
      d := RestoredChain(n);
  }

  lemma ReplayCases(K: Oracle, W: World, n: NodeState, c: seq<Block>, tip: Hash)
    requires CollisionFree(K.sha, W.corpus) && NodeInv(K, W, n, c)
    ensures !ReplayTo(n, tip).Broken? && Appended(n, n)
    ensures ReplayTo(n, tip).Replayed? ==>
              NodeInv(K, W, ReplayTo(n, tip).node, ChainAt(n.store, tip)) && Appended(n, ReplayTo(n, tip).node)
  {
    hide NodeInv;
    hide ReplayTo;
    hide ChainAt;
    hide CollisionFree;
    hide NotStored;
    hide Active;
    ReplayWorks(K, W, n, c, tip);
    if ReplayTo(n, tip).Replayed? { ReplaysAppend(K, W, n, ReplayTo(n, tip).node, tip); }
  }

  /** While every stored block is indexed there is nothing to disagree with. */
  lemma FullIndexStepAgrees(K: Oracle, W: World, n: NodeState, c: seq<Block>, step: Step)
    requires CollisionFree(K.sha, W.corpus) && NodeInv(K, W, n, c) && FullIndex(n) && Sized(step)
    ensures StepAgrees(K, W, n, step)
  {
    hide NodeInv;
    hide Agrees;
    hide FeedAgrees;
    hide FullIndex;
    hide CollisionFree;
    hide ReplaysTo;
    hide Appended;
    hide StartOf;
    match step
    case SubmitStep(env, b) =>
      FullIndexAgrees(K, W, env, n, b);
    case AdoptStep(envs, ancestor, blocks) =>
      AdoptStart(K, W, n, c, ancestor);
      if StartOf(n, ancestor).Replayed? {
        AppendedFull(n, StartOf(n, ancestor).node);
        FullIndexFeeds(K, W, envs, StartOf(n, ancestor).node, blocks);
      }
    case ReplayStep(_) =>
    case RestartStep =>
  }

  lemma RestartedGrows(steps: seq<Step>, k: nat)
    requires 0 < k <= |steps| && !Restarted(steps, k)
    ensures !Restarted(steps, k - 1) && !steps[k - 1].RestartStep?
  {
  }

  /** What a run says of its next step. */
  lemma NextStepOk(K: Oracle, W: World, steps: seq<Step>, k: nat)
    requires k < |steps| && RunOk(K, W, steps, k + 1)
    ensures RunOk(K, W, steps, k) && Sized(steps[k]) && StepOk(K, W, steps[k])
    ensures Restarted(steps, k) ==> StepAgrees(K, W, RunTo(K, steps, k), steps[k])
  {
    hide Restarted;
    hide RunTo;
    hide StepAgrees;
    hide StepOk;
  }

  /**
   * In every run of submissions, adoptions, replays and restarts from an empty store, the incrementally
   * kept tip, height index, UTXO set and flags are what a plain replay of the active stored chain gives,
   * and every stored block tops a chain that replays. Until the first restart every stored block is indexed.
   */
  lemma {:induction false} EveryRunKeepsInv(K: Oracle, W: World, steps: seq<Step>, k: nat)
    requires CollisionFree(K.sha, W.corpus) && k <= |steps| && RunOk(K, W, steps, k)
    ensures NodeInv(K, W, RunTo(K, steps, k), ActiveChain(RunTo(K, steps, k)))
    ensures !Restarted(steps, k) ==> FullIndex(RunTo(K, steps, k))
  {
    hide NodeInv;
    hide After;
    hide ActiveChain;
    hide CollisionFree;
    hide StepOk;
    hide StepAgrees;
    hide Restarted;
    hide FullIndex;
    hide Appended;
    if k == 0 {
      StartInv(K, W);
      ActiveIs(K, W, START, []);
    } else {
      NextStepOk(K, W, steps, k - 1);
      EveryRunKeepsInv(K, W, steps, k - 1);
      var n, step := RunTo(K, steps, k - 1), steps[k - 1];
      if !Restarted(steps, k - 1) { FullIndexStepAgrees(K, W, n, ActiveChain(n), step); }
      var d := StepKeeps(K, W, n, ActiveChain(n), step);
      ActiveIs(K, W, After(K, n, step), d);
      if !Restarted(steps, k) {
        RestartedGrows(steps, k);
        AppendedFull(n, After(K, n, step));
      }
    }
  }

  /** Over any run of submissions, adoptions and restarts the tip height never falls. */
  lemma {:induction false} HeightNeverFalls(K: Oracle, W: World, steps: seq<Step>, j: nat, k: nat)
    requires CollisionFree(K.sha, W.corpus) && j <= k <= |steps| && RunOk(K, W, steps, k)
    requires forall i :: j <= i < k ==> !steps[i].ReplayStep?
    ensures RunTo(K, steps, j).bestHeight <= RunTo(K, steps, k).bestHeight
  {
    hide NodeInv;
    hide After;
    hide ActiveChain;
    hide CollisionFree;
    hide StepOk;
    hide StepAgrees;
    hide Restarted;
    hide FullIndex;
    hide Appended;
    if j < k {
      NextStepOk(K, W, steps, k - 1);
      HeightNeverFalls(K, W, steps, j, k - 1);
      EveryRunKeepsInv(K, W, steps, k - 1);
      var n, step := RunTo(K, steps, k - 1), steps[k - 1];
      if !Restarted(steps, k - 1) { FullIndexStepAgrees(K, W, n, ActiveChain(n), step); }
      var d := StepKeeps(K, W, n, ActiveChain(n), step);
      HeightIs(K, W, n, ActiveChain(n));
      HeightIs(K, W, After(K, n, step), d);
    }
  }
}
