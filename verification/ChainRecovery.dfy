/** Starting a node on what it left on disk. */
module ChainRecovery {
  import opened Util
  import opened Keys
  import opened OrderedDb
  import opened BlockStore
  import opened Smirk
  import opened Ledger
  import opened Chain
  import opened ChainRuns
  import opened ChainCollision

  datatype Load = Loaded(state: NodeState) | LoadPanics | LoadFails

  /** `load_db_and_smirk`: compare the tree's root with the last block's, then with the block's
    before it; give up and start from genesis when neither fits. */
  function LoadNode(root: Root, db: Database, tree: set<Element>): Load {
    match GetMaxHeight(db)
    case None => Loaded(NodeState(db, {}))
    case Some(max) =>
      match GetBlock(db, max) {
        case None => LoadPanics
        case Some(b) =>
          if root(tree) == b.root then Loaded(NodeState(db, tree))
          else if max == 0 then LoadPanics
          else match GetBlock(db, max - 1) {
            case None => LoadPanics
            case Some(previous) =>
              if root(tree) == previous.root then Reapply(root, db, tree, b) else Loaded(NodeState(Created(), {}))
          }
      }
  }

  /** The recovery branch: apply the last block again and check the root. */
  function Reapply(root: Root, db: Database, tree: set<Element>, b: Block): Load {
    match ApplyToTree(tree, b)
    case Done(t) => if root(t) == b.root then Loaded(NodeState(db, t)) else LoadPanics
    case Collision => LoadFails
    case Panicked => LoadPanics
  }

  /** The block the recovery branch applies again: the last one, where the tree's root is the block's before it. */
  ghost predicate Recovers(root: Root, db: Database, tree: set<Element>, b: Block) {
    var max := GetMaxHeight(db);
    && max.Some? && max.value > 0
    && GetBlock(db, max.value) == Some(b) && GetBlock(db, max.value - 1).Some?
    && root(tree) == GetBlock(db, max.value - 1).value.root != b.root
  }

  /** What a node that starts holds, whatever database and tree it finds: nothing at all, or its database with a tree
    that has the last block's root, its own or the one the last block makes of it. Only a taken path met by that
    block is an error. */
  lemma StartedTreeFits(root: Root, db: Database, tree: set<Element>)
    ensures var r := LoadNode(root, db, tree);
      && (r.Loaded? && r.state.db == db && GetMaxHeight(db).Some? && r.state != NodeState(Created(), {}) ==>
            var b := GetBlock(db, GetMaxHeight(db).value);
            && b.Some? && root(r.state.tree) == b.value.root
            && (r.state.tree == tree || (Recovers(root, db, tree, b.value) && ApplyToTree(tree, b.value) == Done(r.state.tree))))
      && (r.Loaded? && r.state.db != db ==> r.state == NodeState(Created(), {}))
      && (r.LoadFails? <==> exists b :: Recovers(root, db, tree, b) && ApplyToTree(tree, b).Collision?)
  {
    hide GetMaxHeight, GetBlock, ApplyToTree, Created;
    var max := GetMaxHeight(db);
    if max.Some? && GetBlock(db, max.value).Some? {
      var b := GetBlock(db, max.value).value;
      assert Recovers(root, db, tree, b) ==> LoadNode(root, db, tree) == Reapply(root, db, tree, b);
    }
  }

  /** Start-up panics exactly when the last block is missing, or the roots differ and the block before it is missing,
    or the last block applied again panics or gives another root. */
  lemma LoadPanicsExactly(root: Root, db: Database, tree: set<Element>)
    ensures var max := GetMaxHeight(db);
      LoadNode(root, db, tree).LoadPanics? <==>
        && max.Some?
        && (|| GetBlock(db, max.value).None?
            || (&& root(tree) != GetBlock(db, max.value).value.root
                && (|| max.value == 0
                    || GetBlock(db, max.value - 1).None?
                    || (&& Recovers(root, db, tree, GetBlock(db, max.value).value)
                        && var t := ApplyToTree(tree, GetBlock(db, max.value).value);
                           t.Panicked? || (t.Done? && root(t.tree) != GetBlock(db, max.value).value.root)))))
  {
    hide GetMaxHeight, GetBlock, ApplyToTree, Created;
  }

  /** Blocks as the node commits them: heights count up from one. */
  ghost predicate Consecutive(blocks: seq<Block>) {
    forall i :: 0 <= i < |blocks| ==> blocks[i].height == i + 1
  }

  lemma {:induction false} ConsecutiveMax(blocks: seq<Block>)
    requires Consecutive(blocks)
    ensures GetMaxHeight(StoreAll(blocks)).None? <==> blocks == []
    ensures blocks != [] ==> GetMaxHeight(StoreAll(blocks)) == Some(blocks[|blocks| - 1].height)
    decreases |blocks|
  {
    hide GetMaxHeight, StoreAll;
    MaxIsHighest(blocks);
    HighestIsMax(blocks);
  }

  lemma ConsecutiveGet(blocks: seq<Block>, h: U64)
    requires Consecutive(blocks)
    ensures GetBlock(StoreAll(blocks), h) == if 1 <= h <= |blocks| then Some(blocks[h - 1]) else None
  {
    hide Lookup, StoreAll;
    LookupsAreScans(blocks, Key.Block(h));
    LastBlockFinds(blocks, HasHeight(h));
    var found := LastBlock(blocks, HasHeight(h));
    if found.Some? {
      var i :| 0 <= i < |blocks| && blocks[i] == found.value;
    }
    if 1 <= h <= |blocks| {
      assert HasHeight(h)(blocks[h - 1]);
    }
  }

  // ---------------------------------------------------------------------------------------
  // What start-up does
  // ---------------------------------------------------------------------------------------

  /** Start-up on stored blocks and any tree at all: the two roots it compares decide. */
  lemma LoadByRoots(root: Root, blocks: seq<Block>, tree: set<Element>)
    requires Consecutive(blocks) && blocks != []
    ensures var n := |blocks| - 1;
      LoadNode(root, StoreAll(blocks), tree) ==
        if root(tree) == blocks[n].root then Loaded(NodeState(StoreAll(blocks), tree))
        else if n == 0 then LoadPanics
        else if root(tree) == blocks[n - 1].root then Reapply(root, StoreAll(blocks), tree, blocks[n])
        else Loaded(NodeState(Created(), {}))
  {
    hide StoreAll, GetMaxHeight, GetBlock, Reapply, Created;
    var b := blocks[|blocks| - 1];
    ConsecutiveMax(blocks);
    ConsecutiveGet(blocks, b.height);
    ConsecutiveGet(blocks, b.height - 1);
  }

  /** The last block of a run that fits leaves its own root; the first block always fits. */
  lemma LastRoot(env: Env, blocks: seq<Block>)
    requires Validated(env, blocks) && blocks != []
    ensures FitsPaths(blocks, |blocks| - 1) ==> env.root(RunState(blocks).tree) == blocks[|blocks| - 1].root
    ensures |blocks| == 1 ==> FitsPaths(blocks, 0)
  {
    hide ValidateTxn, Leaves, StoreAll, BlockOutputs, BlockInputs, GetHistory, Lsb, OnePerPath, CommitBlock, RunState;
    var n := |blocks| - 1;
    var before, b := blocks[..n], blocks[n];
    LastOfRun(env, blocks);
    var tree := RunState(before).tree;
    ToSetMember(BlockOutputs(b));
    ToSetMember(BlockInputs(b));
    if FitsPaths(blocks, n) {
      RootWithIsRoot(env.root, tree, ToSet(BlockOutputs(b)), ToSet(BlockInputs(b)));
    }
    OutputsApart(env, b, RunState(before).db, tree);
    if n == 0 {
      NothingRun();
      assert {} + ToSet(BlockOutputs(b)) == ToSet(BlockOutputs(b));
    }
  }

  lemma NothingRun()
    ensures RunState([]).tree == {}
  {
    hide StoreAll;
  }

  /** The outputs of a valid block have different paths. */
  lemma OutputsApart(env: Env, b: Block, db: Database, tree: set<Element>)
    requires ValidBlock(env, b, db, tree)
    ensures OnePerPath(ToSet(BlockOutputs(b)))
  {
    hide ValidateTxn, Leaves, Lsb, OutputsOf, InputsOf;
    SmallerTree(ToSet(BlockOutputs(b)) + ToSet(BlockInputs(b)), ToSet(BlockOutputs(b)));
  }

  /** Applying the last block of a run again, on the tree it met. */
  lemma ReapplyLast(env: Env, blocks: seq<Block>)
    requires Validated(env, blocks) && blocks != []
    ensures var n := |blocks| - 1;
      Reapply(env.root, StoreAll(blocks), RunState(blocks[..n]).tree, blocks[n]) ==
        if FitsPaths(blocks, n) then Loaded(RunState(blocks)) else LoadFails
  {
    hide ValidBlock, StoreAll, BlockOutputs, BlockInputs, GetHistory, Lsb, OnePerPath, CommitBlock, RunState, ApplyToTree, Validated;
    var n := |blocks| - 1;
    var tree, b := RunState(blocks[..n]).tree, blocks[n];
    LastOfRun(env, blocks);
    LastRoot(env, blocks);
    ValidatedInv(env, blocks);
    assert FitsTree(b, tree);
    if FitsPaths(blocks, n) {
      ApplyWithoutCollision(tree, b);
    } else {
      ApplyWithCollision(tree, b);
    }
  }

  // ---------------------------------------------------------------------------------------
  // A node that was stopped between commits
  // ---------------------------------------------------------------------------------------

  /** Starting on what any run of validated blocks left, whatever its commits did. If the tree has the last
    block's root the node goes on where it was. If not, the last commit was refused, and start-up fails
    when the tree has the root of the block before, and otherwise discards everything and begins from
    genesis. */
  lemma StartOutcome(env: Env, blocks: seq<Block>)
    requires Validated(env, blocks) && Consecutive(blocks) && blocks != []
    ensures var s, n := RunState(blocks), |blocks| - 1;
      && LoadNode(env.root, s.db, s.tree) ==
        (if env.root(s.tree) == blocks[n].root then Loaded(s)
         else if n >= 1 && env.root(s.tree) == blocks[n - 1].root then LoadFails
         else Loaded(NodeState(Created(), {})))
      && (FitsPaths(blocks, n) ==> env.root(s.tree) == blocks[n].root)
  {
    hide Validated, StoreAll, RunState, FitsPaths, LoadNode, Reapply, Created;
    var s := RunState(blocks);
    ValidatedInv(env, blocks);
    LastRoot(env, blocks);
    LastOfRun(env, blocks);
    LoadByRoots(env.root, blocks, s.tree);
    ReapplyLast(env, blocks);
  }

  /** A node stopped between commits starts where it was exactly when its tree has the last block's root, so
    always when the last block fitted, whatever was refused before. */
  lemma RestartKeepsStateExactly(env: Env, blocks: seq<Block>)
    requires Validated(env, blocks) && Consecutive(blocks)
    ensures LoadNode(env.root, RunState(blocks).db, RunState(blocks).tree) == Loaded(RunState(blocks)) <==>
      blocks == [] || env.root(RunState(blocks).tree) == blocks[|blocks| - 1].root
    ensures blocks != [] && FitsPaths(blocks, |blocks| - 1) ==>
      LoadNode(env.root, RunState(blocks).db, RunState(blocks).tree) == Loaded(RunState(blocks))
  {
    hide Validated, StoreAll, FitsPaths, GetMaxHeight, Created;
    ConsecutiveMax(blocks);
    if blocks == [] {
      NothingRun();
    } else {
      ValidatedInv(env, blocks);
      StartOutcome(env, blocks);
      CreatedHasNoMax();
    }
  }

  lemma CreatedHasNoMax()
    ensures GetMaxHeight(Created()).None?
  {
    hide GetMaxHeight;
    MaxIsHighest([]);
  }

  /** After a refused commit on an accepted chain the node does not start, unless the refused block claims the
    root the tree already had. */
  lemma RefusedCommitOutcome(env: Env, blocks: seq<Block>, b: Block)
    requires Accepted(env, blocks) && Consecutive(blocks + [b])
    requires ValidBlock(env, b, StoreAll(blocks), TreeAfter(blocks)) && !FitsPaths(blocks + [b], |blocks|)
    ensures LoadNode(env.root, StoreAll(blocks + [b]), TreeAfter(blocks)) ==
      if env.root(TreeAfter(blocks)) == b.root then Loaded(NodeState(StoreAll(blocks + [b]), TreeAfter(blocks))) else LoadFails
  {
    hide StoreAll, TreeAfter, ValidBlock, CommitBlock, LoadNode, FitsPaths, Accepted;
    var all := blocks + [b];
    assert all[..|blocks|] == blocks;
    AcceptedExactly(env, blocks);
    assert Validated(env, all);
    LastOfRun(env, all);
    ValidatedInv(env, all);
    LastRoot(env, all);
    StartOutcome(env, all);
    if blocks != [] {
      ChainRoot(env, blocks);
    }
  }

  lemma ChainRoot(env: Env, blocks: seq<Block>)
    requires Accepted(env, blocks) && blocks != []
    ensures env.root(TreeAfter(blocks)) == blocks[|blocks| - 1].root
  {
    hide Accepted, TreeAfter;
    AcceptedInv(env, blocks);
  }

  // ---------------------------------------------------------------------------------------
  // A node that crashed inside a commit
  // ---------------------------------------------------------------------------------------

  /** What start-up makes of a node that crashed after storing its last block but before touching the tree,
    at the end of any run of validated blocks. If the tree already has the block's root it does not
    notice. Otherwise it panics if no earlier block is stored; completes the commit if the tree has the
    root of the block before and the block fits; fails if it does not fit; and discards everything if an
    earlier refusal left the tree with neither root. */
  lemma CrashOutcome(env: Env, blocks: seq<Block>)
    requires Validated(env, blocks) && Consecutive(blocks) && blocks != []
    ensures var n := |blocks| - 1;
      var tree := RunState(blocks[..n]).tree;
      LoadNode(env.root, StoreAll(blocks), tree) ==
        if env.root(tree) == blocks[n].root then Loaded(NodeState(StoreAll(blocks), tree))
        else if n == 0 then LoadPanics
        else if env.root(tree) != blocks[n - 1].root then Loaded(NodeState(Created(), {}))
        else if FitsPaths(blocks, n) then Loaded(RunState(blocks))
        else LoadFails
  {
    hide Validated, StoreAll, RunState, FitsPaths, LoadNode, Reapply, Created;
    LoadByRoots(env.root, blocks, RunState(blocks[..|blocks| - 1]).tree);
    ReapplyLast(env, blocks);
  }

  /** Such a crash is repaired exactly when the block leaves the tree as it was and claims its root, or there
    is an earlier block whose root the tree has, the new root differs, and the block fits. */
  lemma CrashRecoveryExactly(env: Env, blocks: seq<Block>)
    requires Validated(env, blocks) && Consecutive(blocks) && blocks != []
    ensures var n := |blocks| - 1;
      var tree := RunState(blocks[..n]).tree;
      LoadNode(env.root, StoreAll(blocks), tree) == Loaded(RunState(blocks)) <==>
        if env.root(tree) == blocks[n].root then tree == RunState(blocks).tree
        else n >= 1 && env.root(tree) == blocks[n - 1].root && FitsPaths(blocks, n)
  {
    hide Validated, StoreAll, RunState, FitsPaths, LoadNode, Created, GetMaxHeight;
    CrashOutcome(env, blocks);
    ValidatedInv(env, blocks);
    ConsecutiveMax(blocks);
    CreatedHasNoMax();
  }

  /** On a chain whose earlier commits all reached the tree only the first commit can be beyond repair, or one
    that changes the tree but not its root. */
  lemma AcceptedCrashRecovery(env: Env, blocks: seq<Block>)
    requires Accepted(env, blocks) && Consecutive(blocks) && blocks != []
    ensures var tree := TreeAfter(blocks[..|blocks| - 1]);
      LoadNode(env.root, StoreAll(blocks), tree) == Loaded(StateAfter(blocks)) <==>
        tree == TreeAfter(blocks) || (env.root(tree) != env.root(TreeAfter(blocks)) && |blocks| >= 2)
  {
    hide Validated, StoreAll, RunState, FitsPaths, LoadNode, Accepted, TreeAfter;
    var n := |blocks| - 1;
    AcceptedExactly(env, blocks);
    AcceptedPrefix(env, blocks, n);
    AcceptedExactly(env, blocks[..n]);
    CrashRecoveryExactly(env, blocks);
    ChainRoot(env, blocks);
    if n > 0 { ChainRoot(env, blocks[..n]); }
  }

  // ---------------------------------------------------------------------------------------
  // Concrete nodes
  // ---------------------------------------------------------------------------------------

  /** A crash in the very first commit: one block that creates notes 1 and 2, stored but not applied. */
  lemma FirstCommitPanics()
    ensures var b := FirstBlock(SAMPLE);
      Accepted(SAMPLE, [b]) && LoadNode(SAMPLE.root, StoreAll([b]), {}) == LoadPanics
  {
    hide LoadNode, StoreAll, Accepted, TreeAfter, Validated;
    var blocks := [FirstBlock(SAMPLE)];
    FirstIsAccepted(SAMPLE);
    AcceptedExactly(SAMPLE, blocks);
    CrashOutcome(SAMPLE, blocks);
    assert blocks[..0] == [];
    NothingRun();
  }

  /** The node that let note 1 be spent twice starts again as if nothing had happened. */
  lemma LawBreakerStarts(env: Env)
    requires env.verify(Create()) && env.verify(Spend(ONE, Twin())) && env.verify(Spend(ONE, 0))
    ensures var run := [FirstBlock(env), CollidingBlock(env), SecondSpend(env)];
      && Validated(env, run) && !LawHolds(run)
      && LoadNode(env.root, RunState(run).db, RunState(run).tree) == Loaded(RunState(run))
  {
    hide LoadNode, RunState, Validated, LawHolds, CommitBlock, ValidBlock, OnePerPath;
    var run := [FirstBlock(env), CollidingBlock(env), SecondSpend(env)];
    CollisionLetsNoteBeSpentTwice(env);
    LedgerLawExactly(env, run);
    RefusedDoesNotFit(env, run, 1);
    LastFits(env, run);
    RestartKeepsStateExactly(env, run);
  }

  lemma RefusedDoesNotFit(env: Env, run: seq<Block>, i: nat)
    requires Validated(env, run) && i < |run|
    ensures CommitBlock(RunState(run[..i]), run[i]).StoreAhead? <==> !FitsPaths(run, i)
    ensures CommitBlock(RunState(run[..i]), run[i]).Committed? <==> FitsPaths(run, i)
  {
    hide ValidBlock, CommitBlock, RunState, StoreAll, OnePerPath, Validated;
    ValidatedPrefix(env, run, i + 1);
    assert run[..i + 1][..i] == run[..i];
    LastOfRun(env, run[..i + 1]);
    CommitExactly(RunState(run[..i]), run[i]);
  }

  lemma LastFits(env: Env, run: seq<Block>)
    requires Validated(env, run) && run != [] && CommitBlock(RunState(run[..|run| - 1]), run[|run| - 1]).Committed?
    ensures FitsPaths(run, |run| - 1)
  {
    hide ValidBlock, CommitBlock, RunState, OnePerPath, Validated;
    RefusedDoesNotFit(env, run, |run| - 1);
  }

  /** A root that tells whether note 1 is there. */
  const ONE_ROOT: Env := Env(t => true, s => if ONE in s then 1 else 0)

  /** Two refused commits in a row, and start-up throws the whole chain away. */
  lemma TwoRefusalsDiscardChain()
    ensures var run := [FirstBlock(ONE_ROOT), CollidingBlock(ONE_ROOT), Rival(ONE_ROOT, Triplet(), 3)];
      && Validated(ONE_ROOT, run) && RunState(run).tree == {ONE, TWO}
      && LoadNode(ONE_ROOT.root, RunState(run).db, RunState(run).tree) == Loaded(NodeState(Created(), {}))
  {
    hide LoadNode, CommitBlock, ValidBlock, OnePerPath, StoreAll, Set, GetHistory, Pow256, Created;
    var env := ONE_ROOT;
    var two := [FirstBlock(env), CollidingBlock(env)];
    var run := two + [Rival(env, Triplet(), 3)];
    assert run[..2] == two;
    assert run == [FirstBlock(env), CollidingBlock(env), Rival(env, Triplet(), 3)];
    AfterRefusal(env);
    ValidatedInv(env, two);
    TripletPaths();
    HistoryIsOutputs(two, Triplet());
    RivalIsValid(env, Triplet(), 3, RunState(two).db);
    RivalIsRefused(env, Triplet(), 3, RunState(two).db);
    StartOutcome(env, run);
  }
}
