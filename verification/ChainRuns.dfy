/** Runs of validated blocks whose commits may fail to reach the tree, and what then holds of the ledger. */
module ChainRuns {
  import opened Util
  import opened Keys
  import opened OrderedDb
  import opened BlockStore
  import opened Smirk
  import opened Ledger
  import opened Chain

  /** The state after committing the blocks one by one, whatever each commit's outcome. */
  function RunState(blocks: seq<Block>): NodeState {
    if blocks == [] then StateAfter([])
    else CommitBlock(RunState(blocks[..|blocks| - 1]), blocks[|blocks| - 1]).state
  }

  /** Every block was validated against the state it met. */
  ghost predicate Validated(env: Env, blocks: seq<Block>) {
    blocks == [] ||
    var before, b := blocks[..|blocks| - 1], blocks[|blocks| - 1];
    Validated(env, before) && ValidBlock(env, b, RunState(before).db, RunState(before).tree)
  }

  /** The outputs of block `i` met no occupied path, which can be told before the commit. */
  ghost predicate FitsPaths(blocks: seq<Block>, i: nat)
    requires i < |blocks|
  {
    OnePerPath(RunState(blocks[..i]).tree + ToSet(BlockOutputs(blocks[i])))
  }

  /** The law of the ledger: the tree holds exactly the notes created and not spent. */
  ghost predicate LawHolds(blocks: seq<Block>) {
    forall e :: e in RunState(blocks).tree <==> e in AllOutputs(blocks) && e !in AllInputs(blocks)
  }

  // ---------------------------------------------------------------------------------------
  // What every run keeps
  // ---------------------------------------------------------------------------------------

  ghost predicate RunInv(blocks: seq<Block>) {
    && RunState(blocks).db == StoreAll(blocks)
    && OnePerPath(RunState(blocks).tree)
    && Distinct(AllOutputs(blocks))
    && (forall e :: e in RunState(blocks).tree ==> e in AllOutputs(blocks))
    && (forall e :: e in AllInputs(blocks) ==> e in AllOutputs(blocks))
  }

  /** One more block: its parts are clean, and it either changes the tree or leaves it as it was. */
  lemma RunStep(env: Env, before: seq<Block>, b: Block)
    requires RunInv(before) && ValidBlock(env, b, RunState(before).db, RunState(before).tree)
    ensures RunInv(before + [b])
    ensures CleanBlock(b, StoreAll(before), RunState(before).tree)
    ensures forall e :: e in BlockOutputs(b) ==> e !in AllOutputs(before)
    ensures RunState(before + [b]).tree ==
      if OnePerPath(RunState(before).tree + ToSet(BlockOutputs(b))) then TreeWith(RunState(before).tree, b) else RunState(before).tree
  {
    hide ValidBlock, GetHistory, StoreAll, Set, BlockOutputs, BlockInputs, Lsb, OnePerPath, CommitBlock;
    var blocks, s := before + [b], RunState(before);
    assert blocks[..|before|] == before;
    ValidIsClean(env, b, s.db, s.tree);
    CommitExactly(s, b);
    StoreAllStep(before, b);
    forall e | e in BlockOutputs(b) ensures e !in AllOutputs(before) { HistoryIsOutputs(before, e); }
    DistinctConcat(AllOutputs(before), BlockOutputs(b));
    ToSetMember(BlockOutputs(b));
    ToSetMember(BlockInputs(b));
    if OnePerPath(s.tree + ToSet(BlockOutputs(b))) {
      SmallerTree(s.tree + ToSet(BlockOutputs(b)), TreeWith(s.tree, b));
    }
  }

  lemma {:induction false} ValidatedInv(env: Env, blocks: seq<Block>)
    requires Validated(env, blocks)
    ensures RunInv(blocks)
    decreases |blocks|
  {
    hide ValidBlock, CommitBlock, StoreAll, RunInv;
    if blocks == [] {
      EmptyRun();
    } else {
      var n := |blocks| - 1;
      ValidatedInv(env, blocks[..n]);
      RunStep(env, blocks[..n], blocks[n]);
      assert blocks[..n] + [blocks[n]] == blocks;
    }
  }

  lemma EmptyRun()
    ensures RunInv([])
  {
    hide StoreAll;
    assert OnePerPath({});
  }

  /** A validated run, taken apart at its last block. */
  lemma LastOfRun(env: Env, blocks: seq<Block>)
    requires Validated(env, blocks) && blocks != []
    ensures var before, b := blocks[..|blocks| - 1], blocks[|blocks| - 1];
      && Validated(env, before) && RunInv(before)
      && CleanBlock(b, StoreAll(before), RunState(before).tree)
      && (forall e :: e in BlockOutputs(b) ==> e !in AllOutputs(before))
      && RunState(blocks).tree ==
        if FitsPaths(blocks, |blocks| - 1) then TreeWith(RunState(before).tree, b) else RunState(before).tree
  {
    hide ValidBlock, CommitBlock, StoreAll, RunInv, CleanBlock, RunState;
    var n := |blocks| - 1;
    ValidatedInv(env, blocks[..n]);
    RunStep(env, blocks[..n], blocks[n]);
    assert blocks[..n] + [blocks[n]] == blocks;
  }

  // ---------------------------------------------------------------------------------------
  // Runs that fit are the accepted chains
  // ---------------------------------------------------------------------------------------

  ghost predicate AllFit(blocks: seq<Block>) {
    forall i :: 0 <= i < |blocks| ==> FitsPaths(blocks, i)
  }

  lemma AllFitStep(blocks: seq<Block>)
    requires blocks != []
    ensures AllFit(blocks) <==> AllFit(blocks[..|blocks| - 1]) && FitsPaths(blocks, |blocks| - 1)
  {
    hide FitsPaths;
    var n := |blocks| - 1;
    forall i | 0 <= i < n ensures FitsPaths(blocks, i) <==> FitsPaths(blocks[..n], i) { SamePrefix(blocks, n, i); }
  }

  /** A validated run whose blocks all fit is an accepted chain, and the other way round. */
  lemma {:induction false} AcceptedExactly(env: Env, blocks: seq<Block>)
    ensures Accepted(env, blocks) <==> Validated(env, blocks) && AllFit(blocks)
    ensures Accepted(env, blocks) ==> RunState(blocks) == StateAfter(blocks)
    decreases |blocks|
  {
    hide ValidBlock, CommitBlock, StoreAll, FitsPaths, TreeAfter, AllFit;
    if blocks == [] {
      NothingToFit();
    } else {
      var n := |blocks| - 1;
      AcceptedExactly(env, blocks[..n]);
      AllFitStep(blocks);
      if Accepted(env, blocks[..n]) && ValidBlock(env, blocks[n], StoreAll(blocks[..n]), TreeAfter(blocks[..n])) {
        CommitFits(env, blocks[..n], blocks[n]);
        assert blocks[..n] + [blocks[n]] == blocks;
      }
    }
  }

  lemma NothingToFit()
    ensures AllFit([])
  {
  }

  lemma SamePrefix(blocks: seq<Block>, n: nat, i: nat)
    requires i < n <= |blocks|
    ensures FitsPaths(blocks, i) <==> FitsPaths(blocks[..n], i)
  {
    assert blocks[..n][..i] == blocks[..i];
  }

  lemma CommitFits(env: Env, before: seq<Block>, b: Block)
    requires Accepted(env, before) && RunState(before) == StateAfter(before)
    requires ValidBlock(env, b, StoreAll(before), TreeAfter(before))
    ensures CommitBlock(StateAfter(before), b).Committed? <==> FitsPaths(before + [b], |before|)
    ensures CommitBlock(StateAfter(before), b).Committed? ==> CommitBlock(StateAfter(before), b).state == StateAfter(before + [b])
  {
    hide ValidBlock, CommitBlock, StoreAll, TreeAfter, Accepted, OnePerPath, GetHistory;
    assert (before + [b])[..|before|] == before;
    AcceptedInv(env, before);
    ValidIsClean(env, b, StoreAll(before), TreeAfter(before));
    CommitExactly(StateAfter(before), b);
    if CommitBlock(StateAfter(before), b).Committed? { AcceptedStep(env, before, b); }
  }

  // ---------------------------------------------------------------------------------------
  // Runs that do not
  // ---------------------------------------------------------------------------------------

  /** A note that was created, was not spent, and is not in the tree. */
  ghost predicate Lost(blocks: seq<Block>, e: Element) {
    e in AllOutputs(blocks) && e !in AllInputs(blocks) && e !in RunState(blocks).tree
  }

  /** Lost notes stay lost: they cannot be created again, and what is not in the tree cannot be spent. */
  lemma LostStays(env: Env, blocks: seq<Block>, e: Element)
    requires Validated(env, blocks) && blocks != [] && Lost(blocks[..|blocks| - 1], e)
    ensures Lost(blocks, e)
  {
    hide ValidBlock, CommitBlock, StoreAll, BlockOutputs, BlockInputs, FitsPaths, RunInv, RunState, Validated, GetHistory;
    LastOfRun(env, blocks);
    ToSetMember(BlockOutputs(blocks[|blocks| - 1]));
  }

  /** A block that does not fit loses a note. */
  lemma MisfitLoses(env: Env, blocks: seq<Block>)
    requires Validated(env, blocks) && blocks != [] && !FitsPaths(blocks, |blocks| - 1)
    ensures exists e :: Lost(blocks, e)
  {
    hide ValidBlock, CommitBlock, StoreAll, BlockOutputs, BlockInputs, RunState, Validated, GetHistory, Lsb;
    LastOfRun(env, blocks);
    var n := |blocks| - 1;
    var tree, outs := RunState(blocks[..n]).tree, BlockOutputs(blocks[n]);
    assert outs == [] ==> tree + ToSet(outs) == tree;
    assert outs[0] in outs;
    assert Lost(blocks, outs[0]);
  }

  lemma {:induction false} MisfitLosesForGood(env: Env, blocks: seq<Block>, i: nat)
    requires Validated(env, blocks) && i < |blocks| && !FitsPaths(blocks, i)
    ensures exists e :: Lost(blocks, e)
    decreases |blocks|
  {
    hide ValidBlock, CommitBlock, StoreAll, FitsPaths, Lost, RunState;
    var n := |blocks| - 1;
    if i == n {
      MisfitLoses(env, blocks);
    } else {
      SamePrefix(blocks, n, i);
      MisfitLosesForGood(env, blocks[..n], i);
      var e :| Lost(blocks[..n], e);
      LostStays(env, blocks, e);
    }
  }

  /** Over every run of validated blocks, whether or not their commits reach the tree: the tree is the notes
    created minus the notes spent if and only if every block's outputs met no occupied path. One that did
    not breaks the law for good. */
  lemma LedgerLawExactly(env: Env, blocks: seq<Block>)
    requires Validated(env, blocks)
    ensures LawHolds(blocks) <==> AllFit(blocks)
  {
    hide Validated, FitsPaths, RunState, Accepted, StoreAll;
    if AllFit(blocks) {
      AcceptedExactly(env, blocks);
      AcceptedInv(env, blocks);
    } else {
      var i :| 0 <= i < |blocks| && !FitsPaths(blocks, i);
      MisfitLosesForGood(env, blocks, i);
      var e :| Lost(blocks, e);
    }
  }

  /** Over every run of validated blocks that all fit, each note is created once and spent at most once,
    always in a block after the one that created it; the tree holds exactly the notes created and not
    spent, and its root is the last block's. */
  lemma NotesSpentOnce(env: Env, blocks: seq<Block>)
    requires Validated(env, blocks) && AllFit(blocks)
    ensures Distinct(AllOutputs(blocks)) && Distinct(AllInputs(blocks))
    ensures forall j, e :: 0 <= j < |blocks| && e in BlockInputs(blocks[j]) ==>
      exists i :: 0 <= i < j && e in BlockOutputs(blocks[i])
    ensures LawHolds(blocks)
    ensures blocks != [] ==> env.root(RunState(blocks).tree) == blocks[|blocks| - 1].root
  {
    hide Validated, FitsPaths, RunState, Accepted, BlockInputs, BlockOutputs, StoreAll;
    LedgerLawExactly(env, blocks);
    AcceptedExactly(env, blocks);
    AcceptedInv(env, blocks);
    forall j, e | 0 <= j < |blocks| && e in BlockInputs(blocks[j])
      ensures exists i :: 0 <= i < j && e in BlockOutputs(blocks[i])
    {
      SpentLater(env, blocks, j, e);
    }
  }

  // ---------------------------------------------------------------------------------------
  // Spending in any run
  // ---------------------------------------------------------------------------------------

  lemma {:induction false} ValidatedPrefix(env: Env, blocks: seq<Block>, n: nat)
    requires Validated(env, blocks) && n <= |blocks|
    ensures Validated(env, blocks[..n])
    decreases |blocks|
  {
    hide ValidBlock, RunState;
    if n == |blocks| {
      assert blocks[..n] == blocks;
    } else {
      ValidatedPrefix(env, blocks[..|blocks| - 1], n);
      assert blocks[..|blocks| - 1][..n] == blocks[..n];
    }
  }

  /** A spent note that has left the tree never comes back. */
  lemma {:induction false} GoneStays(env: Env, blocks: seq<Block>, k: nat, e: Element)
    requires Validated(env, blocks) && k <= |blocks|
    requires e in AllOutputs(blocks[..k]) && e !in RunState(blocks[..k]).tree
    ensures e in AllOutputs(blocks) && e !in RunState(blocks).tree
    decreases |blocks|
  {
    hide ValidBlock, CommitBlock, StoreAll, BlockOutputs, BlockInputs, FitsPaths, RunInv, RunState, GetHistory;
    if k == |blocks| {
      assert blocks[..k] == blocks;
    } else {
      var n := |blocks| - 1;
      assert blocks[..n][..k] == blocks[..k];
      GoneStays(env, blocks[..n], k, e);
      LastOfRun(env, blocks);
      ToSetMember(BlockOutputs(blocks[n]));
    }
  }

  /** In any validated run what a block spends was created in a strictly earlier block, and a note is spent
    twice only if the first spend was in a block that did not fit. */
  lemma SecondSpendNeedsMisfit(env: Env, blocks: seq<Block>, j: nat, e: Element)
    requires Validated(env, blocks) && j < |blocks| && e in BlockInputs(blocks[j])
    ensures exists i :: 0 <= i < j && e in BlockOutputs(blocks[i])
    ensures forall i :: 0 <= i < j && e in BlockInputs(blocks[i]) ==> !FitsPaths(blocks, i)
  {
    hide ValidBlock, CommitBlock, StoreAll, BlockOutputs, BlockInputs, FitsPaths, RunState, Validated, GetHistory, AllOutputs;
    ValidatedPrefix(env, blocks, j + 1);
    assert blocks[..j + 1][..j] == blocks[..j];
    LastOfRun(env, blocks[..j + 1]);
    assert e in RunState(blocks[..j]).tree;
    InAllOutputs(blocks[..j], e);
    var o :| 0 <= o < j && e in BlockOutputs(blocks[..j][o]);
    assert e in BlockOutputs(blocks[o]);
    forall i | 0 <= i < j && e in BlockInputs(blocks[i]) ensures !FitsPaths(blocks, i) {
      if FitsPaths(blocks, i) { SpentIsGone(env, blocks[..j], i, e, blocks); }
    }
  }

  lemma SpentIsGone(env: Env, before: seq<Block>, i: nat, e: Element, blocks: seq<Block>)
    requires Validated(env, before) && i < |before| <= |blocks| && before == blocks[..|before|]
    requires e in BlockInputs(blocks[i]) && FitsPaths(blocks, i)
    ensures e !in RunState(before).tree
  {
    hide ValidBlock, CommitBlock, StoreAll, BlockOutputs, BlockInputs, RunState, Validated, GetHistory, AllOutputs, OnePerPath;
    var upTo := before[..i + 1];
    ValidatedPrefix(env, before, i + 1);
    assert upTo[..i] == blocks[..i] && upTo[i] == blocks[i];
    LastOfRun(env, upTo);
    ToSetMember(BlockInputs(blocks[i]));
    assert e in AllOutputs(upTo[..i]);
    InAllOutputs(upTo[..i], e);
    InAllOutputs(upTo, e);
    var o :| 0 <= o < i && e in BlockOutputs(upTo[..i][o]);
    assert e in BlockOutputs(upTo[o]);
    GoneStays(env, before, i + 1, e);
  }

  // ---------------------------------------------------------------------------------------
  // Mints
  // ---------------------------------------------------------------------------------------

  /** A mint hash used in one block of a validated run is used in no other, whether or not the block reached
    the tree. */
  lemma MintOncePerRun(env: Env, blocks: seq<Block>, i: nat, j: nat, e: Element)
    requires Validated(env, blocks) && i < j < |blocks|
    requires Mints(e)(blocks[i])
    ensures !Mints(e)(blocks[j])
  {
    hide Lookup, StoreAll, ValidBlock, RunState, UsesMint;
    var before := blocks[..j];
    ValidatedPrefix(env, blocks, j + 1);
    assert blocks[..j + 1][..j] == before;
    ValidatedInv(env, before);
    LookupsAreScans(before, MintHash(e));
    LastBlockFinds(before, Mints(e));
    assert Mints(e)(before[i]);
    KnownMintRejected(env, blocks[j], StoreAll(before), RunState(before).tree, e);
  }

  lemma KnownMintRejected(env: Env, b: Block, db: Database, tree: set<Element>, e: Element)
    requires ValidBlock(env, b, db, tree) && GetMint(db, e).Some?
    ensures !Mints(e)(b)
  {
    hide GetMint, ValidateTxn, Leaves, RootWith;
    forall k | 0 <= k < |b.txns| ensures b.txns[k].mint != Some(e) {
      ValidTxnMeaning(env, b.txns[k], db, tree);
    }
  }

  /** Over a validated run no mint hash is used twice exactly when no single block uses one twice. */
  lemma {:induction false} MintsUniqueExactly(env: Env, blocks: seq<Block>)
    requires Validated(env, blocks)
    ensures Distinct(AllMints(blocks)) <==>
      forall i :: 0 <= i < |blocks| ==> Distinct(MintsOf(blocks[i], |blocks[i].txns|))
    decreases |blocks|
  {
    hide MintsOf, ValidBlock, RunState, Distinct;
    if blocks == [] {
      NothingTwice();
    } else {
      var n := |blocks| - 1;
      var last := MintsOf(blocks[n], |blocks[n].txns|);
      MintsUniqueExactly(env, blocks[..n]);
      DistinctConcat(AllMints(blocks[..n]), last);
      forall e | e in last ensures e !in AllMints(blocks[..n]) {
        NewMint(env, blocks, e);
      }
      assert forall i :: 0 <= i < n ==> blocks[..n][i] == blocks[i];
    }
  }

  lemma NothingTwice()
    ensures Distinct<Element>([])
  {
  }

  lemma NewMint(env: Env, blocks: seq<Block>, e: Element)
    requires Validated(env, blocks) && blocks != []
    requires e in MintsOf(blocks[|blocks| - 1], |blocks[|blocks| - 1].txns|)
    ensures e !in AllMints(blocks[..|blocks| - 1])
  {
    hide MintsOf, Validated, AllMints, UsesMint;
    var n := |blocks| - 1;
    MintsOfMember(blocks[n], |blocks[n].txns|, e);
    AllMintsMember(blocks[..n], e);
    forall i | 0 <= i < n ensures !Mints(e)(blocks[..n][i]) {
      if Mints(e)(blocks[i]) {
        MintOncePerRun(env, blocks, i, n, e);
        assert false;
      }
    }
  }
}
