/** Why every commit has to reach the tree: a path collision between two notes. */
module ChainCollision {
  import opened Util
  import opened Keys
  import opened OrderedDb
  import opened BlockStore
  import opened Smirk
  import opened Ledger
  import opened Chain
  import opened ChainRuns

  const ONE: U256 := 1
  const TWO: U256 := 2

  /** A verifier that accepts everything, and a root that tells only the empty tree from the others. */
  const SAMPLE: Env := Env(t => true, s => if s == {} then 0 else 1)

  lemma TwinFits()
    ensures 2 + 2 * PATHS < MODULUS < Pow256(32)
  {
    Pow8();
    assert Pow256(16) == U64_BOUND * U64_BOUND by { PowSum(8, 8); }
    PowSum(16, 16);
  }

  lemma {:induction false} PowSum(a: nat, b: nat)
    ensures Pow256(a + b) == Pow256(a) * Pow256(b)
    decreases a
  {
    if a != 0 {
      PowSum(a - 1, b);
      assert Pow256(a + b) == 256 * (Pow256(a - 1) * Pow256(b)) == (256 * Pow256(a - 1)) * Pow256(b);
    }
  }

  /** Another element on the path of 2. */
  function Twin(): U256 {
    TwinFits();
    2 + PATHS
  }

  /** And a third one. */
  function Triplet(): U256 {
    TwinFits();
    2 + 2 * PATHS
  }

  /** Not 2, but on its path. */
  ghost predicate Rivals(e: Element) {
    Lsb(e) == 2 && e != TWO && 0 < e < MODULUS
  }

  function Spend(e: Element, out: Element): Utxo {
    Utxo(e, 0, out, 0, None, 0)
  }

  function Create(): Utxo {
    Utxo(0, 0, ONE, TWO, None, 0)
  }

  function FirstBlock(env: Env): Block {
    BlockStore.Block.Block(1, 1, env.root({ONE, TWO}), [Create()])
  }

  /** Spends note 1 and creates a note on the path of 2. */
  function Rival(env: Env, e: Element, h: U64): Block {
    BlockStore.Block.Block(h, h, env.root({e}), [Spend(ONE, e)])
  }

  function CollidingBlock(env: Env): Block {
    Rival(env, Twin(), 2)
  }

  function SecondSpend(env: Env): Block {
    BlockStore.Block.Block(3, 3, env.root({TWO}), [Spend(ONE, 0)])
  }

  lemma OneTxn(b: Block)
    requires |b.txns| == 1
    ensures BlockOutputs(b) == Outputs(b.txns[0]) && BlockInputs(b) == Inputs(b.txns[0])
    ensures Leaves(b, 1) == Outputs(b.txns[0]) + Inputs(b.txns[0])
  {
    assert OutputsOf(b, 0) == [] && InputsOf(b, 0) == [] && Leaves(b, 0) == [];
  }

  lemma SetOfOne(e: Element)
    ensures ToSet([e]) == {e} && ToSet([]) == {}
  {
    ToSetMember([e]);
    ToSetMember([]);
  }

  lemma SetOfTwo(e: Element, f: Element)
    ensures ToSet([e, f]) == {e, f} && ToSet([]) == {}
  {
    ToSetMember([e, f]);
    ToSetMember([]);
  }

  lemma TwinPaths()
    ensures Lsb(Twin()) == Lsb(TWO) == 2 && Lsb(ONE) == 1 && Twin() != TWO && Twin() != ONE
  {
    TwinFits();
  }

  lemma TripletPaths()
    ensures Rivals(Twin()) && Rivals(Triplet()) && Triplet() != Twin() && Lsb(ONE) == 1 && Lsb(TWO) == 2
  {
    TwinFits();
  }

  lemma RivalParts(env: Env, e: Element, h: U64)
    requires e != 0
    ensures var b := Rival(env, e, h);
      BlockOutputs(b) == [e] && BlockInputs(b) == [ONE] && Leaves(b, 1) == [e, ONE]
  {
    OneTxn(Rival(env, e, h));
    assert Outputs(Spend(ONE, e)) == [e] && Inputs(Spend(ONE, e)) == [ONE];
  }

  lemma RivalIsValid(env: Env, e: Element, h: U64, db: Database)
    requires Rivals(e) && env.verify(Spend(ONE, e)) && GetHistory(db, e, Output).None?
    ensures ValidBlock(env, Rival(env, e, h), db, {ONE, TWO})
  {
    hide GetHistory, Pow256, BlockOutputs, BlockInputs;
    var b, tree := Rival(env, e, h), {ONE, TWO};
    TripletPaths();
    RivalParts(env, e, h);
    SetOfOne(e);
    SetOfOne(ONE);
    assert Outputs(Spend(ONE, e)) == [e] && Inputs(Spend(ONE, e)) == [ONE];
    ValidTxnMeaning(env, b.txns[0], db, tree);
    assert forall x :: PathTaken({e}, x) <==> x == 2 by { TakenAfter({}, e); assert {} + {e} == {e}; }
    assert (set x | x in tree && !PathTaken({e}, Lsb(x))) + {e} - {ONE} == {e};
    assert OnePerPath({e} + {ONE});
  }

  lemma RivalIsRefused(env: Env, e: Element, h: U64, db: Database)
    requires Rivals(e) && GetHistory(db, e, Output).None?
    ensures CommitBlock(NodeState(db, {ONE, TWO}), Rival(env, e, h)) == StoreAhead(NodeState(Set(db, Rival(env, e, h)), {ONE, TWO}))
  {
    hide GetHistory, Set, Pow256, BlockOutputs, BlockInputs;
    var b, tree := Rival(env, e, h), {ONE, TWO};
    TripletPaths();
    RivalParts(env, e, h);
    SetOfOne(e);
    assert OnePerPath(tree);
    assert !OnePerPath(tree + {e}) by { assert e in tree + {e} && TWO in tree + {e}; }
    CommitExactly(NodeState(db, tree), b);
  }

  /** A block of one sound transaction that meets no occupied path is valid, and commits. */
  lemma OneTxnCommits(env: Env, b: Block, t: Utxo, db: Database, tree: set<Element>)
    requires b.txns == [t] && ValidateTxn(env, t, db, tree).None? && Distinct(Outputs(t) + Inputs(t))
    requires OnePerPath(tree) && OnePerPath(tree + ToSet(Outputs(t)))
    requires b.root == env.root(tree + ToSet(Outputs(t)) - ToSet(Inputs(t)))
    ensures ValidBlock(env, b, db, tree)
    ensures CommitBlock(NodeState(db, tree), b) == Committed(NodeState(Set(db, b), tree + ToSet(Outputs(t)) - ToSet(Inputs(t))))
  {
    hide ValidateTxn, GetHistory, Set, Outputs, Inputs, BlockOutputs, BlockInputs, OnePerPath, Lsb, RootWith;
    OneTxn(b);
    ValidTxnMeaning(env, t, db, tree);
    ToSetMember(Outputs(t));
    ToSetMember(Inputs(t));
    RootWithIsRoot(env.root, tree, ToSet(Outputs(t)), ToSet(Inputs(t)));
    ValidIsClean(env, b, db, tree);
    CommitExactly(NodeState(db, tree), b);
  }

  lemma SecondSpendIsValid(env: Env, db: Database)
    requires env.verify(Spend(ONE, 0))
    ensures ValidBlock(env, SecondSpend(env), db, {ONE, TWO})
    ensures CommitBlock(NodeState(db, {ONE, TWO}), SecondSpend(env)).Committed?
  {
    hide GetHistory, Set, Pow256, ValidBlock, CommitBlock, ValidateTxn;
    var t, tree := Spend(ONE, 0), {ONE, TWO};
    assert Outputs(t) == [] && Inputs(t) == [ONE];
    SetOfOne(ONE);
    ValidTxnMeaning(env, t, db, tree);
    assert OnePerPath(tree) && tree + {} == tree;
    assert tree - {ONE} == {TWO};
    OneTxnCommits(env, SecondSpend(env), t, db, tree);
  }

  /** A tree that refuses a batch leaves the store ahead, and the note the refused block spent can be spent
    again: three validated blocks of which the second does not fit, and the third repeats its spend. */
  lemma CollisionLetsNoteBeSpentTwice(env: Env)
    requires env.verify(Create()) && env.verify(Spend(ONE, Twin())) && env.verify(Spend(ONE, 0))
    ensures var run := [FirstBlock(env), CollidingBlock(env), SecondSpend(env)];
      && Validated(env, run)
      && ONE in BlockInputs(run[1]) && ONE in BlockInputs(run[2])
      && CommitBlock(RunState(run[..1]), run[1]).StoreAhead?
      && CommitBlock(RunState(run[..2]), run[2]).Committed?
  {
    hide ValidBlock, CommitBlock, Set, StoreAll, BlockInputs;
    var two := [FirstBlock(env), CollidingBlock(env)];
    var run := two + [SecondSpend(env)];
    AfterRefusal(env);
    SecondSpendIsValid(env, RunState(two).db);
    assert run[..2] == two && run[..1] == two[..1];
    assert run == [FirstBlock(env), CollidingBlock(env), SecondSpend(env)];
    SpendsOne(env);
  }

  /** The run up to the refused block. */
  lemma AfterRefusal(env: Env)
    requires env.verify(Create()) && env.verify(Spend(ONE, Twin()))
    ensures var run := [FirstBlock(env), CollidingBlock(env)];
      && Validated(env, run) && RunState(run).tree == {ONE, TWO}
      && CommitBlock(RunState(run[..1]), run[1]).StoreAhead?
      && AllOutputs(run) == [ONE, TWO, Twin()]
  {
    hide ValidBlock, CommitBlock, Set, StoreAll, Accepted, TreeAfter, BlockOutputs, GetHistory, Pow256;
    var one, run := [FirstBlock(env)], [FirstBlock(env), CollidingBlock(env)];
    FirstIsAccepted(env);
    AcceptedExactly(env, one);
    TripletPaths();
    HistoryIsOutputs(one, Twin());
    RivalIsValid(env, Twin(), 2, StoreAll(one));
    RivalIsRefused(env, Twin(), 2, StoreAll(one));
    RivalParts(env, Twin(), 2);
    assert run[..1] == one;
    assert AllOutputs(run) == AllOutputs(one) + [Twin()];
  }

  lemma SpendsOne(env: Env)
    ensures ONE in BlockInputs(CollidingBlock(env)) && ONE in BlockInputs(SecondSpend(env))
  {
    OneTxn(CollidingBlock(env));
    OneTxn(SecondSpend(env));
  }

  lemma FirstIsAccepted(env: Env)
    requires env.verify(Create())
    ensures Accepted(env, [FirstBlock(env)])
    ensures TreeAfter([FirstBlock(env)]) == {ONE, TWO}
    ensures AllOutputs([FirstBlock(env)]) == [ONE, TWO]
  {
    hide ValidBlock, CommitBlock, Set, Pow256, StoreAll, BlockOutputs, BlockInputs;
    var b := FirstBlock(env);
    var blocks := [b];
    assert blocks[..0] == [];
    FirstIsValid(env);
    FirstParts(env);
    TwinPaths();
    SetOfTwo(ONE, TWO);
    assert {} + {ONE, TWO} - {} == {ONE, TWO};
    assert AllOutputs(blocks) == [ONE, TWO];
  }

  lemma FirstParts(env: Env)
    ensures var b := FirstBlock(env);
      BlockOutputs(b) == [ONE, TWO] && BlockInputs(b) == [] && Leaves(b, 1) == [ONE, TWO]
  {
    hide Pow256;
    OneTxn(FirstBlock(env));
    assert Outputs(Create()) == [ONE, TWO] && Inputs(Create()) == [];
  }

  lemma FirstIsValid(env: Env)
    requires env.verify(Create())
    ensures ValidBlock(env, FirstBlock(env), StoreAll([]), TreeAfter([]))
    ensures CommitBlock(StateAfter([]), FirstBlock(env)).Committed?
  {
    hide GetHistory, Set, Pow256, StoreAll, ValidBlock, CommitBlock, ValidateTxn;
    var none: set<Element> := {};
    assert Outputs(Create()) == [ONE, TWO] && Inputs(Create()) == [];
    TwinFits();
    SetOfTwo(ONE, TWO);
    HistoryIsOutputs([], ONE);
    HistoryIsOutputs([], TWO);
    ValidTxnMeaning(env, Create(), StoreAll([]), none);
    assert OnePerPath(none) && OnePerPath(none + {ONE, TWO});
    assert none + {ONE, TWO} - none == {ONE, TWO};
    OneTxnCommits(env, FirstBlock(env), Create(), StoreAll([]), none);
  }

  // ---------------------------------------------------------------------------------------
  // Using a path again
  // ---------------------------------------------------------------------------------------

  /** Spends note 2. */
  function FreeingBlock(env: Env): Block {
    BlockStore.Block.Block(2, 2, env.root({ONE}), [Spend(TWO, 0)])
  }

  /** Creates another note on the path of 2, which is free by now. */
  function ReusingBlock(env: Env): Block {
    BlockStore.Block.Block(3, 3, env.root({ONE, Twin()}), [Spend(0, Twin())])
  }

  /** An accepted chain may use a path again once its note is spent. */
  lemma PathsAreReused(env: Env)
    requires env.verify(Create()) && env.verify(Spend(TWO, 0)) && env.verify(Spend(0, Twin()))
    ensures var blocks := [FirstBlock(env), FreeingBlock(env), ReusingBlock(env)];
      && Accepted(env, blocks)
      && TreeAfter(blocks[..1]) == {ONE, TWO} && TreeAfter(blocks) == {ONE, Twin()}
  {
    hide ValidBlock, CommitBlock, Set, StoreAll, Pow256, BlockOutputs, BlockInputs, TreeWith, GetHistory;
    var one, two := [FirstBlock(env)], [FirstBlock(env), FreeingBlock(env)];
    var blocks := two + [ReusingBlock(env)];
    FirstIsAccepted(env);
    FreeingCommits(env, StoreAll(one));
    assert two[..1] == one && blocks[..2] == two && blocks[..1] == one;
    assert blocks == [FirstBlock(env), FreeingBlock(env), ReusingBlock(env)];
    assert TreeAfter(two) == TreeWith({ONE, TWO}, FreeingBlock(env));
    FreeingParts(env);
    TripletPaths();
    assert AllOutputs(two) == AllOutputs(one) + [];
    HistoryIsOutputs(two, Twin());
    ReusingCommits(env, StoreAll(two));
    assert TreeAfter(blocks) == TreeWith({ONE}, ReusingBlock(env));
  }

  lemma FreeingParts(env: Env)
    ensures BlockOutputs(FreeingBlock(env)) == []
  {
    OneTxn(FreeingBlock(env));
  }

  lemma FreeingCommits(env: Env, db: Database)
    requires env.verify(Spend(TWO, 0))
    ensures ValidBlock(env, FreeingBlock(env), db, {ONE, TWO}) && CommitBlock(NodeState(db, {ONE, TWO}), FreeingBlock(env)).Committed?
    ensures TreeWith({ONE, TWO}, FreeingBlock(env)) == {ONE}
  {
    hide GetHistory, Set, Pow256, ValidBlock, CommitBlock, ValidateTxn;
    var t, tree := Spend(TWO, 0), {ONE, TWO};
    assert Outputs(t) == [] && Inputs(t) == [TWO];
    OneTxn(FreeingBlock(env));
    SetOfOne(TWO);
    ValidTxnMeaning(env, t, db, tree);
    assert OnePerPath(tree) && tree + {} == tree && tree - {TWO} == {ONE};
    OneTxnCommits(env, FreeingBlock(env), t, db, tree);
  }

  lemma ReusingCommits(env: Env, db: Database)
    requires env.verify(Spend(0, Twin())) && GetHistory(db, Twin(), Output).None?
    ensures ValidBlock(env, ReusingBlock(env), db, {ONE}) && CommitBlock(NodeState(db, {ONE}), ReusingBlock(env)).Committed?
    ensures TreeWith({ONE}, ReusingBlock(env)) == {ONE, Twin()}
  {
    hide GetHistory, Set, Pow256, ValidBlock, CommitBlock, ValidateTxn;
    var t, tree := Spend(0, Twin()), {ONE};
    TripletPaths();
    assert Outputs(t) == [Twin()] && Inputs(t) == [];
    OneTxn(ReusingBlock(env));
    SetOfOne(Twin());
    ValidTxnMeaning(env, t, db, tree);
    assert OnePerPath(tree) && OnePerPath(tree + {Twin()}) && tree + {Twin()} - {} == {ONE, Twin()};
    OneTxnCommits(env, ReusingBlock(env), t, db, tree);
  }
}
