/** Whole chains of validated and committed blocks, and restarting a node in the middle of one. */
module Chain {
  import opened Util
  import opened Keys
  import opened OrderedDb
  import opened BlockStore
  import opened Smirk
  import opened Ledger

  datatype NodeState = NodeState(db: Database, tree: set<Element>)

  /** `commit_proposal` writes the store first and the tree second. */
  datatype Commit =
    | Committed(state: NodeState)
    | StoreAhead(state: NodeState)  // the tree refused the batch; the store keeps the block
    | Crashed(state: NodeState)

  function ApplyToTree(tree: set<Element>, b: Block): Outcome {
    match FromEntries(BlockOutputs(b), BlockInputs(b))
    case None => Collision
    case Some(batch) => InsertBatch(tree, batch)
  }

  function CommitBlock(s: NodeState, b: Block): Commit {
    if exists i :: 0 <= i < |BlockInputs(b)| && BlockInputs(b)[i] !in s.tree then Crashed(s) else
      match ApplyToTree(s.tree, b)
      case Done(tree) => Committed(NodeState(Set(s.db, b), tree))
      case Collision => StoreAhead(NodeState(Set(s.db, b), s.tree))
      case Panicked => Crashed(NodeState(Set(s.db, b), s.tree))
  }

  class Node {
    var store: Store
    var tree: set<Element>

    constructor (store: Store)
      ensures this.store == store && tree == {}
    {
      this.store := store;
      this.tree := {};
    }

    /** `commit_proposal`, up to the mempool: check the inputs, write the store, update the tree. */
    method CommitProposal(b: Block) returns (outcome: Outcome)
      modifies this`tree, store
      ensures store == old(store)
      ensures var before := NodeState(old(store.db), old(tree));
        var after := NodeState(store.db, tree);
        match CommitBlock(before, b)
        case Committed(s) => outcome == Done(tree) && after == s
        case StoreAhead(s) => outcome == Collision && after == s
        case Crashed(s) => outcome == Panicked && after == s
    {
      hide BlockInputs, ApplyToTree, InsertBatch;
      var ins := BlockInputs(b);
      var i := 0;
      while i < |ins|
        invariant 0 <= i <= |ins|
        invariant forall j :: 0 <= j < i ==> ins[j] in tree
      {
        if ins[i] !in tree {
          return Panicked;
        }
        i := i + 1;
      }
      store.SetBlock(b);
      outcome := ApplyToTree(tree, b);
      if outcome.Done? {
        tree := outcome.tree;
      }
    }
  }

  /** A block that spends a note not in the tree changes nothing and panics; any other is stored, whatever the
    tree then makes of it. Only a commit that succeeds changes the tree. */
  lemma CommitWrites(s: NodeState, b: Block)
    ensures (exists e :: e in BlockInputs(b) && e !in s.tree) ==> CommitBlock(s, b) == Crashed(s)
    ensures (forall e :: e in BlockInputs(b) ==> e in s.tree) ==> CommitBlock(s, b).state.db == Set(s.db, b)
    ensures !CommitBlock(s, b).Committed? ==> CommitBlock(s, b).state.tree == s.tree
  {
    hide Set, ApplyToTree, BlockInputs;
    var ins := BlockInputs(b);
    if e :| e in ins && e !in s.tree {
      var i :| 0 <= i < |ins| && ins[i] == e;
    }
  }

  // ---------------------------------------------------------------------------------------
  // One block
  // ---------------------------------------------------------------------------------------

  function TreeWith(tree: set<Element>, b: Block): set<Element> {
    tree + ToSet(BlockOutputs(b)) - ToSet(BlockInputs(b))
  }

  lemma {:induction false} ValidOutputs(env: Env, b: Block, db: Database, tree: set<Element>, n: nat, e: Element)
    requires n <= |b.txns| && forall i :: 0 <= i < |b.txns| ==> ValidateTxn(env, b.txns[i], db, tree).None?
    ensures e in OutputsOf(b, n) ==> e != 0 && e !in tree && GetHistory(db, e, Output).None?
    ensures e in InputsOf(b, n) ==> e != 0 && e in tree
    decreases n
  {
    hide ValidateTxn, GetHistory, NonZero;
    if n != 0 {
      var t := b.txns[n - 1];
      ValidOutputs(env, b, db, tree, n - 1, e);
      ValidTxnMeaning(env, t, db, tree);
      NonZeroMeaning(t.out0, t.out1);
      NonZeroMeaning(t.in0, t.in1);
    }
  }

  /** What a valid block brings and takes. */
  ghost predicate CleanBlock(b: Block, db: Database, tree: set<Element>) {
    var outs, ins := BlockOutputs(b), BlockInputs(b);
    && Distinct(outs) && Distinct(ins)
    && (forall e :: e in outs ==> e != 0 && e !in tree && e !in ins && GetHistory(db, e, Output).None?)
    && (forall e :: e in ins ==> e != 0 && e in tree)
  }

  lemma ValidIsClean(env: Env, b: Block, db: Database, tree: set<Element>)
    requires ValidBlock(env, b, db, tree)
    ensures CleanBlock(b, db, tree)
  {
    hide ValidateTxn, GetHistory, Leaves, OutputsOf, InputsOf;
    LeavesSplit(b, |b.txns|);
    forall e ensures e in BlockOutputs(b) ==> e != 0 && e !in tree && GetHistory(db, e, Output).None?
      ensures e in BlockInputs(b) ==> e != 0 && e in tree
    {
      ValidOutputs(env, b, db, tree, |b.txns|, e);
    }
  }

  lemma PathsApart(s: set<Element>, es: seq<Element>)
    requires Distinct(es) && OnePerPath(s) && (forall e :: e in es ==> e in s)
    ensures DistinctPaths(es)
  {
    forall i, j | 0 <= i < j < |es| ensures Lsb(es[i]) != Lsb(es[j]) {
      assert es[i] in es && es[j] in es;
    }
  }

  lemma PathsTogether(tree: set<Element>, es: seq<Element>)
    requires OnePerPath(tree) && DistinctPaths(es)
    requires forall e :: e in es ==> !PathTaken(tree, Lsb(e))
    ensures OnePerPath(tree + ToSet(es))
  {
    hide Lsb;
    ToSetMember(es);
    forall x, y | x in tree && y in es ensures Lsb(x) != Lsb(y) {
      assert !PathTaken(tree, Lsb(y));
    }
    forall x, y | x in es && y in es && Lsb(x) == Lsb(y) ensures x == y {
      var i :| 0 <= i < |es| && es[i] == x;
      var j :| 0 <= j < |es| && es[j] == y;
    }
  }

  /** Committing a clean block succeeds exactly when the tree and the new notes use different paths;
    otherwise the store has the block and the tree does not. */
  lemma CommitExactly(s: NodeState, b: Block)
    requires OnePerPath(s.tree) && CleanBlock(b, s.db, s.tree)
    ensures CommitBlock(s, b) ==
      if OnePerPath(s.tree + ToSet(BlockOutputs(b)))
      then Committed(NodeState(Set(s.db, b), TreeWith(s.tree, b)))
      else StoreAhead(NodeState(Set(s.db, b), s.tree))
  {
    hide GetHistory, Set, OutputsOf, InputsOf, Lsb, OnePerPath;
    var outs, ins := BlockOutputs(b), BlockInputs(b);
    ToSetMember(outs);
    ToSetMember(ins);
    assert forall i :: 0 <= i < |ins| ==> ins[i] in ins;
    if OnePerPath(s.tree + ToSet(outs)) {
      ApplyWithoutCollision(s.tree, b);
    } else {
      ApplyWithCollision(s.tree, b);
    }
  }

  ghost predicate FitsTree(b: Block, tree: set<Element>) {
    var outs, ins := BlockOutputs(b), BlockInputs(b);
    && Distinct(outs) && Distinct(ins) && OnePerPath(tree)
    && (forall e :: e in outs ==> e != 0 && e !in tree && e !in ins)
    && (forall e :: e in ins ==> e != 0 && e in tree)
  }

  lemma ApplyWithoutCollision(tree: set<Element>, b: Block)
    requires FitsTree(b, tree) && OnePerPath(tree + ToSet(BlockOutputs(b)))
    ensures ApplyToTree(tree, b) == Done(TreeWith(tree, b))
  {
    hide OutputsOf, InputsOf, Lsb;
    var outs, ins := BlockOutputs(b), BlockInputs(b);
    var all := tree + ToSet(outs);
    ToSetMember(outs);
    ToSetMember(ins);
    PathsApart(all, outs);
    PathsApart(tree, ins);
    InsertAllExactly(EMPTY_BATCH, outs);
    var b1 := Batch(ToSet(outs), {});
    assert InsertAll(EMPTY_BATCH, outs) == Some(b1) by { assert EMPTY_BATCH.inserts + ToSet(outs) == ToSet(outs); }
    forall i | 0 <= i < |ins| ensures !BatchTaken(b1, ins[i]) {
      assert ins[i] in ins;
      forall x | x in ToSet(outs) ensures Lsb(x) != Lsb(ins[i]) {
        assert x in all && ins[i] in all;
      }
    }
    RemoveAllExactly(b1, ins);
    assert FromEntries(outs, ins) == Some(Batch(ToSet(outs), ToSet(ins))) by { assert b1.removes + ToSet(ins) == ToSet(ins); }
    forall x | x in ToSet(outs) ensures !PathTaken(tree, Lsb(x)) {
      forall y | y in tree ensures Lsb(y) != Lsb(x) { assert x in all && y in all; }
    }
    forall r | r in ToSet(ins) ensures PathTaken(tree, Lsb(r)) { assert r in tree; }
    if ToSet(outs) == {} && ToSet(ins) == {} {
      assert TreeWith(tree, b) == tree;
    }
  }

  lemma ApplyWithCollision(tree: set<Element>, b: Block)
    requires FitsTree(b, tree) && !OnePerPath(tree + ToSet(BlockOutputs(b)))
    ensures ApplyToTree(tree, b) == Collision
  {
    hide BlockOutputs, BlockInputs, Lsb, InsertAll, RemoveAll, InsertBatch;
    var outs, ins := BlockOutputs(b), BlockInputs(b);
    InsertAllExactly(EMPTY_BATCH, outs);
    if DistinctPaths(outs) {
      var b1 := Batch(ToSet(outs), {});
      assert InsertAll(EMPTY_BATCH, outs) == Some(b1) by { assert EMPTY_BATCH.inserts + ToSet(outs) == ToSet(outs); }
      RemoveAllExactly(b1, ins);
      if RemoveAll(b1, ins).Some? {
        assert FromEntries(outs, ins) == Some(Batch(ToSet(outs), ToSet(ins))) by { assert b1.removes + ToSet(ins) == ToSet(ins); }
        InsertMeetsPath(tree, outs, ins);
      }
    }
  }

  lemma InsertMeetsPath(tree: set<Element>, outs: seq<Element>, ins: seq<Element>)
    requires DistinctPaths(outs) && OnePerPath(tree) && !OnePerPath(tree + ToSet(outs))
    requires forall e :: e in ins ==> e in tree
    ensures InsertBatch(tree, Batch(ToSet(outs), ToSet(ins))) == Collision
  {
    hide Lsb, OnePerPath, DistinctPaths;
    ToSetMember(outs);
    ToSetMember(ins);
    if forall e :: e in outs ==> !PathTaken(tree, Lsb(e)) { PathsTogether(tree, outs); }
    forall r | r in ToSet(ins) ensures PathTaken(tree, Lsb(r)) { assert r in tree; }
  }

  // ---------------------------------------------------------------------------------------
  // Chains
  // ---------------------------------------------------------------------------------------

  function TreeAfter(blocks: seq<Block>): set<Element> {
    if blocks == [] then {} else TreeWith(TreeAfter(blocks[..|blocks| - 1]), blocks[|blocks| - 1])
  }

  function StateAfter(blocks: seq<Block>): NodeState {
    NodeState(StoreAll(blocks), TreeAfter(blocks))
  }

  /** Every block was validated against the state before it and committed, starting from an empty
    store. */
  ghost predicate Accepted(env: Env, blocks: seq<Block>) {
    blocks == [] ||
    var before, b := blocks[..|blocks| - 1], blocks[|blocks| - 1];
    && Accepted(env, before)
    && ValidBlock(env, b, StoreAll(before), TreeAfter(before))
    && CommitBlock(StateAfter(before), b).Committed?
  }

  function AllOutputs(blocks: seq<Block>): seq<Element> {
    if blocks == [] then [] else AllOutputs(blocks[..|blocks| - 1]) + BlockOutputs(blocks[|blocks| - 1])
  }

  function AllInputs(blocks: seq<Block>): seq<Element> {
    if blocks == [] then [] else AllInputs(blocks[..|blocks| - 1]) + BlockInputs(blocks[|blocks| - 1])
  }

  /** The history index knows exactly the outputs of the blocks stored. */
  lemma {:induction false} HistoryIsOutputs(blocks: seq<Block>, e: Element)
    ensures GetHistory(StoreAll(blocks), e, Output).Some? <==> e in AllOutputs(blocks)
    decreases |blocks|
  {
    hide Lookup, StoreAll, BlockOutputs;
    LookupsAreScans(blocks, ElementHistory(e, Output));
    LastBlockFinds(blocks, Uses(e, Output));
    AllOutputsMember(blocks, e);
  }

  lemma AllOutputsMember(blocks: seq<Block>, e: Element)
    ensures e in AllOutputs(blocks) <==> exists i :: 0 <= i < |blocks| && Uses(e, Output)(blocks[i])
  {
    hide BlockOutputs, AllOutputs, UsesElement;
    InAllOutputs(blocks, e);
    forall i | 0 <= i < |blocks| ensures Uses(e, Output)(blocks[i]) <==> e in BlockOutputs(blocks[i]) {
      UsesIsOutput(blocks[i], |blocks[i].txns|, e);
    }
  }

  lemma {:induction false} UsesIsOutput(b: Block, n: nat, e: Element)
    requires n <= |b.txns|
    ensures UsesElement(b, n, e, Output) <==> e in OutputsOf(b, n)
    ensures n == |b.txns| ==> (UsesElement(b, n, e, Output) <==> e in BlockOutputs(b))
    decreases n
  {
    hide Outputs;
    if n != 0 {
      UsesIsOutput(b, n - 1, e);
      if i :| 0 <= i < n && e in SideOf(b.txns[i], Output) { assert i == n - 1 || UsesElement(b, n - 1, e, Output); }
      if e in Outputs(b.txns[n - 1]) { assert e in SideOf(b.txns[n - 1], Output); }
    }
  }

  ghost predicate ChainInv(env: Env, blocks: seq<Block>) {
    && OnePerPath(TreeAfter(blocks))
    && Distinct(AllOutputs(blocks)) && Distinct(AllInputs(blocks))
    && (forall e :: e in AllInputs(blocks) ==> e in AllOutputs(blocks))
    && (forall e :: e in TreeAfter(blocks) <==> e in AllOutputs(blocks) && e !in AllInputs(blocks))
    && (blocks != [] ==> env.root(TreeAfter(blocks)) == blocks[|blocks| - 1].root)
  }

  lemma AcceptedStep(env: Env, before: seq<Block>, b: Block)
    requires ChainInv(env, before) && ValidBlock(env, b, StoreAll(before), TreeAfter(before))
    requires CommitBlock(StateAfter(before), b).Committed?
    ensures ChainInv(env, before + [b])
    ensures CommitBlock(StateAfter(before), b) == Committed(StateAfter(before + [b]))
  {
    hide ValidateTxn, GetHistory, StoreAll, Set, OutputsOf, InputsOf, Leaves, Lsb, OnePerPath, RootWith, CommitBlock;
    var blocks := before + [b];
    assert blocks[..|before|] == before;
    var tree, outs, ins := TreeAfter(before), BlockOutputs(b), BlockInputs(b);
    ValidIsClean(env, b, StoreAll(before), tree);
    CommitExactly(StateAfter(before), b);
    StoreAllStep(before, b);
    forall e | e in outs ensures e !in AllOutputs(before) { HistoryIsOutputs(before, e); }
    DistinctConcat(AllOutputs(before), outs);
    DistinctConcat(AllInputs(before), ins);
    ToSetMember(outs);
    ToSetMember(ins);
    RootWithIsRoot(env.root, tree, ToSet(outs), ToSet(ins));
    SmallerTree(tree + ToSet(outs), TreeWith(tree, b));
  }

  lemma SmallerTree(big: set<Element>, small: set<Element>)
    requires OnePerPath(big) && small <= big
    ensures OnePerPath(small)
  {
  }

  lemma StoreAllStep(before: seq<Block>, b: Block)
    ensures StoreAll(before + [b]) == Set(StoreAll(before), b)
  {
    hide Set;
    assert (before + [b])[..|before|] == before;
  }

  lemma {:induction false} AcceptedInv(env: Env, blocks: seq<Block>)
    requires Accepted(env, blocks)
    ensures ChainInv(env, blocks)
    decreases |blocks|
  {
    hide ValidBlock, CommitBlock, StoreAll;
    if blocks != [] {
      var n := |blocks| - 1;
      AcceptedInv(env, blocks[..n]);
      AcceptedStep(env, blocks[..n], blocks[n]);
      assert blocks[..n] + [blocks[n]] == blocks;
    } else {
      assert OnePerPath({});
    }
  }

  lemma {:induction false} AcceptedPrefix(env: Env, blocks: seq<Block>, n: nat)
    requires Accepted(env, blocks) && n <= |blocks|
    ensures Accepted(env, blocks[..n])
    decreases |blocks|
  {
    hide ValidBlock, CommitBlock, StoreAll;
    if n == |blocks| {
      assert blocks[..n] == blocks;
    } else {
      AcceptedPrefix(env, blocks[..|blocks| - 1], n);
      assert blocks[..|blocks| - 1][..n] == blocks[..n];
    }
  }

  /** Each block of an accepted chain was valid, and committed, after the blocks before it. */
  lemma AcceptedBlock(env: Env, blocks: seq<Block>, j: nat)
    requires Accepted(env, blocks) && j < |blocks|
    ensures Accepted(env, blocks[..j])
    ensures ValidBlock(env, blocks[j], StoreAll(blocks[..j]), TreeAfter(blocks[..j]))
    ensures CommitBlock(StateAfter(blocks[..j]), blocks[j]).Committed?
  {
    hide ValidBlock, CommitBlock, StoreAll, TreeAfter;
    AcceptedPrefix(env, blocks, j + 1);
    assert blocks[..j + 1][..j] == blocks[..j];
  }

  lemma {:induction false} InAllOutputs(blocks: seq<Block>, e: Element)
    ensures e in AllOutputs(blocks) <==> exists i :: 0 <= i < |blocks| && e in BlockOutputs(blocks[i])
    decreases |blocks|
  {
    hide BlockOutputs;
    if blocks != [] {
      var n := |blocks| - 1;
      InAllOutputs(blocks[..n], e);
      if i :| 0 <= i < |blocks| && e in BlockOutputs(blocks[i]) { assert i < n ==> blocks[..n][i] == blocks[i]; }
      if i :| 0 <= i < n && e in BlockOutputs(blocks[..n][i]) { assert e in BlockOutputs(blocks[i]); }
    }
  }

  /** What a block of an accepted chain spends was created in a strictly earlier block. */
  lemma SpentLater(env: Env, blocks: seq<Block>, j: nat, e: Element)
    requires Accepted(env, blocks) && j < |blocks| && e in BlockInputs(blocks[j])
    ensures exists i :: 0 <= i < j && e in BlockOutputs(blocks[i])
  {
    hide BlockOutputs, ValidBlock, CommitBlock, StoreAll, InputsOf, Accepted;
    AcceptedBlock(env, blocks, j);
    var before := blocks[..j];
    AcceptedInv(env, before);
    ValidIsClean(env, blocks[j], StoreAll(before), TreeAfter(before));
    assert e in TreeAfter(before);
    InAllOutputs(before, e);
    var i :| 0 <= i < |before| && e in BlockOutputs(before[i]);
    assert before[i] == blocks[i];
  }

  // ---------------------------------------------------------------------------------------
  // Mints
  // ---------------------------------------------------------------------------------------

  function MintsOf(b: Block, n: nat): seq<Element>
    requires n <= |b.txns|
  {
    if n == 0 then [] else
      MintsOf(b, n - 1) + (if b.txns[n - 1].mint.Some? then [b.txns[n - 1].mint.value] else [])
  }

  function AllMints(blocks: seq<Block>): seq<Element> {
    if blocks == [] then [] else
      AllMints(blocks[..|blocks| - 1]) + MintsOf(blocks[|blocks| - 1], |blocks[|blocks| - 1].txns|)
  }

  lemma {:induction false} MintsOfMember(b: Block, n: nat, e: Element)
    requires n <= |b.txns|
    ensures e in MintsOf(b, n) <==> UsesMint(b, n, e)
    decreases n
  {
    if n != 0 {
      MintsOfMember(b, n - 1, e);
      if i :| 0 <= i < n && b.txns[i].mint == Some(e) { assert i == n - 1 || UsesMint(b, n - 1, e); }
      if b.txns[n - 1].mint == Some(e) { assert UsesMint(b, n, e); }
    }
  }

  lemma {:induction false} AllMintsMember(blocks: seq<Block>, e: Element)
    ensures e in AllMints(blocks) <==> exists i :: 0 <= i < |blocks| && Mints(e)(blocks[i])
    decreases |blocks|
  {
    hide MintsOf, UsesMint;
    if blocks != [] {
      var n := |blocks| - 1;
      AllMintsMember(blocks[..n], e);
      MintsOfMember(blocks[n], |blocks[n].txns|, e);
      if i :| 0 <= i < |blocks| && Mints(e)(blocks[i]) { assert i < n ==> blocks[..n][i] == blocks[i]; }
      if i :| 0 <= i < n && Mints(e)(blocks[..n][i]) { assert Mints(e)(blocks[i]); }
    }
  }

  lemma TwoTxns(b: Block, t: Utxo, u: Utxo)
    requires b.txns == [t, u]
    ensures Leaves(b, 2) == Outputs(t) + Inputs(t) + Outputs(u) + Inputs(u)
    ensures BlockOutputs(b) == Outputs(t) + Outputs(u) && BlockInputs(b) == Inputs(t) + Inputs(u)
  {
    hide Outputs, Inputs;
    assert Leaves(b, 1) == Outputs(t) + Inputs(t);
    assert OutputsOf(b, 1) == Outputs(t) && InputsOf(b, 1) == Inputs(t);
  }

  /** Inside one block the mint hash is not compared: two transactions that mint the same hash are
    accepted together whenever each would be accepted alone and their notes differ. */
  lemma MintTwiceInOneBlock(env: Env, t: Utxo, u: Utxo, e: Element, db: Database, tree: set<Element>, h: U64, hash: U256)
    requires ValidateTxn(env, t, db, tree).None? && ValidateTxn(env, u, db, tree).None?
    requires t.mint == u.mint == Some(e)
    requires Distinct(Outputs(t) + Inputs(t) + Outputs(u) + Inputs(u))
    requires OnePerPath(tree + ToSet(Outputs(t) + Outputs(u)))
    ensures exists b: Block :: ValidBlock(env, b, db, tree) && b.txns == [t, u]
  {
    hide ValidateTxn, RootWith, Outputs, Inputs;
    var txns := [t, u];
    var b0 := BlockStore.Block.Block(h, hash, 0, txns);
    TwoTxns(b0, t, u);
    ValidTxnMeaning(env, t, db, tree);
    ValidTxnMeaning(env, u, db, tree);
    LeavesSplit(b0, 2);
    ToSetMember(BlockOutputs(b0));
    ToSetMember(BlockInputs(b0));
    RootWithIsRoot(env.root, tree, ToSet(BlockOutputs(b0)), ToSet(BlockInputs(b0)));
    var b := b0.(root := env.root(TreeWith(tree, b0)));
    SameTxns(b0, b, 2);
    assert ValidBlock(env, b, db, tree) && b.txns == [t, u];
  }

  function MintOne(e: Element, hash: U256): Utxo {
    Utxo(0, 0, e, 0, Some(7), hash)
  }

  /** For instance: two transactions that each create one note, with mint hash 7. */
  lemma MintTwiceSample()
    ensures var env := Env(t => true, s => 0);
      exists b: Block :: ValidBlock(env, b, StoreAll([]), TreeAfter([])) && b.txns == [MintOne(1, 0), MintOne(2, 1)]
  {
    hide ValidateTxn, ValidBlock, StoreAll, MintOne, Outputs, Inputs;
    var env := Env(t => true, s => 0);
    var t, u := MintOne(1, 0), MintOne(2, 1);
    MintOneIsValid(env, 1, 0);
    MintOneIsValid(env, 2, 1);
    assert Outputs(t) + Inputs(t) + Outputs(u) + Inputs(u) == [1, 2] && Outputs(t) + Outputs(u) == [1, 2];
    ToSetMember([1, 2]);
    MintTwiceInOneBlock(env, t, u, 7, StoreAll([]), {}, 1, 1);
  }

  lemma MintOneIsValid(env: Env, e: Element, hash: U256)
    requires 0 < e < MODULUS && env.verify(MintOne(e, hash))
    ensures Outputs(MintOne(e, hash)) == [e] && Inputs(MintOne(e, hash)) == [] && MintOne(e, hash).mint == Some(7)
    ensures ValidateTxn(env, MintOne(e, hash), StoreAll([]), {}).None?
  {
    hide ValidateTxn, GetHistory, GetMint, StoreAll;
    HistoryIsOutputs([], e);
    NoMints(7);
    ValidTxnMeaning(env, MintOne(e, hash), StoreAll([]), {});
  }

  lemma NoMints(e: Element)
    ensures GetMint(StoreAll([]), e).None?
  {
    LookupsAreScans([], MintHash(e));
  }

  lemma {:induction false} SameTxns(a: Block, b: Block, n: nat)
    requires a.txns == b.txns && n <= |a.txns|
    ensures Leaves(a, n) == Leaves(b, n) && OutputsOf(a, n) == OutputsOf(b, n) && InputsOf(a, n) == InputsOf(b, n)
    decreases n
  {
    if n != 0 { SameTxns(a, b, n - 1); }
  }
}
