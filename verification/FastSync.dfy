/** Applying a fast snapshot: bring the tree to the state just before the snapshot's last block. */
module FastSync {
  import opened Util
  import opened Keys
  import opened OrderedDb
  import opened BlockStore
  import opened Smirk
  import opened Ledger
  import opened Chain
  import opened ChainCollision

  datatype Snapshot = Applied | RootMismatch | ElementsMissing | TreeError | SnapshotPanic

  /** `last_block_elements`: true for outputs, false for inputs, the last mention winning; padding
    zeros are recorded like any other commitment. */
  function Marks(b: Block, n: nat): map<Element, bool>
    requires n <= |b.txns|
  {
    if n == 0 then map[] else
      var t := b.txns[n - 1];
      Marks(b, n - 1)[t.in0 := false][t.in1 := false][t.out0 := true][t.out1 := true]
  }

  function BlockMarks(b: Block): map<Element, bool> {
    Marks(b, |b.txns|)
  }

  /** The block itself brings this change, so the snapshot leaves it out. */
  predicate LeftToBlock(e: Element, marks: map<Element, bool>, add: bool) {
    e != 0 && e in marks && marks[e] == add
  }

  /** Of the elements of a difference, those the snapshot changes and those the block will. */
  function Batched(s: set<Element>, marks: map<Element, bool>, add: bool): set<Element> {
    set e | e in s && e != 0 && !LeftToBlock(e, marks, add)
  }

  function Skipped(s: set<Element>, marks: map<Element, bool>, add: bool): set<Element> {
    set e | e in s && LeftToBlock(e, marks, add)
  }

  function SnapshotInserts(tree: set<Element>, sent: set<Element>, marks: map<Element, bool>): set<Element> {
    Batched(sent - tree, marks, true)
  }

  function SnapshotRemoves(tree: set<Element>, sent: set<Element>, marks: map<Element, bool>): set<Element> {
    Batched(tree - sent, marks, false)
  }

  /** Every recorded commitment turns up in the difference on its own side; zeros never do. */
  predicate AllFound(tree: set<Element>, sent: set<Element>, marks: map<Element, bool>) {
    forall e :: e in marks ==> e != 0 && if marks[e] then e in sent && e !in tree else e in tree && e !in sent
  }

  class NotesTree {
    var elements: set<Element>

    constructor (elements: set<Element>)
      ensures this.elements == elements
    {
      this.elements := elements;
    }

    /** `apply_fast_snapshot_chunk`. */
    method ApplyFastSnapshot(root: Root, b: Block, sent: seq<Element>) returns (r: Snapshot)
      modifies this
      ensures !r.Applied? ==> elements == old(elements)
      ensures r == SnapshotOutcome(root, old(elements), b, ToSet(sent))
      ensures r.Applied? ==>
        var marks := BlockMarks(b);
        elements == old(elements) + SnapshotInserts(old(elements), ToSet(sent), marks)
                                  - SnapshotRemoves(old(elements), ToSet(sent), marks)
    {
      hide Lsb, RootWith, OnePerPath, BatchTaken, InsertBatch;
      var marks: map<Element, bool> := map[];
      for i := 0 to |b.txns|
        invariant marks == Marks(b, i)
      {
        var t := b.txns[i];
        marks := marks[t.in0 := false][t.in1 := false];
        marks := marks[t.out0 := true][t.out1 := true];
      }
      var sentSet := ToSet(sent);
      var added, missing := sentSet - elements, elements - sentSet;
      var newRoot := RootWith(root, elements, added, missing);
      if newRoot.None? {
        return SnapshotPanic;
      }
      if newRoot.value != b.root {
        return RootMismatch;
      }
      PreviewMeansOnePerPath(root, elements, added, missing);
      PathsOfParts(added, missing, Batched(added, marks, true));
      var inserts, left1 := CollectSide(added, {}, marks, marks, true);
      var removes, left := CollectSide(missing, inserts, marks, left1, false);
      LeftMeansFound(elements, sentSet, marks, left);
      if left != map[] {
        return ElementsMissing;
      }
      var outcome := InsertBatch(elements, Batch(inserts, removes));
      DoneShape(elements, Batch(inserts, removes));
      if outcome.Done? {
        elements := outcome.tree;
        return Applied;
      }
      r := if outcome.Collision? then TreeError else SnapshotPanic;
    }
  }

  /** Which way a snapshot ends, by what it is applied to. */
  function SnapshotOutcome(root: Root, tree: set<Element>, b: Block, sent: set<Element>): Snapshot {
    var marks := BlockMarks(b);
    match RootWith(root, tree, sent - tree, tree - sent)
    case None => SnapshotPanic
    case Some(got) =>
      if got != b.root then RootMismatch
      else if !AllFound(tree, sent, marks) then ElementsMissing
      else match InsertBatch(tree, Batch(SnapshotInserts(tree, sent, marks), SnapshotRemoves(tree, sent, marks))) {
        case Done(_) => Applied
        case Collision => TreeError
        case Panicked => SnapshotPanic
      }
  }

  /** All of `side` but `todo` has been gone through. */
  ghost predicate Collected(side: set<Element>, todo: set<Element>, marks: map<Element, bool>, left0: map<Element, bool>, add: bool,
                            rest: set<Element>, left: map<Element, bool>)
  {
    todo <= side && rest == Batched(side - todo, marks, add) && left == left0 - Skipped(side - todo, marks, add)
  }

  lemma NothingCollected(side: set<Element>, marks: map<Element, bool>, left0: map<Element, bool>, add: bool)
    ensures Collected(side, side, marks, left0, add, {}, left0)
  {
    NothingYet(marks, add);
    assert side - side == {} && left0 - {} == left0;
  }

  lemma CollectOne(side: set<Element>, batched: set<Element>, todo: set<Element>, marks: map<Element, bool>, left0: map<Element, bool>, add: bool,
                   rest: set<Element>, left: map<Element, bool>, e: Element)
    requires Collected(side, todo, marks, left0, add, rest, left) && e in todo
    requires OnePerPath(side + batched) && side !! batched
    ensures e == 0 ==> Collected(side, todo - {e}, marks, left0, add, rest, left)
    ensures e != 0 && LeftToBlock(e, marks, add) ==> Collected(side, todo - {e}, marks, left0, add, rest, left - {e})
    ensures e != 0 && !LeftToBlock(e, marks, add) ==> Collected(side, todo - {e}, marks, left0, add, rest + {e}, left)
    ensures !PathTaken(rest, Lsb(e)) && !PathTaken(batched, Lsb(e))
  {
    hide Lsb, Batched, Skipped, OnePerPath, PathTaken;
    var seen := side - todo;
    assert seen + {e} == side - (todo - {e});
    SideGrows(seen, e, marks, add);
    FreePath(side, batched, seen, marks, add, e);
    MinusMore(left0, Skipped(seen, marks, add), e);
  }

  lemma AllCollected(side: set<Element>, marks: map<Element, bool>, left0: map<Element, bool>, add: bool, rest: set<Element>, left: map<Element, bool>)
    requires Collected(side, {}, marks, left0, add, rest, left)
    ensures rest == Batched(side, marks, add) && left == left0 - Skipped(side, marks, add)
  {
    assert side - {} == side;
  }

  /** The loop over one side of the difference: what the last block brings is left to it, the rest
    goes into the batch, whose paths are all different. */
  method CollectSide(side: set<Element>, batched: set<Element>, marks: map<Element, bool>, left0: map<Element, bool>, add: bool)
    returns (rest: set<Element>, left: map<Element, bool>)
    requires OnePerPath(side + batched) && side !! batched
    ensures rest == Batched(side, marks, add)
    ensures left == left0 - Skipped(side, marks, add)
  {
    hide Collected, Lsb, Batched, Skipped, OnePerPath, PathTaken, LeftToBlock;
    rest, left := {}, left0;
    var todo := side;
    NothingCollected(side, marks, left0, add);
    while todo != {}
      invariant Collected(side, todo, marks, left0, add, rest, left)
      decreases |todo|
    {
      var e :| e in todo;
      CollectOne(side, batched, todo, marks, left0, add, rest, left, e);
      todo := todo - {e};
      if e == 0 {
      } else if LeftToBlock(e, marks, add) {
        left := left - {e};
      } else {
        assert !PathTaken(rest, Lsb(e)) && !PathTaken(batched, Lsb(e));
        rest := rest + {e};
      }
    }
    AllCollected(side, marks, left0, add, rest, left);
  }

  lemma NothingYet(marks: map<Element, bool>, add: bool)
    ensures Batched({}, marks, add) == {} && Skipped({}, marks, add) == {}
  {
  }

  lemma MinusMore(m: map<Element, bool>, s: set<Element>, e: Element)
    ensures m - s - {e} == m - (s + {e})
  {
  }

  lemma FreePath(side: set<Element>, batched: set<Element>, seen: set<Element>, marks: map<Element, bool>, add: bool, e: Element)
    requires OnePerPath(side + batched) && side !! batched
    requires e in side && seen <= side && e !in seen
    ensures !PathTaken(Batched(seen, marks, add), Lsb(e)) && !PathTaken(batched, Lsb(e))
  {
    hide Lsb;
    forall x | x in seen || x in batched ensures Lsb(x) != Lsb(e) {
      assert x in side + batched && e in side + batched;
    }
  }

  lemma SideGrows(s: set<Element>, e: Element, marks: map<Element, bool>, add: bool)
    ensures Batched(s + {e}, marks, add) ==
      Batched(s, marks, add) + (if e != 0 && !LeftToBlock(e, marks, add) then {e} else {})
    ensures Skipped(s + {e}, marks, add) == Skipped(s, marks, add) + (if LeftToBlock(e, marks, add) then {e} else {})
  {
  }

  lemma PathsOfParts(a: set<Element>, b: set<Element>, part: set<Element>)
    requires OnePerPath(a + b) && a !! b && part <= a
    ensures OnePerPath(a + {}) && OnePerPath(b + part) && b !! part
  {
    hide Lsb;
    forall x, y | x in b + part && y in b + part && Lsb(x) == Lsb(y) ensures x == y {
      assert x in a + b && y in a + b;
    }
    forall x, y | x in a + {} && y in a + {} && Lsb(x) == Lsb(y) ensures x == y {
      assert x in a + b && y in a + b;
    }
  }

  lemma PreviewMeansOnePerPath(root: Root, tree: set<Element>, ins: set<Element>, rem: set<Element>)
    requires RootWith(root, tree, ins, rem).Some?
    ensures ins !! rem && OnePerPath(ins + rem)
  {
  }

  lemma DoneShape(tree: set<Element>, b: Batch)
    ensures InsertBatch(tree, b).Done? ==> InsertBatch(tree, b).tree == tree + b.inserts - b.removes
  {
  }

  lemma LeftMeansFound(tree: set<Element>, sent: set<Element>, marks: map<Element, bool>, left: map<Element, bool>)
    requires left == marks - Skipped(sent - tree, marks, true) - Skipped(tree - sent, marks, false)
    ensures left == map[] <==> AllFound(tree, sent, marks)
  {
    if left == map[] {
      forall e | e in marks
        ensures e != 0 && if marks[e] then e in sent && e !in tree else e in tree && e !in sent
      {
        assert e !in left;
      }
    } else {
      var e :| e in left;
      assert e in marks;
    }
  }

  // ---------------------------------------------------------------------------------------
  // What a snapshot achieves
  // ---------------------------------------------------------------------------------------

  /** Marks name exactly the block's commitments, on the right side when the sides are disjoint. */
  lemma {:induction false} MarksMeaning(b: Block, n: nat, e: Element)
    requires n <= |b.txns|
    ensures e in Marks(b, n) <==> Mentions(b, n, e)
    ensures e in Marks(b, n) && e != 0 ==> if Marks(b, n)[e] then e in OutputsOf(b, n) else e in InputsOf(b, n)
    ensures e in OutputsOf(b, n) || e in InputsOf(b, n) ==> e in Marks(b, n)
    decreases n
  {
    if n != 0 {
      hide Mentions;
      var t := b.txns[n - 1];
      MarksMeaning(b, n - 1, e);
      NonZeroMeaning(t.in0, t.in1);
      NonZeroMeaning(t.out0, t.out1);
      MentionsMore(b, n, e);
    }
  }

  lemma MentionsMore(b: Block, n: nat, e: Element)
    requires 0 < n <= |b.txns|
    ensures Mentions(b, n, e) <==> Mentions(b, n - 1, e) || MentionedBy(b.txns[n - 1], e)
  {
    if i :| 0 <= i < n && MentionedBy(b.txns[i], e) {
      assert i == n - 1 || Mentions(b, n - 1, e);
    }
  }

  predicate MentionedBy(t: Utxo, e: Element) {
    e == t.in0 || e == t.in1 || e == t.out0 || e == t.out1
  }

  predicate Mentions(b: Block, n: nat, e: Element)
    requires n <= |b.txns|
  {
    exists i :: 0 <= i < n && MentionedBy(b.txns[i], e)
  }

  /** A block with a padded transaction is never applied by a fast snapshot: its zero commitment is
    expected in the difference and never found there. */
  lemma PaddedBlockNeverApplies(root: Root, tree: set<Element>, b: Block, sent: set<Element>)
    requires Mentions(b, |b.txns|, 0)
    ensures !SnapshotOutcome(root, tree, b, sent).Applied?
  {
    hide RootWith, InsertBatch;
    MarksMeaning(b, |b.txns|, 0);
  }

  /** The block's inputs and outputs have nothing in common, as validation demands. */
  ghost predicate Disjoint(b: Block) {
    forall e :: e in BlockOutputs(b) ==> e !in BlockInputs(b)
  }

  lemma BlockMarksMeaning(b: Block, e: Element)
    requires e != 0
    ensures e in BlockMarks(b) ==> if BlockMarks(b)[e] then e in BlockOutputs(b) else e in BlockInputs(b)
    ensures e in BlockOutputs(b) || e in BlockInputs(b) ==> e in BlockMarks(b)
  {
    MarksMeaning(b, |b.txns|, e);
  }

  lemma DisjointMarks(b: Block, e: Element)
    requires Disjoint(b) && e != 0
    ensures e in BlockMarks(b) && BlockMarks(b)[e] <==> e in BlockOutputs(b)
    ensures e in BlockMarks(b) && !BlockMarks(b)[e] <==> e in BlockInputs(b)
  {
    MarksMeaning(b, |b.txns|, e);
  }

  /** The elements sent, less those already held whose path a new one takes over. */
  ghost function Overlaid(tree: set<Element>, sent: set<Element>): set<Element> {
    set x | x in sent && (x in tree ==> !PathTaken(sent - tree, Lsb(x)))
  }

  /** No input of the block is also recorded as an output. */
  ghost predicate InputsStayInputs(b: Block) {
    forall e :: e in BlockInputs(b) ==> !(e in BlockMarks(b) && BlockMarks(b)[e])
  }

  lemma DisjointInputs(b: Block)
    requires Disjoint(b)
    ensures InputsStayInputs(b)
  {
    hide BlockMarks, BlockOutputs, BlockInputs;
    ZeroNotInBlock(b);
    forall e | e in BlockInputs(b) ensures !(e in BlockMarks(b) && BlockMarks(b)[e]) {
      DisjointMarks(b, e);
    }
  }

  /** Whenever a snapshot is applied, whatever the peer sent: applying the last block's own changes to the
    result gives exactly the elements sent, if and only if the zero element is in both sets or in
    neither and no input of the block is recorded as an output; and the block's root is that of the
    elements sent with taken-over ones left out, so of those sent when no two share a path. */
  lemma SnapshotThenBlockExactly(root: Root, tree: set<Element>, b: Block, sent: set<Element>)
    requires SnapshotOutcome(root, tree, b, sent).Applied?
    ensures var marks := BlockMarks(b);
      var after := tree + SnapshotInserts(tree, sent, marks) - SnapshotRemoves(tree, sent, marks);
      TreeWith(after, b) == sent <==> (0 in sent <==> 0 in tree) && InputsStayInputs(b)
    ensures b.root == root(Overlaid(tree, sent))
    ensures OnePerPath(sent) ==> b.root == root(sent)
    ensures Disjoint(b) ==> InputsStayInputs(b)
  {
    hide Lsb, InsertBatch, OnePerPath, RootWith, BlockOutputs, BlockInputs, Marks, Overlaid;
    var marks := BlockMarks(b);
    var after := tree + SnapshotInserts(tree, sent, marks) - SnapshotRemoves(tree, sent, marks);
    PreviewIsOverlaid(root, tree, sent);
    if Disjoint(b) { DisjointInputs(b); }
    assert AllFound(tree, sent, marks);
    ToSetMember(BlockOutputs(b));
    ToSetMember(BlockInputs(b));
    ZeroNotInBlock(b);
    forall e | e != 0
      ensures e in TreeWith(after, b) <==> e in sent && !(e in BlockInputs(b) && e in marks && marks[e])
    {
      BlockMarksMeaning(b, e);
    }
    if (0 in sent <==> 0 in tree) && InputsStayInputs(b) {
      assert forall e :: e in TreeWith(after, b) <==> e in sent;
    }
  }

  lemma ZeroNotInBlock(b: Block)
    ensures 0 !in BlockOutputs(b) && 0 !in BlockInputs(b)
  {
    ZeroNotIn(b, |b.txns|);
  }

  lemma {:induction false} ZeroNotIn(b: Block, n: nat)
    requires n <= |b.txns|
    ensures 0 !in OutputsOf(b, n) && 0 !in InputsOf(b, n)
    decreases n
  {
    if n != 0 {
      ZeroNotIn(b, n - 1);
      NonZeroMeaning(b.txns[n - 1].in0, b.txns[n - 1].in1);
      NonZeroMeaning(b.txns[n - 1].out0, b.txns[n - 1].out1);
    }
  }

  lemma PreviewIsOverlaid(root: Root, tree: set<Element>, sent: set<Element>)
    ensures RootWith(root, tree, sent - tree, tree - sent) ==
      if OnePerPath((sent - tree) + (tree - sent)) then Some(root(Overlaid(tree, sent))) else None
    ensures OnePerPath(sent) ==> Overlaid(tree, sent) == sent
  {
    hide Lsb;
    var ins, rem := sent - tree, tree - sent;
    assert (set x | x in tree && !PathTaken(ins, Lsb(x))) + ins - rem == Overlaid(tree, sent);
    if OnePerPath(sent) {
      forall x | x in tree && x in sent ensures !PathTaken(ins, Lsb(x)) {
        forall y | y in ins ensures Lsb(y) != Lsb(x) { assert y in sent; }
      }
    }
  }

  const THREE: U256 := 3
  const FOUR: U256 := 4

  /** With two sent elements on one path the root compared is not the root of what was sent. Here 2 is held,
    and the block spends 3 and 4 and creates 1 and another element on the path of 2. */
  lemma SharedPathHidesElement()
    ensures var root: Root := s => if TWO in s then 1 else 0;
      var tree, sent := {TWO, THREE, FOUR}, {TWO, Twin(), ONE};
      var b := BlockStore.Block.Block(1, 1, 0, [Utxo(THREE, FOUR, Twin(), ONE, None, 0)]);
      SnapshotOutcome(root, tree, b, sent).Applied? && root(sent) != b.root
  {
    hide Lsb, Pow256, RootWith, SnapshotOutcome;
    var root: Root := s => if TWO in s then 1 else 0;
    var tree, sent := {TWO, THREE, FOUR}, {TWO, Twin(), ONE};
    var b := BlockStore.Block.Block(1, 1, 0, [Utxo(THREE, FOUR, Twin(), ONE, None, 0)]);
    var marks := BlockMarks(b);
    SamplePaths();
    assert Marks(b, 0) == map[];
    assert marks == map[THREE := false, FOUR := false, Twin() := true, ONE := true];
    assert sent - tree == {Twin(), ONE} && tree - sent == {THREE, FOUR};
    assert Twin() in sent - tree;
    assert PathTaken(sent - tree, Lsb(TWO));
    assert TWO !in Overlaid(tree, sent);
    AppliesExactly(root, tree, b, sent);
  }

  lemma SamplePaths()
    ensures Twin() != ONE && Twin() != TWO && Twin() != THREE && Twin() != FOUR
    ensures Lsb(ONE) == 1 && Lsb(TWO) == Lsb(Twin()) == 2 && Lsb(THREE) == 3 && Lsb(FOUR) == 4
  {
    TwinPaths();
  }

  /** A snapshot is applied exactly when no two of the elements to add or remove share a path, the root fits,
    every commitment of the block, none of them zero, is where it should be, and what is added meets
    no path in use. */
  lemma AppliesExactly(root: Root, tree: set<Element>, b: Block, sent: set<Element>)
    ensures SnapshotOutcome(root, tree, b, sent).Applied? <==>
      && OnePerPath((sent - tree) + (tree - sent))
      && root(Overlaid(tree, sent)) == b.root
      && AllFound(tree, sent, BlockMarks(b))
      && forall i :: i in SnapshotInserts(tree, sent, BlockMarks(b)) ==> !PathTaken(tree, Lsb(i))
  {
    hide Lsb, Marks, OnePerPath, Overlaid, RootWith, AllFound;
    var marks := BlockMarks(b);
    PreviewIsOverlaid(root, tree, sent);
    var batch := Batch(SnapshotInserts(tree, sent, marks), SnapshotRemoves(tree, sent, marks));
    forall r | r in batch.removes ensures PathTaken(tree, Lsb(r)) { assert r in tree; }
  }

  /** Why a snapshot is refused, each reason exactly: two changes on one path panic, another root comes before a
    commitment out of place, and that before an added element that meets a path in use. */
  lemma RefusalsExactly(root: Root, tree: set<Element>, b: Block, sent: set<Element>)
    ensures var r := SnapshotOutcome(root, tree, b, sent);
      && (r.SnapshotPanic? <==> !OnePerPath((sent - tree) + (tree - sent)))
      && (r.RootMismatch? <==> OnePerPath((sent - tree) + (tree - sent)) && root(Overlaid(tree, sent)) != b.root)
      && (r.ElementsMissing? <==>
            && OnePerPath((sent - tree) + (tree - sent)) && root(Overlaid(tree, sent)) == b.root
            && !AllFound(tree, sent, BlockMarks(b)))
      && (r.TreeError? <==>
            && OnePerPath((sent - tree) + (tree - sent)) && root(Overlaid(tree, sent)) == b.root
            && AllFound(tree, sent, BlockMarks(b))
            && exists i :: i in SnapshotInserts(tree, sent, BlockMarks(b)) && PathTaken(tree, Lsb(i)))
  {
    hide Lsb, Marks, OnePerPath, Overlaid, RootWith, AllFound;
    var marks := BlockMarks(b);
    PreviewIsOverlaid(root, tree, sent);
    var batch := Batch(SnapshotInserts(tree, sent, marks), SnapshotRemoves(tree, sent, marks));
    forall r | r in batch.removes ensures PathTaken(tree, Lsb(r)) { assert r in tree; }
  }

  /** For states that share no path only the root and the commitments matter. */
  lemma AppliesApart(root: Root, tree: set<Element>, b: Block, sent: set<Element>)
    requires OnePerPath(tree + sent)
    ensures SnapshotOutcome(root, tree, b, sent).Applied? <==> root(sent) == b.root && AllFound(tree, sent, BlockMarks(b))
  {
    hide Lsb, Marks, Overlaid, SnapshotOutcome, AllFound;
    AppliesExactly(root, tree, b, sent);
    PreviewIsOverlaid(root, tree, sent);
    SmallerTree(tree + sent, sent);
    SmallerTree(tree + sent, (sent - tree) + (tree - sent));
    forall i | i in SnapshotInserts(tree, sent, BlockMarks(b)) ensures !PathTaken(tree, Lsb(i)) {
      forall x | x in tree ensures Lsb(x) != Lsb(i) { assert x in tree + sent && i in tree + sent; }
    }
  }

  /** Two states without shared paths of their own that share one between them: the preview panics. */
  lemma SharedPathPanics(root: Root, tree: set<Element>, b: Block, sent: set<Element>)
    requires OnePerPath(tree) && OnePerPath(sent) && !OnePerPath(tree + sent)
    ensures SnapshotOutcome(root, tree, b, sent).SnapshotPanic?
  {
    hide Lsb;
    var x, y :| x in tree + sent && y in tree + sent && Lsb(x) == Lsb(y) && x != y;
    assert x in (sent - tree) + (tree - sent) && y in (sent - tree) + (tree - sent);
  }

  // ---------------------------------------------------------------------------------------
  // Snapshots of an accepted chain
  // ---------------------------------------------------------------------------------------

  lemma {:induction false} OldTreeFromOutputs(env: Env, blocks: seq<Block>, k: nat, e: Element)
    requires Accepted(env, blocks) && k < |blocks| && e in TreeAfter(blocks[..k])
    ensures e in AllOutputs(blocks[..|blocks| - 1])
  {
    hide ValidBlock, CommitBlock, StoreAll, BlockOutputs, BlockInputs, TreeAfter, Accepted;
    AcceptedPrefix(env, blocks, k);
    AcceptedInv(env, blocks[..k]);
    InAllOutputs(blocks[..k], e);
    InAllOutputs(blocks[..|blocks| - 1], e);
    var i :| 0 <= i < k && e in BlockOutputs(blocks[..k][i]);
    assert blocks[..|blocks| - 1][i] == blocks[..k][i];
  }

  /** Facts about the last block of a chain, seen from an older tree. */
  lemma LastBlockAgainst(env: Env, blocks: seq<Block>, k: nat)
    requires Accepted(env, blocks) && k < |blocks|
    ensures var b, old' := blocks[|blocks| - 1], TreeAfter(blocks[..k]);
      var before, sent := TreeAfter(blocks[..|blocks| - 1]), TreeAfter(blocks);
      && Disjoint(b)
      && env.root(sent) == b.root
      && (forall e :: e in BlockOutputs(b) ==> e in sent && e !in old' && e !in before)
      && (forall e :: e in BlockInputs(b) ==> e !in sent && e in before)
      && sent == TreeWith(before, b)
  {
    hide ValidBlock, CommitBlock, StoreAll, BlockOutputs, BlockInputs, GetHistory;
    var n := |blocks| - 1;
    var b, before := blocks[n], TreeAfter(blocks[..n]);
    AcceptedBlock(env, blocks, n);
    ValidIsClean(env, b, StoreAll(blocks[..n]), before);
    AcceptedInv(env, blocks);
    ToSetMember(BlockOutputs(b));
    ToSetMember(BlockInputs(b));
    forall e | e in BlockOutputs(b) ensures e !in TreeAfter(blocks[..k]) {
      HistoryIsOutputs(blocks[..n], e);
      if e in TreeAfter(blocks[..k]) {
        OldTreeFromOutputs(env, blocks, k, e);
        assert false;
      }
    }
  }

  /** A node that is behind at height `k` and is sent the exact state after a chain takes the snapshot
    exactly when no path was reused between the two states, the last block has no padding, and it spends
    only notes the node already has; the node then holds exactly the tree before that block, ready to
    commit it. A reused path makes it panic. */
  lemma HonestSnapshotExactly(env: Env, blocks: seq<Block>, k: nat)
    requires Accepted(env, blocks) && k < |blocks|
    ensures var b, old', sent := blocks[|blocks| - 1], TreeAfter(blocks[..k]), TreeAfter(blocks);
      && (SnapshotOutcome(env.root, old', b, sent).Applied? <==>
            && OnePerPath(old' + sent) && !Mentions(b, |b.txns|, 0)
            && forall e :: e in BlockInputs(b) ==> e in old')
      && (!OnePerPath(old' + sent) ==> SnapshotOutcome(env.root, old', b, sent).SnapshotPanic?)
      && (SnapshotOutcome(env.root, old', b, sent).Applied? ==>
            old' + SnapshotInserts(old', sent, BlockMarks(b)) - SnapshotRemoves(old', sent, BlockMarks(b))
              == TreeAfter(blocks[..|blocks| - 1]))
  {
    hide ValidBlock, CommitBlock, StoreAll, BlockOutputs, BlockInputs, Accepted, TreeAfter, SnapshotOutcome, Mentions, BlockMarks, OnePerPath;
    var b, old', sent := blocks[|blocks| - 1], TreeAfter(blocks[..k]), TreeAfter(blocks);
    var before, marks := TreeAfter(blocks[..|blocks| - 1]), BlockMarks(b);
    LastBlockAgainst(env, blocks, k);
    AcceptedPrefix(env, blocks, k);
    AcceptedInv(env, blocks[..k]);
    AcceptedInv(env, blocks);
    if OnePerPath(old' + sent) {
      AppliesApart(env.root, old', b, sent);
      FoundExactly(b, old', sent);
      if AllFound(old', sent, marks) { GivesTreeBefore(env, blocks, k); }
    } else {
      SharedPathPanics(env.root, old', b, sent);
    }
  }

  lemma GivesTreeBefore(env: Env, blocks: seq<Block>, k: nat)
    requires Accepted(env, blocks) && k < |blocks|
    requires AllFound(TreeAfter(blocks[..k]), TreeAfter(blocks), BlockMarks(blocks[|blocks| - 1]))
    ensures var b, old', sent := blocks[|blocks| - 1], TreeAfter(blocks[..k]), TreeAfter(blocks);
      old' + SnapshotInserts(old', sent, BlockMarks(b)) - SnapshotRemoves(old', sent, BlockMarks(b))
        == TreeAfter(blocks[..|blocks| - 1])
  {
    hide ValidBlock, CommitBlock, StoreAll, BlockOutputs, BlockInputs, Accepted, TreeAfter, Mentions, BlockMarks;
    var b, old', sent := blocks[|blocks| - 1], TreeAfter(blocks[..k]), TreeAfter(blocks);
    var before, marks := TreeAfter(blocks[..|blocks| - 1]), BlockMarks(b);
    LastBlockAgainst(env, blocks, k);
    ZeroNotInTree(env, blocks, k);
    ZeroNotInBlock(b);
    ToSetMember(BlockOutputs(b));
    ToSetMember(BlockInputs(b));
    forall e ensures e in old' + SnapshotInserts(old', sent, marks) - SnapshotRemoves(old', sent, marks) <==> e in before {
      if e != 0 { DisjointMarks(b, e); }
    }
  }

  lemma FoundExactly(b: Block, tree: set<Element>, sent: set<Element>)
    requires Disjoint(b)
    requires forall e :: e in BlockOutputs(b) ==> e in sent && e !in tree
    requires forall e :: e in BlockInputs(b) ==> e !in sent
    ensures AllFound(tree, sent, BlockMarks(b)) <==>
      !Mentions(b, |b.txns|, 0) && forall e :: e in BlockInputs(b) ==> e in tree
  {
    hide Mentions, BlockOutputs, BlockInputs;
    MarksMeaning(b, |b.txns|, 0);
    ZeroNotInBlock(b);
    forall e | e != 0
      ensures e in BlockMarks(b) && BlockMarks(b)[e] <==> e in BlockOutputs(b)
      ensures e in BlockMarks(b) && !BlockMarks(b)[e] <==> e in BlockInputs(b)
    {
      DisjointMarks(b, e);
    }
  }

  lemma ZeroNotInTree(env: Env, blocks: seq<Block>, k: nat)
    requires Accepted(env, blocks) && k <= |blocks|
    ensures 0 !in TreeAfter(blocks[..k]) && 0 !in TreeAfter(blocks) && (blocks != [] ==> 0 !in TreeAfter(blocks[..|blocks| - 1]))
  {
    ZeroNever(blocks[..k]);
    ZeroNever(blocks);
    if blocks != [] { ZeroNever(blocks[..|blocks| - 1]); }
  }

  lemma {:induction false} ZeroNever(blocks: seq<Block>)
    ensures 0 !in TreeAfter(blocks)
    decreases |blocks|
  {
    hide BlockOutputs, BlockInputs;
    if blocks != [] {
      var n := |blocks| - 1;
      ZeroNever(blocks[..n]);
      ZeroNotInBlock(blocks[n]);
      ToSetMember(BlockOutputs(blocks[n]));
    }
  }

  /** An honest chain that makes a receiver panic: note 2 is spent, and its path used again, while the receiver
    still holds note 2. */
  lemma ReusedPathPanics(env: Env)
    requires env.verify(Create()) && env.verify(Spend(TWO, 0)) && env.verify(Spend(0, Twin()))
    ensures var blocks := [FirstBlock(env), FreeingBlock(env), ReusingBlock(env)];
      && Accepted(env, blocks)
      && SnapshotOutcome(env.root, TreeAfter(blocks[..1]), blocks[2], TreeAfter(blocks)).SnapshotPanic?
  {
    hide Accepted, TreeAfter, SnapshotOutcome, Pow256;
    var blocks := [FirstBlock(env), FreeingBlock(env), ReusingBlock(env)];
    PathsAreReused(env);
    TripletPaths();
    var both := TreeAfter(blocks[..1]) + TreeAfter(blocks);
    assert TWO in both && Twin() in both;
    HonestSnapshotExactly(env, blocks, 1);
  }
}
