/** Block validation: conflicts inside the block, checks against the tree and the history, and
  the claimed root. */
module Ledger {
  import opened Util
  import opened Keys
  import opened OrderedDb
  import opened BlockStore
  import opened Smirk

  const MODULUS: nat := 0x30644E72E131A029B85045B68181585D2833E84879B9709143E1F593F0000001

  /** The proof verifier and the tree's root hash, neither of which is modelled. */
  datatype Env = Env(verify: Utxo -> bool, root: Root)

  datatype TxnError =
    | InvalidProof
    | DuplicateInputs(e: Element)
    | DuplicateOutputs(e: Element)
    | InvalidElementSize(e: Element)
    | OutputExists(e: Element)
    | OutputExistedRecently(e: Element)
    | InputNotInTree(e: Element)
    | MintHashAlreadyExists(e: Element)

  function CheckOutput(e: Element, db: Database, tree: set<Element>): Option<TxnError> {
    if e >= MODULUS then Some(InvalidElementSize(e))
    else if e == 0 then None
    else if e in tree then Some(OutputExists(e))
    else if GetHistory(db, e, Output).Some? then Some(OutputExistedRecently(e))
    else None
  }

  function CheckInput(e: Element, tree: set<Element>): Option<TxnError> {
    if e >= MODULUS then Some(InvalidElementSize(e))
    else if e != 0 && e !in tree then Some(InputNotInTree(e))
    else None
  }

  /** `validate_txn`: the first failing check, in the order of the source. */
  function ValidateTxn(env: Env, t: Utxo, db: Database, tree: set<Element>): Option<TxnError> {
    if !env.verify(t) then Some(InvalidProof)
    else if t.in0 != 0 && t.in0 == t.in1 then Some(DuplicateInputs(t.in0))
    else if t.out0 != 0 && t.out0 == t.out1 then Some(DuplicateOutputs(t.out0))
    else if CheckOutput(t.out0, db, tree).Some? then CheckOutput(t.out0, db, tree)
    else if CheckOutput(t.out1, db, tree).Some? then CheckOutput(t.out1, db, tree)
    else if CheckInput(t.in0, tree).Some? then CheckInput(t.in0, tree)
    else if CheckInput(t.in1, tree).Some? then CheckInput(t.in1, tree)
    else if t.mint.Some? && GetMint(db, t.mint.value).Some? then Some(MintHashAlreadyExists(t.mint.value))
    else None
  }

  /** What an accepted transaction satisfies, and only it. */
  lemma ValidTxnMeaning(env: Env, t: Utxo, db: Database, tree: set<Element>)
    ensures ValidateTxn(env, t, db, tree).None? <==>
      && env.verify(t)
      && Distinct(Inputs(t)) && Distinct(Outputs(t))
      && t.in0 < MODULUS && t.in1 < MODULUS && t.out0 < MODULUS && t.out1 < MODULUS
      && (forall e :: e in Inputs(t) ==> e in tree)
      && (forall e :: e in Outputs(t) ==> e !in tree && GetHistory(db, e, Output).None?)
      && (t.mint.Some? ==> GetMint(db, t.mint.value).None?)
  {
    hide Lookup;
    NonZeroMeaning(t.in0, t.in1);
    NonZeroMeaning(t.out0, t.out1);
  }

  /** What an error says is true of the transaction. */
  ghost predicate Truthful(env: Env, t: Utxo, db: Database, tree: set<Element>, error: TxnError) {
    match error
    case InvalidProof => !env.verify(t)
    case DuplicateInputs(e) => e != 0 && t.in0 == t.in1 == e
    case DuplicateOutputs(e) => e != 0 && t.out0 == t.out1 == e
    case InvalidElementSize(e) => e >= MODULUS && e in [t.in0, t.in1, t.out0, t.out1]
    case OutputExists(e) => e in Outputs(t) && e in tree
    case OutputExistedRecently(e) => e in Outputs(t) && e !in tree && GetHistory(db, e, Output).Some?
    case InputNotInTree(e) => e in Inputs(t) && e !in tree
    case MintHashAlreadyExists(e) => t.mint == Some(e) && GetMint(db, e).Some?
  }

  /** Everything that can be wrong with a transaction, each with its error, in the order in which it is looked
    for. */
  ghost function Complaints(env: Env, t: Utxo, db: Database, tree: set<Element>): seq<(bool, TxnError)> {
    [(!env.verify(t), InvalidProof),
     (t.in0 == t.in1 != 0, DuplicateInputs(t.in0)),
     (t.out0 == t.out1 != 0, DuplicateOutputs(t.out0))]
    + AboutOutput(t.out0, db, tree) + AboutOutput(t.out1, db, tree)
    + AboutInput(t.in0, tree) + AboutInput(t.in1, tree)
    + if t.mint.Some? then [(GetMint(db, t.mint.value).Some?, MintHashAlreadyExists(t.mint.value))] else []
  }

  ghost function AboutOutput(e: Element, db: Database, tree: set<Element>): seq<(bool, TxnError)> {
    [(e >= MODULUS, InvalidElementSize(e)),
     (e != 0 && e in tree, OutputExists(e)),
     (e != 0 && GetHistory(db, e, Output).Some?, OutputExistedRecently(e))]
  }

  ghost function AboutInput(e: Element, tree: set<Element>): seq<(bool, TxnError)> {
    [(e >= MODULUS, InvalidElementSize(e)), (e != 0 && e !in tree, InputNotInTree(e))]
  }

  /** The first complaint that holds. */
  ghost function FirstOf(complaints: seq<(bool, TxnError)>): Option<TxnError> {
    if complaints == [] then None
    else if complaints[0].0 then Some(complaints[0].1)
    else FirstOf(complaints[1..])
  }

  lemma {:induction false} FirstOfConcat(a: seq<(bool, TxnError)>, b: seq<(bool, TxnError)>)
    ensures FirstOf(a + b) == if FirstOf(a).Some? then FirstOf(a) else FirstOf(b)
    decreases |a|
  {
    if a == [] {
      assert a + b == b;
    } else {
      FirstOfConcat(a[1..], b);
      assert (a + b)[1..] == a[1..] + b;
    }
  }

  /** A rejected transaction is told the truth, and of several things wrong with it the first in order. */
  lemma ErrorIsTheFirstTrue(env: Env, t: Utxo, db: Database, tree: set<Element>)
    ensures ValidateTxn(env, t, db, tree) == FirstOf(Complaints(env, t, db, tree))
    ensures ValidateTxn(env, t, db, tree).Some? ==> Truthful(env, t, db, tree, ValidateTxn(env, t, db, tree).value)
  {
    hide GetHistory, GetMint;
    ErrorIsTrue(env, t, db, tree);
    FirstHead(env, t);
    FirstOutput(t.out0, db, tree);
    FirstOutput(t.out1, db, tree);
    FirstInput(t.in0, tree);
    FirstInput(t.in1, tree);
    var head := [(!env.verify(t), InvalidProof), (t.in0 == t.in1 != 0, DuplicateInputs(t.in0)), (t.out0 == t.out1 != 0, DuplicateOutputs(t.out0))];
    var outs := AboutOutput(t.out0, db, tree);
    FirstSix(head, outs, AboutOutput(t.out1, db, tree), AboutInput(t.in0, tree), AboutInput(t.in1, tree),
      if t.mint.Some? then [(GetMint(db, t.mint.value).Some?, MintHashAlreadyExists(t.mint.value))] else []);
  }

  lemma FirstSix(a: seq<(bool, TxnError)>, b: seq<(bool, TxnError)>, c: seq<(bool, TxnError)>,
                 d: seq<(bool, TxnError)>, e: seq<(bool, TxnError)>, f: seq<(bool, TxnError)>)
    ensures FirstOf(a + b + c + d + e + f) ==
      if FirstOf(a).Some? then FirstOf(a) else if FirstOf(b).Some? then FirstOf(b) else if FirstOf(c).Some? then FirstOf(c)
      else if FirstOf(d).Some? then FirstOf(d) else if FirstOf(e).Some? then FirstOf(e) else FirstOf(f)
  {
    hide FirstOf;
    FirstOfConcat(a, b);
    FirstOfConcat(a + b, c);
    FirstOfConcat(a + b + c, d);
    FirstOfConcat(a + b + c + d, e);
    FirstOfConcat(a + b + c + d + e, f);
  }

  lemma FirstOfTwo(a: (bool, TxnError), b: (bool, TxnError))
    ensures FirstOf([a, b]) == if a.0 then Some(a.1) else if b.0 then Some(b.1) else None
  {
    assert [a, b][1..] == [b] && [b][1..] == [];
    assert FirstOf([b]) == if b.0 then Some(b.1) else None;
  }

  lemma FirstOfThree(a: (bool, TxnError), b: (bool, TxnError), c: (bool, TxnError))
    ensures FirstOf([a, b, c]) == if a.0 then Some(a.1) else if b.0 then Some(b.1) else if c.0 then Some(c.1) else None
  {
    assert [a, b, c][1..] == [b, c];
    FirstOfTwo(b, c);
  }

  lemma FirstHead(env: Env, t: Utxo)
    ensures FirstOf([(!env.verify(t), InvalidProof), (t.in0 == t.in1 != 0, DuplicateInputs(t.in0)), (t.out0 == t.out1 != 0, DuplicateOutputs(t.out0))]) ==
      if !env.verify(t) then Some(InvalidProof)
      else if t.in0 == t.in1 != 0 then Some(DuplicateInputs(t.in0))
      else if t.out0 == t.out1 != 0 then Some(DuplicateOutputs(t.out0))
      else None
  {
    var all := [(!env.verify(t), InvalidProof), (t.in0 == t.in1 != 0, DuplicateInputs(t.in0)), (t.out0 == t.out1 != 0, DuplicateOutputs(t.out0))];
    FirstOfThree(all[0], all[1], all[2]);
  }

  lemma FirstOutput(e: Element, db: Database, tree: set<Element>)
    ensures FirstOf(AboutOutput(e, db, tree)) == CheckOutput(e, db, tree)
  {
    hide GetHistory;
    var all := AboutOutput(e, db, tree);
    FirstOfThree(all[0], all[1], all[2]);
  }

  lemma FirstInput(e: Element, tree: set<Element>)
    ensures FirstOf(AboutInput(e, tree)) == CheckInput(e, tree)
  {
    var all := AboutInput(e, tree);
    FirstOfTwo(all[0], all[1]);
  }

  lemma ErrorIsTrue(env: Env, t: Utxo, db: Database, tree: set<Element>)
    ensures ValidateTxn(env, t, db, tree).Some? ==> Truthful(env, t, db, tree, ValidateTxn(env, t, db, tree).value)
  {
    hide GetHistory, GetMint, NonZero;
    NonZeroMeaning(t.in0, t.in1);
    NonZeroMeaning(t.out0, t.out1);
  }

  lemma NonZeroMeaning(a: Element, b: Element)
    ensures forall e :: e in NonZero(a, b) <==> e != 0 && (e == a || e == b)
    ensures Distinct(NonZero(a, b)) <==> a == 0 || a != b
  {
    if a != 0 && b != 0 {
      assert NonZero(a, b) == [a, b];
      assert NonZero(a, b)[0] == a && NonZero(a, b)[1] == b;
    } else if a != 0 {
      assert NonZero(a, b) == [a];
    } else if b != 0 {
      assert NonZero(a, b) == [b];
    }
  }

  // ---------------------------------------------------------------------------------------
  // Blocks
  // ---------------------------------------------------------------------------------------

  /** The non-zero commitments of the first `n` transactions in the order they are checked. */
  function Leaves(b: Block, n: nat): seq<Element>
    requires n <= |b.txns|
  {
    if n == 0 then [] else Leaves(b, n - 1) + Outputs(b.txns[n - 1]) + Inputs(b.txns[n - 1])
  }

  function OutputsOf(b: Block, n: nat): seq<Element>
    requires n <= |b.txns|
  {
    if n == 0 then [] else OutputsOf(b, n - 1) + Outputs(b.txns[n - 1])
  }

  function InputsOf(b: Block, n: nat): seq<Element>
    requires n <= |b.txns|
  {
    if n == 0 then [] else InputsOf(b, n - 1) + Inputs(b.txns[n - 1])
  }

  function BlockOutputs(b: Block): seq<Element> {
    OutputsOf(b, |b.txns|)
  }

  function BlockInputs(b: Block): seq<Element> {
    InputsOf(b, |b.txns|)
  }

  datatype BlockError =
    | ConflictingElements(e: Element)
    | BadTxn(index: nat, error: TxnError)
    | InvalidBlockRoot(got: Element, expected: Element)
    | RootPanicked

  /** A block is valid when its commitments are pairwise different, every transaction passes, and
    the root it claims is the one its insertions and removals give. */
  ghost predicate ValidBlock(env: Env, b: Block, db: Database, tree: set<Element>) {
    && Distinct(Leaves(b, |b.txns|))
    && (forall i :: 0 <= i < |b.txns| ==> ValidateTxn(env, b.txns[i], db, tree).None?)
    && RootWith(env.root, tree, ToSet(BlockOutputs(b)), ToSet(BlockInputs(b))) == Some(b.root)
  }

  /** The loop over the two commitments of one side of a transaction: each non-zero leaf must be
    new to both maps. */
  method AddLeaves(a: Element, b: Element, hash: U256, into: map<Element, U256>, other: map<Element, U256>)
    returns (conflict: Option<Element>, grown: map<Element, U256>)
    ensures conflict.None? <==>
      Distinct(NonZero(a, b)) && forall e :: e in NonZero(a, b) ==> e !in into && e !in other
    ensures conflict.None? ==> grown.Keys == into.Keys + ToSet(NonZero(a, b))
    ensures conflict.Some? ==> conflict.value in NonZero(a, b)
    ensures conflict.Some? && conflict.value !in into && conflict.value !in other ==> a == b == conflict.value
  {
    NonZeroMeaning(a, b);
    SetOfNonZero(a, b);
    grown := into;
    conflict := None;
    var leaves := [a, b];
    for i := 0 to 2
      invariant i == 0 ==> grown == into
      invariant i == 1 ==> grown.Keys == into.Keys + (if a == 0 then {} else {a})
      invariant i == 2 ==> grown.Keys == into.Keys + (if a == 0 then {} else {a}) + (if b == 0 then {} else {b})
      invariant i >= 1 && a != 0 ==> a !in into && a !in other
      invariant i == 2 && b != 0 ==> b !in into && b !in other && (a == 0 || a != b)
    {
      var leaf := leaves[i];
      if leaf != 0 {
        if leaf in grown || leaf in other {
          conflict := Some(leaf);
          return;
        }
        grown := grown[leaf := hash];
      }
    }
  }

  lemma SetOfNonZero(a: Element, b: Element)
    ensures ToSet(NonZero(a, b)) == (if a == 0 then {} else {a}) + (if b == 0 then {} else {b})
  {
    NonZeroMeaning(a, b);
    ToSetMember(NonZero(a, b));
  }

  lemma ToSetMember(es: seq<Element>)
    ensures forall e :: e in ToSet(es) <==> e in es
  {
  }

  lemma ToSetConcat(a: seq<Element>, b: seq<Element>)
    ensures ToSet(a + b) == ToSet(a) + ToSet(b)
  {
    ToSetMember(a);
    ToSetMember(b);
    ToSetMember(a + b);
  }

  lemma DistinctConcat(a: seq<Element>, b: seq<Element>)
    ensures Distinct(a + b) <==> Distinct(a) && Distinct(b) && forall e :: e in b ==> e !in a
  {
    if Distinct(a + b) {
      forall i, j | 0 <= i < j < |a| ensures a[i] != a[j] { assert (a + b)[i] == a[i] && (a + b)[j] == a[j]; }
      forall i, j | 0 <= i < j < |b| ensures b[i] != b[j] {
        assert (a + b)[|a| + i] == b[i] && (a + b)[|a| + j] == b[j];
      }
      forall e | e in b ensures e !in a {
        var j :| 0 <= j < |b| && b[j] == e;
        assert (a + b)[|a| + j] == e;
        forall i | 0 <= i < |a| ensures a[i] != e { assert (a + b)[i] == a[i]; }
      }
    } else if Distinct(a) && Distinct(b) {
      var i, j :| 0 <= i < j < |a + b| && (a + b)[i] == (a + b)[j];
      assert i < |a| <= j;
      assert b[j - |a|] in b && a[i] in a;
    }
  }

  /** Outputs and inputs together are the leaves. */
  lemma {:induction false} LeavesSplit(b: Block, n: nat)
    requires n <= |b.txns|
    ensures forall e :: e in Leaves(b, n) <==> e in OutputsOf(b, n) || e in InputsOf(b, n)
    ensures Distinct(Leaves(b, n)) ==>
      && Distinct(OutputsOf(b, n)) && Distinct(InputsOf(b, n))
      && forall e :: e in OutputsOf(b, n) ==> e !in InputsOf(b, n)
    decreases n
  {
    hide Outputs, Inputs;
    if n != 0 {
      var t := b.txns[n - 1];
      LeavesSplit(b, n - 1);
      DistinctConcat(Leaves(b, n - 1) + Outputs(t), Inputs(t));
      DistinctConcat(Leaves(b, n - 1), Outputs(t));
      DistinctConcat(OutputsOf(b, n - 1), Outputs(t));
      DistinctConcat(InputsOf(b, n - 1), Inputs(t));
    }
  }

  /** Both maps together hold the leaves seen so far. */
  ghost predicate MapsHold(b: Block, n: nat, inserts: map<Element, U256>, removes: map<Element, U256>)
    requires n <= |b.txns|
  {
    inserts.Keys == ToSet(OutputsOf(b, n)) && removes.Keys == ToSet(InputsOf(b, n)) && Distinct(Leaves(b, n))
  }

  /** One transaction's leaves are new exactly when the longer list of leaves is still distinct. */
  lemma LeavesGrow(b: Block, n: nat, inserts: map<Element, U256>, removes: map<Element, U256>)
    requires n < |b.txns| && MapsHold(b, n, inserts, removes)
    ensures var t := b.txns[n];
      Distinct(Leaves(b, n + 1)) <==>
        && Distinct(Outputs(t)) && Distinct(Inputs(t))
        && (forall e :: e in Outputs(t) ==> e !in inserts && e !in removes)
        && (forall e :: e in Inputs(t) ==> e !in inserts && e !in removes && e !in Outputs(t))
    ensures ToSet(OutputsOf(b, n + 1)) == ToSet(OutputsOf(b, n)) + ToSet(Outputs(b.txns[n]))
    ensures ToSet(InputsOf(b, n + 1)) == ToSet(InputsOf(b, n)) + ToSet(Inputs(b.txns[n]))
  {
    hide Outputs, Inputs;
    var t := b.txns[n];
    LeavesSplit(b, n);
    ToSetMember(OutputsOf(b, n));
    ToSetMember(InputsOf(b, n));
    ToSetConcat(OutputsOf(b, n), Outputs(t));
    ToSetConcat(InputsOf(b, n), Inputs(t));
    DistinctConcat(Leaves(b, n) + Outputs(t), Inputs(t));
    DistinctConcat(Leaves(b, n), Outputs(t));
  }

  /** Leaves of a prefix stay leaves. */
  lemma {:induction false} LeavesPrefix(b: Block, n: nat, m: nat)
    requires n <= m <= |b.txns|
    ensures Distinct(Leaves(b, m)) ==> Distinct(Leaves(b, n))
    decreases m - n
  {
    if n < m {
      LeavesPrefix(b, n, m - 1);
      DistinctConcat(Leaves(b, m - 1) + Outputs(b.txns[m - 1]), Inputs(b.txns[m - 1]));
      DistinctConcat(Leaves(b, m - 1), Outputs(b.txns[m - 1]));
    }
  }

  /** `BlockContent::validate`. */
  method Validate(env: Env, b: Block, db: Database, tree: set<Element>) returns (r: Option<BlockError>)
    ensures r.None? <==> ValidBlock(env, b, db, tree)
    ensures r.Some? && r.value.ConflictingElements? ==> !Distinct(Leaves(b, |b.txns|)) && r.value.e in Leaves(b, |b.txns|)
    ensures r.Some? && r.value.BadTxn? ==>
      r.value.index < |b.txns| && ValidateTxn(env, b.txns[r.value.index], db, tree) == Some(r.value.error)
      && forall i :: 0 <= i < r.value.index ==> ValidateTxn(env, b.txns[i], db, tree).None?
    ensures r.Some? && r.value.BadTxn? ==>
      Distinct(Leaves(b, r.value.index + 1)) && Truthful(env, b.txns[r.value.index], db, tree, r.value.error)
    ensures r.Some? && r.value.RootPanicked? ==>
      && Distinct(Leaves(b, |b.txns|))
      && RootWith(env.root, tree, ToSet(BlockOutputs(b)), ToSet(BlockInputs(b))).None?
    ensures r.Some? && r.value.InvalidBlockRoot? ==>
      && Distinct(Leaves(b, |b.txns|))
      && RootWith(env.root, tree, ToSet(BlockOutputs(b)), ToSet(BlockInputs(b))) == Some(r.value.got)
      && r.value.got != r.value.expected == b.root
  {
    hide ValidateTxn, RootWith, Outputs, Inputs, Truthful;
    var inserts: map<Element, U256> := map[];
    var removes: map<Element, U256> := map[];
    for i := 0 to |b.txns|
      invariant MapsHold(b, i, inserts, removes)
      invariant forall j :: 0 <= j < i ==> ValidateTxn(env, b.txns[j], db, tree).None?
    {
      var t := b.txns[i];
      LeavesGrow(b, i, inserts, removes);
      LeavesPrefix(b, i + 1, |b.txns|);
      var conflict, grown := AddSide(t, Output, inserts, removes);
      if conflict.Some? {
        LeafOf(b, i, conflict.value);
        return Some(ConflictingElements(conflict.value));
      }
      var conflict', shrunk := AddSide(t, Input, removes, grown);
      if conflict'.Some? {
        LeafOf(b, i, conflict'.value);
        return Some(ConflictingElements(conflict'.value));
      }
      inserts, removes := grown, shrunk;
      var result := ValidateTxn(env, t, db, tree);
      if result.Some? {
        ErrorIsTrue(env, t, db, tree);
        return Some(BadTxn(i, result.value));
      }
    }
    NoChangeRoot(env.root, tree);
    var newRoot := if inserts == map[] && removes == map[] then Some(env.root(tree))
                   else RootWith(env.root, tree, inserts.Keys, removes.Keys);
    assert newRoot == RootWith(env.root, tree, inserts.Keys, removes.Keys) by {
      if inserts == map[] && removes == map[] { assert inserts.Keys == {} && removes.Keys == {}; }
    }
    if newRoot.None? {
      return Some(RootPanicked);
    }
    if newRoot.value != b.root {
      return Some(InvalidBlockRoot(newRoot.value, b.root));
    }
    return None;
  }

  lemma NoChangeRoot(root: Root, tree: set<Element>)
    ensures RootWith(root, tree, {}, {}) == Some(root(tree))
  {
    var none: set<Element> := {};
    assert none !! none && OnePerPath(none + none);
    assert (set x | x in tree && !PathTaken(none, Lsb(x))) + none - none == tree;
  }

  method AddSide(t: Utxo, side: HistoryKind, into: map<Element, U256>, other: map<Element, U256>)
    returns (conflict: Option<Element>, grown: map<Element, U256>)
    ensures conflict.None? <==>
      Distinct(SideOf(t, side)) && forall e :: e in SideOf(t, side) ==> e !in into && e !in other
    ensures conflict.None? ==> grown.Keys == into.Keys + ToSet(SideOf(t, side))
    ensures conflict.Some? ==> conflict.value in SideOf(t, side)
  {
    if side.Input? {
      conflict, grown := AddLeaves(t.in0, t.in1, t.hash, into, other);
    } else {
      conflict, grown := AddLeaves(t.out0, t.out1, t.hash, into, other);
    }
  }

  lemma {:induction false} LeafOf(b: Block, i: nat, e: Element)
    requires i < |b.txns| && (e in Outputs(b.txns[i]) || e in Inputs(b.txns[i]))
    ensures e in Leaves(b, |b.txns|)
  {
    hide Outputs, Inputs;
    LeavesSubset(b, i + 1, |b.txns|, e);
  }

  lemma {:induction false} LeavesSubset(b: Block, n: nat, m: nat, e: Element)
    requires n <= m <= |b.txns| && e in Leaves(b, n)
    ensures e in Leaves(b, m)
    decreases m - n
  {
    if n < m { LeavesSubset(b, n, m - 1, e); }
  }
}
