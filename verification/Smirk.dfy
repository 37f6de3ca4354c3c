/** The notes tree: a set of elements, placed in the Merkle tree by their 160 least significant
  bits, with an abstract root hash. */
module Smirk {
  import opened Util
  import opened Keys

  type Element = U256

  const PATHS: nat := 0x1_0000000000_0000000000_0000000000_0000000000

  /** The path of an element in a tree of depth 161. */
  function Lsb(e: Element): nat {
    e % PATHS
  }

  predicate PathTaken(s: set<Element>, path: nat) {
    exists x :: x in s && Lsb(x) == path
  }

  /** Different elements have different paths. */
  predicate OnePerPath(s: set<Element>) {
    forall x, y :: x in s && y in s && Lsb(x) == Lsb(y) ==> x == y
  }

  /** A batch of insertions and removals with pairwise different paths. */
  datatype Batch = Batch(inserts: set<Element>, removes: set<Element>)

  const EMPTY_BATCH := Batch({}, {})

  predicate BatchTaken(b: Batch, e: Element) {
    PathTaken(b.inserts, Lsb(e)) || PathTaken(b.removes, Lsb(e))
  }

  function BatchInsert(b: Batch, e: Element): Option<Batch> {
    if BatchTaken(b, e) then None else Some(b.(inserts := b.inserts + {e}))
  }

  function BatchRemove(b: Batch, e: Element): Option<Batch> {
    if BatchTaken(b, e) then None else Some(b.(removes := b.removes + {e}))
  }

  /** `Batch::from_entries`: all insertions, then all removals, in order. */
  function InsertAll(b: Batch, es: seq<Element>): Option<Batch>
    decreases |es|
  {
    if es == [] then Some(b) else
      match BatchInsert(b, es[0])
      case None => None
      case Some(b') => InsertAll(b', es[1..])
  }

  function RemoveAll(b: Batch, es: seq<Element>): Option<Batch>
    decreases |es|
  {
    if es == [] then Some(b) else
      match BatchRemove(b, es[0])
      case None => None
      case Some(b') => RemoveAll(b', es[1..])
  }

  function FromEntries(ins: seq<Element>, rem: seq<Element>): Option<Batch> {
    match InsertAll(EMPTY_BATCH, ins)
    case None => None
    case Some(b) => RemoveAll(b, rem)
  }

  function ToSet(es: seq<Element>): set<Element> {
    set i | 0 <= i < |es| :: es[i]
  }

  /** All elements of a list have their own path. */
  ghost predicate DistinctPaths(es: seq<Element>) {
    forall i, j :: 0 <= i < j < |es| ==> Lsb(es[i]) != Lsb(es[j])
  }

  ghost predicate FreeOf(b: Batch, es: seq<Element>) {
    forall i :: 0 <= i < |es| ==> !BatchTaken(b, es[i])
  }

  lemma {:induction false} InsertAllExactly(b: Batch, es: seq<Element>)
    ensures InsertAll(b, es).Some? <==> DistinctPaths(es) && FreeOf(b, es)
    ensures InsertAll(b, es).Some? ==> InsertAll(b, es).value == Batch(b.inserts + ToSet(es), b.removes)
    decreases |es|
  {
    if es != [] && BatchInsert(b, es[0]).Some? {
      var b' := BatchInsert(b, es[0]).value;
      InsertAllExactly(b', es[1..]);
      assert ToSet(es) == {es[0]} + ToSet(es[1..]) by { ToSetHead(es); }
      TakenAfter(b.inserts, es[0]);
      HeadAndTail(es, b, b');
    }
  }

  lemma {:induction false} RemoveAllExactly(b: Batch, es: seq<Element>)
    ensures RemoveAll(b, es).Some? <==> DistinctPaths(es) && FreeOf(b, es)
    ensures RemoveAll(b, es).Some? ==> RemoveAll(b, es).value == Batch(b.inserts, b.removes + ToSet(es))
    decreases |es|
  {
    if es != [] && BatchRemove(b, es[0]).Some? {
      var b' := BatchRemove(b, es[0]).value;
      RemoveAllExactly(b', es[1..]);
      assert ToSet(es) == {es[0]} + ToSet(es[1..]) by { ToSetHead(es); }
      TakenAfter(b.removes, es[0]);
      HeadAndTail(es, b, b');
    }
  }

  lemma ToSetHead(es: seq<Element>)
    requires es != []
    ensures ToSet(es) == {es[0]} + ToSet(es[1..])
  {
    forall x ensures x in ToSet(es) <==> x in {es[0]} + ToSet(es[1..]) {
      if x in ToSet(es) {
        var i :| 0 <= i < |es| && es[i] == x;
        assert i > 0 ==> es[1..][i - 1] == x;
      }
      if x in ToSet(es[1..]) {
        var i :| 0 <= i < |es[1..]| && es[1..][i] == x;
        assert es[i + 1] == x;
      }
    }
  }

  lemma TakenAfter(s: set<Element>, e: Element)
    ensures forall path :: PathTaken(s + {e}, path) <==> PathTaken(s, path) || path == Lsb(e)
  {
    forall path ensures PathTaken(s + {e}, path) <==> PathTaken(s, path) || path == Lsb(e) {
      if PathTaken(s, path) {
        var x :| x in s && Lsb(x) == path;
        assert x in s + {e};
      }
      if path == Lsb(e) { assert e in s + {e}; }
    }
  }

  lemma HeadAndTail(es: seq<Element>, b: Batch, b': Batch)
    requires es != [] && !BatchTaken(b, es[0])
    requires forall x: Element :: BatchTaken(b', x) <==> BatchTaken(b, x) || Lsb(x) == Lsb(es[0])
    ensures DistinctPaths(es) && FreeOf(b, es) <==> DistinctPaths(es[1..]) && FreeOf(b', es[1..])
  {
    hide Lsb, BatchTaken;
    if DistinctPaths(es[1..]) && FreeOf(b', es[1..]) {
      forall i | 0 <= i < |es| ensures !BatchTaken(b, es[i]) && (i > 0 ==> Lsb(es[i]) != Lsb(es[0])) {
        if i > 0 { assert es[i] == es[1..][i - 1]; }
      }
      forall i, j | 0 <= i < j < |es| ensures Lsb(es[i]) != Lsb(es[j]) {
        if i > 0 { assert es[i] == es[1..][i - 1] && es[j] == es[1..][j - 1]; }
      }
    }
  }

  // ---------------------------------------------------------------------------------------
  // Applying a batch, and the root it would give
  // ---------------------------------------------------------------------------------------

  datatype Outcome = Done(tree: set<Element>) | Collision | Panicked

  /** `Persistent::insert_batch`. A removal with no element on its path, a removal of an element that
    is not there, and the zero element all panic. */
  function InsertBatch(tree: set<Element>, b: Batch): Outcome {
    if b.inserts == {} && b.removes == {} then Done(tree)
    else if exists r :: r in b.removes && !PathTaken(tree, Lsb(r)) then Panicked
    else if exists i :: i in b.inserts && PathTaken(tree, Lsb(i)) then Collision
    else if 0 in b.inserts || 0 in b.removes || !(b.removes <= tree) then Panicked
    else Done(tree + b.inserts - b.removes)
  }

  /** A batch goes in exactly when it is empty, or what it removes is held, what it inserts meets no path in use, and
    zero is not in it. An insert on a path in use is reported, not a panic, unless a removal finds its path empty. */
  lemma InsertBatchExactly(tree: set<Element>, b: Batch)
    ensures InsertBatch(tree, b).Done? <==>
      || (b.inserts == {} && b.removes == {})
      || (b.removes <= tree && 0 !in b.inserts && 0 !in b.removes && forall i :: i in b.inserts ==> !PathTaken(tree, Lsb(i)))
    ensures InsertBatch(tree, b).Collision? <==>
      (forall r :: r in b.removes ==> PathTaken(tree, Lsb(r))) && exists i :: i in b.inserts && PathTaken(tree, Lsb(i))
    ensures InsertBatch(tree, b).Done? ==> InsertBatch(tree, b).tree == tree + b.inserts - b.removes
  {
    hide Lsb, PathTaken;
    assert tree + {} - {} == tree;
    if b.removes <= tree {
      forall r | r in b.removes ensures PathTaken(tree, Lsb(r)) { HeldIsTaken(tree, r); }
    }
  }

  lemma HeldIsTaken(tree: set<Element>, e: Element)
    requires e in tree
    ensures PathTaken(tree, Lsb(e))
  {
  }

  type Root = set<Element> -> Element

  /** `Tree::root_hash_with`: an inserted element takes over its path; two changes on one path trip
    an assertion. */
  function RootWith(root: Root, tree: set<Element>, ins: set<Element>, rem: set<Element>): Option<Element> {
    if ins !! rem && OnePerPath(ins + rem)
    then Some(root((set x | x in tree && !PathTaken(ins, Lsb(x))) + ins - rem))
    else None
  }

  /** Without path collisions the previewed root is the root of the resulting set. */
  lemma RootWithIsRoot(root: Root, tree: set<Element>, ins: set<Element>, rem: set<Element>)
    requires OnePerPath(tree + ins) && ins !! tree && rem <= tree
    ensures RootWith(root, tree, ins, rem) == Some(root(tree + ins - rem))
  {
    hide Lsb;
    forall x | x in tree ensures !PathTaken(ins, Lsb(x)) {
      forall y | y in ins ensures Lsb(y) != Lsb(x) {
        assert x in tree + ins && y in tree + ins;
      }
    }
    assert (set x | x in tree && !PathTaken(ins, Lsb(x))) == tree;
    forall x, y | x in ins + rem && y in ins + rem && Lsb(x) == Lsb(y) ensures x == y {
      assert x in tree + ins && y in tree + ins;
    }
  }
}
