/** Small vocabulary shared by the models: options, results, sums over finite sets. */
module Util {

  datatype Option<+T> = None | Some(value: T)

  datatype Result<+T, +E> = Ok(value: T) | Err(error: E)

  function Max(a: int, b: int): int {
    if a < b then b else a
  }

  function Min(a: int, b: int): int {
    if a < b then a else b
  }

  /** `u64::saturating_sub`. */
  function SatSub(a: nat, b: nat): nat {
    if a < b then 0 else a - b
  }

  /** The sum of `f` over a finite set. */
  ghost function SumOver<A(!new)>(s: set<A>, f: A -> nat): nat {
    if s == {} then 0 else
      var x :| x in s;
      f(x) + SumOver(s - {x}, f)
  }

  /** The sum does not depend on the order in which elements are taken out. */
  lemma {:induction false} SumOverRemove<A(!new)>(s: set<A>, f: A -> nat, x: A)
    requires x in s
    ensures SumOver(s, f) == f(x) + SumOver(s - {x}, f)
    decreases |s|
  {
    var y :| y in s && SumOver(s, f) == f(y) + SumOver(s - {y}, f);
    if y != x {
      SumOverRemove(s - {y}, f, x);
      SumOverRemove(s - {x}, f, y);
      assert s - {y} - {x} == s - {x} - {y};
    }
  }

  lemma {:induction false} SumOverUnion<A(!new)>(a: set<A>, b: set<A>, f: A -> nat)
    requires a !! b
    ensures SumOver(a + b, f) == SumOver(a, f) + SumOver(b, f)
    decreases |b|
  {
    if b == {} {
      assert a + b == a;
    } else {
      var x :| x in b;
      SumOverUnion(a, b - {x}, f);
      SumOverRemove(b, f, x);
      SumOverRemove(a + b, f, x);
      assert (a + b) - {x} == a + (b - {x});
    }
  }

  lemma SumOverSubset<A(!new)>(a: set<A>, b: set<A>, f: A -> nat)
    requires a <= b
    ensures SumOver(a, f) <= SumOver(b, f)
  {
    SumOverUnion(a, b - a, f);
    assert a + (b - a) == b;
  }

  /** Inclusion-exclusion for weights. */
  lemma SumOverOverlap<A(!new)>(a: set<A>, b: set<A>, f: A -> nat)
    ensures SumOver(a, f) + SumOver(b, f) == SumOver(a + b, f) + SumOver(a * b, f)
  {
    SumOverUnion(a, b - a, f);
    assert a + (b - a) == a + b;
    SumOverUnion(b - a, a * b, f);
    assert (b - a) + (a * b) == b;
  }

  lemma {:induction false} SumOverAgree<A(!new)>(s: set<A>, f: A -> nat, g: A -> nat)
    requires forall x :: x in s ==> f(x) == g(x)
    ensures SumOver(s, f) == SumOver(s, g)
    decreases |s|
  {
    if s != {} {
      var x :| x in s;
      SumOverRemove(s, f, x);
      SumOverRemove(s, g, x);
      SumOverAgree(s - {x}, f, g);
    }
  }

  /** No element occurs twice. */
  ghost predicate Distinct<A>(s: seq<A>) {
    forall i, j :: 0 <= i < j < |s| ==> s[i] != s[j]
  }

  /** A set sandwiched between two bounds has at most as many members as the interval. */
  lemma {:induction false} IntervalBound(s: set<nat>, lo: nat, hi: nat)
    requires lo <= hi
    requires forall x :: x in s ==> lo <= x < hi
    ensures |s| <= hi - lo
    decreases hi - lo
  {
    if lo == hi {
      assert s == {};
    } else {
      IntervalBound(s - {hi - 1}, lo, hi - 1);
    }
  }
}
