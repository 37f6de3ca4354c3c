/** Choosing one or two notes to cover an amount. */
module NoteSelection {
  import opened Util
  import opened Notes

  datatype Choice = One(i: nat) | Two(i: nat, j: nat)

  predicate InRange(amounts: seq<nat>, c: Choice) {
    match c
    case One(i) => i < |amounts|
    case Two(i, j) => i < j < |amounts|
  }

  function Sum(amounts: seq<nat>, c: Choice): nat
    requires InRange(amounts, c)
  {
    match c
    case One(i) => amounts[i]
    case Two(i, j) => amounts[i] + amounts[j]
  }

  function Size(c: Choice): nat {
    if c.One? then 1 else 2
  }

  /** A choice that covers the amount; a pair whose sum leaves 64 bits is not one. */
  predicate Covers(amounts: seq<nat>, amount: nat, c: Choice) {
    InRange(amounts, c) && amount <= Sum(amounts, c) && (c.Two? ==> Sum(amounts, c) < TWO64)
  }

  /** `c` comes before `d` when notes are tried one by one, each alone and then with each later one. */
  predicate Before(c: Choice, d: Choice) {
    c.i < d.i || (c.i == d.i && d.Two? && (c.One? || c.j < d.j))
  }

  /** Smaller total first, then fewer notes, then the earlier find. */
  predicate Beats(amounts: seq<nat>, c: Choice, d: Choice)
    requires InRange(amounts, c) && InRange(amounts, d)
  {
    || Sum(amounts, c) < Sum(amounts, d)
    || (Sum(amounts, c) == Sum(amounts, d) && ((c.One? && d.Two?) || ((c.One? <==> d.One?) && Before(c, d))))
  }

  ghost predicate IsBest(amounts: seq<nat>, amount: nat, c: Choice) {
    Covers(amounts, amount, c) && forall d :: Covers(amounts, amount, d) && d != c ==> Beats(amounts, c, d)
  }

  /** The best choice, or none if nothing covers the amount. */
  ghost predicate BestOrNone(amounts: seq<nat>, amount: nat, best: Option<Choice>) {
    match best
    case None => forall d :: !Covers(amounts, amount, d)
    case Some(c) => IsBest(amounts, amount, c)
  }

  /** `best` is right among the choices tried before `(i, j)`. */
  ghost predicate BestSoFar(amounts: seq<nat>, amount: nat, i: nat, j: nat, best: Option<Choice>) {
    match best
    case None => forall d :: Covers(amounts, amount, d) ==> !Before(d, Two(i, j))
    case Some(c) =>
      && Covers(amounts, amount, c) && Before(c, Two(i, j))
      && forall d :: Covers(amounts, amount, d) && Before(d, Two(i, j)) && d != c ==> Beats(amounts, c, d)
  }

  /** A candidate is kept when it covers the amount with a smaller excess, or the same with fewer notes. */
  predicate Improves(amounts: seq<nat>, amount: nat, best: Option<Choice>, c: Choice)
    requires InRange(amounts, c) && (best.Some? ==> InRange(amounts, best.value))
  {
    && amount <= Sum(amounts, c)
    && (|| best.None?
        || Sum(amounts, c) < Sum(amounts, best.value)
        || (Sum(amounts, c) == Sum(amounts, best.value) && Size(c) < Size(best.value)))
  }

  method Consider(amounts: seq<nat>, amount: nat, best: Option<Choice>, c: Choice) returns (r: Option<Choice>)
    requires InRange(amounts, c) && (best.Some? ==> Covers(amounts, amount, best.value))
    ensures r == if Improves(amounts, amount, best, c) then Some(c) else best
  {
    var total := Sum(amounts, c);
    if total < amount {
      return best;
    }
    var better := match best
      case None => true
      case Some(b) =>
        var excess := total - amount;
        var bestExcess := Sum(amounts, b) - amount;
        excess < bestExcess || (excess == bestExcess && Size(c) < Size(b));
    return if better then Some(c) else best;
  }

  lemma SingleTried(amounts: seq<nat>, amount: nat, i: nat, best: Option<Choice>)
    requires i < |amounts| && (if i == 0 then best.None? else BestSoFar(amounts, amount, i - 1, |amounts|, best))
    ensures BestSoFar(amounts, amount, i, i + 1, if Improves(amounts, amount, best, One(i)) then Some(One(i)) else best)
  {
    forall d | Covers(amounts, amount, d)
      ensures Before(d, Two(i, i + 1)) <==> (i > 0 && Before(d, Two(i - 1, |amounts|))) || d == One(i)
    {
    }
  }

  lemma PairTried(amounts: seq<nat>, amount: nat, i: nat, j: nat, best: Option<Choice>)
    requires i < j < |amounts| && BestSoFar(amounts, amount, i, j, best)
    ensures BestSoFar(amounts, amount, i, j + 1,
      if amounts[i] + amounts[j] < TWO64 && Improves(amounts, amount, best, Two(i, j)) then Some(Two(i, j)) else best)
  {
    forall d | Covers(amounts, amount, d)
      ensures Before(d, Two(i, j + 1)) <==> Before(d, Two(i, j)) || d == Two(i, j)
    {
    }
  }

  lemma AllTried(amounts: seq<nat>, amount: nat, best: Option<Choice>)
    requires if |amounts| == 0 then best.None? else BestSoFar(amounts, amount, |amounts| - 1, |amounts|, best)
    ensures BestOrNone(amounts, amount, best)
  {
    forall d | Covers(amounts, amount, d) ensures Before(d, Two(|amounts| - 1, |amounts|)) {
    }
  }

  method Choose(amounts: seq<nat>, amount: nat) returns (best: Option<Choice>)
    ensures BestOrNone(amounts, amount, best)
  {
    hide BestOrNone, Improves;
    best := None;
    for i := 0 to |amounts|
      invariant if i == 0 then best.None? else BestSoFar(amounts, amount, i - 1, |amounts|, best)
    {
      SingleTried(amounts, amount, i, best);
      best := Consider(amounts, amount, best, One(i));
      for j := i + 1 to |amounts|
        invariant BestSoFar(amounts, amount, i, j, best)
      {
        PairTried(amounts, amount, i, j, best);
        if amounts[i] + amounts[j] < TWO64 {
          best := Consider(amounts, amount, best, Two(i, j));
        }
      }
    }
    AllTried(amounts, amount, best);
  }

  /** There is only one best choice. */
  lemma BestIsUnique(amounts: seq<nat>, amount: nat, a: Option<Choice>, b: Option<Choice>)
    requires BestOrNone(amounts, amount, a) && BestOrNone(amounts, amount, b)
    ensures a == b
  {
  }

  // ---------------------------------------------------------------------------------------
  // Finding the chosen notes again
  // ---------------------------------------------------------------------------------------

  function Amounts(notes: seq<InputNote>): seq<nat> {
    seq(|notes|, i requires 0 <= i < |notes| => Worth(notes[i]))
  }

  /** The position of the first note equal to `note`; the length if there is none. */
  function FirstSame(notes: seq<InputNote>, note: Note): (r: nat)
    ensures r <= |notes|
    ensures forall k :: 0 <= k < r ==> notes[k].note != note
    ensures r < |notes| ==> notes[r].note == note
  {
    if notes == [] then 0
    else if notes[0].note == note then 0
    else 1 + FirstSame(notes[1..], note)
  }

  /** Looking the chosen notes up by value finds exactly the chosen positions, even among equal notes. */
  lemma ChosenAreFound(notes: seq<InputNote>, amount: nat, c: Choice)
    requires IsBest(Amounts(notes), amount, c)
    ensures FirstSame(notes, notes[c.i].note) == c.i
    ensures c.Two? ==> FirstSame(TakeOut(notes, c.i), notes[c.j].note) == c.j - 1
  {
    var a := Amounts(notes);
    forall k | 0 <= k < c.i ensures notes[k].note != notes[c.i].note {
      EarlierDiffers(a, amount, c, k);
    }
    if c.Two? {
      var rest := TakeOut(notes, c.i);
      assert rest[c.j - 1] == notes[c.j];
      forall k | 0 <= k < c.j - 1 ensures rest[k].note != notes[c.j].note {
        var o := if k < c.i then k else k + 1;
        assert rest[k] == notes[o];
        PartnerDiffers(a, amount, c, o);
      }
    }
  }

  lemma EarlierDiffers(a: seq<nat>, amount: nat, c: Choice, k: nat)
    requires IsBest(a, amount, c) && k < c.i
    ensures a[k] != a[c.i]
  {
    var d := if c.One? then One(k) else Two(k, c.j);
    assert a[k] == a[c.i] ==> Covers(a, amount, d);
  }

  lemma PartnerDiffers(a: seq<nat>, amount: nat, c: Choice, k: nat)
    requires IsBest(a, amount, c) && c.Two? && k < c.j && k != c.i
    ensures a[k] != a[c.j]
  {
    var d := if k < c.i then Two(k, c.i) else Two(c.i, k);
    assert a[k] == a[c.j] ==> Covers(a, amount, d);
  }
}
