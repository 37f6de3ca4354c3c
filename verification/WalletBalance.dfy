/** What spending takes, and what the balance says over every run. */
module WalletBalance {
  import opened Util
  import opened Notes
  import opened NoteSelection
  import opened WalletSteps
  import opened WalletSync

  /** The balance is the total of the available notes, as a 64-bit word. */
  ghost predicate Balanced(w: Purse) {
    w.balance == Total(w.avail) % TWO64
  }

  lemma AddWraps(total: nat, a: nat)
    ensures (total % TWO64 + a) % TWO64 == (total + a) % TWO64
  {
  }

  lemma SubWraps(total: nat, a: nat)
    requires a <= total
    ensures (total % TWO64 - a) % TWO64 == (total - a) % TWO64
  {
  }

  lemma PushBalanced(w: Purse, t: Ticker, n: InputNote)
    requires Balanced(w)
    ensures Balanced(Push(w, t, n))
  {
    hide Weigh, Worth;
    PushSum(w, t, n, Worth);
    AddWraps(Total(w.avail), Worth(n));
  }

  lemma PullSum(w: Purse, t: Ticker, i: nat, f: InputNote -> nat)
    requires i < |NotesOf(w.avail, t)|
    ensures Weigh(w.avail, f) == Weigh(PullAt(w, t, i).avail, f) + f(NotesOf(w.avail, t)[i])
  {
    hide Weigh, SeqSum;
    WeighUpdate(w.avail, t, TakeOut(NotesOf(w.avail, t), i), f);
    SeqSumTakeOut(NotesOf(w.avail, t), i, f);
  }

  lemma PullBalanced(w: Purse, t: Ticker, i: nat)
    requires Balanced(w) && i < |NotesOf(w.avail, t)|
    ensures Balanced(PullAt(w, t, i))
  {
    hide Weigh, Worth;
    PullSum(w, t, i, Worth);
    SubWraps(Total(w.avail), Worth(NotesOf(w.avail, t)[i]));
  }

  /** While the total fits in 64 bits, taking a note out never underflows the balance. */
  lemma PullNeverUnderflows(w: Purse, t: Ticker, i: nat)
    requires Balanced(w) && Total(w.avail) < TWO64 && i < |NotesOf(w.avail, t)|
    ensures Worth(NotesOf(w.avail, t)[i]) <= w.balance
    ensures PullAt(w, t, i).balance == w.balance - Worth(NotesOf(w.avail, t)[i])
  {
    hide Weigh, Worth;
    PullSum(w, t, i, Worth);
    PullBalanced(w, t, i);
  }

  // ---------------------------------------------------------------------------------------
  // Spending
  // ---------------------------------------------------------------------------------------

  /** What the two inputs of a selection weigh; the padding input counts for nothing. */
  function TakenSum(notes: seq<InputNote>, c: Choice, f: InputNote -> nat): nat
    requires InRange(Amounts(notes), c)
  {
    f(notes[c.i]) + if c.Two? then f(notes[c.j]) else 0
  }

  lemma PullChoiceSum(w: Purse, t: Ticker, c: Choice, f: InputNote -> nat)
    requires InRange(Amounts(NotesOf(w.avail, t)), c)
    ensures Weigh(w.avail, f) == Weigh(PullChoice(w, t, c).avail, f) + TakenSum(NotesOf(w.avail, t), c, f)
  {
    hide Weigh;
    PullSum(w, t, c.i, f);
    if c.Two? {
      var first := PullAt(w, t, c.i);
      assert NotesOf(first.avail, t)[c.j - 1] == NotesOf(w.avail, t)[c.j];
      PullSum(first, t, c.j - 1, f);
    }
  }

  /** The change kept by a selection, if any. */
  function Change(env: Env, notes: seq<InputNote>, amount: nat, key: Element, c: Choice): seq<InputNote>
    requires Covers(Amounts(notes), amount, c)
  {
    if Sum(Amounts(notes), c) == amount then [] else [ChangeOf(env, notes, amount, key, c)]
  }

  /** The list after a selection: the chosen positions are gone, the others keep their order, and the change
    is at the end. */
  lemma SelectList(env: Env, w: Purse, t: Ticker, amount: nat, key: Element, c: Choice)
    requires Covers(Amounts(NotesOf(w.avail, t)), amount, c)
    ensures var notes := NotesOf(w.avail, t);
      && NotesOf(SelectStep(env, w, t, amount, key, c).avail, t) ==
        (match c
         case One(i) => notes[..i] + notes[i + 1..]
         case Two(i, j) => notes[..i] + notes[i + 1..j] + notes[j + 1..]) + Change(env, notes, amount, key, c)
      && (forall u :: u != t ==> NotesOf(SelectStep(env, w, t, amount, key, c).avail, u) == NotesOf(w.avail, u))
      && SelectStep(env, w, t, amount, key, c).pending == w.pending
  {
    hide Amounts, OwnNote, ChangeOf;
    var notes := NotesOf(w.avail, t);
    AmountsLength(notes);
    if c.Two? {
      assert TakeOut(TakeOut(notes, c.i), c.j - 1) == notes[..c.i] + notes[c.i + 1..c.j] + notes[c.j + 1..];
    }
  }

  lemma AmountsLength(notes: seq<InputNote>)
    ensures |Amounts(notes)| == |notes|
  {
  }

  /** Whatever is summed over the notes changes by exactly minus the inputs plus the change. */
  lemma SelectSum(env: Env, w: Purse, t: Ticker, amount: nat, key: Element, c: Choice, f: InputNote -> nat)
    requires Covers(Amounts(NotesOf(w.avail, t)), amount, c)
    ensures var notes := NotesOf(w.avail, t);
      Weigh(SelectStep(env, w, t, amount, key, c).avail, f) + TakenSum(notes, c, f)
        == Weigh(w.avail, f) + SeqSum(Change(env, notes, amount, key, c), f)
  {
    hide Weigh, PullChoice, TakenSum, ChangeOf, Amounts, SeqSum;
    var notes := NotesOf(w.avail, t);
    PullChoiceSum(w, t, c, f);
    EmptySum(f);
    if Sum(Amounts(notes), c) != amount {
      var change := ChangeOf(env, notes, amount, key, c);
      PushSum(PullChoice(w, t, c), t, change, f);
      SeqSumOne(change, f);
    }
  }

  /** Inputs are worth the amount plus the change. */
  lemma SelectPays(env: Env, notes: seq<InputNote>, amount: nat, key: Element, c: Choice)
    requires Covers(Amounts(notes), amount, c)
    ensures var (a, b) := SelectInputs(notes, c);
      Worth(a) + Worth(b) == amount + Amount(SelectChange(env, notes, amount, key, c))
    ensures TakenSum(notes, c, Worth) == amount + SeqSum(Change(env, notes, amount, key, c), Worth)
  {
    var total := Sum(Amounts(notes), c);
    assert total < TWO64;
    EmptySum(Worth);
    if total != amount {
      var change := ChangeOf(env, notes, amount, key, c);
      assert Worth(change) == total - amount;
      SeqSumOne(change, Worth);
    }
  }

  lemma SelectBalanced(env: Env, w: Purse, t: Ticker, amount: nat, key: Element, c: Choice)
    requires Balanced(w) && Covers(Amounts(NotesOf(w.avail, t)), amount, c)
    ensures Balanced(SelectStep(env, w, t, amount, key, c))
  {
    hide Weigh, Amounts, ChangeOf, Balanced;
    var notes := NotesOf(w.avail, t);
    AmountsLength(notes);
    PullBalanced(w, t, c.i);
    var first := PullAt(w, t, c.i);
    if c.Two? {
      assert |NotesOf(first.avail, t)| == |notes| - 1;
      PullBalanced(first, t, c.j - 1);
    }
    if Sum(Amounts(notes), c) != amount {
      PushBalanced(PullChoice(w, t, c), t, ChangeOf(env, notes, amount, key, c));
    }
  }

  /** Spending: the notes are the best choice; it fails exactly when the balance is too low or no note and
    no pair covers the amount; it takes exactly the inputs and adds the change, and the total falls by
    exactly the amount. */
  lemma SpendExactly(env: Env, w: Purse, target: Note, g: Guess, x: InputNote)
    requires Possible(env, w, SpendTo(target), g) && TickerOf(env, target.contract).Some?
    ensures var notes := NotesOf(w.avail, TickerOf(env, target.contract).value);
      var (after, o) := Apply(env, w, SpendTo(target), g);
      && (o.Failed? <==> Amount(target) > w.balance || forall c :: !Covers(Amounts(notes), Amount(target), c))
      && (o.Failed? ==> after == w)
      && (o.Done? ==>
            && IsBest(Amounts(notes), Amount(target), g.choice.value)
            && Total(after.avail) + Amount(target) == Total(w.avail)
            && Worth(o.receipt.inputs.0) + Worth(o.receipt.inputs.1) == Amount(o.receipt.outputs.0) + Amount(o.receipt.outputs.1)
            && Count(after.avail, x) + TakenSum(notes, g.choice.value, Is(x))
              == Count(w.avail, x) + SeqSum(Change(env, notes, Amount(target), g.key, g.choice.value), Is(x)))
  {
    hide Weigh, SelectStep, TakenSum, ChangeOf, Amounts, SeqSum, SelectInputs, SelectChange, Change, Amount, Covers, Beats, InRange;
    var t := TickerOf(env, target.contract).value;
    var notes, amount := NotesOf(w.avail, t), Amount(target);
    if g.choice.Some? && amount <= w.balance {
      var c := g.choice.value;
      SelectSum(env, w, t, amount, g.key, c, Worth);
      SelectPays(env, notes, amount, g.key, c);
      SelectSum(env, w, t, amount, g.key, c, Is(x));
      CountIs(w.avail, x);
      CountIs(SelectStep(env, w, t, amount, g.key, c).avail, x);
    }
  }

  function Is(x: InputNote): InputNote -> nat {
    n => if n == x then 1 else 0
  }

  // ---------------------------------------------------------------------------------------
  // Every operation
  // ---------------------------------------------------------------------------------------

  lemma CountIs(m: Holdings, x: InputNote)
    ensures Count(m, x) == Weigh(m, Is(x))
  {
  }

  /** By how much an operation that succeeds moves the balance. */
  ghost function Moves(env: Env, w: Purse, r: Request): int {
    match r
    case SpendTo(target) => 0 - Amount(target)
    case Receive(input) => Amount(input.note)
    case Mint(amount, _) => amount
    case Burn(input, _, _) => 0 - Amount(input.note)
    case ImportNote(target) => Amount(target)
    case AddToAvail(input) => Amount(input.note)
    case GetAddress(_, _) => 0
    case Sync(txns) => Weigh(w.pending, Confirmed(env, Outputs(txns), Worth))
  }

  lemma PushTotal(w: Purse, t: Ticker, n: InputNote)
    ensures Total(Push(w, t, n).avail) == Total(w.avail) + Amount(n.note)
  {
    hide Weigh;
    PushSum(w, t, n, Worth);
  }

  /** The total of the available notes moves by exactly the operation's amount. */
  lemma TotalMoves(env: Env, w: Purse, r: Request, g: Guess)
    requires Possible(env, w, r, g)
    ensures var (after, o) := Apply(env, w, r, g);
      && (o.Done? ==> Total(after.avail) == Total(w.avail) + Moves(env, w, r))
      && (!o.Done? ==> after == w)
  {
    hide Total, Push, SelectStep, SelectInputs, SelectChange, PullAt, SyncAll, BestOrNone, Enumerates, FirstSame, FirstAddress;
    match r
    case SpendTo(target) =>
      if TickerOf(env, target.contract).Some? {
        SpendExactly(env, w, target, g, PaddingInput);
      }
    case Receive(input) =>
      var t := TickerOf(env, input.note.contract);
      if t.Some? {
        PushTotal(w, t.value, OwnNote(env, 2, ContractOf(env, t.value).value, g.key, Amount(input.note)));
      }
    case Mint(amount, ticker) =>
      if ContractOf(env, ticker).Some? {
        PushTotal(w, ticker, OwnNote(env, 2, ContractOf(env, ticker).value, g.key, amount));
      }
    case Burn(input, _, _) =>
      var t := TickerOf(env, input.note.contract);
      if t.Some? && Pull(w, t.value, input.note).Some? {
        BurnTotal(w, t.value, input.note);
      }
    case ImportNote(target) =>
      if g.ticker.Some? {
        ImportTotal(w, target, g.ticker.value);
      }
    case AddToAvail(input) =>
      var t := TickerOf(env, input.note.contract);
      if t.Some? {
        PushTotal(w, t.value, input);
      }
    case GetAddress(_, _) =>
    case Sync(txns) =>
      if SyncAll(env, w, Outputs(txns), g.orders).Some? {
        SyncTotal(env, w, Outputs(txns), g.orders);
      }
  }

  lemma BurnTotal(w: Purse, t: Ticker, note: Note)
    requires Pull(w, t, note).Some?
    ensures Total(Pull(w, t, note).value.avail) == Total(w.avail) - Amount(note)
    ensures Balanced(w) ==> Balanced(Pull(w, t, note).value)
  {
    hide Weigh, Balanced;
    var i := FirstSame(NotesOf(w.avail, t), note);
    PullSum(w, t, i, Worth);
    if Balanced(w) { PullBalanced(w, t, i); }
  }

  lemma ImportTotal(w: Purse, target: Note, t: Ticker)
    requires HasAddress(w.pending, t, target.address)
    ensures Total(ImportStep(w, target, t).avail) == Total(w.avail) + Amount(target)
    ensures Balanced(w) ==> Balanced(ImportStep(w, target, t))
  {
    hide Weigh, Balanced;
    var notes := w.pending[t];
    var i := FirstAddress(notes, target.address);
    var moved := w.(pending := w.pending[t := TakeOut(notes, i)]);
    PushTotal(moved, t, InputNote(target, notes[i].secretKey));
    if Balanced(w) {
      SamePurse(w, moved);
      PushBalanced(moved, t, InputNote(target, notes[i].secretKey));
    }
  }

  lemma SamePurse(w: Purse, v: Purse)
    requires Balanced(w) && v.avail == w.avail && v.balance == w.balance
    ensures Balanced(v)
  {
  }

  lemma SyncTotal(env: Env, w: Purse, outputs: seq<Element>, orders: seq<seq<Ticker>>)
    requires |orders| == |outputs| && forall i :: 0 <= i < |orders| ==> Enumerates(orders[i], w.pending.Keys)
    requires SyncAll(env, w, outputs, orders).Some?
    ensures Total(SyncAll(env, w, outputs, orders).value.avail) == Total(w.avail) + Weigh(w.pending, Confirmed(env, outputs, Worth))
  {
    hide Weigh, SyncAll, Enumerates, Confirmed;
    SyncGains(env, w, outputs, orders, Worth);
  }

  lemma {:induction false} PushAllBalanced(env: Env, w: Purse, notes: seq<InputNote>)
    requires Balanced(w) && PushAll(env, w, notes).Some?
    ensures Balanced(PushAll(env, w, notes).value)
  {
    hide Balanced, Push;
    if notes != [] {
      var n := |notes| - 1;
      PushAllBalanced(env, w, notes[..n]);
      PushBalanced(PushAll(env, w, notes[..n]).value, TickerOf(env, notes[n].note.contract).value, notes[n]);
    }
  }

  lemma {:induction false} SyncBalanced(env: Env, w: Purse, outputs: seq<Element>, orders: seq<seq<Ticker>>)
    requires Balanced(w) && |orders| == |outputs| && SyncAll(env, w, outputs, orders).Some?
    ensures Balanced(SyncAll(env, w, outputs, orders).value)
    decreases |outputs|
  {
    hide Balanced, PushAll, Gather, DropAll;
    if outputs != [] {
      var n := |outputs| - 1;
      SyncBalanced(env, w, outputs[..n], orders[..n]);
      var before := SyncAll(env, w, outputs[..n], orders[..n]).value;
      if outputs[n] != 0 {
        var dropped := before.(pending := DropAll(env, before.pending, outputs[n]));
        SamePurse(before, dropped);
        PushAllBalanced(env, dropped, Gather(env, before.pending, orders[n], outputs[n]));
      }
    }
  }

  lemma ApplyBalanced(env: Env, w: Purse, r: Request, g: Guess)
    requires Balanced(w) && Possible(env, w, r, g)
    ensures Balanced(Apply(env, w, r, g).0)
  {
    hide Balanced, Push, SelectStep, SelectInputs, SelectChange, SyncAll, Enumerates, FirstSame, FirstAddress;
    match r
    case SpendTo(target) =>
      var t := TickerOf(env, target.contract);
      if t.Some? && g.choice.Some? {
        SelectBalanced(env, w, t.value, Amount(target), g.key, g.choice.value);
      }
    case Receive(input) =>
      var t := TickerOf(env, input.note.contract);
      if t.Some? {
        PushBalanced(w, t.value, OwnNote(env, 2, ContractOf(env, t.value).value, g.key, Amount(input.note)));
      }
    case Mint(amount, ticker) =>
      if ContractOf(env, ticker).Some? {
        PushBalanced(w, ticker, OwnNote(env, 2, ContractOf(env, ticker).value, g.key, amount));
      }
    case Burn(input, _, _) =>
      var t := TickerOf(env, input.note.contract);
      if t.Some? && Pull(w, t.value, input.note).Some? {
        BurnTotal(w, t.value, input.note);
      }
    case ImportNote(target) =>
      if g.ticker.Some? {
        ImportTotal(w, target, g.ticker.value);
      }
    case AddToAvail(input) =>
      var t := TickerOf(env, input.note.contract);
      if t.Some? {
        PushBalanced(w, t.value, input);
      }
    case GetAddress(_, _) =>
      SamePurse(w, Apply(env, w, r, g).0);
    case Sync(txns) =>
      if SyncAll(env, w, Outputs(txns), g.orders).Some? {
        SyncBalanced(env, w, Outputs(txns), g.orders);
      }
  }

  // ---------------------------------------------------------------------------------------
  // Runs
  // ---------------------------------------------------------------------------------------

  /** The wallet after a run of operations; failed ones leave it as it was, a panic ends the run. */
  ghost function RunAll(env: Env, steps: seq<(Request, Guess)>): Option<Purse> {
    if steps == [] then Some(Purse(map[], map[], 0))
    else
      var before, step := RunAll(env, steps[..|steps| - 1]), steps[|steps| - 1];
      if before.None? || !Possible(env, before.value, step.0, step.1) then None
      else
        var (after, o) := Apply(env, before.value, step.0, step.1);
        if o.Panicked? then None else Some(after)
  }

  lemma {:induction false} RunBalanced(env: Env, steps: seq<(Request, Guess)>)
    requires RunAll(env, steps).Some?
    ensures Balanced(RunAll(env, steps).value)
  {
    hide Balanced, Apply, Possible;
    if steps == [] {
      EmptyBalanced();
    } else {
      var n := |steps| - 1;
      RunBalanced(env, steps[..n]);
      ApplyBalanced(env, RunAll(env, steps[..n]).value, steps[n].0, steps[n].1);
    }
  }

  lemma EmptyBalanced()
    ensures Balanced(Purse(map[], map[], 0))
  {
    EmptySum(Worth);
  }

  /** After every run whose final total fits in 64 bits the balance is that total, however the total got
    there; and a further operation after which it fits moves the balance by exactly its amount, or fails
    and changes nothing. */
  lemma BalanceIsTotal(env: Env, steps: seq<(Request, Guess)>, r: Request, g: Guess)
    requires RunAll(env, steps).Some? && Total(RunAll(env, steps).value.avail) < TWO64
    requires Possible(env, RunAll(env, steps).value, r, g)
    ensures var w := RunAll(env, steps).value;
      var (after, o) := Apply(env, w, r, g);
      && w.balance == Total(w.avail)
      && (!o.Done? ==> after == w)
      && (o.Done? && Total(after.avail) < TWO64 ==> after.balance == w.balance + Moves(env, w, r))
  {
    hide RunAll, Apply, Possible, Total, Moves;
    var w := RunAll(env, steps).value;
    RunBalanced(env, steps);
    ApplyBalanced(env, w, r, g);
    TotalMoves(env, w, r, g);
  }
}
