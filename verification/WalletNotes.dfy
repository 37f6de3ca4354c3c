/** Which notes a wallet makes, whom they belong to, and where every note it holds came from. */
module WalletNotes {
  import opened Util
  import opened Notes
  import opened NoteSelection
  import opened WalletSteps
  import opened WalletObject
  import opened WalletBalance
  import WalletSync

  /** The note belongs to the drawn key: its address and its entropy are that key's. */
  ghost predicate Own(env: Env, n: InputNote, key: Element) {
    n.secretKey == key && n.note.address == env.address(key) && n.note.psi == env.psi(key)
  }

  /** The wallet can spend the note: its address is that of the secret key kept with it. */
  ghost predicate Spendable(env: Env, n: InputNote) {
    n.note.address == env.address(n.secretKey)
  }

  /** `after` is `before` with `n` at the end of the list of `t`. */
  ghost predicate Appended(before: Holdings, after: Holdings, t: Ticker, n: InputNote) {
    NotesOf(after, t) == NotesOf(before, t) + [n] && forall u :: u != t ==> NotesOf(after, u) == NotesOf(before, u)
  }

  /** Upper case leaves the two supported tickers alone. */
  ghost predicate TickersAreUpper(env: Env) {
    env.upper("WCBTC") == "WCBTC" && env.upper("USDC") == "USDC"
  }

  /** The two translations between contracts and tickers undo each other. */
  lemma TickersRoundTrip(env: Env, contract: Element, ticker: Ticker)
    requires TickersAreUpper(env)
    ensures TickerOf(env, contract).Some? <==> contract == env.wcbtc || contract == env.usdc
    ensures TickerOf(env, contract).Some? ==> ContractOf(env, TickerOf(env, contract).value) == Some(contract)
    ensures ContractOf(env, ticker).Some? && env.wcbtc != env.usdc ==>
      TickerOf(env, ContractOf(env, ticker).value) == Some(if ticker == "WCBTC" || ticker == "USDC" then ticker else env.upper(ticker))
    ensures ContractOf(env, "WCBTC") == Some(env.wcbtc) && ContractOf(env, "USDC") == Some(env.usdc)
  {
  }

  // ---------------------------------------------------------------------------------------
  // One operation
  // ---------------------------------------------------------------------------------------

  /** Minting appends one note to the ticker's list, of the asked amount and the ticker's contract, owned by the
    drawn key; the receipt carries that note. It panics exactly for an unsupported ticker. */
  lemma MintExactly(env: Env, w: Purse, amount: U64, ticker: Ticker, g: Guess)
    ensures var (after, o) := Apply(env, w, Mint(amount, ticker), g);
      && (o.Panicked? <==> ContractOf(env, ticker).None?)
      && (!o.Panicked? ==> exists n ::
            && Own(env, n, g.key) && n.note.kind == 2 && n.note.value == amount && Some(n.note.contract) == ContractOf(env, ticker)
            && Appended(w.avail, after.avail, ticker, n) && after.pending == w.pending
            && o == Done(Minted((n.note, PaddingNote))))
  {
    if ContractOf(env, ticker).Some? {
      var (after, o) := Apply(env, w, Mint(amount, ticker), g);
      var n := NotesOf(after.avail, ticker)[|NotesOf(w.avail, ticker)|];
      assert Own(env, n, g.key);
    }
  }

  /** Receiving spends the given note into one of the same amount owned by the drawn key, filed under the given
    note's ticker; the receipt carries both. */
  lemma ReceiveExactly(env: Env, w: Purse, input: InputNote, g: Guess)
    requires TickersAreUpper(env)
    ensures var (after, o) := Apply(env, w, Receive(input), g);
      var t := TickerOf(env, input.note.contract);
      && (o.Panicked? <==> t.None?)
      && (!o.Panicked? ==> exists n ::
            && Own(env, n, g.key) && n.note.kind == 2 && n.note.value == Amount(input.note) && n.note.contract == input.note.contract
            && Appended(w.avail, after.avail, t.value, n) && after.pending == w.pending
            && o == Done(Send((input, PaddingInput), (n.note, PaddingNote))))
  {
    var t := TickerOf(env, input.note.contract);
    TickersRoundTrip(env, input.note.contract, "");
    if t.Some? {
      var (after, o) := Apply(env, w, Receive(input), g);
      var n := NotesOf(after.avail, t.value)[|NotesOf(w.avail, t.value)|];
      assert Own(env, n, g.key);
    }
  }

  /** Spending sends the chosen notes to the target, and what they are worth beyond it to a note of the first
    one's kind and contract owned by the drawn key, at the end of the list; without excess there is none. */
  lemma SpendChange(env: Env, w: Purse, target: Note, g: Guess)
    requires Possible(env, w, SpendTo(target), g)
    requires Apply(env, w, SpendTo(target), g).1.Done?
    ensures TickerOf(env, target.contract).Some? && g.choice.Some?
    ensures var (after, o) := Apply(env, w, SpendTo(target), g);
      var t, c := TickerOf(env, target.contract).value, g.choice.value;
      var notes := NotesOf(w.avail, t);
      && InRange(Amounts(notes), c)
      && var excess := Sum(Amounts(notes), c) - Amount(target);
        && o.receipt.Send? && o.receipt.outputs.0 == target
        && o.receipt.inputs == (notes[c.i], if c.Two? then notes[c.j] else PaddingInput)
        && (excess == 0 ==> o.receipt.outputs.1 == PaddingNote)
        && (excess != 0 ==>
              var left := NotesOf(after.avail, t);
              && left != []
              && var n := left[|left| - 1];
                && Own(env, n, g.key) && n.note.value == excess
                && n.note.kind == notes[c.i].note.kind && n.note.contract == notes[c.i].note.contract
                && o.receipt.outputs.1 == n.note)
  {
    hide Beats, BestOrNone, Amounts, Sum;
    var t := TickerOf(env, target.contract).value;
    ChoiceCovers(Amounts(NotesOf(w.avail, t)), Amount(target), g.choice);
    AmountsLength(NotesOf(w.avail, t));
    SelectList(env, w, t, Amount(target), g.key, g.choice.value);
  }

  lemma ChoiceCovers(amounts: seq<nat>, amount: nat, choice: Option<Choice>)
    requires BestOrNone(amounts, amount, choice) && choice.Some?
    ensures Covers(amounts, amount, choice.value)
  {
  }

  /** Burning takes out the first note equal to the given one, and nothing else; it fails exactly if there is
    none. The receipt carries the given note and address. */
  lemma BurnExactly(env: Env, w: Purse, input: InputNote, evmAddress: Element, substitute: bool, g: Guess)
    requires TickerOf(env, input.note.contract).Some?
    ensures var (after, o) := Apply(env, w, Burn(input, evmAddress, substitute), g);
      var t := TickerOf(env, input.note.contract).value;
      var notes := NotesOf(w.avail, t);
      && (o.Done? <==> exists i :: 0 <= i < |notes| && notes[i].note == input.note)
      && (o.Done? ==>
            && o.receipt == Burned((input, PaddingInput), evmAddress, substitute)
            && (exists i ::
                  && 0 <= i < |notes| && notes[i].note == input.note && (forall k :: 0 <= k < i ==> notes[k].note != input.note)
                  && NotesOf(after.avail, t) == notes[..i] + notes[i + 1..])
            && (forall u :: u != t ==> NotesOf(after.avail, u) == NotesOf(w.avail, u)) && after.pending == w.pending)
      && (!o.Done? ==> o == Failed(CantPullNote) && after == w)
  {
    var t := TickerOf(env, input.note.contract).value;
    var notes := NotesOf(w.avail, t);
    var i := FirstSame(notes, input.note);
    if i < |notes| {
      assert notes[i].note == input.note && forall k :: 0 <= k < i ==> notes[k].note != input.note;
    }
  }

  /** Importing takes out the first pending entry with the note's address under some ticker, and files the note as
    given, with that entry's key, at the end of the same ticker's list. */
  lemma ImportExactly(env: Env, w: Purse, target: Note, g: Guess)
    requires Possible(env, w, ImportNote(target), g)
    ensures var (after, o) := Apply(env, w, ImportNote(target), g);
      && (o.Done? <==> exists t, k :: t in w.pending && 0 <= k < |w.pending[t]| && w.pending[t][k].note.address == target.address)
      && (o.Done? ==> exists t, i ::
            && t in w.pending && 0 <= i < |w.pending[t]| && w.pending[t][i].note.address == target.address
            && (forall k :: 0 <= k < i ==> w.pending[t][k].note.address != target.address)
            && after.pending == w.pending[t := w.pending[t][..i] + w.pending[t][i + 1..]]
            && Appended(w.avail, after.avail, t, InputNote(target, w.pending[t][i].secretKey)))
      && (!o.Done? ==> o == Failed(KeyNotFound) && after == w)
  {
    if g.ticker.Some? {
      var t := g.ticker.value;
      var i := FirstAddress(w.pending[t], target.address);
      assert w.pending[t][i].note.address == target.address && forall k :: 0 <= k < i ==> w.pending[t][k].note.address != target.address;
    } else {
      forall t, k | t in w.pending && 0 <= k < |w.pending[t]| ensures w.pending[t][k].note.address != target.address {
        assert !HasAddress(w.pending, t, target.address);
      }
    }
  }

  /** Asking for an address makes one pending note to a drawn key, in place of whatever was pending under that
    ticker; nothing becomes available. */
  lemma GetAddressExactly(env: Env, w: Purse, amount: U64, ticker: Ticker, g: Guess)
    ensures var (after, o) := Apply(env, w, GetAddress(amount, ticker), g);
      && (o.Panicked? <==> ContractOf(env, ticker).None?)
      && (!o.Panicked? ==> exists n: InputNote ::
            && n.secretKey == g.key && Spendable(env, n) && n.note.psi == g.psi && n.note.value == amount
            && n.note.kind == 2 && Some(n.note.contract) == ContractOf(env, ticker)
            && after == w.(pending := w.pending[ticker := [n]]) && o == Done(Address(n.note)))
  {
    if ContractOf(env, ticker).Some? {
      var n := Apply(env, w, GetAddress(amount, ticker), g).0.pending[ticker][0];
      assert Spendable(env, n);
    }
  }

  /** Adding files the given note under its contract's ticker. */
  lemma AddExactly(env: Env, w: Purse, input: InputNote, g: Guess)
    ensures var (after, o) := Apply(env, w, AddToAvail(input), g);
      var t := TickerOf(env, input.note.contract);
      && (o.Panicked? <==> t.None?)
      && (!o.Panicked? ==> o == Done(Nothing) && Appended(w.avail, after.avail, t.value, input) && after.pending == w.pending)
  {
  }

  // ---------------------------------------------------------------------------------------
  // Where notes come from
  // ---------------------------------------------------------------------------------------

  ghost predicate Holds(m: Holdings, n: InputNote) {
    exists t :: t in m && n in m[t]
  }

  /** The step can have brought the note: what each operation makes, or is given. */
  ghost predicate Brings(env: Env, r: Request, g: Guess, n: InputNote) {
    match r
    case SpendTo(_) => Own(env, n, g.key)
    case Receive(input) => Own(env, n, g.key) && n.note.kind == 2 && n.note.value == Amount(input.note)
    case Mint(amount, _) => Own(env, n, g.key) && n.note.kind == 2 && n.note.value == amount
    case Burn(_, _, _) => false
    case ImportNote(target) => n.note == target && Spendable(env, n)
    case AddToAvail(input) => n == input
    case GetAddress(amount, _) =>
      n.secretKey == g.key && Spendable(env, n) && n.note.psi == g.psi && n.note.kind == 2 && n.note.value == amount
    case Sync(_) => false
  }

  ghost predicate Brought(env: Env, steps: seq<(Request, Guess)>, n: InputNote) {
    exists k :: 0 <= k < |steps| && Brings(env, steps[k].0, steps[k].1, n)
  }

  ghost predicate Asked(env: Env, steps: seq<(Request, Guess)>, n: InputNote) {
    exists k :: 0 <= k < |steps| && steps[k].0.GetAddress? && Brings(env, steps[k].0, steps[k].1, n)
  }

  ghost predicate Traced(env: Env, steps: seq<(Request, Guess)>, w: Purse) {
    && (forall n :: Holds(w.avail, n) ==> Brought(env, steps, n))
    && (forall n :: Holds(w.pending, n) ==> Asked(env, steps, n))
  }

  lemma HoldsAt(m: Holdings, t: Ticker, n: InputNote)
    requires n in NotesOf(m, t)
    ensures Holds(m, n)
  {
  }

  lemma HeldSomewhere(m: Holdings, n: InputNote)
    requires Holds(m, n)
    ensures exists t :: n in NotesOf(m, t)
  {
    var t :| t in m && n in m[t];
    assert n in NotesOf(m, t);
  }

  /** What is held after a step was held before, or was pending and is kept so, or came with the step. */
  ghost predicate NoneFromNowhere(env: Env, w: Purse, r: Request, g: Guess, after: Purse) {
    && (forall n :: Holds(after.avail, n) ==> Holds(w.avail, n) || Holds(w.pending, n) || Brings(env, r, g, n))
    && (forall n :: Holds(after.pending, n) ==> Holds(w.pending, n) || (r.GetAddress? && Brings(env, r, g, n)))
  }

  lemma AppendHolds(before: Holdings, after: Holdings, t: Ticker, x: InputNote, n: InputNote)
    requires Appended(before, after, t, x) && Holds(after, n)
    ensures Holds(before, n) || n == x
  {
    HeldSomewhere(after, n);
    var u :| n in NotesOf(after, u);
    if n in NotesOf(before, u) {
      HoldsAt(before, u, n);
    }
  }

  lemma {:induction false} PushAllHolds(env: Env, w: Purse, notes: seq<InputNote>, n: InputNote)
    requires PushAll(env, w, notes).Some? && Holds(PushAll(env, w, notes).value.avail, n)
    ensures Holds(w.avail, n) || n in notes
  {
    hide Holds;
    if notes != [] {
      var m := |notes| - 1;
      var before, t := PushAll(env, w, notes[..m]).value, TickerOf(env, notes[m].note.contract).value;
      PushAppends(before, t, notes[m]);
      AppendHolds(before.avail, PushAll(env, w, notes).value.avail, t, notes[m], n);
      if Holds(before.avail, n) { PushAllHolds(env, w, notes[..m], n); }
    }
  }

  lemma PushAppends(w: Purse, t: Ticker, n: InputNote)
    ensures Appended(w.avail, Push(w, t, n).avail, t, n) && Push(w, t, n).pending == w.pending
  {
  }

  lemma {:induction false} OthersHeld(env: Env, notes: seq<InputNote>, c: Element, n: InputNote)
    requires n in Others(env, notes, c)
    ensures n in notes
  {
    hide Commitment;
    if notes != [] {
      var m := |notes| - 1;
      if n in Others(env, notes[..m], c) { OthersHeld(env, notes[..m], c, n); }
    }
  }

  lemma SyncOneHolds(env: Env, w: Purse, c: Element, order: seq<Ticker>, n: InputNote)
    requires SyncOne(env, w, c, order).Some?
    ensures var after := SyncOne(env, w, c, order).value;
      && (Holds(after.avail, n) ==> Holds(w.avail, n) || Holds(w.pending, n))
      && (Holds(after.pending, n) ==> Holds(w.pending, n))
  {
    hide Commitment, Gather, PushAll, Others;
    if c != 0 {
      var dropped, found := w.(pending := DropAll(env, w.pending, c)), Gather(env, w.pending, order, c);
      var after := PushAll(env, dropped, found).value;
      PushAllKeepsPending(env, dropped, found);
      if Holds(after.pending, n) {
        var t :| t in after.pending && n in after.pending[t];
        OthersHeld(env, w.pending[t], c, n);
      }
      if Holds(after.avail, n) {
        PushAllHolds(env, dropped, found, n);
        if n in found {
          WalletSync.GatherMembers(env, w.pending, order, c, n);
        }
      }
    }
  }

  lemma {:induction false} SyncAllHolds(env: Env, w: Purse, outputs: seq<Element>, orders: seq<seq<Ticker>>, n: InputNote)
    requires |orders| == |outputs| && SyncAll(env, w, outputs, orders).Some?
    ensures var after := SyncAll(env, w, outputs, orders).value;
      && (Holds(after.avail, n) ==> Holds(w.avail, n) || Holds(w.pending, n))
      && (Holds(after.pending, n) ==> Holds(w.pending, n))
    decreases |outputs|
  {
    hide Holds, SyncOne;
    if outputs != [] {
      var m := |outputs| - 1;
      SyncAllHolds(env, w, outputs[..m], orders[..m], n);
      SyncOneHolds(env, SyncAll(env, w, outputs[..m], orders[..m]).value, outputs[m], orders[m], n);
    }
  }

  /** Every note of a smaller list is one of a larger. */
  lemma FewerHolds(before: Holdings, after: Holdings, t: Ticker, n: InputNote)
    requires (forall x :: x in NotesOf(after, t) ==> x in NotesOf(before, t)) && forall u :: u != t ==> NotesOf(after, u) == NotesOf(before, u)
    requires Holds(after, n)
    ensures Holds(before, n)
  {
    HeldSomewhere(after, n);
    var u :| n in NotesOf(after, u);
    HoldsAt(before, u, n);
  }

  lemma SpendHolds(env: Env, w: Purse, target: Note, g: Guess, n: InputNote)
    requires Possible(env, w, SpendTo(target), g)
    ensures var after := Apply(env, w, SpendTo(target), g).0;
      && (Holds(after.avail, n) ==> Holds(w.avail, n) || Own(env, n, g.key))
      && after.pending == w.pending
  {
    hide Holds, Beats, BestOrNone, Amounts, Sum, SelectStep, Own;
    var (after, o) := Apply(env, w, SpendTo(target), g);
    if o.Done? {
      var t := TickerOf(env, target.contract).value;
      ChoiceCovers(Amounts(NotesOf(w.avail, t)), Amount(target), g.choice);
      SelectHolds(env, w, t, Amount(target), g.key, g.choice.value, n);
    }
  }

  lemma SelectHolds(env: Env, w: Purse, t: Ticker, amount: nat, key: Element, c: Choice, n: InputNote)
    requires Covers(Amounts(NotesOf(w.avail, t)), amount, c)
    ensures var after := SelectStep(env, w, t, amount, key, c);
      && (Holds(after.avail, n) ==> Holds(w.avail, n) || Own(env, n, key))
      && after.pending == w.pending
  {
    hide Holds, Amounts, Sum, SelectStep;
    var after, notes := SelectStep(env, w, t, amount, key, c), NotesOf(w.avail, t);
    SelectList(env, w, t, amount, key, c);
    AmountsLength(notes);
    if Holds(after.avail, n) {
      HeldSomewhere(after.avail, n);
      var u :| n in NotesOf(after.avail, u);
      if u != t || n in notes {
        HoldsAt(w.avail, u, n);
      }
    }
  }

  lemma PullHolds(w: Purse, t: Ticker, note: Note, n: InputNote)
    requires Pull(w, t, note).Some?
    ensures Holds(Pull(w, t, note).value.avail, n) ==> Holds(w.avail, n)
    ensures Pull(w, t, note).value.pending == w.pending
  {
    hide Holds;
    var after := Pull(w, t, note).value;
    if Holds(after.avail, n) { FewerHolds(w.avail, after.avail, t, n); }
  }

  lemma ImportHolds(env: Env, w: Purse, target: Note, t: Ticker, n: InputNote)
    requires HasAddress(w.pending, t, target.address) && (forall x :: Holds(w.pending, x) ==> Spendable(env, x))
    ensures var after := ImportStep(w, target, t);
      && (Holds(after.avail, n) ==> Holds(w.avail, n) || (n.note == target && Spendable(env, n)))
      && (Holds(after.pending, n) ==> Holds(w.pending, n))
  {
    hide Holds;
    var notes, after := w.pending[t], ImportStep(w, target, t);
    var i := FirstAddress(notes, target.address);
    HoldsAt(w.pending, t, notes[i]);
    var moved := w.(pending := w.pending[t := TakeOut(notes, i)]);
    PushAppends(moved, t, InputNote(target, notes[i].secretKey));
    if Holds(after.avail, n) { AppendHolds(w.avail, after.avail, t, InputNote(target, notes[i].secretKey), n); }
    if Holds(after.pending, n) { FewerHolds(w.pending, after.pending, t, n); }
  }

  lemma StepTraced(env: Env, w: Purse, r: Request, g: Guess)
    requires Possible(env, w, r, g) && (forall x :: Holds(w.pending, x) ==> Spendable(env, x))
    ensures NoneFromNowhere(env, w, r, g, Apply(env, w, r, g).0)
  {
    hide Holds, Push, SelectStep, SelectInputs, SelectChange, SyncAll, Enumerates, BestOrNone, Pull, ImportStep, Own;
    var after := Apply(env, w, r, g).0;
    forall n
      ensures Holds(after.avail, n) ==> Holds(w.avail, n) || Holds(w.pending, n) || Brings(env, r, g, n)
      ensures Holds(after.pending, n) ==> Holds(w.pending, n) || (r.GetAddress? && Brings(env, r, g, n))
    {
      match r
      case SpendTo(target) => SpendHolds(env, w, target, g, n);
      case Receive(input) =>
        var t := TickerOf(env, input.note.contract);
        if t.Some? {
          MadeHolds(env, w, t.value, 2, ContractOf(env, t.value).value, g.key, Amount(input.note), n);
        }
      case Mint(amount, ticker) =>
        if ContractOf(env, ticker).Some? {
          MadeHolds(env, w, ticker, 2, ContractOf(env, ticker).value, g.key, amount, n);
        }
      case Burn(input, _, _) =>
        var t := TickerOf(env, input.note.contract);
        if t.Some? && Pull(w, t.value, input.note).Some? { PullHolds(w, t.value, input.note, n); }
      case ImportNote(target) =>
        if g.ticker.Some? { ImportHolds(env, w, target, g.ticker.value, n); }
      case AddToAvail(input) =>
        var t := TickerOf(env, input.note.contract);
        if t.Some? {
          PushAppends(w, t.value, input);
          if Holds(after.avail, n) { AppendHolds(w.avail, after.avail, t.value, input, n); }
        }
      case GetAddress(amount, ticker) =>
        if ContractOf(env, ticker).Some? { AddressHolds(env, w, amount, ticker, g, n); }
      case Sync(txns) =>
        if SyncAll(env, w, Outputs(txns), g.orders).Some? { SyncAllHolds(env, w, Outputs(txns), g.orders, n); }
    }
  }

  lemma MadeHolds(env: Env, w: Purse, t: Ticker, kind: Element, contract: Element, key: Element, amount: nat, n: InputNote)
    ensures var made := OwnNote(env, kind, contract, key, amount);
      && Own(env, made, key) && made.note.kind == kind && made.note.contract == contract && made.note.value == amount
      && (Holds(Push(w, t, made).avail, n) ==> Holds(w.avail, n) || n == made)
      && Push(w, t, made).pending == w.pending
  {
    hide Holds;
    var made := OwnNote(env, kind, contract, key, amount);
    PushAppends(w, t, made);
    if Holds(Push(w, t, made).avail, n) { AppendHolds(w.avail, Push(w, t, made).avail, t, made, n); }
  }

  lemma AddressHolds(env: Env, w: Purse, amount: U64, ticker: Ticker, g: Guess, n: InputNote)
    requires ContractOf(env, ticker).Some?
    ensures var after := Apply(env, w, GetAddress(amount, ticker), g).0;
      after.avail == w.avail && (Holds(after.pending, n) ==> Holds(w.pending, n) || Brings(env, GetAddress(amount, ticker), g, n))
  {
    var after := Apply(env, w, GetAddress(amount, ticker), g).0;
    if Holds(after.pending, n) {
      var t :| t in after.pending && n in after.pending[t];
      if t != ticker { assert n in w.pending[t]; }
    }
  }

  lemma AskedIsSpendable(env: Env, steps: seq<(Request, Guess)>, n: InputNote)
    requires Asked(env, steps, n)
    ensures Spendable(env, n) && Brought(env, steps, n)
  {
  }

  lemma TraceGrows(env: Env, steps: seq<(Request, Guess)>, step: (Request, Guess), n: InputNote)
    ensures Brought(env, steps, n) ==> Brought(env, steps + [step], n)
    ensures Asked(env, steps, n) ==> Asked(env, steps + [step], n)
    ensures Brings(env, step.0, step.1, n) ==> Brought(env, steps + [step], n)
    ensures step.0.GetAddress? && Brings(env, step.0, step.1, n) ==> Asked(env, steps + [step], n)
  {
    hide Brings;
    var all := steps + [step];
    assert all[|steps|] == step;
    if k :| 0 <= k < |steps| && Brings(env, steps[k].0, steps[k].1, n) { assert all[k] == steps[k]; }
    if k :| 0 <= k < |steps| && steps[k].0.GetAddress? && Brings(env, steps[k].0, steps[k].1, n) { assert all[k] == steps[k]; }
  }

  /** Every note held was brought by a step of the run: made for a key the wallet drew, imported to an address it
    drew, asked for, or handed over with its key. Pending notes were all asked for. */
  lemma {:induction false} EveryNoteIsTraced(env: Env, steps: seq<(Request, Guess)>)
    requires RunAll(env, steps).Some?
    ensures Traced(env, steps, RunAll(env, steps).value)
  {
    hide Apply, Possible, Holds, Brings;
    if steps == [] {
      NothingHeld();
    } else {
      var m := |steps| - 1;
      var w, step := RunAll(env, steps[..m]).value, steps[m];
      EveryNoteIsTraced(env, steps[..m]);
      forall x | Holds(w.pending, x) ensures Spendable(env, x) { AskedIsSpendable(env, steps[..m], x); }
      StepTraced(env, w, step.0, step.1);
      assert steps[..m] + [step] == steps;
      TraceStep(env, steps[..m], step, w, RunAll(env, steps).value);
    }
  }

  lemma TraceStep(env: Env, steps: seq<(Request, Guess)>, step: (Request, Guess), w: Purse, after: Purse)
    requires Traced(env, steps, w) && NoneFromNowhere(env, w, step.0, step.1, after)
    ensures Traced(env, steps + [step], after)
  {
    hide Holds, Brings, Brought, Asked;
    forall n | Holds(after.avail, n) ensures Brought(env, steps + [step], n) {
      TraceGrows(env, steps, step, n);
      if Holds(w.pending, n) { AskedIsSpendable(env, steps, n); }
    }
    forall n | Holds(after.pending, n) ensures Asked(env, steps + [step], n) {
      TraceGrows(env, steps, step, n);
    }
  }

  lemma NothingHeld()
    ensures forall n :: !Holds(map[], n)
  {
  }

  /** So the wallet can spend every note it holds, unless it was handed one with the wrong key. */
  lemma EveryNoteIsSpendable(env: Env, steps: seq<(Request, Guess)>, n: InputNote)
    requires RunAll(env, steps).Some?
    requires Holds(RunAll(env, steps).value.avail, n) || Holds(RunAll(env, steps).value.pending, n)
    ensures Spendable(env, n) || exists k :: 0 <= k < |steps| && steps[k].0 == AddToAvail(n)
  {
    hide RunAll, Holds;
    EveryNoteIsTraced(env, steps);
    if Holds(RunAll(env, steps).value.pending, n) {
      AskedIsSpendable(env, steps, n);
    }
    var k :| 0 <= k < |steps| && Brings(env, steps[k].0, steps[k].1, n);
  }
}
