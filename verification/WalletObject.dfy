/** The wallet as an object that is changed in place, and staged changes on a copy. */
module WalletObject {
  import opened Util
  import opened Notes
  import opened NoteSelection
  import opened WalletSteps

  // ---------------------------------------------------------------------------------------
  // Removal by index
  // ---------------------------------------------------------------------------------------

  lemma {:induction false} OthersConcat(env: Env, a: seq<InputNote>, b: seq<InputNote>, c: Element)
    ensures Others(env, a + b, c) == Others(env, a, c) + Others(env, b, c)
    decreases |b|
  {
    if b == [] {
      assert a + b == a;
    } else {
      var n := |b| - 1;
      OthersConcat(env, a, b[..n], c);
      assert (a + b)[..|a + b| - 1] == a + b[..n];
    }
  }

  lemma {:induction false} OthersAll(env: Env, s: seq<InputNote>, c: Element)
    requires forall i :: 0 <= i < |s| ==> Commitment(env, s[i].note) != c
    ensures Others(env, s, c) == s
  {
    if s != [] {
      OthersAll(env, s[..|s| - 1], c);
    }
  }

  /** Taking out one matching note, with none between it and the part already done. */
  lemma TakeOutStep(env: Env, notes: seq<InputNote>, c: Element, j: nat, p: nat)
    requires j < p <= |notes| && Commitment(env, notes[j].note) == c
    requires forall i :: j < i < p ==> Commitment(env, notes[i].note) != c
    ensures TakeOut(notes[..p] + Others(env, notes[p..], c), j) == notes[..j] + Others(env, notes[j..], c)
  {
    hide Others, Commitment;
    var mid := notes[j + 1..p];
    assert notes[j..] == [notes[j]] + (mid + notes[p..]);
    OthersConcat(env, [notes[j]], mid + notes[p..], c);
    OthersConcat(env, mid, notes[p..], c);
    OthersAll(env, mid, c);
    OthersOne(env, notes[j], c);
  }

  lemma OthersOne(env: Env, n: InputNote, c: Element)
    requires Commitment(env, n.note) == c
    ensures Others(env, [n], c) == []
  {
    assert [n][..0] == [];
  }

  /** The loop over one pending list: note the matching positions, then remove them from the back. */
  method RemoveMatching(env: Env, notes: seq<InputNote>, c: Element) returns (rest: seq<InputNote>, found: seq<InputNote>)
    ensures rest == Others(env, notes, c)
    ensures found == Matching(env, notes, c)
  {
    hide Commitment, Others;
    var idx: seq<nat> := [];
    found := [];
    for i := 0 to |notes|
      invariant found == Matching(env, notes[..i], c)
      invariant Positions(env, notes, c, i, idx)
    {
      assert notes[..i + 1][..i] == notes[..i];
      if c == Commitment(env, notes[i].note) {
        idx := idx + [i];
        found := found + [notes[i]];
      }
    }
    assert notes[..|notes|] == notes;
    rest := RemovePositions(env, notes, c, idx);
  }

  /** `idx` are the positions below `n` of the notes with commitment `c`, rising. */
  ghost predicate Positions(env: Env, notes: seq<InputNote>, c: Element, n: nat, idx: seq<nat>)
    requires n <= |notes|
  {
    && (forall k :: 0 <= k < |idx| ==> idx[k] < n && Commitment(env, notes[idx[k]].note) == c)
    && (forall k, l :: 0 <= k < l < |idx| ==> idx[k] < idx[l])
    && (forall j :: 0 <= j < n && Commitment(env, notes[j].note) == c ==> j in idx)
  }

  method RemovePositions(env: Env, notes: seq<InputNote>, c: Element, idx: seq<nat>) returns (rest: seq<InputNote>)
    requires Positions(env, notes, c, |notes|, idx)
    ensures rest == Others(env, notes, c)
  {
    hide Commitment, Others;
    rest := notes;
    var k := |idx|;
    ghost var p := |notes|;
    DoneFrom(env, notes, c);
    while k > 0
      invariant 0 <= k <= |idx| && p <= |notes|
      invariant p == if k == |idx| then |notes| else idx[k]
      invariant rest == notes[..p] + Others(env, notes[p..], c)
    {
      k := k - 1;
      var j := idx[k];
      forall i | j < i < p ensures Commitment(env, notes[i].note) != c {
        GapHasNone(env, notes, c, idx, k, i);
      }
      TakeOutStep(env, notes, c, j, p);
      rest := TakeOut(rest, j);
      p := j;
    }
    forall i | 0 <= i < p ensures Commitment(env, notes[i].note) != c {
      BeforeFirst(env, notes, c, idx, i);
    }
    AllDone(env, notes, c, p);
  }

  lemma DoneFrom(env: Env, notes: seq<InputNote>, c: Element)
    ensures notes == notes[..|notes|] + Others(env, notes[|notes|..], c)
  {
    assert notes[|notes|..] == [] && notes[..|notes|] == notes;
  }

  lemma AllDone(env: Env, notes: seq<InputNote>, c: Element, p: nat)
    requires p <= |notes| && forall i :: 0 <= i < p ==> Commitment(env, notes[i].note) != c
    ensures notes[..p] + Others(env, notes[p..], c) == Others(env, notes, c)
  {
    hide Others, Commitment;
    OthersAll(env, notes[..p], c);
    OthersConcat(env, notes[..p], notes[p..], c);
    assert notes == notes[..p] + notes[p..];
  }

  lemma BeforeFirst(env: Env, notes: seq<InputNote>, c: Element, idx: seq<nat>, i: nat)
    requires Positions(env, notes, c, |notes|, idx) && i < if idx == [] then |notes| else idx[0]
    requires i < |notes|
    ensures Commitment(env, notes[i].note) != c
  {
    hide Commitment;
    forall l | 0 <= l < |idx| ensures idx[l] != i {
      if l > 0 { assert idx[0] < idx[l]; }
    }
  }

  lemma GapHasNone(env: Env, notes: seq<InputNote>, c: Element, idx: seq<nat>, k: nat, i: nat)
    requires forall k, l :: 0 <= k < l < |idx| ==> idx[k] < idx[l]
    requires forall j :: 0 <= j < |notes| && Commitment(env, notes[j].note) == c ==> j in idx
    requires k < |idx| && idx[k] < i < |notes| && (k + 1 < |idx| ==> i < idx[k + 1])
    ensures Commitment(env, notes[i].note) != c
  {
    forall l | 0 <= l < |idx| ensures idx[l] != i {
      if l > k + 1 { assert idx[k + 1] < idx[l]; }
    }
  }

  /** The lists of `tickers` are still to be gone through. */
  ghost predicate HalfDropped(env: Env, start: Holdings, tickers: set<Ticker>, c: Element, now: Holdings) {
    && now.Keys == start.Keys
    && forall t :: t in now ==> now[t] == if t in tickers then start[t] else Others(env, start[t], c)
  }

  lemma NoneDropped(env: Env, start: Holdings, c: Element)
    ensures HalfDropped(env, start, start.Keys, c, start) && Gather(env, start, [], c) == []
  {
  }

  lemma OneMoreDropped(env: Env, start: Holdings, tickers: set<Ticker>, c: Element, now: Holdings, order: seq<Ticker>, t: Ticker)
    requires HalfDropped(env, start, tickers, c, now) && t in tickers && tickers <= start.Keys
    ensures t in now && now[t] == start[t]
    ensures HalfDropped(env, start, tickers - {t}, c, now[t := Others(env, now[t], c)])
    ensures Gather(env, start, order + [t], c) == Gather(env, start, order, c) + Matching(env, now[t], c)
  {
    hide Others, Matching;
    assert (order + [t])[..|order|] == order;
  }

  lemma AllDropped(env: Env, start: Holdings, c: Element, now: Holdings)
    requires HalfDropped(env, start, {}, c, now)
    ensures now == DropAll(env, start, c)
  {
  }

  lemma EnumeratesNone(keys: set<Ticker>)
    requires keys == {}
    ensures Enumerates([], keys)
  {
  }

  lemma EnumeratesMore(order: seq<Ticker>, keys: set<Ticker>, t: Ticker)
    requires Enumerates(order, keys) && t !in keys
    ensures Enumerates(order + [t], keys + {t})
  {
  }

  ghost function Listing(keys: set<Ticker>): (order: seq<Ticker>)
    ensures Enumerates(order, keys)
    decreases |keys|
  {
    if keys == {} then []
    else
      var t :| t in keys;
      Listing(keys - {t}) + [t]
  }

  ghost function Pad(orders: seq<seq<Ticker>>, n: nat, keys: set<Ticker>): seq<seq<Ticker>>
    requires |orders| <= n
  {
    orders + seq(n - |orders|, i => Listing(keys))
  }

  lemma {:induction false} PushStaysFailed(env: Env, w: Purse, notes: seq<InputNote>, i: nat)
    requires i <= |notes| && PushAll(env, w, notes[..i]).None?
    ensures PushAll(env, w, notes).None?
    decreases |notes|
  {
    if i < |notes| {
      var n := |notes| - 1;
      assert notes[..n][..i] == notes[..i];
      PushStaysFailed(env, w, notes[..n], i);
    } else {
      assert notes[..i] == notes;
    }
  }

  lemma {:induction false} SyncStaysFailed(env: Env, w: Purse, outputs: seq<Element>, orders: seq<seq<Ticker>>, i: nat)
    requires |orders| == |outputs| && i <= |outputs| && SyncAll(env, w, outputs[..i], orders[..i]).None?
    ensures SyncAll(env, w, outputs, orders).None?
    decreases |outputs|
  {
    if i < |outputs| {
      var n := |outputs| - 1;
      assert outputs[..n][..i] == outputs[..i] && orders[..n][..i] == orders[..i];
      SyncStaysFailed(env, w, outputs[..n], orders[..n], i);
    } else {
      assert outputs[..i] == outputs && orders[..i] == orders;
    }
  }

  lemma {:induction false} PushAllKeepsPending(env: Env, w: Purse, notes: seq<InputNote>)
    requires PushAll(env, w, notes).Some?
    ensures PushAll(env, w, notes).value.pending == w.pending
  {
    if notes != [] {
      PushAllKeepsPending(env, w, notes[..|notes| - 1]);
    }
  }

  lemma SyncKeepsTickers(env: Env, w: Purse, c: Element, order: seq<Ticker>)
    requires SyncOne(env, w, c, order).Some?
    ensures SyncOne(env, w, c, order).value.pending.Keys == w.pending.Keys
  {
    if c != 0 {
      PushAllKeepsPending(env, w.(pending := DropAll(env, w.pending, c)), Gather(env, w.pending, order, c));
    }
  }

  lemma BestCovers(amounts: seq<nat>, amount: nat, best: Option<Choice>)
    requires BestOrNone(amounts, amount, best) && best.Some?
    ensures IsBest(amounts, amount, best.value) && Covers(amounts, amount, best.value)
  {
  }

  // ---------------------------------------------------------------------------------------
  // The object
  // ---------------------------------------------------------------------------------------

  class Wallet {
    const env: Env
    var pending: Holdings
    var avail: Holdings
    var balance: nat

    function View(): Purse
      reads this
    {
      Purse(pending, avail, balance)
    }

    constructor (env: Env)
      ensures this.env == env && View() == Purse(map[], map[], 0)
    {
      this.env := env;
      pending, avail, balance := map[], map[], 0;
    }

    constructor Copy(w: Wallet)
      ensures env == w.env && View() == w.View()
    {
      env := w.env;
      pending, avail, balance := w.pending, w.avail, w.balance;
    }

    method PushToAvail(t: Ticker, n: InputNote)
      modifies this
      ensures View() == Push(old(View()), t, n)
    {
      avail := avail[t := NotesOf(avail, t) + [n]];
      balance := (balance + Worth(n)) % TWO64;
    }

    method PullFromAvail(t: Ticker, note: Note) returns (ok: bool)
      modifies this
      ensures ok <==> Pull(old(View()), t, note).Some?
      ensures View() == if ok then Pull(old(View()), t, note).value else old(View())
    {
      if t !in avail {
        return false;
      }
      var notes := avail[t];
      var pos := FirstSame(notes, note);
      if pos == |notes| {
        return false;
      }
      avail := avail[t := TakeOut(notes, pos)];
      balance := (balance - Worth(notes[pos])) % TWO64;
      return true;
    }

    /** Takes the best choice out of the wallet and keeps the change; both pulls always succeed. */
    method SelectInputNotes(t: Ticker, amount: nat, key: Element)
      returns (r: Option<((InputNote, InputNote), Note)>, ghost choice: Option<Choice>)
      modifies this
      ensures BestOrNone(Amounts(NotesOf(old(avail), t)), amount, choice)
      ensures r.None? <==> choice.None?
      ensures r.None? ==> View() == old(View())
      ensures r.Some? ==> View() == SelectStep(env, old(View()), t, amount, key, choice.value)
      ensures r.Some? ==> r.value.0 == SelectInputs(NotesOf(old(avail), t), choice.value)
      ensures r.Some? ==> r.value.1 == SelectChange(env, NotesOf(old(avail), t), amount, key, choice.value)
    {
      hide BestOrNone;
      var notes := NotesOf(avail, t);
      var amounts := Amounts(notes);
      var best := Choose(amounts, amount);
      choice := best;
      if best.None? {
        return None, choice;
      }
      var c := best.value;
      BestCovers(amounts, amount, best);
      ChosenAreFound(notes, amount, c);
      ghost var start := View();
      var ok := PullFromAvail(t, notes[c.i].note);
      assert ok && View() == PullAt(start, t, c.i);
      if c.Two? {
        assert NotesOf(avail, t) == TakeOut(notes, c.i);
        ok := PullFromAvail(t, notes[c.j].note);
        assert ok;
      }
      assert View() == PullChoice(start, t, c);
      var inputs := if c.One? then (notes[c.i], PaddingInput) else (notes[c.i], notes[c.j]);
      if Sum(amounts, c) == amount {
        return Some((inputs, PaddingNote)), choice;
      }
      var origin := notes[c.i].note;
      var change := OwnNote(env, origin.kind, origin.contract, key, Sum(amounts, c) - amount);
      PushToAvail(t, change);
      return Some((inputs, change.note)), choice;
    }

    /** Take every pending note with commitment `c` out, ticker by ticker. */
    method DropMatching(c: Element) returns (found: seq<InputNote>, ghost order: seq<Ticker>)
      modifies this
      ensures Enumerates(order, old(pending).Keys)
      ensures View() == old(View()).(pending := DropAll(env, old(pending), c))
      ensures found == Gather(env, old(pending), order, c)
    {
      hide Others, Matching, Enumerates, HalfDropped, DropAll, Gather;
      var tickers := pending.Keys;
      found := [];
      order := [];
      ghost var start, visited: set<Ticker> := View(), {};
      EnumeratesNone(visited);
      NoneDropped(env, pending, c);
      while tickers != {}
        invariant View() == start.(pending := pending)
        invariant tickers !! visited && tickers + visited == start.pending.Keys
        invariant Enumerates(order, visited) && HalfDropped(env, start.pending, tickers, c, pending)
        invariant found == Gather(env, start.pending, order, c)
        decreases |tickers|
      {
        var t :| t in tickers;
        OneMoreDropped(env, start.pending, tickers, c, pending, order, t);
        var rest, more := RemoveMatching(env, pending[t], c);
        EnumeratesMore(order, visited, t);
        tickers, visited := tickers - {t}, visited + {t};
        pending := pending[t := rest];
        order := order + [t];
        found := found + more;
      }
      assert visited == start.pending.Keys;
      AllDropped(env, start.pending, c, pending);
    }

    /** `false` is an unsupported contract. */
    method PushNotes(notes: seq<InputNote>) returns (ok: bool)
      modifies this
      ensures ok <==> PushAll(env, old(View()), notes).Some?
      ensures ok ==> View() == PushAll(env, old(View()), notes).value
    {
      hide Push;
      for i := 0 to |notes|
        invariant PushAll(env, old(View()), notes[..i]) == Some(View())
      {
        assert notes[..i + 1][..i] == notes[..i];
        var t := TickerOf(env, notes[i].note.contract);
        if t.None? {
          PushStaysFailed(env, old(View()), notes, i + 1);
          return false;
        }
        PushToAvail(t.value, notes[i]);
      }
      assert notes[..|notes|] == notes;
      return true;
    }

    /** One output commitment of a listed transaction; `false` is an unsupported contract. */
    method SyncCommitment(c: Element) returns (ok: bool, ghost order: seq<Ticker>)
      modifies this
      ensures Enumerates(order, old(pending).Keys)
      ensures ok <==> SyncOne(env, old(View()), c, order).Some?
      ensures ok ==> View() == SyncOne(env, old(View()), c, order).value
    {
      hide Enumerates, PushAll, Gather, DropAll;
      if c == 0 {
        return true, Listing(pending.Keys);
      }
      var found;
      found, order := DropMatching(c);
      ok := PushNotes(found);
    }

    method SyncTxns(txns: seq<(Element, Element)>) returns (ok: bool, ghost orders: seq<seq<Ticker>>)
      modifies this
      ensures |orders| == |Outputs(txns)| && forall i :: 0 <= i < |orders| ==> Enumerates(orders[i], old(pending).Keys)
      ensures ok <==> SyncAll(env, old(View()), Outputs(txns), orders).Some?
      ensures ok ==> View() == SyncAll(env, old(View()), Outputs(txns), orders).value
    {
      hide Enumerates, SyncOne;
      var outputs := Outputs(txns);
      orders := [];
      ghost var start := View();
      for i := 0 to |outputs|
        invariant |orders| == i && forall k :: 0 <= k < i ==> Enumerates(orders[k], start.pending.Keys)
        invariant pending.Keys == start.pending.Keys
        invariant SyncAll(env, start, outputs[..i], orders) == Some(View())
      {
        ghost var before := View();
        var good, order := SyncCommitment(outputs[i]);
        ghost var more := orders + [order];
        assert outputs[..i + 1][..i] == outputs[..i] && more[..i] == orders;
        orders := more;
        if !good {
          orders := Pad(orders, |outputs|, start.pending.Keys);
          assert orders[..i + 1] == more;
          SyncStaysFailed(env, start, outputs, orders, i + 1);
          return false, orders;
        }
        SyncKeepsTickers(env, before, outputs[i], order);
      }
      assert outputs[..|outputs|] == outputs;
      return true, orders;
    }

    method Import(target: Note) returns (ok: bool, ghost found: Option<Ticker>)
      modifies this
      ensures ok <==> found.Some?
      ensures !ok ==> View() == old(View()) && forall t :: !HasAddress(old(pending), t, target.address)
      ensures ok ==> HasAddress(old(pending), found.value, target.address) && View() == ImportStep(old(View()), target, found.value)
    {
      var tickers := pending.Keys;
      while tickers != {}
        invariant View() == old(View()) && tickers <= pending.Keys
        invariant forall t :: t in pending && t !in tickers ==> !HasAddress(pending, t, target.address)
        decreases |tickers|
      {
        var t :| t in tickers;
        tickers := tickers - {t};
        var notes := pending[t];
        var pos := FirstAddress(notes, target.address);
        if pos < |notes| {
          pending := pending[t := TakeOut(notes, pos)];
          PushToAvail(t, InputNote(target, notes[pos].secretKey));
          return true, Some(t);
        }
      }
      return false, None;
    }

    /** Any operation, in place. The random keys are inputs. */
    method Perform(r: Request, key: Element, psi: Element) returns (o: Outcome, ghost g: Guess)
      modifies this
      ensures g.key == key && g.psi == psi && Possible(env, old(View()), r, g)
      ensures o == Apply(env, old(View()), r, g).1
      ensures !o.Panicked? ==> View() == Apply(env, old(View()), r, g).0
    {
      hide BestOrNone, Enumerates, SelectStep, SyncAll, Pull, ImportStep;
      g := Guess(key, psi, None, None, []);
      match r
      case SpendTo(target) =>
        var t := TickerOf(env, target.contract);
        if t.None? {
          return Panicked, g;
        }
        var amount := Amount(target);
        if amount > balance {
          ghost var best := BestOf(Amounts(NotesOf(avail, t.value)), amount);
          return Failed(LowBalance), g.(choice := best);
        }
        var selected, choice := SelectInputNotes(t.value, amount, key);
        g := g.(choice := choice);
        if selected.None? {
          return Failed(LowBalance), g;
        }
        return Done(Send(selected.value.0, (target, selected.value.1))), g;
      case Receive(input) =>
        var t := TickerOf(env, input.note.contract);
        if t.None? {
          return Panicked, g;
        }
        var n := OwnNote(env, 2, ContractOf(env, t.value).value, key, Amount(input.note));
        PushToAvail(t.value, n);
        return Done(Send((input, PaddingInput), (n.note, PaddingNote))), g;
      case Mint(amount, ticker) =>
        var contract := ContractOf(env, ticker);
        if contract.None? {
          return Panicked, g;
        }
        var n := OwnNote(env, 2, contract.value, key, amount);
        PushToAvail(ticker, n);
        return Done(Minted((n.note, PaddingNote))), g;
      case Burn(input, evmAddress, substitute) =>
        var t := TickerOf(env, input.note.contract);
        if t.None? {
          return Panicked, g;
        }
        var ok := PullFromAvail(t.value, input.note);
        if !ok {
          return Failed(CantPullNote), g;
        }
        return Done(Burned((input, PaddingInput), evmAddress, substitute)), g;
      case ImportNote(target) =>
        var ok, found := Import(target);
        g := g.(ticker := found);
        return if ok then Done(Nothing) else Failed(KeyNotFound), g;
      case AddToAvail(input) =>
        var t := TickerOf(env, input.note.contract);
        if t.None? {
          return Panicked, g;
        }
        PushToAvail(t.value, input);
        return Done(Nothing), g;
      case GetAddress(amount, ticker) =>
        var contract := ContractOf(env, ticker);
        if contract.None? {
          return Panicked, g;
        }
        var note := Note(2, contract.value, env.address(key), psi, amount);
        pending := pending[ticker := [InputNote(note, key)]];
        return Done(Address(note)), g;
      case Sync(txns) =>
        var ok, orders := SyncTxns(txns);
        g := g.(orders := orders);
        return if ok then Done(Nothing) else Panicked, g;
    }

    /** Any operation, staged: it runs on a copy, which is handed out only if it succeeds. This wallet is
      not touched. */
    method Prepare(r: Request, key: Element, psi: Element) returns (staged: Option<Wallet>, o: Outcome, ghost g: Guess)
      ensures Possible(env, View(), r, g) && g.key == key && g.psi == psi
      ensures o == Apply(env, View(), r, g).1
      ensures staged.Some? <==> o.Done?
      ensures staged.Some? ==> fresh(staged.value) && staged.value.env == env && staged.value.View() == Apply(env, View(), r, g).0
    {
      hide Apply, Possible;
      var copy := new Wallet.Copy(this);
      o, g := copy.Perform(r, key, psi);
      staged := if o.Done? then Some(copy) else None;
    }
  }

  /** The best choice exists: it is what the search returns. */
  ghost function BestOf(amounts: seq<nat>, amount: nat): (best: Option<Choice>)
    ensures BestOrNone(amounts, amount, best)
  {
    BestExists(amounts, amount);
    var best :| BestOrNone(amounts, amount, best);
    best
  }

  lemma BestExists(amounts: seq<nat>, amount: nat)
    ensures exists best :: BestOrNone(amounts, amount, best)
  {
    hide BestOrNone, Improves;
    var best: Option<Choice> := None;
    for i := 0 to |amounts|
      invariant if i == 0 then best.None? else BestSoFar(amounts, amount, i - 1, |amounts|, best)
    {
      SingleTried(amounts, amount, i, best);
      best := if Improves(amounts, amount, best, One(i)) then Some(One(i)) else best;
      for j := i + 1 to |amounts|
        invariant BestSoFar(amounts, amount, i, j, best)
      {
        PairTried(amounts, amount, i, j, best);
        best := if amounts[i] + amounts[j] < TWO64 && Improves(amounts, amount, best, Two(i, j)) then Some(Two(i, j)) else best;
      }
    }
    AllTried(amounts, amount, best);
  }
}
