/** What a sync moves, and what it leaves alone. */
module WalletSync {
  import opened Util
  import opened Notes
  import opened WalletSteps
  import opened WalletObject

  /** The note's commitment is a non-zero output of some listed transaction. */
  predicate Hit(env: Env, n: InputNote, outputs: seq<Element>) {
    n.note.value != 0 && env.merge(n.note) != 0 && env.merge(n.note) in outputs
  }

  /** A note without value has no commitment of its own; any other has the hash of its parts. */
  lemma HitMeaning(env: Env, n: InputNote, outputs: seq<Element>)
    ensures Hit(env, n, outputs) <==> Commitment(env, n.note) != 0 && Commitment(env, n.note) in outputs
  {
  }

  /** The notes that no listed transaction confirms, in their order. */
  function Kept(env: Env, notes: seq<InputNote>, outputs: seq<Element>): seq<InputNote> {
    if notes == [] then []
    else
      var n := |notes| - 1;
      Kept(env, notes[..n], outputs) + if Hit(env, notes[n], outputs) then [] else [notes[n]]
  }

  function KeptAll(env: Env, pending: Holdings, outputs: seq<Element>): Holdings {
    map t | t in pending :: Kept(env, pending[t], outputs)
  }

  /** `f` on the notes that are confirmed, zero on the rest. */
  function Confirmed(env: Env, outputs: seq<Element>, f: InputNote -> nat): InputNote -> nat {
    n => if Hit(env, n, outputs) then f(n) else 0
  }

  // ---------------------------------------------------------------------------------------
  // One list
  // ---------------------------------------------------------------------------------------

  lemma HitMore(env: Env, n: InputNote, outputs: seq<Element>, c: Element)
    ensures Hit(env, n, outputs + [c]) <==> Hit(env, n, outputs) || (c != 0 && Commitment(env, n.note) == c)
  {
  }

  lemma {:induction false} KeptMore(env: Env, notes: seq<InputNote>, outputs: seq<Element>, c: Element)
    ensures Kept(env, notes, outputs + [c]) == if c == 0 then Kept(env, notes, outputs) else Others(env, Kept(env, notes, outputs), c)
  {
    hide Commitment, Hit, Others;
    if notes == [] {
      NoOthers(env, c);
    } else {
      var n := |notes| - 1;
      var kept, last := Kept(env, notes[..n], outputs), if Hit(env, notes[n], outputs) then [] else [notes[n]];
      KeptMore(env, notes[..n], outputs, c);
      HitMore(env, notes[n], outputs, c);
      OthersConcat(env, kept, last, c);
      LastKept(env, notes[n], last, c);
    }
  }

  lemma NoOthers(env: Env, c: Element)
    ensures Others(env, [], c) == []
  {
  }

  lemma LastKept(env: Env, n: InputNote, last: seq<InputNote>, c: Element)
    requires last == [] || last == [n]
    ensures Others(env, last, c) == if Commitment(env, n.note) == c then [] else last
  {
    hide Commitment, Others;
    NoOthers(env, c);
    if last != [] {
      if Commitment(env, n.note) == c { OthersOne(env, n, c); } else { OthersAll(env, last, c); }
    }
  }

  lemma {:induction false} KeptNone(env: Env, notes: seq<InputNote>)
    ensures Kept(env, notes, []) == notes
  {
    if notes != [] {
      KeptNone(env, notes[..|notes| - 1]);
    }
  }

  lemma {:induction false} KeptSum(env: Env, notes: seq<InputNote>, outputs: seq<Element>, f: InputNote -> nat)
    ensures SeqSum(notes, f) == SeqSum(Kept(env, notes, outputs), f) + SeqSum(notes, Confirmed(env, outputs, f))
  {
    hide Hit;
    if notes != [] {
      var n := |notes| - 1;
      KeptSum(env, notes[..n], outputs, f);
      if !Hit(env, notes[n], outputs) {
        SeqSumConcat(Kept(env, notes[..n], outputs), [notes[n]], f);
        SeqSumOne(notes[n], f);
      } else {
        assert Kept(env, notes[..n], outputs) + [] == Kept(env, notes[..n], outputs);
      }
    }
  }

  lemma {:induction false} MatchingSum(env: Env, notes: seq<InputNote>, c: Element, f: InputNote -> nat)
    ensures SeqSum(notes, f) == SeqSum(Others(env, notes, c), f) + SeqSum(Matching(env, notes, c), f)
  {
    hide Commitment;
    if notes != [] {
      var n := |notes| - 1;
      MatchingSum(env, notes[..n], c, f);
      var others, matching := Others(env, notes[..n], c), Matching(env, notes[..n], c);
      SeqSumOne(notes[n], f);
      if Commitment(env, notes[n].note) == c {
        SeqSumConcat(matching, [notes[n]], f);
        assert others + [] == others;
      } else {
        SeqSumConcat(others, [notes[n]], f);
        assert matching + [] == matching;
      }
    }
  }

  lemma {:induction false} MatchingMembers(env: Env, notes: seq<InputNote>, c: Element, x: InputNote)
    ensures x in Matching(env, notes, c) <==> x in notes && Commitment(env, x.note) == c
  {
    hide Commitment;
    if notes != [] {
      var n := |notes| - 1;
      MatchingMembers(env, notes[..n], c, x);
      assert notes == notes[..n] + [notes[n]];
    }
  }

  lemma {:induction false} KeptMembers(env: Env, notes: seq<InputNote>, outputs: seq<Element>, x: InputNote)
    ensures x in Kept(env, notes, outputs) <==> x in notes && !Hit(env, x, outputs)
  {
    hide Hit;
    if notes != [] {
      var n := |notes| - 1;
      KeptMembers(env, notes[..n], outputs, x);
      assert notes == notes[..n] + [notes[n]];
    }
  }

  // ---------------------------------------------------------------------------------------
  // All lists
  // ---------------------------------------------------------------------------------------

  function MatchAt(env: Env, pending: Holdings, c: Element, f: InputNote -> nat): Ticker -> nat {
    t => SeqSum(Matching(env, NotesOf(pending, t), c), f)
  }

  lemma {:induction false} GatherSum(env: Env, pending: Holdings, order: seq<Ticker>, c: Element, f: InputNote -> nat)
    requires Distinct(order)
    ensures SeqSum(Gather(env, pending, order, c), f) == SumOver((set t | t in order), MatchAt(env, pending, c, f))
  {
    hide SumOver, SeqSum, Matching;
    if order == [] {
      assert (set t | t in order) == {};
      EmptySum(f);
      SumOverNone(MatchAt(env, pending, c, f));
    } else {
      var n := |order| - 1;
      GatherSum(env, pending, order[..n], c, f);
      SeqSumConcat(Gather(env, pending, order[..n], c), Matching(env, NotesOf(pending, order[n]), c), f);
      assert order == order[..n] + [order[n]];
      assert (set t | t in order) - {order[n]} == (set t | t in order[..n]);
      SumOverRemove((set t | t in order), MatchAt(env, pending, c, f), order[n]);
    }
  }

  lemma SumOverNone<A(!new)>(f: A -> nat)
    ensures SumOver({}, f) == 0
  {
  }

  lemma {:induction false} SumOverAdd<A(!new)>(s: set<A>, f: A -> nat, g: A -> nat, h: A -> nat)
    requires forall x :: x in s ==> h(x) == f(x) + g(x)
    ensures SumOver(s, h) == SumOver(s, f) + SumOver(s, g)
    decreases |s|
  {
    hide SumOver;
    if s == {} {
      SumOverNone(f);
      SumOverNone(g);
      SumOverNone(h);
    } else {
      var x :| x in s;
      SumOverRemove(s, f, x);
      SumOverRemove(s, g, x);
      SumOverRemove(s, h, x);
      SumOverAdd(s - {x}, f, g, h);
    }
  }

  /** Dropping the notes with one commitment takes exactly what was gathered. */
  lemma DropSum(env: Env, pending: Holdings, order: seq<Ticker>, c: Element, f: InputNote -> nat)
    requires Enumerates(order, pending.Keys)
    ensures Weigh(pending, f) == Weigh(DropAll(env, pending, c), f) + SeqSum(Gather(env, pending, order, c), f)
  {
    hide SumOver, SeqSum, Matching, Others, Gather;
    var after := DropAll(env, pending, c);
    GatherSum(env, pending, order, c, f);
    assert (set t | t in order) == pending.Keys == after.Keys;
    forall t | t in pending ensures AtTicker(pending, f)(t) == AtTicker(after, f)(t) + MatchAt(env, pending, c, f)(t) {
      MatchingSum(env, pending[t], c, f);
    }
    SumOverAdd(pending.Keys, AtTicker(after, f), MatchAt(env, pending, c, f), AtTicker(pending, f));
  }

  lemma KeptAllSum(env: Env, pending: Holdings, outputs: seq<Element>, f: InputNote -> nat)
    ensures Weigh(pending, f) == Weigh(KeptAll(env, pending, outputs), f) + Weigh(pending, Confirmed(env, outputs, f))
  {
    hide SumOver, SeqSum, Kept;
    var after := KeptAll(env, pending, outputs);
    forall t | t in pending ensures AtTicker(pending, f)(t) == AtTicker(after, f)(t) + AtTicker(pending, Confirmed(env, outputs, f))(t) {
      KeptSum(env, pending[t], outputs, f);
    }
    assert after.Keys == pending.Keys;
    SumOverAdd(pending.Keys, AtTicker(after, f), AtTicker(pending, Confirmed(env, outputs, f)), AtTicker(pending, f));
  }

  lemma PushSum(w: Purse, t: Ticker, n: InputNote, f: InputNote -> nat)
    ensures Weigh(Push(w, t, n).avail, f) == Weigh(w.avail, f) + f(n)
  {
    hide Weigh, SeqSum;
    WeighUpdate(w.avail, t, NotesOf(w.avail, t) + [n], f);
    SeqSumConcat(NotesOf(w.avail, t), [n], f);
    SeqSumOne(n, f);
  }

  lemma {:induction false} PushAllSum(env: Env, w: Purse, notes: seq<InputNote>, f: InputNote -> nat)
    requires PushAll(env, w, notes).Some?
    ensures Weigh(PushAll(env, w, notes).value.avail, f) == Weigh(w.avail, f) + SeqSum(notes, f)
  {
    hide Weigh, Push;
    if notes != [] {
      var n := |notes| - 1;
      PushAllSum(env, w, notes[..n], f);
      PushSum(PushAll(env, w, notes[..n]).value, TickerOf(env, notes[n].note.contract).value, notes[n], f);
    }
  }

  predicate Supported(env: Env, n: InputNote) {
    TickerOf(env, n.note.contract).Some?
  }

  lemma {:induction false} PushAllExactly(env: Env, w: Purse, notes: seq<InputNote>)
    ensures PushAll(env, w, notes).Some? <==> forall n :: n in notes ==> Supported(env, n)
  {
    if notes != [] {
      var n := |notes| - 1;
      PushAllExactly(env, w, notes[..n]);
      assert notes == notes[..n] + [notes[n]];
      assert forall x :: x in notes <==> x in notes[..n] || x == notes[n];
      assert notes[n] in notes;
      if forall x :: x in notes ==> Supported(env, x) {
        assert forall x :: x in notes[..n] ==> Supported(env, x);
      }
    }
  }

  /** What is added to a list of available notes goes to its end, and belongs to that ticker. */
  ghost predicate Filed(env: Env, before: Holdings, after: Holdings) {
    forall t :: NotesOf(before, t) <= NotesOf(after, t)
      && forall i :: |NotesOf(before, t)| <= i < |NotesOf(after, t)| ==> TickerOf(env, NotesOf(after, t)[i].note.contract) == Some(t)
  }

  lemma FiledAlready(env: Env, m: Holdings)
    ensures Filed(env, m, m)
  {
  }

  lemma PushFiled(env: Env, w: Purse, t: Ticker, n: InputNote)
    requires TickerOf(env, n.note.contract) == Some(t)
    ensures Filed(env, w.avail, Push(w, t, n).avail)
  {
    hide TickerOf;
  }

  lemma {:induction false} PushAllFiled(env: Env, w: Purse, notes: seq<InputNote>)
    requires PushAll(env, w, notes).Some?
    ensures Filed(env, w.avail, PushAll(env, w, notes).value.avail)
  {
    hide Filed, Push, TickerOf;
    if notes == [] {
      FiledAlready(env, w.avail);
    } else {
      var n := |notes| - 1;
      PushAllFiled(env, w, notes[..n]);
      var before, t := PushAll(env, w, notes[..n]).value, TickerOf(env, notes[n].note.contract).value;
      PushFiled(env, before, t, notes[n]);
      FiledTwice(env, w.avail, before.avail, Push(before, t, notes[n]).avail);
    }
  }

  lemma {:induction false} GatherMembers(env: Env, pending: Holdings, order: seq<Ticker>, c: Element, x: InputNote)
    ensures x in Gather(env, pending, order, c) <==> exists t :: t in order && x in NotesOf(pending, t) && Commitment(env, x.note) == c
  {
    hide Commitment, Matching;
    if order != [] {
      var n := |order| - 1;
      GatherMembers(env, pending, order[..n], c, x);
      MatchingMembers(env, NotesOf(pending, order[n]), c, x);
      assert order == order[..n] + [order[n]];
    }
  }

  // ---------------------------------------------------------------------------------------
  // A whole sync
  // ---------------------------------------------------------------------------------------

  ghost predicate AllSupported(env: Env, pending: Holdings, outputs: seq<Element>) {
    forall t, n :: t in pending && n in pending[t] && Hit(env, n, outputs) ==> Supported(env, n)
  }

  lemma KeptAllMore(env: Env, pending: Holdings, outputs: seq<Element>, c: Element)
    ensures KeptAll(env, pending, outputs + [c]) ==
      if c == 0 then KeptAll(env, pending, outputs) else DropAll(env, KeptAll(env, pending, outputs), c)
  {
    hide Kept, Others;
    forall t | t in pending
      ensures Kept(env, pending[t], outputs + [c]) ==
        if c == 0 then Kept(env, pending[t], outputs) else Others(env, Kept(env, pending[t], outputs), c)
    {
      KeptMore(env, pending[t], outputs, c);
    }
  }

  lemma KeptAllNone(env: Env, pending: Holdings)
    ensures KeptAll(env, pending, []) == pending
  {
    forall t | t in pending ensures Kept(env, pending[t], []) == pending[t] {
      KeptNone(env, pending[t]);
    }
  }

  /** A sync leaves exactly the pending notes whose commitment is not a non-zero output of a listed
    transaction, in their order, and files the others under their own tickers. */
  lemma {:induction false} SyncMovesExactly(env: Env, w: Purse, outputs: seq<Element>, orders: seq<seq<Ticker>>)
    requires |orders| == |outputs| && forall i :: 0 <= i < |orders| ==> Enumerates(orders[i], w.pending.Keys)
    requires SyncAll(env, w, outputs, orders).Some?
    ensures SyncAll(env, w, outputs, orders).value.pending == KeptAll(env, w.pending, outputs)
    ensures Filed(env, w.avail, SyncAll(env, w, outputs, orders).value.avail)
    decreases |outputs|
  {
    hide KeptAll, Enumerates, DropAll, Gather, PushAll;
    if outputs == [] {
      KeptAllNone(env, w.pending);
    } else {
      var n := |outputs| - 1;
      SyncMovesExactly(env, w, outputs[..n], orders[..n]);
      var before := SyncAll(env, w, outputs[..n], orders[..n]).value;
      KeptAllMore(env, w.pending, outputs[..n], outputs[n]);
      assert outputs == outputs[..n] + [outputs[n]];
      if outputs[n] != 0 {
        var dropped := before.(pending := DropAll(env, before.pending, outputs[n]));
        var found := Gather(env, before.pending, orders[n], outputs[n]);
        PushAllKeepsPending(env, dropped, found);
        PushAllFiled(env, dropped, found);
        FiledTwice(env, w.avail, before.avail, PushAll(env, dropped, found).value.avail);
      }
    }
  }

  lemma FiledTwice(env: Env, a: Holdings, b: Holdings, c: Holdings)
    requires Filed(env, a, b) && Filed(env, b, c)
    ensures Filed(env, a, c)
  {
    forall t ensures NotesOf(a, t) <= NotesOf(c, t)
      && forall i :: |NotesOf(a, t)| <= i < |NotesOf(c, t)| ==> TickerOf(env, NotesOf(c, t)[i].note.contract) == Some(t)
    {
      assert NotesOf(a, t) <= NotesOf(b, t) <= NotesOf(c, t);
    }
  }

  lemma KeptKeys(env: Env, pending: Holdings, outputs: seq<Element>)
    ensures KeptAll(env, pending, outputs).Keys == pending.Keys
  {
  }

  /** A sync conserves the notes: whatever is summed over them, pending and available together give the
    same before and after. */
  lemma {:induction false} SyncConserves(env: Env, w: Purse, outputs: seq<Element>, orders: seq<seq<Ticker>>, f: InputNote -> nat)
    requires |orders| == |outputs| && forall i :: 0 <= i < |orders| ==> Enumerates(orders[i], w.pending.Keys)
    requires SyncAll(env, w, outputs, orders).Some?
    ensures var after := SyncAll(env, w, outputs, orders).value;
      Weigh(after.pending, f) + Weigh(after.avail, f) == Weigh(w.pending, f) + Weigh(w.avail, f)
    decreases |outputs|
  {
    hide Weigh, KeptAll, Enumerates, DropAll, Gather, PushAll;
    if outputs != [] {
      var n := |outputs| - 1;
      var c := outputs[n];
      SyncConserves(env, w, outputs[..n], orders[..n], f);
      SyncMovesExactly(env, w, outputs[..n], orders[..n]);
      KeptKeys(env, w.pending, outputs[..n]);
      var before := SyncAll(env, w, outputs[..n], orders[..n]).value;
      if c != 0 {
        var dropped := before.(pending := DropAll(env, before.pending, c));
        var found := Gather(env, before.pending, orders[n], c);
        DropSum(env, before.pending, orders[n], c, f);
        PushAllSum(env, dropped, found, f);
        PushAllKeepsPending(env, dropped, found);
      }
    }
  }

  /** What becomes available is exactly what was pending and confirmed. */
  lemma SyncGains(env: Env, w: Purse, outputs: seq<Element>, orders: seq<seq<Ticker>>, f: InputNote -> nat)
    requires |orders| == |outputs| && forall i :: 0 <= i < |orders| ==> Enumerates(orders[i], w.pending.Keys)
    requires SyncAll(env, w, outputs, orders).Some?
    ensures Weigh(SyncAll(env, w, outputs, orders).value.avail, f) == Weigh(w.avail, f) + Weigh(w.pending, Confirmed(env, outputs, f))
  {
    hide Weigh, KeptAll, Enumerates, SyncAll, Confirmed;
    SyncConserves(env, w, outputs, orders, f);
    SyncMovesExactly(env, w, outputs, orders);
    KeptAllSum(env, w.pending, outputs, f);
  }

  /** A sync fails (on an unsupported contract) exactly when it would have to move such a note. */
  lemma {:induction false} SyncFailsExactly(env: Env, w: Purse, outputs: seq<Element>, orders: seq<seq<Ticker>>)
    requires |orders| == |outputs| && forall i :: 0 <= i < |orders| ==> Enumerates(orders[i], w.pending.Keys)
    ensures SyncAll(env, w, outputs, orders).Some? <==> AllSupported(env, w.pending, outputs)
    decreases |outputs|
  {
    hide KeptAll, DropAll, Gather, PushAll, Supported, Commitment, Hit;
    if outputs == [] {
      NothingHit(env);
    } else {
      var n := |outputs| - 1;
      var c := outputs[n];
      SyncFailsExactly(env, w, outputs[..n], orders[..n]);
      assert outputs == outputs[..n] + [c];
      forall n' ensures Hit(env, n', outputs) <==> Hit(env, n', outputs[..n]) || (c != 0 && Commitment(env, n'.note) == c) {
        HitMore(env, n', outputs[..n], c);
      }
      if AllSupported(env, w.pending, outputs[..n]) {
        SyncMovesExactly(env, w, outputs[..n], orders[..n]);
        var before := SyncAll(env, w, outputs[..n], orders[..n]).value;
        if c != 0 {
          PushAllExactly(env, before.(pending := DropAll(env, before.pending, c)), Gather(env, before.pending, orders[n], c));
          LastSupported(env, w.pending, outputs[..n], c, orders[n]);
        }
      }
    }
  }

  lemma NothingHit(env: Env)
    ensures forall n :: !Hit(env, n, [])
  {
  }

  lemma LastSupported(env: Env, pending: Holdings, outputs: seq<Element>, c: Element, order: seq<Ticker>)
    requires Enumerates(order, pending.Keys) && c != 0 && AllSupported(env, pending, outputs)
    ensures var found := Gather(env, KeptAll(env, pending, outputs), order, c);
      (forall n :: n in found ==> Supported(env, n)) <==> AllSupported(env, pending, outputs + [c])
  {
    hide Gather, Supported, Commitment, Kept, Hit;
    var kept := KeptAll(env, pending, outputs);
    var found := Gather(env, kept, order, c);
    forall n ensures n in found <==> exists t :: t in pending && n in pending[t] && Commitment(env, n.note) == c && !Hit(env, n, outputs) {
      GatherMembers(env, kept, order, c, n);
      forall t | t in pending ensures n in kept[t] <==> n in pending[t] && !Hit(env, n, outputs) {
        KeptMembers(env, pending[t], outputs, n);
      }
    }
    forall n ensures Hit(env, n, outputs + [c]) <==> Hit(env, n, outputs) || Commitment(env, n.note) == c {
      HitMore(env, n, outputs, c);
    }
  }

  /** A second sync with the same transactions changes nothing. */
  lemma SyncTwice(env: Env, w: Purse, outputs: seq<Element>, orders: seq<seq<Ticker>>, again: seq<seq<Ticker>>)
    requires |orders| == |outputs| == |again|
    requires forall i :: 0 <= i < |outputs| ==> Enumerates(orders[i], w.pending.Keys) && Enumerates(again[i], w.pending.Keys)
    requires SyncAll(env, w, outputs, orders).Some?
    ensures var after := SyncAll(env, w, outputs, orders).value;
      SyncAll(env, after, outputs, again) == Some(after)
  {
    hide SyncAll, Enumerates, Hit;
    SyncMovesExactly(env, w, outputs, orders);
    var after := SyncAll(env, w, outputs, orders).value;
    forall t, n | t in after.pending && n in after.pending[t] ensures !Hit(env, n, outputs) {
      KeptMembers(env, w.pending[t], outputs, n);
    }
    NothingToSync(env, after, outputs, again);
  }

  lemma {:induction false} NothingToSync(env: Env, w: Purse, outputs: seq<Element>, orders: seq<seq<Ticker>>)
    requires |orders| == |outputs|
    requires forall t, n :: t in w.pending && n in w.pending[t] ==> !Hit(env, n, outputs)
    ensures SyncAll(env, w, outputs, orders) == Some(w)
    decreases |outputs|
  {
    hide Commitment, Hit;
    if outputs != [] {
      var n := |outputs| - 1;
      var c := outputs[n];
      assert outputs == outputs[..n] + [c];
      forall t, m | t in w.pending && m in w.pending[t]
        ensures !Hit(env, m, outputs[..n]) && (c != 0 ==> Commitment(env, m.note) != c)
      {
        assert !Hit(env, m, outputs);
        HitMore(env, m, outputs[..n], c);
      }
      NothingToSync(env, w, outputs[..n], orders[..n]);
      if c != 0 {
        NothingFound(env, w.pending, orders[n], c);
      }
    }
  }

  lemma NothingFound(env: Env, pending: Holdings, order: seq<Ticker>, c: Element)
    requires forall t, m :: t in pending && m in pending[t] ==> Commitment(env, m.note) != c
    ensures DropAll(env, pending, c) == pending && Gather(env, pending, order, c) == []
  {
    hide Commitment, Others, Gather;
    forall t | t in pending ensures Others(env, pending[t], c) == pending[t] {
      OthersAll(env, pending[t], c);
    }
    var found := Gather(env, pending, order, c);
    if found != [] {
      GatherMembers(env, pending, order, c, found[0]);
    }
  }
}
