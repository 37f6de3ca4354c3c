/** Cursors, pages and the paginator that hands out the next cursor. */
module Pagination {
  import opened Util
  import opened Keys
  import opened OrderedDb
  import opened Lists

  datatype CursorAfter<Pos> = After(pos: Pos) | AfterInclusive(pos: Pos)
  datatype CursorBefore<Pos> = Before(pos: Pos) | BeforeInclusive(pos: Pos)
  datatype Cursor<Pos> = CursorIsAfter(after: CursorAfter<Pos>) | CursorIsBefore(before: CursorBefore<Pos>)

  function AfterBound(c: CursorAfter<U64>): Bound {
    match c
    case After(p) => Excluded(p)
    case AfterInclusive(p) => Included(p)
  }

  function BeforeBound(c: CursorBefore<U64>): Bound {
    match c
    case Before(p) => Excluded(p)
    case BeforeInclusive(p) => Included(p)
  }

  /** The byte-order range and the scan order that `list_paginated` computes from a cursor. */
  function PageRange(cursor: Option<Cursor<U64>>, order: Order): (Bound, Bound) {
    var (start, end) := match cursor {
      case None => (Unbounded, Unbounded)
      case Some(CursorIsBefore(b)) => (Unbounded, BeforeBound(b))
      case Some(CursorIsAfter(a)) => (AfterBound(a), Unbounded)
    };
    if order.LowestToHighest? then (start, end) else (end, start)
  }

  predicate Backwards(cursor: Option<Cursor<U64>>) {
    cursor.Some? && cursor.value.CursorIsBefore?
  }

  function ScanOrder(cursor: Option<Cursor<U64>>, order: Order): Order {
    if Backwards(cursor) then ReverseOrder(order) else order
  }

  /** The raw keys that `list_paginated` collects, before any reversal. */
  function PageKeys<V>(db: Db<V>, f: Family, cursor: Option<Cursor<U64>>, order: Order, limit: nat): seq<Bytes> {
    var (start, end) := PageRange(cursor, order);
    Take(ListKeys(db, f, start, end, ScanOrder(cursor, order)), limit)
  }

  function Take<A>(s: seq<A>, n: nat): seq<A> {
    if n < |s| then s[..n] else s
  }

  function TakeLast<A>(s: seq<A>, n: nat): seq<A> {
    if n < |s| then s[|s| - n..] else s
  }

  // ---------------------------------------------------------------------------------------
  // What a page is
  // ---------------------------------------------------------------------------------------

  /** `h` comes strictly before `p` in display order. */
  predicate Earlier(h: U64, p: U64, order: Order) {
    if order.LowestToHighest? then h < p else h > p
  }

  /** `h` is on the cursor's side. */
  predicate Passes(h: U64, cursor: Option<Cursor<U64>>, order: Order) {
    match cursor
    case None => true
    case Some(CursorIsAfter(After(p))) => Earlier(p, h, order)
    case Some(CursorIsAfter(AfterInclusive(p))) => Earlier(p, h, order) || h == p
    case Some(CursorIsBefore(Before(p))) => Earlier(h, p, order)
    case Some(CursorIsBefore(BeforeInclusive(p))) => Earlier(h, p, order) || h == p
  }

  function Keep(hs: seq<U64>, cursor: Option<Cursor<U64>>, order: Order): (out: seq<U64>)
    ensures forall h :: h in out <==> h in hs && Passes(h, cursor, order)
  {
    if hs == [] then [] else
      var n := |hs| - 1;
      assert hs == hs[..n] + [hs[n]];
      Keep(hs[..n], cursor, order) + (if Passes(hs[n], cursor, order) then [hs[n]] else [])
  }

  /** All stored heights of the family, in display order. */
  function Display<V>(db: Db<V>, f: Family, order: Order): seq<U64> {
    HeightsOf(ListKeys(db, f, Unbounded, Unbounded, order))
  }

  /** The plain reading of a page: the first `limit` heights on the far side of an after-cursor, or
    the last `limit` on the near side of a before-cursor, in display order. */
  function PageSpec(display: seq<U64>, cursor: Option<Cursor<U64>>, order: Order, limit: nat): seq<U64> {
    var kept := Keep(display, cursor, order);
    if Backwards(cursor) then TakeLast(kept, limit) else Take(kept, limit)
  }

  lemma {:induction false} KeepInOrder(hs: seq<U64>, cursor: Option<Cursor<U64>>, order: Order)
    requires InOrder(hs, order)
    ensures InOrder(Keep(hs, cursor, order), order)
    decreases |hs|
  {
    if hs != [] {
      var n := |hs| - 1;
      KeepInOrder(hs[..n], cursor, order);
      var init := Keep(hs[..n], cursor, order);
      forall i | 0 <= i < |init| ensures init[i] in hs[..n] {
        assert init[i] in init;
      }
    }
  }

  lemma {:induction false} FewerElements(s: seq<U64>, t: seq<U64>, order: Order)
    requires InOrder(s, order) && InOrder(t, order)
    requires forall h :: h in s ==> h in t
    ensures |s| <= |t|
    decreases |s|
  {
    if s != [] {
      var n := |s| - 1;
      assert s[n] in t;
      var j :| 0 <= j < |t| && t[j] == s[n];
      forall h | h in s[..n] ensures h in t[..j] {
        assert h in s;
        var i :| 0 <= i < |t| && t[i] == h;
        assert i < j;
      }
      FewerElements(s[..n], t[..j], order);
    }
  }

  lemma {:induction false} SameElements(s: seq<U64>, t: seq<U64>, order: Order)
    requires InOrder(s, order) && InOrder(t, order) && |s| == |t|
    requires forall h :: h in s <==> h in t
    ensures s == t
    decreases |s|
  {
    if s != [] {
      var n := |s| - 1;
      assert t[n] in s && s[n] in t;
      var i :| 0 <= i < |s| && s[i] == t[n];
      var j :| 0 <= j < |t| && t[j] == s[n];
      assert s[n] == t[n];
      forall h ensures h in s[..n] <==> h in t[..n] {
        if h in s[..n] { assert h in s && h != s[n]; }
        if h in t[..n] { assert h in t && h != t[n]; }
      }
      SameElements(s[..n], t[..n], order);
      assert s == s[..n] + [s[n]] && t == t[..n] + [t[n]];
    }
  }

  /** A strictly ordered sequence is determined by its elements. */
  lemma OrderedUnique(s: seq<U64>, t: seq<U64>, order: Order)
    requires InOrder(s, order) && InOrder(t, order)
    requires forall h :: h in s <==> h in t
    ensures s == t
  {
    FewerElements(s, t, order);
    FewerElements(t, s, order);
    SameElements(s, t, order);
  }

  lemma RangeMatchesCursor(cursor: Option<Cursor<U64>>, order: Order, h: U64)
    ensures var (start, end) := PageRange(cursor, order);
      AboveStart(h, start) && BelowEnd(h, end) <==> Passes(h, cursor, order)
  {
  }

  lemma ReverseTwice(hs: seq<U64>, order: Order)
    requires InOrder(hs, order)
    ensures InOrder(Reverse(hs), ReverseOrder(order))
    ensures forall h :: h in Reverse(hs) <==> h in hs
  {
    forall h | h in hs ensures h in Reverse(hs) {
      var i :| 0 <= i < |hs| && hs[i] == h;
      assert Reverse(hs)[|hs| - 1 - i] == h;
    }
  }

  lemma TakeReversed<A>(s: seq<A>, n: nat)
    ensures Reverse(Take(Reverse(s), n)) == TakeLast(s, n)
  {
    if n < |s| {
      assert Reverse(Reverse(s)[..n]) == s[|s| - n..];
    } else {
      assert Reverse(Reverse(s)) == s;
    }
  }

  lemma HeightsOfTake(ks: seq<Bytes>, n: nat)
    ensures HeightsOf(Take(ks, n)) == Take(HeightsOf(ks), n)
  {
  }

  /** The heights of a page, in display order, are what the plain reading says. */
  lemma PageIsExact<V>(db: Db<V>, f: Family, cursor: Option<Cursor<U64>>, order: Order, limit: nat)
    requires WellKeyed(db)
    ensures var hs := HeightsOf(PageKeys(db, f, cursor, order, limit));
      (if Backwards(cursor) then Reverse(hs) else hs) == PageSpec(Display(db, f, order), cursor, order, limit)
  {
    hide Stored, WellKeyed, HeightOf, Decodes, ListKeys;
    var (start, end) := PageRange(cursor, order);
    var scan := ScanOrder(cursor, order);
    var ks := ListKeys(db, f, start, end, scan);
    ListIsExact(db, f, start, end, scan);
    ListIsExact(db, f, Unbounded, Unbounded, order);
    var display := Display(db, f, order);
    var kept := Keep(display, cursor, order);
    KeepInOrder(display, cursor, order);
    forall h: U64 ensures h in HeightsOf(ks) <==> h in kept { RangeMatchesCursor(cursor, order, h); }
    HeightsOfTake(ks, limit);
    if Backwards(cursor) {
      ReverseTwice(kept, order);
      OrderedUnique(HeightsOf(ks), Reverse(kept), scan);
      TakeReversed(kept, limit);
    } else {
      OrderedUnique(HeightsOf(ks), kept, order);
    }
  }

  datatype ListError = BadKey | Panicked

  /** Entry `i` holds the family's key for height `hs[i]` and the value stored under it. */
  ghost predicate Entries<V>(db: Db<V>, f: Family, hs: seq<U64>, entries: seq<(Key, V)>) {
    |entries| == |hs| && forall i :: 0 <= i < |hs| ==>
      entries[i].0 == HeightKey(f, hs[i]) && Get(db, Serialize(HeightKey(f, hs[i]))) == Some(entries[i].1)
  }

  /** `ListableKey::list_paginated`: collect up to `limit` decoded entries, reversing the page of a
    before-cursor. */
  method ListPaginated<V>(db: Db<V>, f: Family, cursor: Option<Cursor<U64>>, order: Order, limit: nat)
    returns (r: Result<seq<(Key, V)>, ListError>)
    requires Valid(db)
    ensures WellKeyed(db) ==>
      r.Ok? && Entries(db, f, PageSpec(Display(db, f, order), cursor, order, limit), r.value)
  {
    hide WellKeyed, PageKeys, PageSpec, Display, Deserialize, Serialize, HeightOf, Valid, Passes, Keep, Entries, HeightKey, Reverse, Backwards, HeightsOf;
    var ks := PageKeys(db, f, cursor, order, limit);
    PageKeysStored(db, f, cursor, order, limit);
    if WellKeyed(db) {
      PageEntries(db, f, cursor, order, limit);
      PageIsExact(db, f, cursor, order, limit);
    }
    var results: seq<(Key, V)> := [];
    for i := 0 to |ks|
      invariant |results| == i
      invariant WellKeyed(db) ==>
        forall j :: 0 <= j < i ==> results[j] == (HeightKey(f, HeightOf(ks[j])), db.vals[ks[j]])
    {
      match Deserialize(ks[i])
      case Key(k) => results := results + [(k, db.vals[ks[i]])];
      case InvalidKey => return Err(BadKey);
      case Panic => return Err(Panicked);
    }
    if WellKeyed(db) {
      CollectedEntries(db, f, ks, results);
    }
    if Backwards(cursor) {
      ReverseEntries(db, f, HeightsOf(ks), results);
      results := Reverse(results);
    }
    r := Ok(results);
  }

  lemma CollectedEntries<V>(db: Db<V>, f: Family, ks: seq<Bytes>, entries: seq<(Key, V)>)
    requires |entries| == |ks| && forall j :: 0 <= j < |ks| ==> ks[j] in db.vals && entries[j] == (HeightKey(f, HeightOf(ks[j])), db.vals[ks[j]])
    requires forall j :: 0 <= j < |ks| ==> ks[j] == Serialize(HeightKey(f, HeightOf(ks[j])))
    ensures Entries(db, f, HeightsOf(ks), entries)
  {
    hide Serialize, HeightOf, HeightKey;
  }

  lemma ReverseEntries<V>(db: Db<V>, f: Family, hs: seq<U64>, entries: seq<(Key, V)>)
    ensures Entries(db, f, hs, entries) ==> Entries(db, f, Reverse(hs), Reverse(entries))
  {
    hide Serialize;
  }

  lemma PageKeysStored<V>(db: Db<V>, f: Family, cursor: Option<Cursor<U64>>, order: Order, limit: nat)
    requires Valid(db)
    ensures forall i :: 0 <= i < |PageKeys(db, f, cursor, order, limit)| ==>
      PageKeys(db, f, cursor, order, limit)[i] in db.vals
  {
    hide LowerBytes, UpperBytes, Between, Sorted;
    var (start, end) := PageRange(cursor, order);
    var up := Scan(db.keys, LowerBytes(f, start), UpperBytes(f, end));
    forall i | 0 <= i < |up| ensures up[i] in db.vals && Reverse(up)[i] in db.vals {
      assert up[i] in up && up[|up| - 1 - i] in up;
    }
  }

  lemma PageEntries<V>(db: Db<V>, f: Family, cursor: Option<Cursor<U64>>, order: Order, limit: nat)
    requires WellKeyed(db)
    ensures var ks := PageKeys(db, f, cursor, order, limit);
      forall i :: 0 <= i < |ks| ==>
        && ks[i] in db.vals
        && Deserialize(ks[i]) == Keys.Decoded.Key(HeightKey(f, HeightOf(ks[i])))
        && Serialize(HeightKey(f, HeightOf(ks[i]))) == ks[i]
  {
    hide Stored, HeightOf, ListKeys, Deserialize, Serialize;
    var (start, end) := PageRange(cursor, order);
    var scan := ScanOrder(cursor, order);
    var ks := ListKeys(db, f, start, end, scan);
    ListIsExact(db, f, start, end, scan);
    forall i | 0 <= i < |ks| ensures Serialize(HeightKey(f, HeightOf(ks[i]))) == ks[i] {
      var k :| Serialize(k) == ks[i];
      KeyRoundTrip(k);
    }
  }

  // ---------------------------------------------------------------------------------------
  // The paginator
  // ---------------------------------------------------------------------------------------

  function FirstPos<Item, Pos>(items: seq<Item>, toPos: Item -> Option<Pos>): Option<Pos> {
    if items == [] then None
    else if toPos(items[0]).Some? then toPos(items[0])
    else FirstPos(items[1..], toPos)
  }

  function LastPos<Item, Pos>(items: seq<Item>, toPos: Item -> Option<Pos>): Option<Pos> {
    if items == [] then None
    else if toPos(items[|items| - 1]).Some? then toPos(items[|items| - 1])
    else LastPos(items[..|items| - 1], toPos)
  }

  /** An iterator that remembers the positions of the first and last item it handed out. */
  class Paginator<Item, Pos> {
    var rest: seq<Item>
    var before: Option<CursorBefore<Pos>>
    var after: Option<CursorAfter<Pos>>
    const toPos: Item -> Option<Pos>

    constructor (items: seq<Item>, toPos: Item -> Option<Pos>)
      ensures rest == items && before == None && after == None && this.toPos == toPos
    {
      this.rest, this.before, this.after, this.toPos := items, None, None, toPos;
    }

    method Next() returns (item: Option<Item>)
      modifies this
      ensures old(rest) == [] ==> item == None && rest == [] && before == old(before) && after == old(after)
      ensures old(rest) != [] ==> item == Some(old(rest)[0]) && rest == old(rest)[1..]
      ensures old(rest) != [] && toPos(old(rest)[0]).None? ==> before == old(before) && after == old(after)
      ensures old(rest) != [] && toPos(old(rest)[0]).Some? ==>
        && after == Some(After(toPos(old(rest)[0]).value))
        && before == if old(before).None? then Some(Before(toPos(old(rest)[0]).value)) else old(before)
    {
      if rest == [] {
        return None;
      }
      item := Some(rest[0]);
      rest := rest[1..];
      var pos := toPos(item.value);
      if pos.Some? {
        if before.None? {
          before := Some(Before(pos.value));
        }
        after := Some(After(pos.value));
      }
    }

    /** Draining the iterator yields all items, the cursor before the first and after the last. */
    method Collect() returns (items: seq<Item>)
      requires before.None? && after.None?
      modifies this
      ensures items == old(rest)
      ensures before == if FirstPos(items, toPos).None? then None else Some(Before(FirstPos(items, toPos).value))
      ensures after == if LastPos(items, toPos).None? then None else Some(After(LastPos(items, toPos).value))
    {
      items := [];
      ghost var all := rest;
      while rest != []
        invariant all == items + rest
        invariant before == if FirstPos(items, toPos).None? then None else Some(Before(FirstPos(items, toPos).value))
        invariant after == if LastPos(items, toPos).None? then None else Some(After(LastPos(items, toPos).value))
        decreases |rest|
      {
        FirstPosSnoc(items, rest[0], toPos);
        assert (items + [rest[0]])[..|items|] == items;
        var item := Next();
        items := items + [item.value];
      }
    }
  }

  lemma {:induction false} FirstPosSnoc<Item, Pos>(items: seq<Item>, x: Item, toPos: Item -> Option<Pos>)
    ensures FirstPos(items + [x], toPos) ==
      if FirstPos(items, toPos).Some? then FirstPos(items, toPos) else toPos(x)
    decreases |items|
  {
    if items != [] {
      FirstPosSnoc(items[1..], x, toPos);
      assert (items + [x])[1..] == items[1..] + [x];
    }
  }

  // ---------------------------------------------------------------------------------------
  // Following the cursor
  // ---------------------------------------------------------------------------------------

  /** The heights of the page a client sees. */
  function Page<V>(db: Db<V>, f: Family, cursor: Option<Cursor<U64>>, order: Order, limit: nat): seq<U64> {
    var hs := HeightsOf(PageKeys(db, f, cursor, order, limit));
    if Backwards(cursor) then Reverse(hs) else hs
  }

  /** The `after` cursor the paginator returns with a page of decoded blocks. */
  function NextCursor(page: seq<U64>): Option<Cursor<U64>> {
    if page == [] then None else Some(CursorIsAfter(After(page[|page| - 1])))
  }

  /** The position of a listed entry: the height in its key. */
  function EntryPos<V>(entry: (Key, V)): Option<U64> {
    match entry.0
    case Block(h) => Some(h)
    case NonEmptyBlock(h) => Some(h)
    case _ => None
  }

  lemma LastEntryPos<V>(db: Db<V>, f: Family, hs: seq<U64>, entries: seq<(Key, V)>)
    requires Entries(db, f, hs, entries)
    ensures LastPos(entries, EntryPos) == if hs == [] then None else Some(hs[|hs| - 1])
  {
    hide Serialize;
  }

  /** One request: list a page, hand it out through a paginator, and return its `after` cursor for the next
    one. That cursor is the one the pages below are followed by. */
  method Request<V>(db: Db<V>, f: Family, cursor: Option<Cursor<U64>>, order: Order, limit: nat)
    returns (r: Result<seq<(Key, V)>, ListError>, next: Option<Cursor<U64>>)
    requires Valid(db)
    ensures WellKeyed(db) ==>
      && r.Ok? && Entries(db, f, Page(db, f, cursor, order, limit), r.value)
      && next == NextCursor(Page(db, f, cursor, order, limit))
  {
    hide WellKeyed, Valid, PageKeys, PageSpec, Display, Entries, EntryPos;
    r := ListPaginated(db, f, cursor, order, limit);
    if r.Err? {
      return r, None;
    }
    if WellKeyed(db) {
      PageIsExact(db, f, cursor, order, limit);
      LastEntryPos(db, f, Page(db, f, cursor, order, limit), r.value);
    }
    var paginator := new Paginator(r.value, EntryPos);
    var items := paginator.Collect();
    r := Ok(items);
    next := if paginator.after.None? then None else Some(CursorIsAfter(paginator.after.value));
  }

  /** The pages a client sees in `rounds` requests from `cursor`, stopping when a page has no
    next cursor. */
  function Follow<V>(db: Db<V>, f: Family, order: Order, limit: nat, cursor: Option<Cursor<U64>>, rounds: nat): seq<U64>
    decreases rounds
  {
    if rounds == 0 then [] else
      var page := Page(db, f, cursor, order, limit);
      if page == [] then [] else page + Follow(db, f, order, limit, NextCursor(page), rounds - 1)
  }

  /** After the element at `i`, exactly the later ones pass. */
  lemma {:induction false} KeepAfter(hs: seq<U64>, i: nat, order: Order)
    requires InOrder(hs, order) && i < |hs|
    ensures Keep(hs, Some(CursorIsAfter(After(hs[i]))), order) == hs[i + 1..]
  {
    var cursor := Some(CursorIsAfter(After(hs[i])));
    KeepInOrder(hs, cursor, order);
    forall h ensures h in Keep(hs, cursor, order) <==> h in hs[i + 1..] {
      if h in hs && Passes(h, cursor, order) {
        var j :| 0 <= j < |hs| && hs[j] == h;
        assert j > i;
        assert hs[i + 1..][j - i - 1] == h;
      }
    }
    OrderedUnique(Keep(hs, cursor, order), hs[i + 1..], order);
  }

  lemma KeepNothing(cursor: Option<Cursor<U64>>, order: Order)
    ensures Keep([], cursor, order) == []
  {
  }

  lemma KeepLast(hs: seq<U64>, cursor: Option<Cursor<U64>>, order: Order)
    requires hs != []
    ensures var n := |hs| - 1;
      Keep(hs, cursor, order) == Keep(hs[..n], cursor, order) + if Passes(hs[n], cursor, order) then [hs[n]] else []
  {
    hide Passes;
  }

  lemma NothingBlocks(h: U64, order: Order)
    ensures Passes(h, None, order)
  {
  }

  lemma {:induction false} KeepAll(hs: seq<U64>, order: Order)
    ensures Keep(hs, None, order) == hs
    decreases |hs|
  {
    hide Passes, Keep;
    if hs == [] {
      KeepNothing(None, order);
    } else {
      var n := |hs| - 1;
      NothingBlocks(hs[n], order);
      KeepAll(hs[..n], order);
      KeepLast(hs, None, order);
      assert hs == hs[..n] + [hs[n]];
    }
  }

  /** The cursor of a client that has seen the first `seen` heights. */
  function CursorAt(display: seq<U64>, seen: nat): Option<Cursor<U64>>
    requires seen <= |display|
  {
    NextCursor(display[..seen])
  }

  ghost predicate Shows<V>(db: Db<V>, f: Family, order: Order, display: seq<U64>) {
    WellKeyed(db) && display == Display(db, f, order)
  }

  /** From there, the next page is the next stretch of the display. */
  lemma NextStretch<V>(db: Db<V>, f: Family, order: Order, limit: nat, display: seq<U64>, seen: nat)
    requires Shows(db, f, order, display) && seen <= |display|
    ensures Page(db, f, CursorAt(display, seen), order, limit) == Take(display[seen..], limit)
  {
    hide WellKeyed, PageKeys, HeightOf, HeightsOf, Display, Keep, InOrder, Stored;
    var cursor := CursorAt(display, seen);
    DisplayInOrder(db, f, order);
    assert Keep(display, cursor, order) == display[seen..] by {
      if seen == 0 {
        KeepAll(display, order);
      } else {
        KeepAfter(display, seen - 1, order);
        assert display[..seen][seen - 1] == display[seen - 1];
      }
    }
    PageIsExact(db, f, cursor, order, limit);
  }

  /** How many heights `rounds` full pages show. */
  function Shown(limit: nat, rounds: nat): nat {
    if rounds == 0 then 0 else limit + Shown(limit, rounds - 1)
  }

  lemma CursorAfterPage(display: seq<U64>, seen: nat, limit: nat)
    requires seen <= |display| && Take(display[seen..], limit) != []
    ensures var page := Take(display[seen..], limit);
      seen + |page| <= |display| && NextCursor(page) == CursorAt(display, seen + |page|)
  {
  }

  lemma {:induction false} FollowFrom<V>(db: Db<V>, f: Family, order: Order, limit: nat, display: seq<U64>, seen: nat, rounds: nat)
    requires limit > 0 && Shows(db, f, order, display) && seen <= |display|
    ensures Follow(db, f, order, limit, CursorAt(display, seen), rounds) == Take(display[seen..], Shown(limit, rounds))
    decreases rounds
  {
    hide Shows, Page, NextCursor, CursorAt;
    if rounds > 0 {
      NextStretch(db, f, order, limit, display, seen);
      var page := Take(display[seen..], limit);
      if page == [] {
        assert display[seen..] == [];
      } else {
        var seen' := seen + |page|;
        CursorAfterPage(display, seen, limit);
        FollowFrom(db, f, order, limit, display, seen', rounds - 1);
        TakeSplit(display, seen, limit, Shown(limit, rounds - 1));
      }
    }
  }

  lemma {:induction false} ShownIsProduct(limit: nat, rounds: nat)
    ensures Shown(limit, rounds) == rounds * limit
    decreases rounds
  {
    if rounds > 0 {
      ShownIsProduct(limit, rounds - 1);
      assert rounds * limit == limit + (rounds - 1) * limit;
    }
  }

  lemma TakeSplit<A>(s: seq<A>, i: nat, a: nat, b: nat)
    requires i <= |s|
    ensures var first := Take(s[i..], a);
      i + |first| <= |s| && first + Take(s[i + |first|..], b) == Take(s[i..], a + b)
  {
  }

  lemma DisplayInOrder<V>(db: Db<V>, f: Family, order: Order)
    requires WellKeyed(db)
    ensures InOrder(Display(db, f, order), order)
    ensures forall h: U64 :: h in Display(db, f, order) <==> Stored(db, f, h)
  {
    ListIsExact(db, f, Unbounded, Unbounded, order);
  }

  /** On a fixed store, following the after-cursor with any positive limit shows every stored height
    once, in display order; after `rounds` requests the first `rounds * limit` heights have been
    shown, so the walk is over after at most as many requests as there are heights. */
  lemma FollowVisitsAll<V>(db: Db<V>, f: Family, order: Order, limit: nat, rounds: nat)
    requires WellKeyed(db) && limit > 0
    ensures Follow(db, f, order, limit, None, rounds) == Take(Display(db, f, order), rounds * limit)
    ensures rounds >= |Display(db, f, order)| ==> Follow(db, f, order, limit, None, rounds) == Display(db, f, order)
    ensures InOrder(Display(db, f, order), order)
    ensures forall h: U64 :: h in Display(db, f, order) <==> Stored(db, f, h)
  {
    hide WellKeyed, Display, Follow, InOrder, Stored;
    FollowFrom(db, f, order, limit, Display(db, f, order), 0, rounds);
    ShownIsProduct(limit, rounds);
    DisplayInOrder(db, f, order);
    assert Display(db, f, order)[0..] == Display(db, f, order);
    AtLeastRounds(limit, rounds);
  }

  lemma AtLeastRounds(limit: nat, rounds: nat)
    requires limit > 0
    ensures rounds * limit >= rounds
  {
  }
}
