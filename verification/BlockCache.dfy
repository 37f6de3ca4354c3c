/** The cache of the last confirmed block and the blocks received after it. */
module BlockCache {
  import opened Util

  datatype Block = Block(height: nat, body: nat)

  /** Block hashes are collision free, and none is the default hash. */
  datatype Hash = Default | Of(block: Block)

  datatype Cache = Cache(
    height: nat,
    maxHeight: nat,
    blocks: map<Hash, Block>,
    entries: map<nat, Hash>,
    capacity: nat)

  // ---------------------------------------------------------------------------------------
  // Steps on values
  // ---------------------------------------------------------------------------------------

  predicate Highest(s: set<nat>, m: nat) {
    m in s && forall k :: k in s ==> k <= m
  }

  lemma {:induction false} HasHighest(s: set<nat>)
    requires s != {}
    ensures exists m :: Highest(s, m)
    decreases |s|
  {
    var x :| x in s;
    if s == {x} {
      assert Highest(s, x);
    } else {
      HasHighest(s - {x});
      var m :| Highest(s - {x}, m);
      var n := if m < x then x else m;
      forall k | k in s ensures k <= n {
        if k != x { assert k in s - {x}; }
      }
      assert Highest(s, n);
    }
  }

  /** The last key of an ordered map. */
  function LastKey(s: set<nat>): (m: nat)
    requires s != {}
    ensures m in s && forall k :: k in s ==> k <= m
  {
    HasHighest(s);
    var m :| Highest(s, m);
    m
  }

  function LastEntry(entries: map<nat, Hash>): (nat, Hash) {
    if entries == map[] then (0, Default)
    else
      var k := LastKey(entries.Keys);
      (k, entries[k])
  }

  function Remove(c: Cache, hash: Hash): Cache {
    if hash in c.blocks then
      c.(blocks := c.blocks - {hash}, entries := c.entries - {c.blocks[hash].height})
    else c
  }

  function Insert(c: Cache, block: Block): Cache {
    var h := block.height;
    if c.height > h then c
    else
      var seen := c.(maxHeight := Max(c.maxHeight, h));
      var (lastHeight, lastHash) := LastEntry(c.entries);
      var full := |c.blocks| >= c.capacity;
      if full && h > lastHeight then seen
      else
        var room := if full then Remove(seen, lastHash) else seen;
        room.(entries := room.entries[h := Of(block)], blocks := room.blocks[Of(block) := block])
  }

  function Confirm(c: Cache, height: nat): Cache {
    c.(height := height,
       entries := map h | h in c.entries && h >= height :: c.entries[h],
       blocks := c.blocks - set h | h in c.entries && h < height :: c.entries[h])
  }

  function New(start: Block, capacity: nat): Cache {
    Insert(Cache(start.height, start.height, map[], map[], capacity), start)
  }

  function ByHeight(c: Cache, h: nat): Option<Block> {
    if h in c.entries && c.entries[h] in c.blocks then Some(c.blocks[c.entries[h]]) else None
  }

  // ---------------------------------------------------------------------------------------
  // The invariant
  // ---------------------------------------------------------------------------------------

  ghost predicate Inv(c: Cache) {
    && c.height in c.entries
    && |c.blocks| <= c.capacity
    && Linked(c)
  }

  /** Each block is stored under its hash, and each entry points to a stored block of its height. */
  ghost predicate Linked(c: Cache) {
    && (forall x :: x in c.blocks ==> x == Of(c.blocks[x]))
    && (forall h :: h in c.entries ==> c.height <= h <= c.maxHeight && c.entries[h] in c.blocks && c.blocks[c.entries[h]].height == h)
  }

  /** Some block between the confirmed one and the highest one seen is not cached. */
  ghost predicate Missing(c: Cache) {
    exists h :: c.height < h <= c.maxHeight && h !in c.entries
  }

  lemma RemoveShrinks(c: Cache, hash: Hash)
    requires hash in c.blocks
    ensures |Remove(c, hash).blocks| == |c.blocks| - 1
  {
    assert Remove(c, hash).blocks.Keys == c.blocks.Keys - {hash};
    assert |c.blocks.Keys - {hash}| == |c.blocks.Keys| - 1;
  }

  lemma AddedSize(blocks: map<Hash, Block>, hash: Hash, block: Block)
    ensures |blocks[hash := block]| <= |blocks| + 1
  {
    assert blocks[hash := block].Keys == blocks.Keys + {hash};
  }

  lemma InsertSize(c: Cache, block: Block)
    requires Inv(c)
    ensures |Insert(c, block).blocks| <= c.capacity
  {
    var (_, lastHash) := LastEntry(c.entries);
    var seen := c.(maxHeight := Max(c.maxHeight, block.height));
    if |c.blocks| >= c.capacity {
      RemoveShrinks(seen, lastHash);
      AddedSize(Remove(seen, lastHash).blocks, Of(block), block);
    } else {
      AddedSize(c.blocks, Of(block), block);
    }
  }

  /** Inserting keeps the invariant, whatever the block. */
  lemma InsertKeepsInv(c: Cache, block: Block)
    requires Inv(c)
    ensures Inv(Insert(c, block))
    ensures Insert(c, block).height == c.height && Insert(c, block).maxHeight == Max(c.maxHeight, block.height)
  {
    hide Linked;
    InsertSize(c, block);
    var (lastHeight, lastHash) := LastEntry(c.entries);
    var seen := c.(maxHeight := Max(c.maxHeight, block.height));
    SeenLinked(c, seen);
    if block.height >= c.height {
      RemoveLinked(seen, lastHash);
      PutLinked(seen, block);
      PutLinked(Remove(seen, lastHash), block);
      LastIsLinked(c);
    }
  }

  lemma SeenLinked(c: Cache, d: Cache)
    requires Linked(c) && d == c.(maxHeight := d.maxHeight) && c.maxHeight <= d.maxHeight
    ensures Linked(d)
  {
  }

  lemma LastIsLinked(c: Cache)
    requires Linked(c) && c.entries != map[]
    ensures var (h, x) := LastEntry(c.entries); x in c.blocks && c.blocks[x].height == h && h >= c.height
  {
  }

  lemma RemoveLinked(c: Cache, hash: Hash)
    requires Linked(c)
    ensures Linked(Remove(c, hash))
  {
  }

  lemma PutLinked(c: Cache, block: Block)
    requires Linked(c) && c.height <= block.height <= c.maxHeight
    ensures Linked(c.(entries := c.entries[block.height := Of(block)], blocks := c.blocks[Of(block) := block]))
  {
  }

  /** A block is taken in unless it is below the confirmed height, or the cache is full and it lies beyond
    every cached block. */
  ghost predicate TakesIn(c: Cache, block: Block) {
    block.height >= c.height && (|c.blocks| < c.capacity || exists h :: h in c.entries && h >= block.height)
  }

  /** What is found at each height after an insertion: the new block if it was taken in, no longer the
    highest block if that one had to make room, and everything else as before. */
  lemma InsertExactly(c: Cache, block: Block, h: nat)
    requires Inv(c)
    ensures ByHeight(Insert(c, block), h) ==
      if !TakesIn(c, block) then ByHeight(c, h)
      else if h == block.height then Some(block)
      else if |c.blocks| >= c.capacity && h in c.entries && forall k :: k in c.entries ==> k <= h then None
      else ByHeight(c, h)
  {
    var (lastHeight, lastHash) := LastEntry(c.entries);
    assert |c.blocks| >= c.capacity ==> (TakesIn(c, block) <==> c.height <= block.height <= lastHeight);
    if h in c.entries {
      assert (forall k :: k in c.entries ==> k <= h) <==> h == lastHeight;
      assert c.entries[h] == lastHash ==> h == lastHeight;
      assert c.entries[h] == Of(block) ==> h == block.height;
    }
  }

  /** Confirming keeps the invariant exactly when the confirmed height is cached. */
  lemma ConfirmKeepsInvExactly(c: Cache, height: nat)
    requires Inv(c)
    ensures Inv(Confirm(c, height)) <==> height in c.entries
  {
    var d := Confirm(c, height);
    if height in c.entries {
      assert d.blocks.Keys <= c.blocks.Keys;
      SubsetSize(d.blocks.Keys, c.blocks.Keys);
    }
  }

  lemma {:induction false} SubsetSize<A>(a: set<A>, b: set<A>)
    requires a <= b
    ensures |a| <= |b|
    decreases |a|
  {
    if a != {} {
      var x :| x in a;
      SubsetSize(a - {x}, b - {x});
    }
  }

  /** Removing keeps the invariant exactly when it does not remove a block of the confirmed height. */
  lemma RemoveKeepsInvExactly(c: Cache, hash: Hash)
    requires Inv(c)
    ensures Inv(Remove(c, hash)) <==> !(hash in c.blocks && hash.block.height == c.height)
  {
    if hash in c.blocks {
      RemoveShrinks(c, hash);
      assert hash == Of(c.blocks[hash]);
    }
  }

  lemma NewInv(start: Block, capacity: nat)
    ensures capacity >= 1 ==> Inv(New(start, capacity))
    ensures ByHeight(New(start, capacity), start.height) == if capacity >= 1 || start.height == 0 then Some(start) else None
  {
    AddedSize(map[], Of(start), start);
  }

  // ---------------------------------------------------------------------------------------
  // Runs
  // ---------------------------------------------------------------------------------------

  datatype Op = Offer(block: Block) | Settle(height: nat) | Drop(hash: Hash)

  function Apply(c: Cache, op: Op): Cache {
    match op
    case Offer(block) => Insert(c, block)
    case Settle(height) => Confirm(c, height)
    case Drop(hash) => Remove(c, hash)
  }

  /** Confirmed heights are cached; blocks of the confirmed height are not dropped. */
  ghost predicate Allowed(c: Cache, op: Op) {
    match op
    case Offer(_) => true
    case Settle(height) => height in c.entries
    case Drop(hash) => !(hash in c.blocks && hash.Of? && hash.block.height == c.height)
  }

  function ApplyAll(start: Block, capacity: nat, ops: seq<Op>): Cache {
    if ops == [] then New(start, capacity)
    else Apply(ApplyAll(start, capacity, ops[..|ops| - 1]), ops[|ops| - 1])
  }

  ghost predicate AllowedRun(start: Block, capacity: nat, ops: seq<Op>) {
    forall i :: 0 <= i < |ops| ==> Allowed(ApplyAll(start, capacity, ops[..i]), ops[i])
  }

  /** A call keeps the invariant exactly when it is allowed. */
  lemma ApplyKeepsInvExactly(c: Cache, op: Op)
    requires Inv(c)
    ensures Inv(Apply(c, op)) <==> Allowed(c, op)
  {
    hide Insert, Confirm, Remove;
    match op
    case Offer(block) => InsertKeepsInv(c, block);
    case Settle(height) => ConfirmKeepsInvExactly(c, height);
    case Drop(hash) => RemoveKeepsInvExactly(c, hash);
  }

  lemma AllowedPrefix(start: Block, capacity: nat, ops: seq<Op>)
    requires AllowedRun(start, capacity, ops) && ops != []
    ensures AllowedRun(start, capacity, ops[..|ops| - 1])
  {
    var n := |ops| - 1;
    forall i | 0 <= i < n ensures Allowed(ApplyAll(start, capacity, ops[..n][..i]), ops[..n][i]) {
      assert ops[..n][..i] == ops[..i];
    }
  }

  /** The highest height offered to the cache so far. */
  function HighestOffered(start: Block, ops: seq<Op>): nat {
    if ops == [] then start.height
    else
      var before, op := HighestOffered(start, ops[..|ops| - 1]), ops[|ops| - 1];
      if op.Offer? then Max(before, op.block.height) else before
  }

  /** After every allowed run each height entry points to a stored block of that height, the confirmed
    height is cached, the size is within capacity, and `maxHeight` is the highest height ever offered. */
  lemma {:induction false} RunKeepsInv(start: Block, capacity: nat, ops: seq<Op>)
    requires capacity >= 1 && AllowedRun(start, capacity, ops)
    ensures Inv(ApplyAll(start, capacity, ops))
    ensures ApplyAll(start, capacity, ops).capacity == capacity
    ensures ApplyAll(start, capacity, ops).maxHeight == HighestOffered(start, ops)
  {
    hide Inv, Allowed;
    if ops == [] {
      NewInv(start, capacity);
    } else {
      var n := |ops| - 1;
      AllowedPrefix(start, capacity, ops);
      RunKeepsInv(start, capacity, ops[..n]);
      ApplyKeepsInvExactly(ApplyAll(start, capacity, ops[..n]), ops[n]);
      MaxHeightStep(ApplyAll(start, capacity, ops[..n]), ops[n]);
    }
  }

  lemma MaxHeightStep(c: Cache, op: Op)
    requires Inv(c)
    ensures Apply(c, op).capacity == c.capacity
    ensures Apply(c, op).maxHeight == if op.Offer? then Max(c.maxHeight, op.block.height) else c.maxHeight
  {
  }

  // ---------------------------------------------------------------------------------------
  // The object
  // ---------------------------------------------------------------------------------------

  class BlockCache {
    var height: nat
    var maxHeight: nat
    var blocks: map<Hash, Block>
    var entries: map<nat, Hash>
    const capacity: nat

    function View(): Cache
      reads this
    {
      Cache(height, maxHeight, blocks, entries, capacity)
    }

    constructor (start: Block, capacity: nat)
      ensures View() == New(start, capacity)
    {
      height, maxHeight, blocks, entries := start.height, start.height, map[], map[];
      this.capacity := capacity;
      new;
      Add(start);
    }

    method Add(block: Block)
      modifies this
      ensures View() == Insert(old(View()), block)
    {
      if height > block.height {
        return;
      }
      if block.height > maxHeight {
        maxHeight := block.height;
      }
      var (lastHeight, lastHash) := LastEntry(entries);
      var full := |blocks| >= capacity;
      if full && block.height > lastHeight {
        return;
      }
      if full {
        Discard(lastHash);
      }
      entries := entries[block.height := Of(block)];
      blocks := blocks[Of(block) := block];
    }

    method Discard(hash: Hash)
      modifies this
      ensures View() == Remove(old(View()), hash)
    {
      if hash in blocks {
        var block := blocks[hash];
        blocks := blocks - {hash};
        entries := entries - {block.height};
      }
    }

    method Settle(h: nat)
      modifies this
      ensures View() == Confirm(old(View()), h)
    {
      height := h;
      var stale := set k | k in entries && k < h;
      ghost var gone: set<Hash> := {};
      while stale != {}
        invariant height == h && maxHeight == old(maxHeight)
        invariant stale <= (set k | k in old(entries) && k < h)
        invariant entries == map k | k in old(entries) && (k >= h || k in stale) :: old(entries)[k]
        invariant gone == set k | k in old(entries) && k < h && k !in stale :: old(entries)[k]
        invariant blocks == old(blocks) - gone
        decreases |stale|
      {
        var k :| k in stale;
        stale := stale - {k};
        blocks := blocks - {entries[k]};
        gone := gone + {entries[k]};
        entries := entries - {k};
      }
    }

    /** `None` is the panic on a reversed range. */
    method GetRange(from: nat, to: nat) returns (r: Option<seq<Block>>)
      ensures r == if from > to then None else Some(InRange(View(), from, to))
    {
      if from > to {
        return None;
      }
      var found: seq<Block> := [];
      for h := from to to
        invariant found == InRange(View(), from, h)
      {
        if h in entries && entries[h] in blocks {
          found := found + [blocks[entries[h]]];
        }
      }
      return Some(found);
    }

    /** `None` is the failed `unwrap` on an empty cache. */
    method IsOutOfSync() returns (r: Option<bool>)
      ensures r.None? <==> entries == map[]
      ensures r.Some? ==> (r.value <==> maxHeight > LastEntry(entries).0 || Missing(View()))
      ensures Inv(View()) ==> r.Some? && (r.value <==> Missing(View()))
    {
      if entries == map[] {
        return None;
      }
      assert Inv(View()) && maxHeight > LastEntry(entries).0 ==> maxHeight !in entries;
      if maxHeight > LastEntry(entries).0 {
        return Some(true);
      }
      var h := height + 1;
      while h <= maxHeight
        invariant h > height
        invariant forall k :: height < k < h ==> k in entries
      {
        if h !in entries {
          return Some(true);
        }
        h := h + 1;
      }
      return Some(false);
    }

    function NextCommitBlock(): Option<Block>
      reads this
    {
      ByHeight(View(), height + 1)
    }

    /** The catch-up loop of a node that only follows: confirm and commit the next block while there is one,
      dropping it if it is not valid, and giving up after a commit that fails. */
    method CatchUp(node: Checks) returns (confirmed: seq<Block>)
      requires Inv(View())
      modifies this
      ensures (View(), confirmed) == Advance(old(View()), node)
    {
      hide Inv, Confirm, Remove, Advance, ByHeight;
      confirmed := [];
      ghost var start := View();
      assert [] + Advance(start, node).1 == Advance(start, node).1;
      while true
        invariant Inv(View())
        invariant Advance(start, node) == (Advance(View(), node).0, confirmed + Advance(View(), node).1)
        decreases maxHeight - height, |entries|
      {
        ghost var before := View();
        var next := NextCommitBlock();
        AdvanceUnfold(before, node);
        if next.None? {
          assert confirmed + [] == confirmed;
          return;
        }
        NextIsHigher(before);
        if !node.valid(next.value) {
          Discard(Of(next.value));
        } else {
          Settle(next.value.height);
          ghost var rest := Advance(View(), node).1;
          assert confirmed + ([next.value] + rest) == confirmed + [next.value] + rest;
          confirmed := confirmed + [next.value];
          if !node.commits(next.value) {
            return;
          }
        }
      }
    }
  }

  /** Whether a block passes validation, and whether committing it then succeeds. */
  datatype Checks = Checks(valid: Block -> bool, commits: Block -> bool)

  /** What taking the next cached block does to the cache. */
  lemma NextIsHigher(c: Cache)
    requires Inv(c) && ByHeight(c, c.height + 1).Some?
    ensures var b := ByHeight(c, c.height + 1).value;
      && b.height == c.height + 1 <= c.maxHeight
      && Inv(Confirm(c, b.height)) && Confirm(c, b.height).height == b.height && Confirm(c, b.height).maxHeight == c.maxHeight
      && Inv(Remove(c, Of(b))) && ByHeight(Remove(c, Of(b)), c.height + 1).None?
      && Remove(c, Of(b)).height == c.height && Remove(c, Of(b)).maxHeight == c.maxHeight
      && |Remove(c, Of(b)).entries| < |c.entries|
  {
    hide Inv;
    var h := c.height + 1;
    var b := ByHeight(c, h).value;
    NextIsStored(c);
    ConfirmKeepsInvExactly(c, h);
    RemoveKeepsInvExactly(c, Of(b));
    DroppedSize(c.entries, h);
  }

  lemma NextIsStored(c: Cache)
    requires Inv(c) && ByHeight(c, c.height + 1).Some?
    ensures var b := ByHeight(c, c.height + 1).value;
      b.height == c.height + 1 <= c.maxHeight && Of(b) in c.blocks && c.blocks[Of(b)] == b && b.height in c.entries
  {
  }

  lemma DroppedSize(entries: map<nat, Hash>, h: nat)
    requires h in entries
    ensures |entries - {h}| == |entries| - 1
  {
    assert (entries - {h}).Keys == entries.Keys - {h};
    assert |entries.Keys - {h}| == |entries.Keys| - 1;
  }

  /** The blocks found at the heights in `[from, end)`, lowest first. */
  function InRange(c: Cache, from: nat, end: nat): seq<Block>
    decreases end
  {
    if from >= end then []
    else
      var last := ByHeight(c, end - 1);
      InRange(c, from, end - 1) + if last.Some? then [last.value] else []
  }

  lemma {:induction false} InRangeExactly(c: Cache, from: nat, end: nat)
    requires Inv(c)
    ensures var found := InRange(c, from, end);
      && (forall i, j :: 0 <= i < j < |found| ==> found[i].height < found[j].height)
      && (forall b :: b in found <==> from <= b.height < end && ByHeight(c, b.height) == Some(b))
    decreases end
  {
    if from < end {
      InRangeExactly(c, from, end - 1);
      var before := InRange(c, from, end - 1);
      assert forall i :: 0 <= i < |before| ==> before[i] in before;
    }
  }

  /** Confirm blocks one height at a time until one is missing, not valid, or fails to commit. */
  function Advance(c: Cache, node: Checks): (Cache, seq<Block>)
    requires Inv(c)
    decreases c.maxHeight - c.height
  {
    var next := ByHeight(c, c.height + 1);
    if next.None? then (c, [])
    else
      NextIsHigher(c);
      if !node.valid(next.value) then (Remove(c, Of(next.value)), [])
      else
        var e := Confirm(c, next.value.height);
        if !node.commits(next.value) then (e, [next.value])
        else
          var (d, rest) := Advance(e, node);
          (d, [next.value] + rest)
  }

  lemma AdvanceUnfold(c: Cache, node: Checks)
    requires Inv(c)
    ensures var next := ByHeight(c, c.height + 1);
      && (next.None? ==> Advance(c, node) == (c, []))
      && (next.Some? ==>
            && Inv(Remove(c, Of(next.value))) && Inv(Confirm(c, next.value.height))
            && var e := Confirm(c, next.value.height);
              Advance(c, node) ==
                if !node.valid(next.value) then Advance(Remove(c, Of(next.value)), node)
                else if !node.commits(next.value) then (e, [next.value])
                else (Advance(e, node).0, [next.value] + Advance(e, node).1))
  {
    hide Inv, Confirm, Remove, ByHeight;
    if ByHeight(c, c.height + 1).Some? {
      NextIsHigher(c);
    }
  }

  // ---------------------------------------------------------------------------------------
  // Catching up
  // ---------------------------------------------------------------------------------------

  ghost predicate CanConfirm(c: Cache, node: Checks, h: nat) {
    ByHeight(c, h).Some? && node.valid(ByHeight(c, h).value)
  }

  lemma ConfirmKeepsHigher(c: Cache, height: nat, h: nat)
    requires Inv(c) && height <= h
    ensures ByHeight(Confirm(c, height), h) == ByHeight(c, h)
  {
    if h in c.entries {
      assert forall k :: k in c.entries && k < height ==> c.entries[k] != c.entries[h];
    }
  }

  /** The last block confirmed did not commit. */
  ghost predicate GaveUp(node: Checks, got: seq<Block>) {
    got != [] && !node.commits(got[|got| - 1])
  }

  /** `got` are the valid blocks at the heights after `c.height`, up to the first that is missing or not
    valid, or up to and with the first that fails to commit; `d` has confirmed the last of them. */
  ghost predicate Line(c: Cache, node: Checks, d: Cache, got: seq<Block>) {
    && d.maxHeight == c.maxHeight && d.height == c.height + |got|
    && (forall i :: 0 <= i < |got| ==> node.valid(got[i]) && ByHeight(c, c.height + 1 + i) == Some(got[i]))
    && (forall i :: 0 <= i < |got| - 1 ==> node.commits(got[i]))
    && (GaveUp(node, got) || (!CanConfirm(c, node, d.height + 1) && ByHeight(d, d.height + 1).None?))
  }

  lemma LineGrows(c: Cache, node: Checks, b: Block, d: Cache, rest: seq<Block>)
    requires Inv(c) && ByHeight(c, c.height + 1) == Some(b) && node.valid(b) && node.commits(b) && b.height == c.height + 1
    requires Line(Confirm(c, b.height), node, d, rest)
    ensures Line(c, node, d, [b] + rest)
  {
    hide ByHeight, Inv;
    var got := [b] + rest;
    forall i | 0 <= i < |got| ensures node.valid(got[i]) && ByHeight(c, c.height + 1 + i) == Some(got[i]) {
      if i > 0 {
        assert got[i] == rest[i - 1];
        ConfirmKeepsHigher(c, c.height + 1, c.height + 1 + i);
      }
    }
    forall i | 0 <= i < |got| - 1 ensures node.commits(got[i]) {
      if i > 0 { assert got[i] == rest[i - 1]; }
    }
    ConfirmKeepsHigher(c, c.height + 1, d.height + 1);
  }

  /** Catching up takes exactly the unbroken line of valid cached blocks above the confirmed one, no further
    than the first failed commit. */
  lemma {:induction false} AdvanceExactly(c: Cache, node: Checks)
    requires Inv(c)
    ensures Inv(Advance(c, node).0) && Line(c, node, Advance(c, node).0, Advance(c, node).1)
    decreases c.maxHeight - c.height
  {
    hide Confirm, Remove, Line, Inv;
    var next := ByHeight(c, c.height + 1);
    if next.None? {
      StopsHere(c, node, c);
    } else {
      NextIsHigher(c);
      var e := Confirm(c, next.value.height);
      if !node.valid(next.value) {
        StopsHere(c, node, Remove(c, Of(next.value)));
      } else if !node.commits(next.value) {
        GivesUpHere(c, node, e, next.value);
      } else {
        AdvanceExactly(e, node);
        LineGrows(c, node, next.value, Advance(e, node).0, Advance(e, node).1);
      }
    }
  }

  lemma StopsHere(c: Cache, node: Checks, d: Cache)
    requires !CanConfirm(c, node, c.height + 1) && ByHeight(d, c.height + 1).None?
    requires d.height == c.height && d.maxHeight == c.maxHeight
    ensures Line(c, node, d, [])
  {
  }

  lemma GivesUpHere(c: Cache, node: Checks, d: Cache, b: Block)
    requires ByHeight(c, c.height + 1) == Some(b) && node.valid(b) && !node.commits(b)
    requires d.height == c.height + 1 && d.maxHeight == c.maxHeight
    ensures Line(c, node, d, [b])
  {
  }

  /** Catching up confirms the highest height seen exactly when nothing is missing, every block on the way is
    valid, and every one before the last commits. */
  lemma CatchesUpExactly(c: Cache, node: Checks)
    requires Inv(c)
    ensures Advance(c, node).0.height == c.maxHeight <==>
      && !Missing(c)
      && (forall h :: c.height < h <= c.maxHeight ==> CanConfirm(c, node, h))
      && (forall h :: c.height < h < c.maxHeight && CanConfirm(c, node, h) ==> node.commits(ByHeight(c, h).value))
  {
    hide Advance;
    AdvanceExactly(c, node);
    var (d, got) := Advance(c, node);
    assert d.height <= c.maxHeight;
    forall h | c.height < h <= d.height
      ensures CanConfirm(c, node, h) && (h < d.height ==> node.commits(ByHeight(c, h).value))
    {
      var i := h - c.height - 1;
      assert node.valid(got[i]) && ByHeight(c, c.height + 1 + i) == Some(got[i]);
    }
    assert forall h :: CanConfirm(c, node, h) ==> h in c.entries;
    if d.height < c.maxHeight {
      if GaveUp(node, got) {
        assert ByHeight(c, d.height) == Some(got[|got| - 1]) && CanConfirm(c, node, d.height);
      } else {
        assert !CanConfirm(c, node, d.height + 1);
      }
    }
  }

  // ---------------------------------------------------------------------------------------
  // The node's own block
  // ---------------------------------------------------------------------------------------

  /** The calls a validator makes for its own new block, on any cache: inserting it and confirming it keeps
    the invariant exactly when the cache has room, or holds a block at that height or above to evict. */
  lemma OwnBlockExactly(c: Cache, block: Block)
    requires Inv(c) && block.height == c.height + 1
    ensures Inv(Confirm(Insert(c, block), block.height)) <==>
      |c.blocks| < c.capacity || exists h :: h in c.entries && h >= block.height
  {
    hide Insert, Confirm;
    InsertKeepsInv(c, block);
    InsertExactly(c, block, block.height);
    var d := Insert(c, block);
    ConfirmKeepsInvExactly(d, block.height);
  }

  /** Room can be lost: a second block at a height takes the first one's entry but not its room, so a follower's
    cache can come to refuse the next block. */
  lemma ReplacedBlocksFillCache()
    ensures var c := ApplyAll(Block(0, 0), 2, [Offer(Block(0, 1))]);
      && AllowedRun(Block(0, 0), 2, [Offer(Block(0, 1))])
      && |c.blocks| == 2 && c.entries.Keys == {0}
      && ByHeight(Insert(c, Block(1, 0)), 1).None?
      && !Inv(Confirm(Insert(c, Block(1, 0)), 1))
  {
    var ops := [Offer(Block(0, 1))];
    var first := New(Block(0, 0), 2);
    assert ops[..0] == [];
    assert first == Cache(0, 0, map[Of(Block(0, 0)) := Block(0, 0)], map[0 := Of(Block(0, 0))], 2);
    var c := Insert(first, Block(0, 1));
    assert c.blocks == map[Of(Block(0, 0)) := Block(0, 0), Of(Block(0, 1)) := Block(0, 1)];
    assert c.blocks.Keys == {Of(Block(0, 0)), Of(Block(0, 1))};
    assert c.entries == map[0 := Of(Block(0, 1))];
    RunKeepsInv(Block(0, 0), 2, ops);
    InsertExactly(c, Block(1, 0), 1);
    OwnBlockExactly(c, Block(1, 0));
  }

  /** A validator receives no blocks: all it does to the cache is insert and confirm its own. */
  function OwnRun(start: Block, capacity: nat, bodies: seq<nat>): Cache {
    if bodies == [] then New(start, capacity)
    else
      var c := OwnRun(start, capacity, bodies[..|bodies| - 1]);
      var b := Block(c.height + 1, bodies[|bodies| - 1]);
      Confirm(Insert(c, b), b.height)
  }

  /** A cache that holds one block, the confirmed one. */
  function Only(b: Block, capacity: nat): Cache {
    Cache(b.height, b.height, map[Of(b) := b], map[b.height := Of(b)], capacity)
  }

  function LastOwn(start: Block, bodies: seq<nat>): Block {
    if bodies == [] then start else Block(start.height + |bodies|, bodies[|bodies| - 1])
  }

  /** Over every run of own blocks the cache is exactly the last one, if it has room for two; with room for
    one, every other block is lost, starting with the first. */
  lemma {:induction false} OwnRunExactly(start: Block, capacity: nat, bodies: seq<nat>)
    requires capacity >= 1
    ensures OwnRun(start, capacity, bodies) ==
      var last := LastOwn(start, bodies);
      if capacity >= 2 || |bodies| % 2 == 0 then Only(last, capacity) else Cache(last.height, last.height, map[], map[], capacity)
  {
    hide Insert, Confirm, Only;
    if bodies == [] {
      NewIsOnly(start, capacity);
    } else {
      var n := |bodies| - 1;
      OwnRunExactly(start, capacity, bodies[..n]);
      var before, b := LastOwn(start, bodies[..n]), LastOwn(start, bodies);
      if capacity >= 2 || n % 2 == 0 {
        OnlyHeight(before, capacity);
        OwnAfterOnly(before, capacity, b);
      } else {
        OwnAfterNothing(before.height, capacity, b);
      }
    }
  }

  lemma NewIsOnly(start: Block, capacity: nat)
    requires capacity >= 1
    ensures New(start, capacity) == Only(start, capacity)
  {
  }

  lemma OnlyHeight(b: Block, capacity: nat)
    ensures Only(b, capacity).height == b.height
  {
  }

  lemma OwnAfterOnly(a: Block, capacity: nat, b: Block)
    requires capacity >= 1 && b.height == a.height + 1
    ensures Confirm(Insert(Only(a, capacity), b), b.height) ==
      if capacity >= 2 then Only(b, capacity) else Cache(b.height, b.height, map[], map[], capacity)
  {
    hide Insert, Confirm, Only;
    InsertAfterOnly(a, capacity, b);
    if capacity >= 2 { ConfirmSecond(a, capacity, b); } else { ConfirmNothing(a, capacity, b.height); }
  }

  function Both(a: Block, capacity: nat, b: Block): Cache {
    Cache(a.height, b.height, map[Of(a) := a, Of(b) := b], map[a.height := Of(a), b.height := Of(b)], capacity)
  }

  lemma InsertAfterOnly(a: Block, capacity: nat, b: Block)
    requires capacity >= 1 && b.height == a.height + 1
    ensures Insert(Only(a, capacity), b) == if capacity >= 2 then Both(a, capacity, b) else Only(a, capacity).(maxHeight := b.height)
  {
    var c := Only(a, capacity);
    assert c.blocks.Keys == {Of(a)} && c.entries.Keys == {a.height};
    assert |c.blocks| == |c.blocks.Keys| == 1;
    assert LastEntry(c.entries) == (a.height, Of(a));
  }

  lemma ConfirmSecond(a: Block, capacity: nat, b: Block)
    requires b.height == a.height + 1
    ensures Confirm(Both(a, capacity, b), b.height) == Only(b, capacity)
  {
    var c := Both(a, capacity, b);
    assert c.entries[a.height] == Of(a);
    assert (set h | h in c.entries && h < b.height :: c.entries[h]) == {Of(a)};
    assert c.blocks - {Of(a)} == map[Of(b) := b];
    assert (map h | h in c.entries && h >= b.height :: c.entries[h]) == map[b.height := Of(b)];
  }

  lemma ConfirmNothing(a: Block, capacity: nat, height: nat)
    requires height > a.height
    ensures Confirm(Only(a, capacity).(maxHeight := height), height) == Cache(height, height, map[], map[], capacity)
  {
    var c := Only(a, capacity);
    assert c.entries[a.height] == Of(a);
    assert (set h | h in c.entries && h < height :: c.entries[h]) == {Of(a)};
    assert c.blocks - {Of(a)} == map[];
    assert (map h | h in c.entries && h >= height :: c.entries[h]) == map[];
  }

  lemma OwnAfterNothing(height: nat, capacity: nat, b: Block)
    requires capacity >= 1 && b.height == height + 1
    ensures Confirm(Insert(Cache(height, height, map[], map[], capacity), b), b.height) == Only(b, capacity)
  {
    var d := Insert(Cache(height, height, map[], map[], capacity), b);
    assert Confirm(d, b.height).blocks == d.blocks && Confirm(d, b.height).entries == d.entries;
  }
}
