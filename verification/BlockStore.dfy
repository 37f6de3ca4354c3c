/** The block store: one `set` writes a block and its indexes in one batch. */
module BlockStore {
  import opened Util
  import opened Keys
  import opened OrderedDb

  type Element = U256

  /** A transaction: two input and two output commitments, zero standing for padding. */
  datatype Utxo = Utxo(in0: Element, in1: Element, out0: Element, out1: Element, mint: Option<Element>, hash: U256)

  datatype Block = Block(height: U64, hash: U256, root: Element, txns: seq<Utxo>)

  function NonZero(a: Element, b: Element): seq<Element> {
    (if a == 0 then [] else [a]) + (if b == 0 then [] else [b])
  }

  function Inputs(t: Utxo): seq<Element> {
    NonZero(t.in0, t.in1)
  }

  function Outputs(t: Utxo): seq<Element> {
    NonZero(t.out0, t.out1)
  }

  function SideOf(t: Utxo, side: HistoryKind): seq<Element> {
    if side.Input? then Inputs(t) else Outputs(t)
  }

  /** Stored values, already decoded. */
  datatype Value =
    | BlockValue(block: Block)
    | HeightValue(height: U64)
    | TxnValue(txn: Utxo, blockHeight: U64, blockHash: U256, index: nat)
    | HistoryValue(blockHash: U256, blockHeight: U64)
    | MintValue(blockHash: U256, blockHeight: U64)
    | VersionValue(version: nat)

  type Entry = (Key, Value)
  type Database = Db<Value>

  // ---------------------------------------------------------------------------------------
  // Reading
  // ---------------------------------------------------------------------------------------

  function Lookup(db: Database, k: Key): Option<Value> {
    Get(db, Serialize(k))
  }

  function GetBlock(db: Database, h: U64): Option<Block> {
    match Lookup(db, Key.Block(h))
    case Some(BlockValue(b)) => Some(b)
    case _ => None
  }

  function GetMaxHeight(db: Database): Option<U64> {
    match Lookup(db, MaxHeight)
    case Some(HeightValue(h)) => Some(h)
    case _ => None
  }

  function GetHistory(db: Database, e: Element, side: HistoryKind): Option<Value> {
    Lookup(db, ElementHistory(e, side))
  }

  function GetMint(db: Database, e: Element): Option<Value> {
    Lookup(db, MintHash(e))
  }

  function GetVersion(db: Database): nat {
    match Lookup(db, StoreVersion)
    case Some(VersionValue(v)) => v
    case _ => 0
  }

  // ---------------------------------------------------------------------------------------
  // Writing
  // ---------------------------------------------------------------------------------------

  function TxnEntries(b: Block, n: nat): seq<Entry>
    requires n <= |b.txns|
  {
    if n == 0 then [] else
      TxnEntries(b, n - 1) + [(TxnByHash(b.txns[n - 1].hash), TxnValue(b.txns[n - 1], b.height, b.hash, n - 1))]
  }

  function NonEmptyEntry(b: Block): seq<Entry> {
    if b.txns == [] then [] else [(NonEmptyBlock(b.height), BlockValue(b))]
  }

  function SideEntries(b: Block, es: seq<Element>, side: HistoryKind): seq<Entry> {
    if es == [] then [] else
      SideEntries(b, es[..|es| - 1], side) + [(ElementHistory(es[|es| - 1], side), HistoryValue(b.hash, b.height))]
  }

  function MintEntry(b: Block, t: Utxo): seq<Entry> {
    if t.mint.None? then [] else [(MintHash(t.mint.value), MintValue(b.hash, b.height))]
  }

  function TxnHistory(b: Block, t: Utxo): seq<Entry> {
    SideEntries(b, Inputs(t), Input) + SideEntries(b, Outputs(t), Output) + MintEntry(b, t)
  }

  function HistoryEntries(b: Block, n: nat): seq<Entry>
    requires n <= |b.txns|
  {
    if n == 0 then [] else HistoryEntries(b, n - 1) + TxnHistory(b, b.txns[n - 1])
  }

  function MaxEntry(b: Block, max: Option<U64>): seq<Entry> {
    if max.None? || b.height > max.value then [(MaxHeight, HeightValue(b.height))] else []
  }

  function HeadEntries(b: Block, max: Option<U64>): seq<Entry> {
    [(Key.Block(b.height), BlockValue(b))] + MaxEntry(b, max) + [(BlockHashToHeight(b.hash), HeightValue(b.height))]
  }

  /** The whole batch of `set`, as keys and values. */
  function SetEntries(b: Block, max: Option<U64>): seq<Entry> {
    HeadEntries(b, max)
    + TxnEntries(b, |b.txns|)
    + NonEmptyEntry(b)
    + HistoryEntries(b, |b.txns|)
  }

  function EncodeEntry(e: Entry): (Bytes, Value) {
    (Serialize(e.0), e.1)
  }

  function Encode(es: seq<Entry>): (batch: seq<(Bytes, Value)>)
    ensures |batch| == |es|
    ensures forall i :: 0 <= i < |es| ==> batch[i] == EncodeEntry(es[i])
  {
    if es == [] then [] else Encode(es[..|es| - 1]) + [EncodeEntry(es[|es| - 1])]
  }

  function WriteEntries(db: Database, es: seq<Entry>): Database {
    Write(db, Encode(es))
  }

  function Set(db: Database, b: Block): Database {
    WriteEntries(db, SetEntries(b, GetMaxHeight(db)))
  }

  const LATEST_VERSION: nat := 1

  /** `BlockStore::create`. */
  function Created(): Database {
    Put(Empty(), Serialize(StoreVersion), VersionValue(LATEST_VERSION))
  }

  /** The store object: `set` builds its batch step by step and writes it at the end. */
  class Store {
    var db: Database

    constructor Create()
      ensures db == Created()
    {
      db := Put(Empty(), Serialize(StoreVersion), VersionValue(LATEST_VERSION));
    }

    method SetBlock(b: Block)
      modifies this
      ensures db == Set(old(db), b)
    {
      hide Serialize, Write, GetMaxHeight, SideEntries, MintEntry, TxnHistory, Encode;
      var batch: seq<Entry> := [(Key.Block(b.height), BlockValue(b))];
      var max := GetMaxHeight(db);
      if max.None? || b.height > max.value {
        batch := batch + [(MaxHeight, HeightValue(b.height))];
      }
      batch := batch + [(BlockHashToHeight(b.hash), HeightValue(b.height))];
      ghost var head := batch;
      assert head == HeadEntries(b, max);
      for i := 0 to |b.txns|
        invariant batch == head + TxnEntries(b, i)
      {
        batch := batch + [(TxnByHash(b.txns[i].hash), TxnValue(b.txns[i], b.height, b.hash, i))];
      }
      if b.txns != [] {
        batch := batch + [(NonEmptyBlock(b.height), BlockValue(b))];
      }
      ghost var body := batch;
      for i := 0 to |b.txns|
        invariant batch == body + HistoryEntries(b, i)
      {
        batch := batch + TxnHistory(b, b.txns[i]);
      }
      db := Write(db, Encode(batch));
    }
  }

  // ---------------------------------------------------------------------------------------
  // What a batch leaves at a key
  // ---------------------------------------------------------------------------------------

  function LastEntry(es: seq<Entry>, k: Key, before: Option<Value>): Option<Value> {
    if es == [] then before
    else if es[|es| - 1].0 == k then Some(es[|es| - 1].1)
    else LastEntry(es[..|es| - 1], k, before)
  }

  lemma {:induction false} EncodedLastPut(es: seq<Entry>, k: Key, before: Option<Value>)
    ensures LastPut(Encode(es), Serialize(k), before) == LastEntry(es, k, before)
    decreases |es|
  {
    hide Serialize;
    if es != [] {
      var n := |es| - 1;
      EncodedLastPut(es[..n], k, before);
      assert Encode(es)[..n] == Encode(es[..n]);
      if Serialize(es[n].0) == Serialize(k) { SerializeInjective(es[n].0, k); }
    }
  }

  lemma WriteLookup(db: Database, es: seq<Entry>, k: Key)
    ensures Lookup(WriteEntries(db, es), k) == LastEntry(es, k, Lookup(db, k))
  {
    hide Serialize;
    WriteGet(db, Encode(es), Serialize(k));
    EncodedLastPut(es, k, Lookup(db, k));
  }

  lemma {:induction false} LastEntryConcat(a: seq<Entry>, b: seq<Entry>, k: Key, before: Option<Value>)
    ensures LastEntry(a + b, k, before) == LastEntry(b, k, LastEntry(a, k, before))
    decreases |b|
  {
    if b == [] {
      assert a + b == a;
    } else {
      assert (a + b)[..|a + b| - 1] == a + b[..|b| - 1];
      LastEntryConcat(a, b[..|b| - 1], k, before);
    }
  }

  ghost predicate Untouched(es: seq<Entry>, k: Key) {
    forall i :: 0 <= i < |es| ==> es[i].0 != k
  }

  lemma {:induction false} LastEntryUntouched(es: seq<Entry>, k: Key, before: Option<Value>)
    requires Untouched(es, k)
    ensures LastEntry(es, k, before) == before
    decreases |es|
  {
    if es != [] { LastEntryUntouched(es[..|es| - 1], k, before); }
  }

  /** The last transaction of a block with hash `th`. */
  function TxnIn(b: Block, n: nat, th: U256, before: Option<Value>): Option<Value>
    requires n <= |b.txns|
  {
    if n == 0 then before
    else if b.txns[n - 1].hash == th then Some(TxnValue(b.txns[n - 1], b.height, b.hash, n - 1))
    else TxnIn(b, n - 1, th, before)
  }

  predicate UsesElement(b: Block, n: nat, e: Element, side: HistoryKind)
    requires n <= |b.txns|
  {
    exists i :: 0 <= i < n && e in SideOf(b.txns[i], side)
  }

  predicate UsesMint(b: Block, n: nat, e: Element)
    requires n <= |b.txns|
  {
    exists i :: 0 <= i < n && b.txns[i].mint == Some(e)
  }

  lemma {:induction false} TxnEntriesLast(b: Block, n: nat, k: Key, before: Option<Value>)
    requires n <= |b.txns|
    ensures LastEntry(TxnEntries(b, n), k, before) ==
      if k.TxnByHash? then TxnIn(b, n, k.hash, before) else before
    decreases n
  {
    if n != 0 {
      TxnEntriesLast(b, n - 1, k, before);
      assert TxnEntries(b, n)[..|TxnEntries(b, n)| - 1] == TxnEntries(b, n - 1);
    }
  }

  lemma {:induction false} SideEntriesLast(b: Block, es: seq<Element>, side: HistoryKind, k: Key, before: Option<Value>)
    ensures LastEntry(SideEntries(b, es, side), k, before) ==
      if k.ElementHistory? && k.side == side && k.element in es then Some(HistoryValue(b.hash, b.height)) else before
    decreases |es|
  {
    if es != [] {
      var n := |es| - 1;
      SideEntriesLast(b, es[..n], side, k, before);
      assert SideEntries(b, es, side)[..|SideEntries(b, es, side)| - 1] == SideEntries(b, es[..n], side);
      assert es == es[..n] + [es[n]];
    }
  }

  /** What the history part of a block's batch leaves at a key. */
  function HistoryAfter(b: Block, n: nat, k: Key, before: Option<Value>): Option<Value>
    requires n <= |b.txns|
  {
    match k
    case ElementHistory(e, side) => if UsesElement(b, n, e, side) then Some(HistoryValue(b.hash, b.height)) else before
    case MintHash(e) => if UsesMint(b, n, e) then Some(MintValue(b.hash, b.height)) else before
    case _ => before
  }

  lemma {:induction false} HistoryEntriesLast(b: Block, n: nat, k: Key, before: Option<Value>)
    requires n <= |b.txns|
    ensures LastEntry(HistoryEntries(b, n), k, before) == HistoryAfter(b, n, k, before)
    decreases n
  {
    hide TxnHistory, HistoryAfter, TxnHistoryAfter, LastEntry;
    if n == 0 {
      NoHistory(b, k, before);
    } else {
      HistoryEntriesLast(b, n - 1, k, before);
      LastEntryConcat(HistoryEntries(b, n - 1), TxnHistory(b, b.txns[n - 1]), k, before);
      TxnHistoryLast(b, b.txns[n - 1], k, HistoryAfter(b, n - 1, k, before));
      HistoryExtends(b, n, k, before);
    }
  }

  lemma NoHistory(b: Block, k: Key, before: Option<Value>)
    ensures LastEntry([], k, before) == before == HistoryAfter(b, 0, k, before)
  {
  }

  lemma TxnHistoryLast(b: Block, t: Utxo, k: Key, before: Option<Value>)
    ensures LastEntry(TxnHistory(b, t), k, before) == TxnHistoryAfter(b, t, k, before)
  {
    hide SideEntries, Inputs, Outputs;
    var s1, s2, s3 := SideEntries(b, Inputs(t), Input), SideEntries(b, Outputs(t), Output), MintEntry(b, t);
    LastEntryConcat(s1, s2, k, before);
    LastEntryConcat(s1 + s2, s3, k, before);
    SideEntriesLast(b, Inputs(t), Input, k, before);
    SideEntriesLast(b, Outputs(t), Output, k, LastEntry(s1, k, before));
  }

  function TxnHistoryAfter(b: Block, t: Utxo, k: Key, before: Option<Value>): Option<Value> {
    match k
    case ElementHistory(e, side) => if e in SideOf(t, side) then Some(HistoryValue(b.hash, b.height)) else before
    case MintHash(e) => if t.mint == Some(e) then Some(MintValue(b.hash, b.height)) else before
    case _ => before
  }

  lemma HistoryExtends(b: Block, n: nat, k: Key, before: Option<Value>)
    requires 0 < n <= |b.txns|
    ensures HistoryAfter(b, n, k, before) == TxnHistoryAfter(b, b.txns[n - 1], k, HistoryAfter(b, n - 1, k, before))
  {
    match k
    case ElementHistory(e, side) =>
      if UsesElement(b, n, e, side) && !(e in SideOf(b.txns[n - 1], side)) {
        var i :| 0 <= i < n && e in SideOf(b.txns[i], side);
        assert i < n - 1;
      }
    case MintHash(e) =>
      if UsesMint(b, n, e) && b.txns[n - 1].mint != Some(e) {
        var i :| 0 <= i < n && b.txns[i].mint == Some(e);
        assert i < n - 1;
      }
    case _ =>
  }

  /** What `set` leaves at every key. */
  function AfterSet(b: Block, k: Key, before: Option<Value>, max: Option<U64>): Option<Value> {
    match k
    case Block(h) => if h == b.height then Some(BlockValue(b)) else before
    case MaxHeight => if max.None? || b.height > max.value then Some(HeightValue(b.height)) else before
    case BlockHashToHeight(hash) => if hash == b.hash then Some(HeightValue(b.height)) else before
    case TxnByHash(th) => TxnIn(b, |b.txns|, th, before)
    case NonEmptyBlock(h) => if h == b.height && b.txns != [] then Some(BlockValue(b)) else before
    case _ => HistoryAfter(b, |b.txns|, k, before)
  }

  lemma SetLookup(db: Database, b: Block, k: Key)
    ensures Lookup(Set(db, b), k) == AfterSet(b, k, Lookup(db, k), GetMaxHeight(db))
  {
    hide Serialize, GetMaxHeight, Lookup, TxnEntries, HistoryEntries, HeadEntries, WriteEntries;
    var max, before := GetMaxHeight(db), Lookup(db, k);
    var s0, s1, s2, s3 := HeadEntries(b, max), TxnEntries(b, |b.txns|), NonEmptyEntry(b), HistoryEntries(b, |b.txns|);
    WriteLookup(db, SetEntries(b, max), k);
    LastEntryConcat(s0, s1, k, before);
    LastEntryConcat(s0 + s1, s2, k, before);
    LastEntryConcat(s0 + s1 + s2, s3, k, before);
    HeadLast(b, max, k, before);
    TxnEntriesLast(b, |b.txns|, k, LastEntry(s0, k, before));
    HistoryEntriesLast(b, |b.txns|, k, LastEntry(s0 + s1 + s2, k, before));
  }

  lemma HeadLast(b: Block, max: Option<U64>, k: Key, before: Option<Value>)
    ensures LastEntry(HeadEntries(b, max), k, before) ==
      match k {
        case Block(h) => if h == b.height then Some(BlockValue(b)) else before
        case MaxHeight => if max.None? || b.height > max.value then Some(HeightValue(b.height)) else before
        case BlockHashToHeight(hash) => if hash == b.hash then Some(HeightValue(b.height)) else before
        case _ => before
      }
  {
    var s0: seq<Entry>, s2: seq<Entry> :=
      [(Key.Block(b.height), BlockValue(b))], [(BlockHashToHeight(b.hash), HeightValue(b.height))];
    LastEntryConcat(s0, MaxEntry(b, max), k, before);
    LastEntryConcat(s0 + MaxEntry(b, max), s2, k, before);
  }

  // ---------------------------------------------------------------------------------------
  // Runs of `set` against a scan of the blocks
  // ---------------------------------------------------------------------------------------

  function StoreAll(blocks: seq<Block>): Database {
    if blocks == [] then Created() else Set(StoreAll(blocks[..|blocks| - 1]), blocks[|blocks| - 1])
  }

  /** The last block satisfying a property. */
  ghost function LastBlock(blocks: seq<Block>, p: Block -> bool): Option<Block> {
    if blocks == [] then None
    else if p(blocks[|blocks| - 1]) then Some(blocks[|blocks| - 1])
    else LastBlock(blocks[..|blocks| - 1], p)
  }

  ghost function Highest(blocks: seq<Block>): Option<U64> {
    if blocks == [] then None else
      var m := Highest(blocks[..|blocks| - 1]);
      var h := blocks[|blocks| - 1].height;
      if m.None? || h > m.value then Some(h) else m
  }

  ghost function LastTxn(blocks: seq<Block>, th: U256): Option<Value> {
    if blocks == [] then None else
      var b := blocks[|blocks| - 1];
      TxnIn(b, |b.txns|, th, LastTxn(blocks[..|blocks| - 1], th))
  }

  ghost function HasHeight(h: U64): Block -> bool { (b: Block) => b.height == h }
  ghost function HasHash(hash: U256): Block -> bool { (b: Block) => b.hash == hash }
  ghost function NonEmptyAt(h: U64): Block -> bool { (b: Block) => b.height == h && b.txns != [] }
  ghost function Uses(e: Element, side: HistoryKind): Block -> bool { (b: Block) => UsesElement(b, |b.txns|, e, side) }
  ghost function Mints(e: Element): Block -> bool { (b: Block) => UsesMint(b, |b.txns|, e) }

  ghost function MapOption<A, B>(o: Option<A>, f: A -> B): Option<B> {
    if o.None? then None else Some(f(o.value))
  }

  /** What a scan of the stored blocks, last writer winning, says about a key. */
  ghost function ScanFor(blocks: seq<Block>, k: Key): Option<Value> {
    match k
    case Block(h) => MapOption(LastBlock(blocks, HasHeight(h)), (b: Block) => BlockValue(b))
    case MaxHeight => MapOption(Highest(blocks), (h: U64) => HeightValue(h))
    case BlockHashToHeight(hash) => MapOption(LastBlock(blocks, HasHash(hash)), (b: Block) => HeightValue(b.height))
    case PendingBlock => None
    case TxnByHash(th) => LastTxn(blocks, th)
    case StoreVersion => Some(VersionValue(LATEST_VERSION))
    case NonEmptyBlock(h) => MapOption(LastBlock(blocks, NonEmptyAt(h)), (b: Block) => BlockValue(b))
    case LockedElement(_) => None
    case ElementHistory(e, side) =>
      MapOption(LastBlock(blocks, Uses(e, side)), (b: Block) => HistoryValue(b.hash, b.height))
    case MintHash(e) => MapOption(LastBlock(blocks, Mints(e)), (b: Block) => MintValue(b.hash, b.height))
  }

  lemma ScanStep(blocks: seq<Block>, b: Block, k: Key)
    ensures ScanFor(blocks + [b], k) == AfterSet(b, k, ScanFor(blocks, k), Highest(blocks))
  {
    assert (blocks + [b])[..|blocks|] == blocks;
  }

  lemma {:induction false} MaxIsHighest(blocks: seq<Block>)
    ensures GetMaxHeight(StoreAll(blocks)) == Highest(blocks)
    decreases |blocks|
  {
    hide Serialize, Lookup, Set;
    if blocks == [] {
      CreatedLookup(MaxHeight);
    } else {
      var n := |blocks| - 1;
      MaxIsHighest(blocks[..n]);
      SetLookup(StoreAll(blocks[..n]), blocks[n], MaxHeight);
    }
  }

  /** After any run of `set`, every lookup equals a scan of the stored blocks with the last writer
    winning. */
  lemma {:induction false} LookupsAreScans(blocks: seq<Block>, k: Key)
    ensures Lookup(StoreAll(blocks), k) == ScanFor(blocks, k)
    decreases |blocks|
  {
    hide Serialize, Lookup, AfterSet, Set, GetMaxHeight;
    if blocks == [] {
      CreatedLookup(k);
    } else {
      var n := |blocks| - 1;
      LookupsAreScans(blocks[..n], k);
      MaxIsHighest(blocks[..n]);
      SetLookup(StoreAll(blocks[..n]), blocks[n], k);
      assert blocks[..n] + [blocks[n]] == blocks;
      ScanStep(blocks[..n], blocks[n], k);
    }
  }

  lemma CreatedLookup(k: Key)
    ensures Lookup(Created(), k) == if k == StoreVersion then Some(VersionValue(LATEST_VERSION)) else None
  {
    hide Serialize;
    if Serialize(k) == Serialize(StoreVersion) { SerializeInjective(k, StoreVersion); }
  }

  /** `Highest` is the largest stored height. */
  lemma {:induction false} HighestIsMax(blocks: seq<Block>)
    ensures Highest(blocks).None? <==> blocks == []
    ensures forall i :: 0 <= i < |blocks| ==> blocks[i].height <= Highest(blocks).value
    ensures blocks != [] ==> exists i :: 0 <= i < |blocks| && blocks[i].height == Highest(blocks).value
    decreases |blocks|
  {
    if blocks != [] {
      var n := |blocks| - 1;
      HighestIsMax(blocks[..n]);
      if n > 0 {
        var i :| 0 <= i < |blocks[..n]| && blocks[..n][i].height == Highest(blocks[..n]).value;
        assert blocks[i].height == Highest(blocks[..n]).value;
      }
    }
  }

  /** `LastBlock` finds a block exactly when some stored block has the property. */
  lemma {:induction false} LastBlockFinds(blocks: seq<Block>, p: Block -> bool)
    ensures LastBlock(blocks, p).Some? <==> exists i :: 0 <= i < |blocks| && p(blocks[i])
    ensures LastBlock(blocks, p).Some? ==> LastBlock(blocks, p).value in blocks && p(LastBlock(blocks, p).value)
    decreases |blocks|
  {
    if blocks != [] {
      var n := |blocks| - 1;
      LastBlockFinds(blocks[..n], p);
      if i :| 0 <= i < |blocks| && p(blocks[i]) {
        assert i < n ==> blocks[..n][i] == blocks[i];
      }
    }
  }
}
