/** Upgrading an old block store: version 0 has no transaction and no non-empty-block index. */
module Migration {
  import opened Util
  import opened Keys
  import opened OrderedDb
  import opened Lists
  import opened BlockStore

  datatype MigrationError = InvalidVersion(version: nat) | UnreadableEntry

  /** What migration writes for one block: the part of `set` that version 0 lacked. */
  function IndexEntries(b: Block): seq<Entry> {
    TxnEntries(b, |b.txns|) + NonEmptyEntry(b)
  }

  /** The writes for the first `n` blocks, one batch per block. */
  function IndexAll(db: Database, bs: seq<Block>): Database {
    if bs == [] then db else
      WriteEntries(IndexAll(db, bs[..|bs| - 1]), IndexEntries(bs[|bs| - 1]))
  }

  function SetVersion(db: Database, v: nat): Database {
    Put(db, Serialize(StoreVersion), VersionValue(v))
  }

  /** The block entries of a database, in rising height order. */
  function BlockKeys(db: Database): seq<Bytes> {
    ListKeys(db, Blocks, Unbounded, Unbounded, LowestToHighest)
  }

  ghost predicate Readable(db: Database) {
    forall h: U64 :: Stored(db, Blocks, h) ==>
      var v := db.vals[Serialize(Key.Block(h))];
      v.BlockValue? && v.block.height == h
  }

  /** The blocks of `db` in rising height order. */
  ghost predicate RisingBlocks(db: Database, bs: seq<Block>) {
    && (forall i, j :: 0 <= i < j < |bs| ==> bs[i].height < bs[j].height)
    && (forall i :: 0 <= i < |bs| ==> GetBlock(db, bs[i].height) == Some(bs[i]))
    && (forall h: U64 :: Stored(db, Blocks, h) ==> exists i :: 0 <= i < |bs| && bs[i].height == h)
  }

  class MigratedStore {
    var db: Database

    constructor (db: Database)
      ensures this.db == db
    {
      this.db := db;
    }

    /** `migrate_to_v1`: one write batch per block, in rising height order, then the version. */
    method MigrateToV1() returns (r: Result<seq<Block>, MigrationError>)
      requires Valid(db)
      modifies this
      ensures WellKeyed(old(db)) && Readable(old(db)) ==> r.Ok? && RisingBlocks(old(db), r.value)
      ensures r.Ok? ==> db == SetVersion(IndexAll(old(db), r.value), 1)
    {
      hide Serialize, Deserialize, ListKeys, WriteEntries, SetVersion, IndexEntries, WellKeyed, Readable;
      var ks := BlockKeys(db);
      var before := db;  // the iterator keeps reading the state it was opened on
      var bs: seq<Block> := [];
      ListedKeysStored(db);
      if WellKeyed(db) && Readable(db) {
        BlockKeysReadable(db);
      }
      for i := 0 to |ks|
        invariant |bs| == i
        invariant db == IndexAll(before, bs)
        invariant forall j :: 0 <= j < i ==> before.vals[ks[j]] == BlockValue(bs[j])
      {
        match Deserialize(ks[i]) {
          case Key(k) =>
          case _ => return Err(UnreadableEntry);
        }
        match before.vals[ks[i]] {
          case BlockValue(b) =>
            db := WriteEntries(db, IndexEntries(b));
            bs := bs + [b];
            assert bs[..i] + [b] == bs;
          case _ => return Err(UnreadableEntry);
        }
      }
      if WellKeyed(before) && Readable(before) {
        ListedBlocksRise(before, bs);
      }
      db := SetVersion(db, 1);
      r := Ok(bs);
    }

    /** `migrate`: loop until the store is at version 1. */
    method Migrate() returns (r: Result<(), MigrationError>)
      requires Valid(db)
      modifies this
      ensures GetVersion(old(db)) == 1 ==> r == Ok(()) && db == old(db)
      ensures GetVersion(old(db)) > 1 ==> r == Err(InvalidVersion(GetVersion(old(db)))) && db == old(db)
      ensures GetVersion(old(db)) == 0 && WellKeyed(old(db)) && Readable(old(db)) ==>
        r == Ok(()) && exists bs :: RisingBlocks(old(db), bs) && db == SetVersion(IndexAll(old(db), bs), 1)
    {
      hide Serialize, WellKeyed, Readable, RisingBlocks, IndexAll;
      ghost var before := db;
      ghost var migrated: Option<seq<Block>> := None;
      while true
        invariant Valid(db)
        invariant migrated.None? ==> db == before
        invariant migrated.Some? ==> GetVersion(before) == 0 && GetVersion(db) == 1
        invariant migrated.Some? ==> db == SetVersion(IndexAll(before, migrated.value), 1)
        invariant migrated.Some? && WellKeyed(before) && Readable(before) ==> RisingBlocks(before, migrated.value)
        decreases if GetVersion(db) == 0 then 1 else 0
      {
        var version := GetVersion(db);
        if version == 0 {
          var step := MigrateToV1();
          if step.Err? {
            return Err(step.error);
          }
          migrated := Some(step.value);
          IndexAllValid(before, step.value);
          VersionIsSet(IndexAll(before, step.value), 1);
        } else if version == 1 {
          return Ok(());
        } else {
          return Err(InvalidVersion(version));
        }
      }
    }
  }

  // ---------------------------------------------------------------------------------------
  // Supporting facts
  // ---------------------------------------------------------------------------------------

  lemma ListedKeysStored(db: Database)
    requires Valid(db)
    ensures forall i :: 0 <= i < |BlockKeys(db)| ==> BlockKeys(db)[i] in db.vals
  {
    hide LowerBytes, UpperBytes, Between, Sorted;
    forall i | 0 <= i < |BlockKeys(db)| ensures BlockKeys(db)[i] in db.vals {
      assert BlockKeys(db)[i] in BlockKeys(db);
    }
  }

  /** In a readable store every listed entry decodes to the block of its height. */
  lemma BlockKeysReadable(db: Database)
    requires WellKeyed(db) && Readable(db)
    ensures var ks := BlockKeys(db);
      forall i :: 0 <= i < |ks| ==> ReadableAt(db, ks[i])
  {
    hide Serialize, Deserialize, ListKeys, HeightOf, WellKeyed;
    ListIsExact(db, Blocks, Unbounded, Unbounded, LowestToHighest);
    var ks := BlockKeys(db);
    forall i | 0 <= i < |ks| ensures ReadableAt(db, ks[i]) {
      assert HeightsOf(ks)[i] in HeightsOf(ks);
      assert Stored(db, Blocks, HeightOf(ks[i]));
      KeyOfHeight(db, ks[i]);
    }
  }

  ghost predicate ReadableAt(db: Database, k: Bytes) {
    && k in db.vals
    && Deserialize(k) == Keys.Decoded.Key(Key.Block(HeightOf(k)))
    && k == Serialize(Key.Block(HeightOf(k)))
    && db.vals[k].BlockValue? && db.vals[k].block.height == HeightOf(k)
  }

  lemma KeyOfHeight(db: Database, b: Bytes)
    requires WellKeyed(db) && b in db.vals && Deserialize(b) == Keys.Decoded.Key(Key.Block(HeightOf(b)))
    ensures b == Serialize(Key.Block(HeightOf(b)))
  {
    hide Serialize, Deserialize, HeightOf;
    var k :| Serialize(k) == b;
    KeyRoundTrip(k);
  }

  lemma ListedBlocksRise(db: Database, bs: seq<Block>)
    requires WellKeyed(db) && Readable(db)
    requires |bs| == |BlockKeys(db)|
    requires forall i :: 0 <= i < |bs| ==> BlockKeys(db)[i] in db.vals && db.vals[BlockKeys(db)[i]] == BlockValue(bs[i])
    ensures RisingBlocks(db, bs)
  {
    hide Serialize, Deserialize, ListKeys, HeightOf, WellKeyed, Readable;
    var ks := BlockKeys(db);
    BlockKeysReadable(db);
    ListIsExact(db, Blocks, Unbounded, Unbounded, LowestToHighest);
    forall i | 0 <= i < |bs| ensures bs[i].height == HeightsOf(ks)[i] && GetBlock(db, bs[i].height) == Some(bs[i]) {
      assert ReadableAt(db, ks[i]);
    }
    forall h: U64 | Stored(db, Blocks, h) ensures exists i :: 0 <= i < |bs| && bs[i].height == h {
      assert h in HeightsOf(ks);
      var i :| 0 <= i < |ks| && HeightsOf(ks)[i] == h;
      assert bs[i].height == h;
    }
  }

  lemma {:induction false} IndexAllValid(db: Database, bs: seq<Block>)
    requires Valid(db)
    ensures Valid(IndexAll(db, bs))
    ensures Valid(SetVersion(IndexAll(db, bs), 1))
    decreases |bs|
  {
    hide Serialize;
    if bs != [] {
      var n := |bs| - 1;
      IndexAllValid(db, bs[..n]);
      WriteValid(IndexAll(db, bs[..n]), Encode(IndexEntries(bs[n])));
    }
    PutValid(IndexAll(db, bs), Serialize(StoreVersion), VersionValue(1));
  }

  lemma VersionIsSet(db: Database, v: nat)
    ensures GetVersion(SetVersion(db, v)) == v
  {
  }

  /** A store without a version entry is at version 0, so it is migrated; one filled by storing blocks is at
    version 1, so it is left alone. */
  lemma VersionMeaning(db: Database, blocks: seq<Block>)
    ensures Lookup(db, StoreVersion).None? ==> GetVersion(db) == 0
    ensures GetVersion(StoreAll(blocks)) == 1
  {
    hide Lookup, StoreAll;
    LookupsAreScans(blocks, StoreVersion);
  }

  lemma IndexEntriesLast(b: Block, k: Key, before: Option<Value>)
    ensures LastEntry(IndexEntries(b), k, before) ==
      match k {
        case TxnByHash(th) => TxnIn(b, |b.txns|, th, before)
        case NonEmptyBlock(h) => if h == b.height && b.txns != [] then Some(BlockValue(b)) else before
        case _ => before
      }
  {
    hide TxnEntries;
    LastEntryConcat(TxnEntries(b, |b.txns|), NonEmptyEntry(b), k, before);
    TxnEntriesLast(b, |b.txns|, k, before);
  }

  // ---------------------------------------------------------------------------------------
  // What migration rebuilds
  // ---------------------------------------------------------------------------------------

  predicate IsIndex(k: Key) {
    k.TxnByHash? || k.NonEmptyBlock?
  }

  /** Migration changes only the two indexes and the version. In an index it leaves exactly what storing the
    same blocks in rising height order leaves, and keeps what it held before where that leaves nothing:
    so a migration that was interrupted half-way can be repeated. */
  lemma {:induction false} MigrationRebuilds(db: Database, bs: seq<Block>, k: Key)
    ensures Lookup(IndexAll(db, bs), k) ==
      if IsIndex(k) && Lookup(StoreAll(bs), k).Some? then Lookup(StoreAll(bs), k) else Lookup(db, k)
    decreases |bs|
  {
    hide Serialize, Lookup, IndexEntries, WriteEntries, Set, TxnIn, GetMaxHeight;
    if bs == [] {
      CreatedLookup(k);
    } else {
      var n := |bs| - 1;
      var b := bs[n];
      MigrationRebuilds(db, bs[..n], k);
      WriteLookup(IndexAll(db, bs[..n]), IndexEntries(b), k);
      IndexEntriesLast(b, k, Lookup(IndexAll(db, bs[..n]), k));
      SetLookup(StoreAll(bs[..n]), b, k);
      if k.TxnByHash? {
        TxnInDefault(b, |b.txns|, k.hash, Lookup(StoreAll(bs[..n]), k));
        TxnInDefault(b, |b.txns|, k.hash, Lookup(IndexAll(db, bs[..n]), k));
      }
    }
  }

  /** A transaction found in the block does not depend on what was there before. */
  lemma {:induction false} TxnInDefault(b: Block, n: nat, th: U256, before: Option<Value>)
    requires n <= |b.txns|
    ensures TxnIn(b, n, th, before) == if TxnIn(b, n, th, None).Some? then TxnIn(b, n, th, None) else before
    decreases n
  {
    if n != 0 { TxnInDefault(b, n - 1, th, before); }
  }

  /** What any key holds once a version 0 store has been migrated: indexes as if its blocks had been stored in
    rising height order, version 1, everything else as before. */
  lemma MigratedLookup(db: Database, bs: seq<Block>, k: Key)
    ensures Lookup(SetVersion(IndexAll(db, bs), 1), k) ==
      if k.StoreVersion? then Some(VersionValue(1))
      else if IsIndex(k) && Lookup(StoreAll(bs), k).Some? then Lookup(StoreAll(bs), k)
      else Lookup(db, k)
  {
    hide Serialize, IndexAll, StoreAll;
    MigrationRebuilds(db, bs, k);
    if k != StoreVersion && Serialize(k) == Serialize(StoreVersion) { SerializeInjective(k, StoreVersion); }
  }

  /** Migrating a store whose first migration stopped after `done` blocks gives what one migration gives. */
  lemma RepeatedMigration(db: Database, done: nat, bs: seq<Block>, k: Key)
    requires done <= |bs|
    ensures Lookup(IndexAll(IndexAll(db, bs[..done]), bs), k) == Lookup(IndexAll(db, bs), k)
  {
    hide IndexAll, StoreAll, Lookup;
    MigrationRebuilds(db, bs[..done], k);
    MigrationRebuilds(IndexAll(db, bs[..done]), bs, k);
    MigrationRebuilds(db, bs, k);
    if IsIndex(k) && Lookup(StoreAll(bs[..done]), k).Some? {
      IndexStays(bs, done, k);
    }
  }

  /** Once an index key is set, storing more blocks leaves it set. */
  lemma {:induction false} IndexStays(bs: seq<Block>, done: nat, k: Key)
    requires done <= |bs| && IsIndex(k) && Lookup(StoreAll(bs[..done]), k).Some?
    ensures Lookup(StoreAll(bs), k).Some?
    decreases |bs|
  {
    hide Lookup, Set, TxnIn, GetMaxHeight;
    if done == |bs| {
      assert bs[..done] == bs;
    } else {
      var n := |bs| - 1;
      assert bs[..n][..done] == bs[..done];
      IndexStays(bs[..n], done, k);
      SetLookup(StoreAll(bs[..n]), bs[n], k);
      if k.TxnByHash? {
        TxnInDefault(bs[n], |bs[n].txns|, k.hash, Lookup(StoreAll(bs[..n]), k));
      }
    }
  }
}
