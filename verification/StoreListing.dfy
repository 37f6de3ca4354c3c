/** Listings of a store that was filled by `set`. */
module StoreListing {
  import opened Util
  import opened Keys
  import opened OrderedDb
  import opened Lists
  import opened BlockStore
  import opened Migration

  lemma PutWellKeyed(db: Database, k: Key, v: Value)
    requires WellKeyed(db)
    ensures WellKeyed(Put(db, Serialize(k), v))
  {
    hide Serialize;
    PutValid(db, Serialize(k), v);
  }

  lemma {:induction false} WriteWellKeyed(db: Database, es: seq<Entry>)
    requires WellKeyed(db)
    ensures WellKeyed(WriteEntries(db, es))
    decreases |es|
  {
    hide Serialize, WellKeyed;
    if es != [] {
      var n := |es| - 1;
      WriteWellKeyed(db, es[..n]);
      assert Encode(es)[..n] == Encode(es[..n]);
      PutWellKeyed(WriteEntries(db, es[..n]), es[n].0, es[n].1);
    }
  }

  /** Every store filled by `set` holds only encoded keys, each block under its own height. */
  lemma {:induction false} StoreIsWellKeyed(blocks: seq<Block>)
    ensures WellKeyed(StoreAll(blocks)) && Readable(StoreAll(blocks))
    decreases |blocks|
  {
    hide Serialize, SetEntries, GetMaxHeight;
    if blocks == [] {
      var empty: Database := Empty();
      PutWellKeyed(empty, StoreVersion, VersionValue(LATEST_VERSION));
    } else {
      var n := |blocks| - 1;
      StoreIsWellKeyed(blocks[..n]);
      WriteWellKeyed(StoreAll(blocks[..n]), SetEntries(blocks[n], GetMaxHeight(StoreAll(blocks[..n]))));
    }
    forall h: U64 | Stored(StoreAll(blocks), Blocks, h)
      ensures var v := StoreAll(blocks).vals[Serialize(Key.Block(h))];
        v.BlockValue? && v.block.height == h
    {
      StoredBlock(blocks, h);
    }
  }

  lemma StoredBlock(blocks: seq<Block>, h: U64)
    ensures Lookup(StoreAll(blocks), Key.Block(h)).Some? ==>
      var v := Lookup(StoreAll(blocks), Key.Block(h)).value;
      v.BlockValue? && v.block.height == h
    ensures Stored(StoreAll(blocks), Blocks, h) <==> exists i :: 0 <= i < |blocks| && blocks[i].height == h
    ensures Stored(StoreAll(blocks), NonEmptyBlocks, h) <==>
      exists i :: 0 <= i < |blocks| && blocks[i].height == h && blocks[i].txns != []
  {
    hide Serialize, StoreAll;
    LookupsAreScans(blocks, Key.Block(h));
    LookupsAreScans(blocks, NonEmptyBlock(h));
    LastBlockFinds(blocks, HasHeight(h));
    LastBlockFinds(blocks, NonEmptyAt(h));
    if i :| 0 <= i < |blocks| && blocks[i].height == h { assert HasHeight(h)(blocks[i]); }
    if i :| 0 <= i < |blocks| && blocks[i].height == h && blocks[i].txns != [] { assert NonEmptyAt(h)(blocks[i]); }
  }

  /** After any run of `set`, listing a range gives each height that was stored in it once, in the
    asked order; listing non-empty blocks gives the heights that ever held transactions. */
  lemma ListingAfterRun(blocks: seq<Block>, f: Family, start: Bound, end: Bound, order: Order)
    ensures var hs := HeightsOf(ListKeys(StoreAll(blocks), f, start, end, order));
      && InOrder(hs, order)
      && (forall h: U64 :: h in hs <==>
            AboveStart(h, start) && BelowEnd(h, end) &&
            exists i :: 0 <= i < |blocks| && blocks[i].height == h && (f.NonEmptyBlocks? ==> blocks[i].txns != []))
  {
    hide Serialize, StoreAll, WellKeyed, Readable, ListKeys, InOrder, HeightsOf, Stored;
    StoreIsWellKeyed(blocks);
    ListIsExact(StoreAll(blocks), f, start, end, order);
    forall h: U64
      ensures Stored(StoreAll(blocks), f, h) <==>
        exists i :: 0 <= i < |blocks| && blocks[i].height == h && (f.NonEmptyBlocks? ==> blocks[i].txns != [])
    {
      StoredBlock(blocks, h);
    }
  }
}
