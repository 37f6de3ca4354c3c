/** Listing blocks by height range through byte-level iterator bounds. */
module Lists {
  import opened Util
  import opened Keys
  import opened OrderedDb

  datatype Bound = Included(height: U64) | Excluded(height: U64) | Unbounded

  datatype Order = LowestToHighest | HighestToLowest

  function ReverseOrder(o: Order): Order {
    if o.LowestToHighest? then HighestToLowest else LowestToHighest
  }

  /** The two listable key families: all blocks, and blocks with transactions. */
  datatype Family = Blocks | NonEmptyBlocks

  function HeightKey(f: Family, h: U64): Key {
    if f.Blocks? then Block(h) else NonEmptyBlock(h)
  }

  const MIN_HEIGHT: U64 := 0
  const MAX_HEIGHT: U64 := 0xFFFF_FFFF_FFFF_FFFF

  function LowerBytes(f: Family, start: Bound): Bytes {
    match start
    case Included(h) => Serialize(HeightKey(f, h))
    case Excluded(h) => SerializeSuccessor(HeightKey(f, h))
    case Unbounded => Serialize(HeightKey(f, MIN_HEIGHT))
  }

  function UpperBytes(f: Family, end: Bound): Bytes {
    match end
    case Included(h) => SerializeSuccessor(HeightKey(f, h))
    case Excluded(h) => Serialize(HeightKey(f, h))
    case Unbounded => SerializeSuccessor(HeightKey(f, MAX_HEIGHT))
  }

  predicate Between(k: Bytes, lower: Bytes, upper: Bytes) {
    !Less(k, lower) && Less(k, upper)
  }

  /** RocksDB's iterator: the stored keys between the bounds, lower bound in, upper bound out. */
  function Scan(keys: seq<Bytes>, lower: Bytes, upper: Bytes): (out: seq<Bytes>)
    ensures forall k :: k in out <==> k in keys && Between(k, lower, upper)
  {
    if keys == [] then [] else
      var n := |keys| - 1;
      assert keys == keys[..n] + [keys[n]];
      Scan(keys[..n], lower, upper) + (if Between(keys[n], lower, upper) then [keys[n]] else [])
  }

  function Reverse<A>(s: seq<A>): (r: seq<A>)
    ensures |r| == |s|
    ensures forall i :: 0 <= i < |s| ==> r[i] == s[|s| - 1 - i]
  {
    if s == [] then [] else [s[|s| - 1]] + Reverse(s[..|s| - 1])
  }

  /** `ListableKey::list` and `List::into_iterator`: the raw keys, in the asked order. */
  function ListKeys<V>(db: Db<V>, f: Family, start: Bound, end: Bound, order: Order): seq<Bytes> {
    var up := Scan(db.keys, LowerBytes(f, start), UpperBytes(f, end));
    if order.LowestToHighest? then up else Reverse(up)
  }

  // ---------------------------------------------------------------------------------------
  // The same list, seen as heights
  // ---------------------------------------------------------------------------------------

  predicate AboveStart(h: U64, start: Bound) {
    match start
    case Included(x) => x <= h
    case Excluded(x) => x < h
    case Unbounded => true
  }

  predicate BelowEnd(h: U64, end: Bound) {
    match end
    case Included(x) => h <= x
    case Excluded(x) => h < x
    case Unbounded => true
  }

  predicate Stored<V>(db: Db<V>, f: Family, h: U64) {
    Serialize(HeightKey(f, h)) in db.vals
  }

  /** Every key of the database is the encoding of a key; `set` and `migrate` write no others. */
  ghost predicate WellKeyed<V>(db: Db<V>) {
    Valid(db) && forall b :: b in db.vals ==> exists k :: Serialize(k) == b
  }

  ghost predicate Rising(hs: seq<U64>) {
    forall i, j :: 0 <= i < j < |hs| ==> hs[i] < hs[j]
  }

  ghost predicate Falling(hs: seq<U64>) {
    forall i, j :: 0 <= i < j < |hs| ==> hs[i] > hs[j]
  }

  ghost predicate InOrder(hs: seq<U64>, order: Order) {
    if order.LowestToHighest? then Rising(hs) else Falling(hs)
  }

  lemma HeightKeyOrder(f: Family, a: U64, b: U64)
    ensures Less(Serialize(HeightKey(f, a)), Serialize(HeightKey(f, b))) <==> a < b
  {
    U64Fits(a);
    U64Fits(b);
    ToBeOrdered(a, b, 8);
    var k: Byte := KindByte(HeightKey(f, a));
    LessConcat([k], [k], ToBe(a, 8), ToBe(b, 8));
    LessIrreflexive([k]);
  }

  lemma KindDecides(j: Key, k: Key, tail: Bytes)
    ensures KindByte(j) < KindByte(k) ==> Less(Serialize(j), Serialize(k)) && Less(Serialize(j) + tail, Serialize(k))
    ensures KindByte(j) < KindByte(k) ==> !Less(Serialize(k), Serialize(j)) && !Less(Serialize(k), Serialize(j) + tail)
  {
  }

  lemma SuccessorOrder(f: Family, h: U64, x: U64)
    ensures Less(Serialize(HeightKey(f, x)), SerializeSuccessor(HeightKey(f, h))) <==> x <= h
  {
    ZeroByteIsSuccessor(Serialize(HeightKey(f, h)), Serialize(HeightKey(f, x)));
    HeightKeyOrder(f, h, x);
  }

  /** The byte bounds select exactly the family's keys with heights in the range. */
  lemma BoundsAreExact(f: Family, start: Bound, end: Bound, k: Key)
    ensures Between(Serialize(k), LowerBytes(f, start), UpperBytes(f, end)) <==>
      (exists h: U64 :: k == HeightKey(f, h) && AboveStart(h, start) && BelowEnd(h, end))
  {
    hide ToBe, Less, Payload;
    if h: U64 :| k == HeightKey(f, h) {
      match start {
        case Included(x) => HeightKeyOrder(f, h, x);
        case Excluded(x) => SuccessorOrder(f, x, h);
        case Unbounded => HeightKeyOrder(f, h, MIN_HEIGHT);
      }
      match end {
        case Included(x) => SuccessorOrder(f, x, h);
        case Excluded(x) => HeightKeyOrder(f, h, x);
        case Unbounded => SuccessorOrder(f, MAX_HEIGHT, h);
      }
    } else {
      OtherKindOutside(f, start, end, k);
    }
  }

  lemma OtherKindOutside(f: Family, start: Bound, end: Bound, k: Key)
    requires forall h: U64 :: k != HeightKey(f, h)
    ensures !Between(Serialize(k), LowerBytes(f, start), UpperBytes(f, end))
  {
    hide ToBe, Less, Payload;
    var lo := HeightKey(f, if start.Unbounded? then MIN_HEIGHT else start.height);
    var hi := HeightKey(f, if end.Unbounded? then MAX_HEIGHT else end.height);
    assert k.Block? ==> k == Block(k.height);
    assert k.NonEmptyBlock? ==> k == NonEmptyBlock(k.height);
    if k.Block? { assert f.NonEmptyBlocks? by { assert k != HeightKey(f, k.height); } }
    if k.NonEmptyBlock? { assert f.Blocks? by { assert k != HeightKey(f, k.height); } }
    KindDecides(k, lo, []);
    KindDecides(hi, k, [0]);
    if KindByte(k) < KindByte(lo) {
      SuccessorKeepsLess(Serialize(k), Serialize(lo));
    }
  }

  lemma SuccessorKeepsLess(a: Bytes, b: Bytes)
    requires Less(a, b)
    ensures Less(a, b + [0])
  {
    ZeroByteIsSuccessor(b, a);
    LessAsymmetric(a, b);
  }

  lemma {:induction false} ScanSorted(keys: seq<Bytes>, lower: Bytes, upper: Bytes)
    requires Sorted(keys)
    ensures Sorted(Scan(keys, lower, upper))
    decreases |keys|
  {
    if keys != [] {
      var n := |keys| - 1;
      ScanSorted(keys[..n], lower, upper);
      var init := Scan(keys[..n], lower, upper);
      forall i | 0 <= i < |init| ensures Less(init[i], keys[n]) {
        assert init[i] in keys[..n];
      }
    }
  }

  /** The height a raw key decodes to. */
  function HeightOf(b: Bytes): U64 {
    match Deserialize(b)
    case Key(Block(h)) => h
    case Key(NonEmptyBlock(h)) => h
    case _ => 0
  }

  function HeightsOf(ks: seq<Bytes>): (hs: seq<U64>)
    ensures |hs| == |ks|
    ensures forall i :: 0 <= i < |ks| ==> hs[i] == HeightOf(ks[i])
  {
    if ks == [] then [] else HeightsOf(ks[..|ks| - 1]) + [HeightOf(ks[|ks| - 1])]
  }

  /** `b` is the encoding of some height of the family. */
  ghost predicate IsHeightKey(f: Family, b: Bytes) {
    exists h: U64 :: b == Serialize(HeightKey(f, h))
  }

  ghost predicate AllHeightKeys(f: Family, ks: seq<Bytes>) {
    forall i :: 0 <= i < |ks| ==> IsHeightKey(f, ks[i])
  }

  lemma HeightOfKey(f: Family, b: Bytes)
    requires IsHeightKey(f, b)
    ensures Serialize(HeightKey(f, HeightOf(b))) == b
    ensures Deserialize(b) == Keys.Decoded.Key(HeightKey(f, HeightOf(b)))
  {
    hide Serialize, Deserialize;
    var h: U64 :| b == Serialize(HeightKey(f, h));
    KeyRoundTrip(HeightKey(f, h));
  }

  /** What an ascending scan finds, as heights. */
  lemma ScanIsExact<V>(db: Db<V>, f: Family, start: Bound, end: Bound)
    requires WellKeyed(db)
    ensures var up := Scan(db.keys, LowerBytes(f, start), UpperBytes(f, end));
      && AllHeightKeys(f, up)
      && Rising(HeightsOf(up))
      && (forall h: U64 :: h in HeightsOf(up) <==> Stored(db, f, h) && AboveStart(h, start) && BelowEnd(h, end))
  {
    hide Less, Serialize, Deserialize, HeightOf;
    var up := Scan(db.keys, LowerBytes(f, start), UpperBytes(f, end));
    forall i | 0 <= i < |up| ensures IsHeightKey(f, up[i]) {
      assert up[i] in up;
      var k :| Serialize(k) == up[i];
      BoundsAreExact(f, start, end, k);
    }
    ScanSorted(db.keys, LowerBytes(f, start), UpperBytes(f, end));
    forall i, j | 0 <= i < j < |up| ensures HeightsOf(up)[i] < HeightsOf(up)[j] {
      HeightOfKey(f, up[i]);
      HeightOfKey(f, up[j]);
      HeightKeyOrder(f, HeightOf(up[i]), HeightOf(up[j]));
    }
    forall h: U64
      ensures h in HeightsOf(up) <==> Stored(db, f, h) && AboveStart(h, start) && BelowEnd(h, end)
    {
      HeightInScan(db, f, start, end, h);
    }
  }

  lemma HeightInScan<V>(db: Db<V>, f: Family, start: Bound, end: Bound, h: U64)
    requires WellKeyed(db)
    requires AllHeightKeys(f, Scan(db.keys, LowerBytes(f, start), UpperBytes(f, end)))
    ensures h in HeightsOf(Scan(db.keys, LowerBytes(f, start), UpperBytes(f, end)))
       <==> Stored(db, f, h) && AboveStart(h, start) && BelowEnd(h, end)
  {
    hide Less, Serialize, Deserialize, HeightOf;
    var key := Serialize(HeightKey(f, h));
    var up := Scan(db.keys, LowerBytes(f, start), UpperBytes(f, end));
    BoundsAreExact(f, start, end, HeightKey(f, h));
    assert key in up <==> Stored(db, f, h) && AboveStart(h, start) && BelowEnd(h, end);
    if h in HeightsOf(up) {
      var i :| 0 <= i < |up| && HeightsOf(up)[i] == h;
      HeightOfKey(f, up[i]);
      assert up[i] == key;
    }
    if key in up {
      var i :| 0 <= i < |up| && up[i] == key;
      HeightOfKey(f, up[i]);
      SerializeInjective(HeightKey(f, HeightOf(up[i])), HeightKey(f, h));
      assert HeightsOf(up)[i] == h;
    }
  }

  lemma ReverseHeights(ks: seq<Bytes>)
    ensures HeightsOf(Reverse(ks)) == Reverse(HeightsOf(ks))
    ensures forall h :: h in Reverse(HeightsOf(ks)) <==> h in HeightsOf(ks)
  {
    hide HeightOf;
    var hs := HeightsOf(ks);
    forall h | h in hs ensures h in Reverse(hs) {
      var i :| 0 <= i < |hs| && hs[i] == h;
      assert Reverse(hs)[|hs| - 1 - i] == h;
    }
  }

  /** Every raw key is stored and decodes to its height. */
  ghost predicate Decodes<V>(db: Db<V>, f: Family, ks: seq<Bytes>) {
    forall i :: 0 <= i < |ks| ==>
      ks[i] in db.vals && Deserialize(ks[i]) == Keys.Decoded.Key(HeightKey(f, HeightOf(ks[i])))
  }

  lemma ScanDecodes<V>(db: Db<V>, f: Family, lower: Bytes, upper: Bytes)
    requires Valid(db) && AllHeightKeys(f, Scan(db.keys, lower, upper))
    ensures Decodes(db, f, Scan(db.keys, lower, upper)) && Decodes(db, f, Reverse(Scan(db.keys, lower, upper)))
  {
    hide Less, Serialize, Deserialize, HeightOf;
    var up := Scan(db.keys, lower, upper);
    forall i | 0 <= i < |up|
      ensures up[i] in db.vals && Deserialize(up[i]) == Keys.Decoded.Key(HeightKey(f, HeightOf(up[i])))
    {
      assert up[i] in up;
      HeightOfKey(f, up[i]);
    }
  }

  /** A listing is exactly the stored heights of the range, in the asked order, and every raw key
    in it decodes to its height. */
  lemma ListIsExact<V>(db: Db<V>, f: Family, start: Bound, end: Bound, order: Order)
    requires WellKeyed(db)
    ensures var ks := ListKeys(db, f, start, end, order);
      && InOrder(HeightsOf(ks), order)
      && (forall h: U64 :: h in HeightsOf(ks) <==> Stored(db, f, h) && AboveStart(h, start) && BelowEnd(h, end))
      && Decodes(db, f, ks)
  {
    hide Less, Serialize, Deserialize, HeightOf, Stored, LowerBytes, UpperBytes, Between, Decodes, AllHeightKeys;
    var up := Scan(db.keys, LowerBytes(f, start), UpperBytes(f, end));
    ScanIsExact(db, f, start, end);
    ReverseHeights(up);
    ScanDecodes(db, f, LowerBytes(f, start), UpperBytes(f, end));
  }
}
