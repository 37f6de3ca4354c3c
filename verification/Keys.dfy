/** Byte keys of the block store and the order RocksDB keeps them in. */
module Keys {
  import opened Util

  type Byte = x: int | 0 <= x < 256
  type Bytes = seq<Byte>

  const U64_BOUND: nat := 0x1_0000_0000_0000_0000
  type U64 = x: nat | x < U64_BOUND

  function Pow256(n: nat): (p: nat)
    ensures p > 0
  {
    if n == 0 then 1 else 256 * Pow256(n - 1)
  }

  /** A 32-byte array, by the number it spells in big-endian order. */
  type U256 = x: nat | x < Pow256(32)

  // ---------------------------------------------------------------------------------------
  // Lexicographic order
  // ---------------------------------------------------------------------------------------

  predicate Less(a: Bytes, b: Bytes) {
    b != [] && (a == [] || a[0] < b[0] || (a[0] == b[0] && Less(a[1..], b[1..])))
  }

  lemma {:induction false} LessIrreflexive(a: Bytes)
    ensures !Less(a, a)
    decreases |a|
  {
    if a != [] { LessIrreflexive(a[1..]); }
  }

  lemma {:induction false} LessTotal(a: Bytes, b: Bytes)
    ensures Less(a, b) || a == b || Less(b, a)
    decreases |a|
  {
    if a != [] && b != [] && a[0] == b[0] {
      LessTotal(a[1..], b[1..]);
      assert a == [a[0]] + a[1..] && b == [b[0]] + b[1..];
    }
  }

  lemma {:induction false} LessTransitive(a: Bytes, b: Bytes, c: Bytes)
    requires Less(a, b) && Less(b, c)
    ensures Less(a, c)
    decreases |a|
  {
    if a != [] && a[0] == b[0] && b[0] == c[0] {
      LessTransitive(a[1..], b[1..], c[1..]);
    }
  }

  lemma LessAsymmetric(a: Bytes, b: Bytes)
    requires Less(a, b)
    ensures !Less(b, a) && a != b
  {
    if Less(b, a) { LessTransitive(a, b, a); }
    LessIrreflexive(a);
  }

  /** Appending a zero byte gives the immediate successor: nothing lies strictly between. */
  lemma {:induction false} ZeroByteIsSuccessor(a: Bytes, x: Bytes)
    ensures Less(a, a + [0])
    ensures Less(a, x) <==> !Less(x, a + [0])
    decreases |a|
  {
    if a == [] {
      assert x != [] ==> !Less(x[1..], []);
    } else {
      assert (a + [0])[1..] == a[1..] + [0];
      ZeroByteIsSuccessor(a[1..], if x == [] then [] else x[1..]);
    }
  }

  /** Equal-length prefixes decide first. */
  lemma {:induction false} LessConcat(a: Bytes, b: Bytes, x: Bytes, y: Bytes)
    requires |a| == |b|
    ensures Less(a + x, b + y) <==> Less(a, b) || (a == b && Less(x, y))
    decreases |a|
  {
    if a == [] {
      assert a + x == x && b + y == y;
    } else {
      assert (a + x)[1..] == a[1..] + x && (b + y)[1..] == b[1..] + y;
      LessConcat(a[1..], b[1..], x, y);
      assert a == [a[0]] + a[1..] && b == [b[0]] + b[1..];
      if a[0] == b[0] && a == b { assert a[1..] == b[1..]; }
    }
  }

  // ---------------------------------------------------------------------------------------
  // Big-endian numbers
  // ---------------------------------------------------------------------------------------

  function ToBe(n: nat, len: nat): (b: Bytes)
    ensures |b| == len
    decreases len
  {
    if len == 0 then [] else ToBe(n / 256, len - 1) + [n % 256]
  }

  function FromBe(b: Bytes): nat {
    if b == [] then 0 else FromBe(b[..|b| - 1]) * 256 + b[|b| - 1]
  }

  lemma {:induction false} FromToBe(n: nat, len: nat)
    requires n < Pow256(len)
    ensures FromBe(ToBe(n, len)) == n
    decreases len
  {
    if len != 0 {
      FromToBe(n / 256, len - 1);
      assert ToBe(n, len)[..len - 1] == ToBe(n / 256, len - 1);
    }
  }

  lemma {:induction false} ToFromBe(b: Bytes)
    ensures FromBe(b) < Pow256(|b|)
    ensures ToBe(FromBe(b), |b|) == b
    decreases |b|
  {
    if b != [] {
      ToFromBe(b[..|b| - 1]);
      assert b == b[..|b| - 1] + [b[|b| - 1]];
    }
  }

  /** Big-endian bytes compare as the numbers they spell. */
  lemma {:induction false} ToBeOrdered(n: nat, m: nat, len: nat)
    requires n < Pow256(len) && m < Pow256(len)
    ensures Less(ToBe(n, len), ToBe(m, len)) <==> n < m
    ensures ToBe(n, len) == ToBe(m, len) ==> n == m
    decreases len
  {
    FromToBe(n, len);
    FromToBe(m, len);
    if len != 0 {
      ToBeOrdered(n / 256, m / 256, len - 1);
      LessConcat(ToBe(n / 256, len - 1), ToBe(m / 256, len - 1), [n % 256], [m % 256]);
      FromToBe(n / 256, len - 1);
      FromToBe(m / 256, len - 1);
    }
  }

  lemma U64Fits(h: U64)
    ensures h < Pow256(8)
  {
    assert Pow256(8) == 256 * (256 * (256 * (256 * Pow256(4))));
    assert Pow256(4) == 256 * (256 * (256 * (256 * Pow256(0))));
  }

  // ---------------------------------------------------------------------------------------
  // Keys
  // ---------------------------------------------------------------------------------------

  datatype HistoryKind = Input | Output

  datatype Key =
    | Block(height: U64)
    | MaxHeight
    | BlockHashToHeight(hash: U256)
    | PendingBlock
    | TxnByHash(hash: U256)
    | StoreVersion
    | NonEmptyBlock(height: U64)
    | LockedElement(element: U256)
    | ElementHistory(element: U256, side: HistoryKind)
    | MintHash(element: U256)

  function KindByte(k: Key): Byte {
    match k
    case Block(_) => 0
    case MaxHeight => 1
    case BlockHashToHeight(_) => 2
    case PendingBlock => 3
    case TxnByHash(_) => 4
    case StoreVersion => 5
    case NonEmptyBlock(_) => 6
    case LockedElement(_) => 7
    case ElementHistory(_, _) => 8
    case MintHash(_) => 9
  }

  function SideByte(side: HistoryKind): Byte {
    if side.Input? then 0 else 1
  }

  function Payload(k: Key): Bytes {
    match k
    case Block(h) => ToBe(h, 8)
    case MaxHeight => []
    case BlockHashToHeight(hash) => ToBe(hash, 32)
    case PendingBlock => []
    case TxnByHash(hash) => ToBe(hash, 32)
    case StoreVersion => []
    case NonEmptyBlock(h) => ToBe(h, 8)
    case LockedElement(e) => ToBe(e, 32)
    case ElementHistory(e, side) => ToBe(e, 32) + [SideByte(side)]
    case MintHash(e) => ToBe(e, 32)
  }

  function Serialize(k: Key): Bytes {
    [KindByte(k)] + Payload(k)
  }

  function SerializeSuccessor(k: Key): Bytes {
    Serialize(k) + [0]
  }

  /** `Key::deserialize`: slicing past the end, or an unknown history side, panics. */
  datatype Decoded = Key(key: Key) | InvalidKey | Panic

  function DecodeHeight(b: Bytes): U64
    requires |b| >= 8
  {
    ToFromBe(b[..8]);
    Pow8();
    FromBe(b[..8])
  }

  lemma Pow8()
    ensures Pow256(8) == U64_BOUND
  {
    assert Pow256(8) == 256 * (256 * (256 * (256 * Pow256(4))));
    assert Pow256(4) == 256 * (256 * (256 * (256 * Pow256(0))));
  }

  function Decode32(b: Bytes): U256
    requires |b| >= 32
  {
    ToFromBe(b[..32]);
    FromBe(b[..32])
  }

  function Deserialize(bytes: Bytes): Decoded {
    if bytes == [] then InvalidKey else
      var b := bytes[1..];
      match bytes[0]
      case 0 => if |b| < 8 then Panic else Key(Block(DecodeHeight(b)))
      case 1 => Key(MaxHeight)
      case 2 => if |b| < 32 then Panic else Key(BlockHashToHeight(Decode32(b)))
      case 3 => Key(PendingBlock)
      case 4 => if |b| < 32 then Panic else Key(TxnByHash(Decode32(b)))
      case 5 => Key(StoreVersion)
      case 6 => if |b| < 8 then Panic else Key(NonEmptyBlock(DecodeHeight(b)))
      case 7 => if |b| < 32 then Panic else Key(LockedElement(Decode32(b)))
      case 8 => if |b| < 33 || b[32] > 1 then Panic
                else Key(ElementHistory(Decode32(b), if b[32] == 0 then Input else Output))
      case 9 => if |b| < 32 then Panic else Key(MintHash(Decode32(b)))
      case _ => InvalidKey
  }

  lemma DecodeHeightOf(h: U64)
    ensures DecodeHeight(ToBe(h, 8)) == h
  {
    U64Fits(h);
    FromToBe(h, 8);
    assert ToBe(h, 8)[..8] == ToBe(h, 8);
  }

  lemma Decode32Of(e: U256, tail: Bytes)
    ensures Decode32(ToBe(e, 32) + tail) == e
  {
    FromToBe(e, 32);
    assert (ToBe(e, 32) + tail)[..32] == ToBe(e, 32);
  }

  /** Every key survives the trip through bytes. */
  lemma KeyRoundTrip(k: Key)
    ensures Deserialize(Serialize(k)) == Key(k)
  {
    hide Pow256, ToBe, FromBe, Decode32, DecodeHeight;
    assert Serialize(k)[1..] == Payload(k);
    match k
    case Block(h) => DecodeHeightOf(h);
    case NonEmptyBlock(h) => DecodeHeightOf(h);
    case BlockHashToHeight(e) => Decode32Of(e, []); assert Payload(k) + [] == Payload(k);
    case TxnByHash(e) => Decode32Of(e, []); assert Payload(k) + [] == Payload(k);
    case LockedElement(e) => Decode32Of(e, []); assert Payload(k) + [] == Payload(k);
    case ElementHistory(e, side) => Decode32Of(e, [SideByte(side)]);
    case MintHash(e) => Decode32Of(e, []); assert Payload(k) + [] == Payload(k);
    case _ =>
  }

  /** Bytes are read as a key exactly when they begin with that key's bytes; what follows is not looked at. Only an
    empty input and an unknown kind are errors: a known kind with too little behind it panics. */
  lemma DeserializeExactly(bytes: Bytes, k: Key)
    ensures Deserialize(bytes) == Key(k) <==> Serialize(k) <= bytes
    ensures Deserialize(bytes).InvalidKey? <==> bytes == [] || bytes[0] > 9
  {
    hide Pow256, ToBe, FromBe;
    if Serialize(k) <= bytes {
      PrefixDecides(bytes, k);
      KeyRoundTrip(k);
    } else if Deserialize(bytes) == Key(k) {
      DecodedIsPrefix(bytes);
    }
  }

  lemma PrefixDecides(bytes: Bytes, k: Key)
    requires Serialize(k) <= bytes
    ensures Deserialize(bytes) == Deserialize(Serialize(k))
  {
    hide Pow256, ToBe, FromBe;
    var b, p := bytes[1..], Payload(k);
    assert Serialize(k)[1..] == p && b[..|p|] == p;
    if |p| >= 8 { assert b[..8] == p[..8]; }
    if |p| >= 32 { assert b[..32] == p[..32]; }
  }

  lemma DecodedIsPrefix(bytes: Bytes)
    requires Deserialize(bytes).Key?
    ensures Serialize(Deserialize(bytes).key) <= bytes
  {
    hide Pow256, ToBe, FromBe;
    var b := bytes[1..];
    if |b| >= 8 { ToFromBe(b[..8]); }
    if |b| >= 32 { ToFromBe(b[..32]); }
    if |b| >= 33 { assert b[..33] == b[..32] + [b[32]]; }
    assert bytes == [bytes[0]] + b;
  }

  lemma SerializeInjective(j: Key, k: Key)
    requires Serialize(j) == Serialize(k)
    ensures j == k
  {
    KeyRoundTrip(j);
    KeyRoundTrip(k);
  }
}
