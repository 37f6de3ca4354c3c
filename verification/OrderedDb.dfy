/** The key-value database under the block store: byte keys kept in lexicographic order. */
module OrderedDb {
  import opened Util
  import opened Keys

  datatype Db<V> = Db(keys: seq<Bytes>, vals: map<Bytes, V>)

  ghost predicate Sorted(keys: seq<Bytes>) {
    forall i, j :: 0 <= i < j < |keys| ==> Less(keys[i], keys[j])
  }

  ghost predicate Valid<V>(db: Db<V>) {
    Sorted(db.keys) && forall k :: k in db.keys <==> k in db.vals
  }

  function Empty<V>(): Db<V> {
    Db([], map[])
  }

  function InsertKey(keys: seq<Bytes>, k: Bytes): seq<Bytes> {
    if keys == [] then [k]
    else if keys[0] == k then keys
    else if Less(k, keys[0]) then [k] + keys
    else [keys[0]] + InsertKey(keys[1..], k)
  }

  function Put<V>(db: Db<V>, k: Bytes, v: V): Db<V> {
    Db(InsertKey(db.keys, k), db.vals[k := v])
  }

  function Get<V>(db: Db<V>, k: Bytes): Option<V> {
    if k in db.vals then Some(db.vals[k]) else None
  }

  /** `DB::write`: the puts of a batch, in order. */
  function Write<V>(db: Db<V>, batch: seq<(Bytes, V)>): Db<V> {
    if batch == [] then db else
      var n := |batch| - 1;
      Put(Write(db, batch[..n]), batch[n].0, batch[n].1)
  }

  lemma {:induction false} InsertKeyElements(keys: seq<Bytes>, k: Bytes, x: Bytes)
    ensures x in InsertKey(keys, k) <==> x in keys || x == k
    decreases |keys|
  {
    if keys != [] {
      InsertKeyElements(keys[1..], k, x);
      assert keys == [keys[0]] + keys[1..];
    }
  }

  lemma {:induction false} InsertKeySorted(keys: seq<Bytes>, k: Bytes)
    requires Sorted(keys)
    ensures Sorted(InsertKey(keys, k))
    decreases |keys|
  {
    if keys == [] || keys[0] == k {
    } else if Less(k, keys[0]) {
      forall j | 0 <= j < |keys| ensures Less(k, keys[j]) {
        if j > 0 { LessTransitive(k, keys[0], keys[j]); }
      }
    } else {
      var rest := InsertKey(keys[1..], k);
      InsertKeySorted(keys[1..], k);
      LessTotal(k, keys[0]);
      forall j | 0 <= j < |rest| ensures Less(keys[0], rest[j]) {
        InsertKeyElements(keys[1..], k, rest[j]);
        if rest[j] in keys[1..] {
          var i :| 0 <= i < |keys[1..]| && keys[1..][i] == rest[j];
          assert keys[i + 1] == rest[j];
        }
      }
    }
  }

  lemma PutValid<V>(db: Db<V>, k: Bytes, v: V)
    requires Valid(db)
    ensures Valid(Put(db, k, v))
  {
    InsertKeySorted(db.keys, k);
    forall x ensures x in Put(db, k, v).keys <==> x in Put(db, k, v).vals {
      InsertKeyElements(db.keys, k, x);
    }
  }

  lemma {:induction false} WriteValid<V>(db: Db<V>, batch: seq<(Bytes, V)>)
    requires Valid(db)
    ensures Valid(Write(db, batch))
    decreases |batch|
  {
    if batch != [] {
      var n := |batch| - 1;
      WriteValid(db, batch[..n]);
      PutValid(Write(db, batch[..n]), batch[n].0, batch[n].1);
    }
  }

  /** What a batch leaves at a key: its last put there, or what was there before. */
  function LastPut<V>(batch: seq<(Bytes, V)>, k: Bytes, before: Option<V>): Option<V> {
    if batch == [] then before
    else if batch[|batch| - 1].0 == k then Some(batch[|batch| - 1].1)
    else LastPut(batch[..|batch| - 1], k, before)
  }

  lemma {:induction false} WriteGet<V>(db: Db<V>, batch: seq<(Bytes, V)>, k: Bytes)
    ensures Get(Write(db, batch), k) == LastPut(batch, k, Get(db, k))
    decreases |batch|
  {
    if batch != [] {
      WriteGet(db, batch[..|batch| - 1], k);
    }
  }

  lemma {:induction false} WriteConcat<V>(db: Db<V>, a: seq<(Bytes, V)>, b: seq<(Bytes, V)>)
    ensures Write(db, a + b) == Write(Write(db, a), b)
    decreases |b|
  {
    if b == [] {
      assert a + b == a;
    } else {
      var n := |b| - 1;
      assert (a + b)[..|a + b| - 1] == a + b[..n];
      WriteConcat(db, a, b[..n]);
    }
  }
}
