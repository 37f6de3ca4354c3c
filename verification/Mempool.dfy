/** The pool of pending transactions: a queue of free keys, and keys leased to proposals being built. */
module Mempool {
  import opened Util

  datatype AddError<C> = Conflict(change: C) | DuplicateKey

  datatype Pending<V, C> = Pending(txn: V, changes: seq<C>)

  /** The contents of the pool, as a value. */
  datatype Pool<K, V, L, C> = Pool(txns: map<K, Pending<V, C>>, queue: seq<K>, leased: map<L, set<K>>)

  // ---------------------------------------------------------------------------------------
  // Steps on values
  // ---------------------------------------------------------------------------------------

  predicate Taken<K, V, C(==)>(txns: map<K, Pending<V, C>>, change: C) {
    exists k :: k in txns && change in txns[k].changes
  }

  /** The first of `changes` that some pending transaction also makes. */
  function FirstTaken<K, V, C(==)>(txns: map<K, Pending<V, C>>, changes: seq<C>): Option<C> {
    if changes == [] then None
    else if Taken(txns, changes[0]) then Some(changes[0])
    else FirstTaken(txns, changes[1..])
  }

  function AddStep<K(==), V, L, C(==)>(p: Pool<K, V, L, C>, key: K, txn: V, changes: seq<C>): (Pool<K, V, L, C>, Option<AddError<C>>) {
    var taken := FirstTaken(p.txns, changes);
    if taken.Some? then (p, Some(Conflict(taken.value)))
    else if key in p.txns then (p, Some(DuplicateKey))
    else (p.(txns := p.txns[key := Pending(txn, changes)], queue := p.queue + [key]), None)
  }

  /** `s` without the first occurrence of `x`. */
  function RemoveFirst<K(==)>(s: seq<K>, x: K): seq<K> {
    if s == [] then []
    else if s[0] == x then s[1..]
    else [s[0]] + RemoveFirst(s[1..], x)
  }

  function HeldBy<K, L(==)>(leased: map<L, set<K>>, lease: L): set<K> {
    if lease in leased then leased[lease] else {}
  }

  function CommitKey<K(==), V, L(==), C>(p: Pool<K, V, L, C>, lease: L, key: K): Pool<K, V, L, C> {
    Pool(p.txns - {key}, RemoveFirst(p.queue, key),
         if lease in p.leased then p.leased[lease := p.leased[lease] - {key}] else p.leased)
  }

  function CommitKeys<K(==), V, L(==), C>(p: Pool<K, V, L, C>, lease: L, keys: seq<K>): Pool<K, V, L, C> {
    if keys == [] then p
    else CommitKey(CommitKeys(p, lease, keys[..|keys| - 1]), lease, keys[|keys| - 1])
  }

  /** Give a lease up: its keys go to the front, in the order `order`. */
  function FreeStep<K, V, L(==), C>(p: Pool<K, V, L, C>, lease: L, order: seq<K>): Pool<K, V, L, C> {
    Pool(p.txns, order + p.queue, p.leased - {lease})
  }

  /** `order` lists the members of `s`, each once. */
  ghost predicate Enumerates<K>(order: seq<K>, s: set<K>) {
    Distinct(order) && (forall k :: k in order ==> k in s) && (forall k :: k in s ==> k in order)
  }

  function LeaseKey<K(==), V, L(==), C>(p: Pool<K, V, L, C>, lease: L, key: K): Pool<K, V, L, C> {
    Pool(p.txns, RemoveFirst(p.queue, key), p.leased[lease := HeldBy(p.leased, lease) + {key}])
  }

  function LeaseKeys<K(==), V, L(==), C>(p: Pool<K, V, L, C>, lease: L, keys: seq<K>): Pool<K, V, L, C> {
    if keys == [] then p
    else LeaseKey(LeaseKeys(p, lease, keys[..|keys| - 1]), lease, keys[|keys| - 1])
  }

  /** Where `lease_batch` stands: what it took, the changes seen, the keys passed over, and whether it failed. */
  datatype Draining<K, V, L, C> =
    | Going(pool: Pool<K, V, L, C>, batch: seq<(K, V)>, seen: set<C>, passed: seq<K>)
    | Finished(pool: Pool<K, V, L, C>, batch: seq<(K, V)>)
    | Panicked

  predicate Clashes<C(==)>(changes: seq<C>, seen: set<C>) {
    exists c :: c in changes && c in seen
  }

  /** One turn of the loop. */
  function DrainStep<K(==), V, L(==), C(==)>(d: Draining<K, V, L, C>, lease: L, max: nat): Draining<K, V, L, C>
    requires d.Going?
  {
    var p := d.pool;
    if p.queue == [] then Finished(p.(queue := d.passed), d.batch)
    else
      var key, rest := p.queue[0], p.queue[1..];
      if key !in p.txns then Panicked
      else if Clashes(p.txns[key].changes, d.seen) then
        Going(p.(queue := rest), d.batch, d.seen, d.passed + [key])
      else
        var q := Pool(p.txns, rest, p.leased[lease := HeldBy(p.leased, lease) + {key}]);
        var batch := d.batch + [(key, p.txns[key].txn)];
        if |batch| >= max then Finished(q.(queue := rest + d.passed), batch)
        else Going(q, batch, d.seen + (set c | c in p.txns[key].changes), d.passed)
  }

  function Drain<K(==), V, L(==), C(==)>(d: Draining<K, V, L, C>, lease: L, max: nat): Draining<K, V, L, C>
    ensures !Drain(d, lease, max).Going?
    decreases if d.Going? then |d.pool.queue| + 1 else 0
  {
    if d.Going? then Drain(DrainStep(d, lease, max), lease, max) else d
  }

  function LeaseBatch<K(==), V, L(==), C(==)>(p: Pool<K, V, L, C>, lease: L, max: nat): Draining<K, V, L, C> {
    Drain(Going(p, [], {}, []), lease, max)
  }

  // ---------------------------------------------------------------------------------------
  // The object
  // ---------------------------------------------------------------------------------------

  method WithoutFirst<K(==)>(s: seq<K>, x: K) returns (rest: seq<K>)
    ensures rest == RemoveFirst(s, x)
  {
    var i := 0;
    while i < |s| && s[i] != x
      invariant 0 <= i <= |s|
      invariant RemoveFirst(s, x) == s[..i] + RemoveFirst(s[i..], x)
    {
      assert s[i..][1..] == s[i + 1..];
      assert s[..i] + [s[i]] == s[..i + 1];
      i := i + 1;
    }
    if i < |s| {
      assert s[i..][1..] == s[i + 1..];
      return s[..i] + s[i + 1..];
    }
    return s;
  }

  class Mempool<K(==), V, L(==), C(==)> {
    var txns: map<K, Pending<V, C>>
    var pool: seq<K>
    var leased: map<L, set<K>>

    function View(): Pool<K, V, L, C>
      reads this
    {
      Pool(txns, pool, leased)
    }

    constructor ()
      ensures View() == Pool(map[], [], map[])
    {
      txns, pool, leased := map[], [], map[];
    }

    method Add(key: K, txn: V, changes: seq<C>) returns (error: Option<AddError<C>>)
      modifies this
      ensures (View(), error) == AddStep(old(View()), key, txn, changes)
    {
      for i := 0 to |changes|
        invariant unchanged(this)
        invariant FirstTaken(txns, changes) == FirstTaken(txns, changes[i..])
      {
        if Taken(txns, changes[i]) {
          return Some(Conflict(changes[i]));
        }
        assert changes[i..][1..] == changes[i + 1..];
      }
      if key in txns {
        return Some(DuplicateKey);
      }
      txns := txns[key := Pending(txn, changes)];
      pool := pool + [key];
      return None;
    }

    /** A commit drops the lock between its two halves; here nothing comes between them. */
    method Commit(lease: L, keys: seq<K>) returns (ghost order: seq<K>)
      modifies this
      ensures Enumerates(order, HeldBy(CommitKeys(old(View()), lease, keys).leased, lease))
      ensures View() == FreeStep(CommitKeys(old(View()), lease, keys), lease, order)
    {
      Remove(lease, keys);
      order := Free(lease);
    }

    /** The half of a commit under the first hold of the lock. */
    method Remove(lease: L, keys: seq<K>)
      modifies this
      ensures View() == CommitKeys(old(View()), lease, keys)
    {
      for i := 0 to |keys|
        invariant View() == CommitKeys(old(View()), lease, keys[..i])
      {
        assert keys[..i + 1][..i] == keys[..i];
        txns := txns - {keys[i]};
        if lease in leased {
          leased := leased[lease := leased[lease] - {keys[i]}];
        }
        pool := WithoutFirst(pool, keys[i]);
      }
      assert keys[..|keys|] == keys;
    }

    method Free(lease: L) returns (ghost order: seq<K>)
      modifies this
      ensures Enumerates(order, HeldBy(old(leased), lease))
      ensures View() == FreeStep(old(View()), lease, order)
    {
      var keys := HeldBy(leased, lease);
      leased := leased - {lease};
      order := [];
      while keys != {}
        invariant txns == old(txns) && leased == old(leased) - {lease}
        invariant pool == order + old(pool)
        invariant Distinct(order) && keys <= HeldBy(old(leased), lease)
        invariant forall k :: k in HeldBy(old(leased), lease) ==> (k in keys <==> k !in order)
        invariant forall k :: k in order ==> k in HeldBy(old(leased), lease)
        decreases |keys|
      {
        var k :| k in keys;
        keys := keys - {k};
        pool := [k] + pool;
        order := [k] + order;
      }
    }

    method LeaseTxns(lease: L, keys: seq<K>)
      modifies this
      ensures View() == LeaseKeys(old(View()), lease, keys)
    {
      for i := 0 to |keys|
        invariant View() == LeaseKeys(old(View()), lease, keys[..i])
      {
        assert keys[..i + 1][..i] == keys[..i];
        pool := WithoutFirst(pool, keys[i]);
        leased := leased[lease := HeldBy(leased, lease) + {keys[i]}];
      }
      assert keys[..|keys|] == keys;
    }

    /** `None` is the failed `expect` on a queued key without a transaction. */
    method TakeBatch(lease: L, max: nat) returns (batch: Option<seq<(K, V)>>)
      modifies this
      ensures batch.None? <==> LeaseBatch(old(View()), lease, max).Panicked?
      ensures batch.Some? ==> LeaseBatch(old(View()), lease, max) == Finished(View(), batch.value)
    {
      var got, passed, seen := [], [], {};
      ghost var start := View();
      while pool != []
        invariant LeaseBatch(start, lease, max) == Drain(Going(View(), got, seen, passed), lease, max)
        decreases |pool|
      {
        var key := pool[0];
        pool := pool[1..];
        if key !in txns {
          return None;
        }
        var changes := txns[key].changes;
        if Clashes(changes, seen) {
          passed := passed + [key];
        } else {
          leased := leased[lease := HeldBy(leased, lease) + {key}];
          seen := seen + (set c | c in changes);
          got := got + [(key, txns[key].txn)];
          if |got| >= max {
            break;
          }
        }
      }
      pool := pool + passed;
      return Some(got);
    }
  }
}
