/** What every run of the pool keeps, and what a batch then contains. */
module MempoolRuns {
  import opened Util
  import opened Mempool

  function Members<A(==)>(s: seq<A>): set<A> {
    set x | x in s
  }

  /** No two pending transactions make the same change. */
  ghost predicate ChangesDisjoint<K, V, C>(txns: map<K, Pending<V, C>>) {
    forall j, k, c :: j in txns && k in txns && j != k && c in txns[j].changes ==> c !in txns[k].changes
  }

  ghost predicate Held<K, L>(leased: map<L, set<K>>, key: K) {
    exists l :: l in leased && key in leased[l]
  }

  ghost predicate HeldElsewhere<K, L>(leased: map<L, set<K>>, lease: L, key: K) {
    exists l :: l in leased && l != lease && key in leased[l]
  }

  /** Queue and leases partition the pending keys, without repeats. */
  ghost predicate Partition<K, V, L, C>(p: Pool<K, V, L, C>) {
    && Distinct(p.queue)
    && (forall k :: k in p.queue ==> k in p.txns)
    && (forall l, k :: l in p.leased && k in p.leased[l] ==> k in p.txns && k !in p.queue)
    && (forall k :: k in p.txns ==> k in p.queue || Held(p.leased, k))
    && (forall l, m, k :: l in p.leased && m in p.leased && l != m && k in p.leased[l] ==> k !in p.leased[m])
  }

  ghost predicate Inv<K, V, L, C>(p: Pool<K, V, L, C>) {
    Partition(p) && ChangesDisjoint(p.txns)
  }

  // ---------------------------------------------------------------------------------------
  // Adding
  // ---------------------------------------------------------------------------------------

  lemma {:induction false} FirstTakenMeaning<K, V, C>(txns: map<K, Pending<V, C>>, changes: seq<C>)
    ensures FirstTaken(txns, changes).None? <==> forall c :: c in changes ==> !Taken(txns, c)
    ensures FirstTaken(txns, changes).Some? ==>
      exists i :: 0 <= i < |changes| && changes[i] == FirstTaken(txns, changes).value && Taken(txns, changes[i])
        && forall j :: 0 <= j < i ==> !Taken(txns, changes[j])
  {
    if changes != [] && !Taken(txns, changes[0]) {
      FirstTakenMeaning(txns, changes[1..]);
      if FirstTaken(txns, changes).Some? {
        var i :| 0 <= i < |changes[1..]| && changes[1..][i] == FirstTaken(txns, changes[1..]).value && Taken(txns, changes[1..][i])
          && forall j :: 0 <= j < i ==> !Taken(txns, changes[1..][j]);
        assert changes[i + 1] == FirstTaken(txns, changes).value;
        forall j | 0 <= j < i + 1 ensures !Taken(txns, changes[j]) {
          if j > 0 { assert changes[j] == changes[1..][j - 1]; }
        }
      }
      assert forall c :: c in changes ==> c == changes[0] || c in changes[1..];
    }
  }

  /** Adding succeeds exactly for a new key whose changes nobody else makes; it then joins the end of
    the queue, and otherwise nothing happens. */
  lemma AddExactly<K, V, L, C>(p: Pool<K, V, L, C>, key: K, txn: V, changes: seq<C>)
    ensures var (q, error) := AddStep(p, key, txn, changes);
      && (error.None? <==> key !in p.txns && forall c :: c in changes ==> !Taken(p.txns, c))
      && (error.Some? ==> q == p)
      && (error.None? ==> q.queue == p.queue + [key] && q.leased == p.leased && q.txns == p.txns[key := Pending(txn, changes)])
      && (error == Some(DuplicateKey) ==> key in p.txns && forall c :: c in changes ==> !Taken(p.txns, c))
  {
    FirstTakenMeaning(p.txns, changes);
  }

  lemma AddKeepsInv<K, V, L, C>(p: Pool<K, V, L, C>, key: K, txn: V, changes: seq<C>)
    requires Inv(p)
    ensures Inv(AddStep(p, key, txn, changes).0)
  {
    AddExactly(p, key, txn, changes);
    var (q, error) := AddStep(p, key, txn, changes);
    if error.None? {
      AddChanges(p.txns, key, txn, changes);
      AddPartition(p, q, key);
    }
  }

  lemma AddChanges<K, V, C>(txns: map<K, Pending<V, C>>, key: K, txn: V, changes: seq<C>)
    requires ChangesDisjoint(txns) && key !in txns && forall c :: c in changes ==> !Taken(txns, c)
    ensures ChangesDisjoint(txns[key := Pending(txn, changes)])
  {
  }

  lemma AddPartition<K, V, L, C>(p: Pool<K, V, L, C>, q: Pool<K, V, L, C>, key: K)
    requires Partition(p) && key !in p.txns
    requires q.queue == p.queue + [key] && q.leased == p.leased && q.txns.Keys == p.txns.Keys + {key}
    ensures Partition(q)
  {
  }

  // ---------------------------------------------------------------------------------------
  // Leasing named keys, and committing
  // ---------------------------------------------------------------------------------------

  lemma {:induction false} RemoveFirstDistinct<K>(s: seq<K>, x: K)
    requires Distinct(s)
    ensures Distinct(RemoveFirst(s, x))
    ensures forall k :: k in RemoveFirst(s, x) <==> k in s && k != x
  {
    if s != [] {
      assert s == [s[0]] + s[1..];
      assert Distinct(s[1..]) && s[0] !in s[1..];
      if s[0] != x {
        RemoveFirstDistinct(s[1..], x);
      }
    }
  }

  lemma LeasedClosedForm<K, V, L, C>(p: Pool<K, V, L, C>, lease: L, keys: seq<K>)
    requires Distinct(p.queue)
    ensures var q := LeaseKeys(p, lease, keys);
      && q.txns == p.txns
      && Distinct(q.queue)
      && (forall k :: k in q.queue <==> k in p.queue && k !in keys)
      && q.leased == (if keys == [] then p.leased else p.leased[lease := HeldBy(p.leased, lease) + Members(keys)])
  {
    hide LeaseKeys;
    LeasedQueue(p, lease, keys);
    LeasedLeases(p, lease, keys);
  }

  lemma {:induction false} LeasedQueue<K, V, L, C>(p: Pool<K, V, L, C>, lease: L, keys: seq<K>)
    requires Distinct(p.queue)
    ensures Distinct(LeaseKeys(p, lease, keys).queue)
    ensures forall k :: k in LeaseKeys(p, lease, keys).queue <==> k in p.queue && k !in keys
  {
    hide RemoveFirst, HeldBy;
    if keys != [] {
      var n := |keys| - 1;
      LeasedQueue(p, lease, keys[..n]);
      RemoveFirstDistinct(LeaseKeys(p, lease, keys[..n]).queue, keys[n]);
      assert keys == keys[..n] + [keys[n]];
    }
  }

  lemma {:induction false} LeasedLeases<K, V, L, C>(p: Pool<K, V, L, C>, lease: L, keys: seq<K>)
    ensures var q := LeaseKeys(p, lease, keys);
      && q.txns == p.txns
      && q.leased == (if keys == [] then p.leased else p.leased[lease := HeldBy(p.leased, lease) + Members(keys)])
  {
    hide RemoveFirst;
    if keys != [] {
      var n := |keys| - 1;
      LeasedLeases(p, lease, keys[..n]);
      var mid := LeaseKeys(p, lease, keys[..n]);
      assert Members(keys) == Members(keys[..n]) + {keys[n]} by { assert keys == keys[..n] + [keys[n]]; }
      assert HeldBy(mid.leased, lease) + {keys[n]} == HeldBy(p.leased, lease) + Members(keys);
    }
  }

  /** Leasing named keys keeps the partition exactly when each key is pending and not leased elsewhere. */
  lemma LeaseKeepsPartitionExactly<K, V, L, C>(p: Pool<K, V, L, C>, lease: L, keys: seq<K>)
    requires Partition(p)
    ensures Partition(LeaseKeys(p, lease, keys)) <==>
      forall k :: k in keys ==> k in p.txns && !HeldElsewhere(p.leased, lease, k)
  {
    var q := LeaseKeys(p, lease, keys);
    LeasedClosedForm(p, lease, keys);
    if forall k :: k in keys ==> k in p.txns && !HeldElsewhere(p.leased, lease, k) {
      if keys != [] { LeasePartition(p, q, lease, keys); }
    } else {
      var k :| k in keys && (k !in p.txns || HeldElsewhere(p.leased, lease, k));
      assert k in q.leased[lease];
      if k in p.txns {
        var l :| l in p.leased && l != lease && k in p.leased[l];
        assert k in q.leased[l];
      }
    }
  }

  lemma LeasePartition<K, V, L, C>(p: Pool<K, V, L, C>, q: Pool<K, V, L, C>, lease: L, keys: seq<K>)
    requires Partition(p)
    requires forall k :: k in keys ==> k in p.txns && !HeldElsewhere(p.leased, lease, k)
    requires q.txns == p.txns && Distinct(q.queue) && (forall k :: k in q.queue <==> k in p.queue && k !in keys)
    requires q.leased == p.leased[lease := HeldBy(p.leased, lease) + Members(keys)]
    ensures Partition(q)
  {
    forall k | k in q.txns ensures k in q.queue || Held(q.leased, k) {
      if k in keys {
        assert k in q.leased[lease];
      } else if k !in p.queue {
        var l :| l in p.leased && k in p.leased[l];
        assert k in q.leased[l];
      }
    }
  }

  lemma {:induction false} CommittedClosedForm<K, V, L, C>(p: Pool<K, V, L, C>, lease: L, keys: seq<K>)
    requires Distinct(p.queue)
    ensures var q := CommitKeys(p, lease, keys);
      && q.txns == p.txns - Members(keys)
      && Distinct(q.queue)
      && (forall k :: k in q.queue <==> k in p.queue && k !in keys)
      && q.leased == (if lease in p.leased then p.leased[lease := p.leased[lease] - Members(keys)] else p.leased)
  {
    hide RemoveFirst;
    if keys == [] {
      assert Members(keys) == {};
      assert p.txns - {} == p.txns;
      if lease in p.leased { assert p.leased[lease] - {} == p.leased[lease]; }
    } else {
      var n := |keys| - 1;
      CommittedClosedForm(p, lease, keys[..n]);
      RemoveFirstDistinct(CommitKeys(p, lease, keys[..n]).queue, keys[n]);
      assert keys == keys[..n] + [keys[n]];
      assert Members(keys) == Members(keys[..n]) + {keys[n]};
      if lease in p.leased {
        assert p.leased[lease] - Members(keys[..n]) - {keys[n]} == p.leased[lease] - Members(keys);
      }
    }
  }

  /** Removing committed keys, the first half of a commit, keeps the partition exactly when none of them is
    leased elsewhere. */
  lemma RemoveKeepsPartitionExactly<K, V, L, C>(p: Pool<K, V, L, C>, lease: L, keys: seq<K>)
    requires Partition(p)
    ensures Partition(CommitKeys(p, lease, keys)) <==> forall k :: k in keys ==> !HeldElsewhere(p.leased, lease, k)
  {
    var q := CommitKeys(p, lease, keys);
    CommittedClosedForm(p, lease, keys);
    if forall k :: k in keys ==> !HeldElsewhere(p.leased, lease, k) {
      RemovePartition(p, q, lease, keys);
    } else {
      var k :| k in keys && HeldElsewhere(p.leased, lease, k);
      var l :| l in p.leased && l != lease && k in p.leased[l];
      assert k in q.leased[l] && k !in q.txns;
    }
  }

  lemma RemovePartition<K, V, L, C>(p: Pool<K, V, L, C>, q: Pool<K, V, L, C>, lease: L, keys: seq<K>)
    requires Partition(p) && forall k :: k in keys ==> !HeldElsewhere(p.leased, lease, k)
    requires q.txns == p.txns - Members(keys)
    requires Distinct(q.queue) && (forall k :: k in q.queue <==> k in p.queue && k !in keys)
    requires q.leased == if lease in p.leased then p.leased[lease := p.leased[lease] - Members(keys)] else p.leased
    ensures Partition(q)
  {
    forall l, k | l in q.leased && k in q.leased[l] ensures k in q.txns && k !in q.queue {
      assert l in p.leased && k in p.leased[l];
    }
    forall k | k in q.txns ensures k in q.queue || Held(q.leased, k) {
      if k !in p.queue {
        var l :| l in p.leased && k in p.leased[l];
        assert l in q.leased && k in q.leased[l];
      }
    }
  }

  /** Giving a lease up, the second half, always keeps it. */
  lemma FreeKeepsPartition<K, V, L, C>(p: Pool<K, V, L, C>, lease: L, order: seq<K>)
    requires Partition(p) && Enumerates(order, HeldBy(p.leased, lease))
    ensures Partition(FreeStep(p, lease, order))
  {
    var r := FreeStep(p, lease, order);
    assert forall k :: k in order ==> lease in p.leased && k in p.leased[lease];
    DistinctAppend(order, p.queue);
    assert forall k :: k in r.queue <==> k in order || k in p.queue;
    forall l, k | l in r.leased && k in r.leased[l] ensures k in r.txns && k !in r.queue {
      assert l in p.leased && k in p.leased[l];
    }
    forall k | k in r.txns ensures k in r.queue || Held(r.leased, k) {
      if k !in p.queue {
        var l :| l in p.leased && k in p.leased[l];
        assert l == lease || (l in r.leased && k in r.leased[l]);
      }
    }
  }

  /** A commit that nothing interrupts keeps the partition exactly when no committed key is leased elsewhere. */
  lemma CommitKeepsPartitionExactly<K, V, L, C>(p: Pool<K, V, L, C>, lease: L, keys: seq<K>, order: seq<K>)
    requires Partition(p)
    requires Enumerates(order, HeldBy(CommitKeys(p, lease, keys).leased, lease))
    ensures Partition(FreeStep(CommitKeys(p, lease, keys), lease, order)) <==>
      forall k :: k in keys ==> !HeldElsewhere(p.leased, lease, k)
  {
    var q := CommitKeys(p, lease, keys);
    if forall k :: k in keys ==> !HeldElsewhere(p.leased, lease, k) {
      RemoveKeepsPartitionExactly(p, lease, keys);
      FreeKeepsPartition(q, lease, order);
    } else {
      CommittedClosedForm(p, lease, keys);
      var k :| k in keys && HeldElsewhere(p.leased, lease, k);
      var l :| l in p.leased && l != lease && k in p.leased[l];
      assert k in FreeStep(q, lease, order).leased[l] && k !in q.txns;
    }
  }

  lemma DistinctAppend<A>(a: seq<A>, b: seq<A>)
    requires Distinct(a) && Distinct(b) && forall x :: x in a ==> x !in b
    ensures Distinct(a + b)
  {
    forall i, j | 0 <= i < j < |a + b| ensures (a + b)[i] != (a + b)[j] {
      if i < |a| <= j {
        assert (a + b)[i] in a && (a + b)[j] in b;
      }
    }
  }

  // ---------------------------------------------------------------------------------------
  // Batches
  // ---------------------------------------------------------------------------------------

  /** How many keys a batch may look at. */
  function Quota(max: nat): nat {
    if max == 0 then 1 else max
  }

  function Keys<K, V>(batch: seq<(K, V)>): seq<K> {
    seq(|batch|, i requires 0 <= i < |batch| => batch[i].0)
  }

  ghost function SeenAfter<K, V, C>(txns: map<K, Pending<V, C>>, keys: seq<K>): set<C>
    requires forall k :: k in keys ==> k in txns
  {
    set k, c | k in keys && c in txns[k].changes :: c
  }

  /** The batch that takes the first `n` queued keys, in order. */
  function Prefix<K, V, L(==), C>(p: Pool<K, V, L, C>, lease: L, n: nat): Draining<K, V, L, C>
    requires n <= |p.queue| && forall i :: 0 <= i < n ==> p.queue[i] in p.txns
  {
    Finished(
      Pool(p.txns, p.queue[n..], if n == 0 then p.leased else p.leased[lease := HeldBy(p.leased, lease) + Members(p.queue[..n])]),
      seq(n, i requires 0 <= i < n => (p.queue[i], p.txns[p.queue[i]].txn)))
  }

  /** Half-way through: the first `n` keys are taken, nothing was passed over. */
  ghost predicate Midway<K, V, L, C>(p: Pool<K, V, L, C>, lease: L, n: nat, d: Draining<K, V, L, C>) {
    && n <= |p.queue| && (forall i :: 0 <= i < n ==> p.queue[i] in p.txns)
    && d.Going? && d.passed == []
    && Finished(d.pool, d.batch) == Prefix(p, lease, n)
    && d.seen == SeenAfter(p.txns, p.queue[..n])
  }

  lemma MidwayStep<K, V, L, C>(p: Pool<K, V, L, C>, lease: L, max: nat, n: nat, d: Draining<K, V, L, C>)
    requires Distinct(p.queue) && ChangesDisjoint(p.txns) && Midway(p, lease, n, d) && n < |p.queue|
    ensures p.queue[n] !in p.txns ==> DrainStep(d, lease, max).Panicked?
    ensures p.queue[n] in p.txns && n + 1 >= max ==> DrainStep(d, lease, max) == Prefix(p, lease, n + 1)
    ensures p.queue[n] in p.txns && n + 1 < max ==> Midway(p, lease, n + 1, DrainStep(d, lease, max))
  {
    var key := p.queue[n];
    assert d.pool.queue[0] == key;
    if key in p.txns {
      assert p.queue[..n + 1] == p.queue[..n] + [key];
      assert key !in p.queue[..n];
      assert forall c :: c in p.txns[key].changes ==> c !in d.seen;
      assert !Clashes(p.txns[key].changes, d.seen);
      assert d.pool.queue[1..] == p.queue[n + 1..];
      TakenKeys(p, lease, n);
      if n + 1 < max {
        SeenGrows(p.txns, p.queue[..n], key);
      } else {
        assert p.queue[n + 1..] + [] == p.queue[n + 1..];
      }
    }
  }

  lemma TakenKeys<K, V, L, C>(p: Pool<K, V, L, C>, lease: L, n: nat)
    requires n < |p.queue| && forall i :: 0 <= i <= n ==> p.queue[i] in p.txns
    ensures var d, e := Prefix(p, lease, n), Prefix(p, lease, n + 1);
      && e.batch == d.batch + [(p.queue[n], p.txns[p.queue[n]].txn)]
      && e.pool.leased == d.pool.leased[lease := HeldBy(d.pool.leased, lease) + {p.queue[n]}]
  {
    assert p.queue[..n + 1] == p.queue[..n] + [p.queue[n]];
    assert Members(p.queue[..n + 1]) == Members(p.queue[..n]) + {p.queue[n]};
    if n > 0 {
      var held := HeldBy(p.leased, lease);
      assert held + Members(p.queue[..n]) + {p.queue[n]} == held + Members(p.queue[..n + 1]);
    } else {
      assert Members(p.queue[..1]) == {p.queue[0]};
    }
  }

  lemma SeenGrows<K, V, C>(txns: map<K, Pending<V, C>>, keys: seq<K>, key: K)
    requires key in txns && forall k :: k in keys ==> k in txns
    ensures SeenAfter(txns, keys + [key]) == SeenAfter(txns, keys) + set c | c in txns[key].changes
  {
    assert forall k :: k in keys + [key] <==> k in keys || k == key;
  }

  ghost predicate AllPending<K, V, L, C>(p: Pool<K, V, L, C>, n: nat) {
    n <= |p.queue| && forall i :: 0 <= i < n ==> p.queue[i] in p.txns
  }

  lemma {:induction false} DrainFrom<K, V, L, C>(p: Pool<K, V, L, C>, lease: L, max: nat, n: nat, d: Draining<K, V, L, C>)
    requires Distinct(p.queue) && ChangesDisjoint(p.txns) && Midway(p, lease, n, d) && n < Quota(max)
    ensures var m := Min(|p.queue|, Quota(max));
      if AllPending(p, m) then Drain(d, lease, max) == Prefix(p, lease, m) else Drain(d, lease, max).Panicked?
    decreases |p.queue| - n
  {
    var next := DrainStep(d, lease, max);
    assert Drain(d, lease, max) == Drain(next, lease, max);
    if n < |p.queue| {
      MidwayStep(p, lease, max, n, d);
      if p.queue[n] in p.txns && n + 1 < max {
        DrainFrom(p, lease, max, n + 1, next);
      }
    } else {
      assert p.queue[n..] == [];
    }
  }

  /** For a queue without repeats over transactions with disjoint changes, a batch fails exactly when one
    of the first `max(1, max)` queued keys has no transaction; otherwise it is exactly those keys. */
  lemma LeaseBatchExactly<K, V, L, C>(p: Pool<K, V, L, C>, lease: L, max: nat)
    requires Distinct(p.queue) && ChangesDisjoint(p.txns)
    ensures var m := Min(|p.queue|, Quota(max));
      && (LeaseBatch(p, lease, max).Panicked? <==> !AllPending(p, m))
      && (AllPending(p, m) ==> LeaseBatch(p, lease, max) == Prefix(p, lease, m))
  {
    var start: Draining<K, V, L, C> := Going(p, [], {}, []);
    assert p.queue[..0] == [] && p.queue[0..] == p.queue;
    assert Midway(p, lease, 0, start);
    DrainFrom(p, lease, max, 0, start);
  }

  /** As an interface the pool lets the `expect` fail: lease a key nobody submitted, commit nothing, and ask
    for a batch. (A node leases named keys only outside validator mode and takes batches only in it.) */
  lemma UnknownKeyBreaksBatches()
    ensures var p: Pool<int, int, int, int> := Pool(map[], [], map[]);
      var q := FreeStep(CommitKeys(LeaseKeys(p, 1, [7]), 1, []), 1, [7]);
      Enumerates([7], HeldBy(LeaseKeys(p, 1, [7]).leased, 1)) && LeaseBatch(q, 2, 5).Panicked?
  {
    var p: Pool<int, int, int, int> := Pool(map[], [], map[]);
    assert [7][..0] == [];
    var leased := LeaseKeys(p, 1, [7]);
    assert leased == LeaseKey(p, 1, 7);
    assert HeldBy(leased.leased, 1) == {7};
    var q := FreeStep(leased, 1, [7]);
    assert q.queue[0] == 7;
    LeaseBatchExactly(q, 2, 5);
    assert !AllPending(q, 1);
  }

  /** No two transactions of the batch make the same change. */
  ghost predicate Compatible<K, V, C>(txns: map<K, Pending<V, C>>, batch: seq<(K, V)>) {
    && (forall i :: 0 <= i < |batch| ==> batch[i].0 in txns && batch[i].1 == txns[batch[i].0].txn)
    && (forall i, j, c :: 0 <= i < j < |batch| && c in txns[batch[i].0].changes ==> c !in txns[batch[j].0].changes)
  }

  ghost predicate Sound<K, V, L, C>(p: Pool<K, V, L, C>, q: Pool<K, V, L, C>, batch: seq<(K, V)>, queue: seq<K>) {
    && q.txns == p.txns
    && Compatible(p.txns, batch)
    && multiset(Keys(batch)) + multiset(queue) == multiset(p.queue)
  }

  ghost predicate SoundSoFar<K, V, L, C>(p: Pool<K, V, L, C>, d: Draining<K, V, L, C>, max: nat) {
    match d
    case Going(q, batch, seen, passed) =>
      && Sound(p, q, batch, q.queue + passed)
      && |batch| < Quota(max)
      && (forall i, c :: 0 <= i < |batch| && c in p.txns[batch[i].0].changes ==> c in seen)
    case Finished(q, batch) => Sound(p, q, batch, q.queue) && |batch| <= Quota(max)
    case Panicked => exists k :: k in p.queue && k !in p.txns
  }

  lemma ExtendBatch<K, V, C>(txns: map<K, Pending<V, C>>, batch: seq<(K, V)>, seen: set<C>, key: K)
    requires Compatible(txns, batch) && key in txns && !Clashes(txns[key].changes, seen)
    requires forall i, c :: 0 <= i < |batch| && c in txns[batch[i].0].changes ==> c in seen
    ensures Compatible(txns, batch + [(key, txns[key].txn)])
    ensures Keys(batch + [(key, txns[key].txn)]) == Keys(batch) + [key]
  {
  }

  lemma SoundStep<K, V, L, C>(p: Pool<K, V, L, C>, d: Draining<K, V, L, C>, lease: L, max: nat)
    requires d.Going? && SoundSoFar(p, d, max)
    ensures SoundSoFar(p, DrainStep(d, lease, max), max)
  {
    hide Compatible, Clashes, Keys, HeldBy;
    var queue := d.pool.queue;
    if queue == [] {
      assert queue + d.passed == d.passed;
    } else {
      var key, rest := queue[0], queue[1..];
      assert queue == [key] + rest;
      assert key in multiset(p.queue);
      if key in p.txns {
        if Clashes(p.txns[key].changes, d.seen) {
          assert multiset(queue + d.passed) == multiset(rest + (d.passed + [key]));
        } else {
          assert multiset(queue + d.passed) == multiset([key]) + multiset(rest + d.passed);
          ExtendBatch(p.txns, d.batch, d.seen, key);
        }
      }
    }
  }

  lemma {:induction false} SoundDrain<K, V, L, C>(p: Pool<K, V, L, C>, d: Draining<K, V, L, C>, lease: L, max: nat)
    requires SoundSoFar(p, d, max)
    ensures SoundSoFar(p, Drain(d, lease, max), max)
    decreases if d.Going? then |d.pool.queue| + 1 else 0
  {
    hide SoundSoFar;
    if d.Going? {
      SoundStep(p, d, lease, max);
      SoundDrain(p, DrainStep(d, lease, max), lease, max);
    }
  }

  /** In any pool, disciplined or not, a batch that is returned holds at most `max(1, max)` transactions,
    no two of which make the same change, and no key is lost or invented: what was queued is what
    is in the batch or still queued. A batch fails only over a queued key without a transaction. */
  lemma BatchesAreSound<K, V, L, C>(p: Pool<K, V, L, C>, lease: L, max: nat)
    ensures SoundSoFar(p, LeaseBatch(p, lease, max), max)
  {
    var batch: seq<(K, V)> := [];
    assert Keys(batch) == [];
    assert p.queue + [] == p.queue;
    SoundDrain(p, Going(p, [], {}, []), lease, max);
  }

  // ---------------------------------------------------------------------------------------
  // Runs
  // ---------------------------------------------------------------------------------------

  /** What happens to a pool under one hold of its lock. A commit is a `Remove` and a later `Free`, between
    which others may get the lock; `order` is the order in which the freed keys leave the hash set. */
  datatype Op<K, V, L, C> =
    | Add(key: K, txn: V, changes: seq<C>)
    | Remove(lease: L, keys: seq<K>)
    | Free(lease: L, order: seq<K>)
    | LeaseTxns(lease: L, keys: seq<K>)
    | TakeBatch(lease: L, max: nat)

  /** The pool after a call, `None` if the call panics. */
  function Apply<K(==), V, L(==), C(==)>(p: Pool<K, V, L, C>, op: Op<K, V, L, C>): Option<Pool<K, V, L, C>> {
    match op
    case Add(key, txn, changes) => Some(AddStep(p, key, txn, changes).0)
    case Remove(lease, keys) => Some(CommitKeys(p, lease, keys))
    case Free(lease, order) => Some(FreeStep(p, lease, order))
    case LeaseTxns(lease, keys) => Some(LeaseKeys(p, lease, keys))
    case TakeBatch(lease, max) =>
      var d := LeaseBatch(p, lease, max);
      if d.Panicked? then None else Some(d.pool)
  }

  /** Calls that keep queue and leases a partition of the pending keys. */
  ghost predicate Disciplined<K, V, L, C>(p: Pool<K, V, L, C>, op: Op<K, V, L, C>) {
    match op
    case Add(_, _, _) => true
    case Remove(lease, keys) => forall k :: k in keys ==> !HeldElsewhere(p.leased, lease, k)
    case Free(lease, order) => Enumerates(order, HeldBy(p.leased, lease))
    case LeaseTxns(lease, keys) => forall k :: k in keys ==> k in p.txns && !HeldElsewhere(p.leased, lease, k)
    case TakeBatch(_, _) => true
  }

  function ApplyAll<K(==), V, L(==), C(==)>(ops: seq<Op<K, V, L, C>>): Option<Pool<K, V, L, C>> {
    if ops == [] then Some(Pool(map[], [], map[]))
    else
      var before := ApplyAll(ops[..|ops| - 1]);
      if before.None? then None else Apply(before.value, ops[|ops| - 1])
  }

  ghost predicate DisciplinedRun<K, V, L, C>(ops: seq<Op<K, V, L, C>>) {
    forall i :: 0 <= i < |ops| && ApplyAll(ops[..i]).Some? ==> Disciplined(ApplyAll(ops[..i]).value, ops[i])
  }

  lemma BatchPartition<K, V, L, C>(p: Pool<K, V, L, C>, lease: L, n: nat)
    requires Partition(p) && n <= |p.queue|
    ensures AllPending(p, n) && Partition(Prefix(p, lease, n).pool)
  {
    var keys := p.queue[..n];
    if n > 0 {
      assert forall k :: k in p.queue[n..] <==> k in p.queue && k !in keys by {
        assert p.queue == keys + p.queue[n..];
      }
      LeasePartition(p, Prefix(p, lease, n).pool, lease, keys);
    } else {
      assert p.queue[0..] == p.queue;
    }
  }

  lemma ApplyKeepsInv<K, V, L, C>(p: Pool<K, V, L, C>, op: Op<K, V, L, C>)
    requires Inv(p) && Disciplined(p, op)
    ensures Apply(p, op).Some? && Inv(Apply(p, op).value)
  {
    hide Partition, Enumerates, HeldElsewhere, LeaseBatch, CommitKeys, LeaseKeys, AddStep;
    match op
    case Add(key, txn, changes) => AddKeepsInv(p, key, txn, changes);
    case Remove(lease, keys) =>
      RemoveKeepsPartitionExactly(p, lease, keys);
      DistinctQueue(p);
      CommittedClosedForm(p, lease, keys);
    case Free(lease, order) => FreeKeepsPartition(p, lease, order);
    case LeaseTxns(lease, keys) =>
      LeaseKeepsPartitionExactly(p, lease, keys);
      DistinctQueue(p);
      LeasedClosedForm(p, lease, keys);
    case TakeBatch(lease, max) =>
      DistinctQueue(p);
      BatchPartition(p, lease, Min(|p.queue|, Quota(max)));
      LeaseBatchExactly(p, lease, max);
  }

  lemma DistinctQueue<K, V, L, C>(p: Pool<K, V, L, C>)
    requires Partition(p)
    ensures Distinct(p.queue)
  {
  }

  /** Every disciplined run keeps the partition and the disjointness of changes, and never panics. */
  lemma {:induction false} RunKeepsInv<K, V, L, C>(ops: seq<Op<K, V, L, C>>)
    requires DisciplinedRun(ops)
    ensures ApplyAll(ops).Some? && Inv(ApplyAll(ops).value)
  {
    hide Inv, Disciplined, Apply;
    if ops == [] {
      EmptyInv<K, V, L, C>();
    } else {
      var n := |ops| - 1;
      assert DisciplinedRun(ops[..n]) by {
        forall i | 0 <= i < n ensures ApplyAll(ops[..n][..i]).Some? ==> Disciplined(ApplyAll(ops[..n][..i]).value, ops[..n][i]) {
          assert ops[..n][..i] == ops[..i];
        }
      }
      RunKeepsInv(ops[..n]);
      ApplyKeepsInv(ApplyAll(ops[..n]).value, ops[n]);
    }
  }

  lemma EmptyInv<K, V, L, C>()
    ensures Inv<K, V, L, C>(Pool(map[], [], map[]))
  {
  }

  /** After every disciplined run a batch is the front of the queue, first in first out: the first
    `max(1, max)` keys with their transactions, or all of them; nothing is passed over. */
  lemma BatchesAreFifo<K, V, L, C>(ops: seq<Op<K, V, L, C>>, lease: L, max: nat)
    requires DisciplinedRun(ops)
    ensures ApplyAll(ops).Some?
    ensures var p := ApplyAll(ops).value;
      var m := Min(|p.queue|, Quota(max));
      AllPending(p, m) && LeaseBatch(p, lease, max) == Prefix(p, lease, m)
  {
    hide LeaseBatch, Prefix;
    RunKeepsInv(ops);
    var p := ApplyAll(ops).value;
    assert AllPending(p, Min(|p.queue|, Quota(max)));
    LeaseBatchExactly(p, lease, max);
  }

  // ---------------------------------------------------------------------------------------
  // Leases that hold keys nobody submitted
  // ---------------------------------------------------------------------------------------

  /** What batches need of a pool: queued keys differ and are pending. Leases may hold anything: a node that
    receives a block leases all its keys, submitted or not, and a leased key may be submitted later. */
  ghost predicate QueueInv<K, V, L, C>(p: Pool<K, V, L, C>) {
    Distinct(p.queue) && (forall k :: k in p.queue ==> k in p.txns) && ChangesDisjoint(p.txns)
  }

  /** Every key of the lease can go back to the queue: it is pending, and not queued already. */
  ghost predicate Returnable<K, V, L, C>(p: Pool<K, V, L, C>, lease: L) {
    forall k :: k in HeldBy(p.leased, lease) ==> k in p.txns && k !in p.queue
  }

  /** A commit names every key of its lease that is not pending, or is queued as well. */
  ghost predicate NamesStrays<K, V, L, C>(p: Pool<K, V, L, C>, lease: L, keys: seq<K>) {
    forall k :: k in HeldBy(p.leased, lease) && k !in keys ==> k in p.txns && k !in p.queue
  }

  /** Removing committed keys keeps the queue sound, whatever is leased. What is left of the lease can go back
    exactly when the commit named its strays. */
  lemma RemoveKeepsQueue<K, V, L, C>(p: Pool<K, V, L, C>, lease: L, keys: seq<K>)
    requires QueueInv(p)
    ensures QueueInv(CommitKeys(p, lease, keys))
    ensures Returnable(CommitKeys(p, lease, keys), lease) <==> NamesStrays(p, lease, keys)
  {
    hide CommitKeys;
    CommittedClosedForm(p, lease, keys);
    var q := CommitKeys(p, lease, keys);
    assert forall k :: k in q.txns <==> k in p.txns && k !in keys;
    assert forall k :: k in HeldBy(q.leased, lease) <==> k in HeldBy(p.leased, lease) && k !in keys;
    if Returnable(q, lease) {
      forall k | k in HeldBy(p.leased, lease) && k !in keys ensures k in p.txns && k !in p.queue {
        assert k in HeldBy(q.leased, lease);
      }
    }
    assert ChangesDisjoint(q.txns);
  }

  /** Giving a lease up keeps the queue sound exactly when its keys can go back. */
  lemma FreeKeepsQueueExactly<K, V, L, C>(p: Pool<K, V, L, C>, lease: L, order: seq<K>)
    requires QueueInv(p) && Enumerates(order, HeldBy(p.leased, lease))
    ensures QueueInv(FreeStep(p, lease, order)) <==> Returnable(p, lease)
  {
    var r := FreeStep(p, lease, order);
    assert forall k :: k in r.queue <==> k in order || k in p.queue;
    if Returnable(p, lease) {
      DistinctAppend(order, p.queue);
    } else {
      var k :| k in HeldBy(p.leased, lease) && !(k in p.txns && k !in p.queue);
      assert k in order;
      if k in p.queue { RepeatsAcross(order, p.queue, k); }
    }
  }

  /** A commit that nothing interrupts keeps the queue sound exactly when it names every stray of its lease. */
  lemma CommitKeepsQueueExactly<K, V, L, C>(p: Pool<K, V, L, C>, lease: L, keys: seq<K>, order: seq<K>)
    requires QueueInv(p)
    requires Enumerates(order, HeldBy(CommitKeys(p, lease, keys).leased, lease))
    ensures QueueInv(FreeStep(CommitKeys(p, lease, keys), lease, order)) <==> NamesStrays(p, lease, keys)
  {
    hide CommitKeys, QueueInv, Returnable, NamesStrays;
    RemoveKeepsQueue(p, lease, keys);
    FreeKeepsQueueExactly(CommitKeys(p, lease, keys), lease, order);
  }

  lemma RepeatsAcross<A>(a: seq<A>, b: seq<A>, x: A)
    requires x in a && x in b
    ensures !Distinct(a + b)
  {
    var i :| 0 <= i < |a| && a[i] == x;
    var j :| 0 <= j < |b| && b[j] == x;
    assert (a + b)[i] == (a + b)[|a| + j];
  }

  lemma AddKeepsQueue<K, V, L, C>(p: Pool<K, V, L, C>, key: K, txn: V, changes: seq<C>)
    requires QueueInv(p)
    ensures QueueInv(AddStep(p, key, txn, changes).0)
  {
    AddExactly(p, key, txn, changes);
    if AddStep(p, key, txn, changes).1.None? {
      AddChanges(p.txns, key, txn, changes);
    }
  }

  lemma BatchKeepsQueue<K, V, L, C>(p: Pool<K, V, L, C>, lease: L, max: nat)
    requires QueueInv(p)
    ensures var m := Min(|p.queue|, Quota(max));
      AllPending(p, m) && LeaseBatch(p, lease, max) == Prefix(p, lease, m) && QueueInv(Prefix(p, lease, m).pool)
  {
    hide LeaseBatch;
    var m := Min(|p.queue|, Quota(max));
    assert AllPending(p, m);
    LeaseBatchExactly(p, lease, max);
    assert forall k :: k in p.queue[m..] ==> k in p.queue;
  }

  /** A lease is given up only when its keys can go back; everything else is free. */
  ghost predicate ReturningRun<K, V, L, C>(ops: seq<Op<K, V, L, C>>) {
    forall i :: 0 <= i < |ops| && ApplyAll(ops[..i]).Some? ==> Returning(ApplyAll(ops[..i]).value, ops[i])
  }

  ghost predicate Returning<K, V, L, C>(p: Pool<K, V, L, C>, op: Op<K, V, L, C>) {
    op.Free? ==> Enumerates(op.order, HeldBy(p.leased, op.lease)) && Returnable(p, op.lease)
  }

  lemma ApplyKeepsQueue<K, V, L, C>(p: Pool<K, V, L, C>, op: Op<K, V, L, C>)
    requires QueueInv(p) && Returning(p, op)
    ensures Apply(p, op).Some? && QueueInv(Apply(p, op).value)
  {
    hide LeaseBatch, CommitKeys, LeaseKeys, AddStep, Enumerates, NamesStrays, Returnable;
    match op
    case Add(key, txn, changes) => AddKeepsQueue(p, key, txn, changes);
    case Remove(lease, keys) => RemoveKeepsQueue(p, lease, keys);
    case Free(lease, order) => FreeKeepsQueueExactly(p, lease, order);
    case LeaseTxns(lease, keys) =>
      LeasedClosedForm(p, lease, keys);
      assert QueueInv(LeaseKeys(p, lease, keys));
    case TakeBatch(lease, max) =>
      BatchKeepsQueue(p, lease, max);
      assert Apply(p, op).Some?;
  }

  /** Over every run in which leases are given up only when their keys can go back, whatever is leased, whenever
    it is submitted and whoever comes between the halves of a commit, no call panics and a batch is the
    front of the queue, first in first out. */
  lemma {:induction false} ReturningRunsNeverPanic<K, V, L, C>(ops: seq<Op<K, V, L, C>>, lease: L, max: nat)
    requires ReturningRun(ops)
    ensures ApplyAll(ops).Some? && QueueInv(ApplyAll(ops).value)
    ensures var p := ApplyAll(ops).value;
      var m := Min(|p.queue|, Quota(max));
      AllPending(p, m) && LeaseBatch(p, lease, max) == Prefix(p, lease, m)
  {
    hide QueueInv, Returning, Apply, LeaseBatch, Prefix;
    if ops == [] {
      EmptyQueue<K, V, L, C>();
    } else {
      var n := |ops| - 1;
      forall i | 0 <= i < n && ApplyAll(ops[..n][..i]).Some?
        ensures Returning(ApplyAll(ops[..n][..i]).value, ops[..n][i])
      {
        assert ops[..n][..i] == ops[..i];
      }
      ReturningRunsNeverPanic(ops[..n], lease, max);
      ApplyKeepsQueue(ApplyAll(ops[..n]).value, ops[n]);
    }
    BatchKeepsQueue(ApplyAll(ops).value, lease, max);
  }

  lemma EmptyQueue<K, V, L, C>()
    ensures QueueInv<K, V, L, C>(Pool(map[], [], map[]))
  {
  }
}
