/** The order of the queue: what is taken out leaves the rest in order, and keys wait in the order they came. */
module MempoolOrder {
  import opened Util
  import opened Mempool
  import opened MempoolRuns

  /** `a` comes somewhere before `b`. */
  ghost predicate Precedes<K>(s: seq<K>, a: K, b: K) {
    exists i, j :: 0 <= i < j < |s| && s[i] == a && s[j] == b
  }

  /** `s` without the keys in `gone`. */
  function Sift<K(==)>(s: seq<K>, gone: set<K>): seq<K> {
    if s == [] then []
    else Sift(s[..|s| - 1], gone) + if s[|s| - 1] in gone then [] else [s[|s| - 1]]
  }

  lemma {:induction false} SiftMembers<K>(s: seq<K>, gone: set<K>, k: K)
    ensures k in Sift(s, gone) <==> k in s && k !in gone
  {
    if s != [] {
      var n := |s| - 1;
      SiftMembers(s[..n], gone, k);
      assert s == s[..n] + [s[n]];
    }
  }

  /** Sifting keeps the order of what is left, and nothing else. */
  lemma {:induction false} SiftKeepsOrder<K>(s: seq<K>, gone: set<K>, a: K, b: K)
    ensures Precedes(Sift(s, gone), a, b) <==> Precedes(s, a, b) && a !in gone && b !in gone
  {
    if s != [] {
      var n := |s| - 1;
      SiftKeepsOrder(s[..n], gone, a, b);
      SiftMembers(s[..n], gone, a);
      PrecedesSnoc(s[..n], s[n], a, b);
      assert s[..n] + [s[n]] == s;
      if s[n] in gone {
        assert Sift(s, gone) == Sift(s[..n], gone);
      } else {
        PrecedesSnoc(Sift(s[..n], gone), s[n], a, b);
      }
    }
  }

  lemma PrecedesSnoc<K>(s: seq<K>, x: K, a: K, b: K)
    ensures Precedes(s + [x], a, b) <==> Precedes(s, a, b) || (x == b && a in s)
  {
    var t := s + [x];
    if i, j :| 0 <= i < j < |s| && s[i] == a && s[j] == b { assert t[i] == a && t[j] == b; }
    if x == b && a in s {
      var i :| 0 <= i < |s| && s[i] == a;
      assert t[i] == a && t[|s|] == b;
    }
    if i, j :| 0 <= i < j < |t| && t[i] == a && t[j] == b { assert t[i] == s[i]; }
  }

  lemma {:induction false} SiftConcat<K>(a: seq<K>, b: seq<K>, gone: set<K>)
    ensures Sift(a + b, gone) == Sift(a, gone) + Sift(b, gone)
    decreases |b|
  {
    if b == [] {
      assert a + b == a;
    } else {
      var n := |b| - 1;
      SiftConcat(a, b[..n], gone);
      assert (a + b)[..|a + b| - 1] == a + b[..n];
    }
  }

  lemma {:induction false} SiftNothing<K>(s: seq<K>, gone: set<K>)
    requires forall k :: k in s ==> k !in gone
    ensures Sift(s, gone) == s
  {
    if s != [] { SiftNothing(s[..|s| - 1], gone); }
  }

  lemma {:induction false} SiftAll<K>(s: seq<K>, gone: set<K>)
    requires forall k :: k in s ==> k in gone
    ensures Sift(s, gone) == []
  {
    if s != [] { SiftAll(s[..|s| - 1], gone); }
  }

  lemma {:induction false} SiftTwice<K>(s: seq<K>, a: set<K>, b: set<K>)
    ensures Sift(Sift(s, a), b) == Sift(s, a + b)
  {
    if s != [] {
      var n := |s| - 1;
      SiftTwice(s[..n], a, b);
      if s[n] in a {
        assert Sift(s, a) == Sift(s[..n], a);
      } else {
        assert Sift(s, a)[..|Sift(s, a)| - 1] == Sift(s[..n], a);
      }
    }
  }

  // ---------------------------------------------------------------------------------------
  // Taking keys out of the queue
  // ---------------------------------------------------------------------------------------

  /** `rest` is `s` without what is at `i`, where `x` first occurs. */
  ghost predicate IsCut<K>(s: seq<K>, x: K, i: nat, rest: seq<K>) {
    i < |s| && s[i] == x && x !in s[..i] && rest == s[..i] + s[i + 1..]
  }

  /** Removal takes out exactly the first occurrence, and moves nothing. */
  lemma {:induction false} RemoveFirstExactly<K>(s: seq<K>, x: K)
    ensures x !in s ==> RemoveFirst(s, x) == s
    ensures x in s ==> exists i :: IsCut(s, x, i, RemoveFirst(s, x))
  {
    hide IsCut;
    if s != [] {
      if s[0] == x {
        CutAtOnce(s);
        assert IsCut(s, x, 0, RemoveFirst(s, x));
      } else {
        RemoveFirstExactly(s[1..], x);
        assert s == [s[0]] + s[1..];
        if x in s[1..] {
          var i: nat :| IsCut(s[1..], x, i, RemoveFirst(s[1..], x));
          CutAfter(s, x, i, RemoveFirst(s[1..], x));
          assert IsCut(s, x, i + 1, RemoveFirst(s, x));
        }
      }
    }
  }

  lemma CutAtOnce<K>(s: seq<K>)
    requires s != []
    ensures IsCut(s, s[0], 0, s[1..])
  {
    assert s[..0] + s[1..] == s[1..];
  }

  lemma CutAfter<K>(s: seq<K>, x: K, i: nat, rest: seq<K>)
    requires s != [] && s[0] != x && IsCut(s[1..], x, i, rest)
    ensures IsCut(s, x, i + 1, [s[0]] + rest)
  {
    assert s[..i + 1] == [s[0]] + s[1..][..i];
    assert s[i + 2..] == s[1..][i + 1..];
  }

  lemma CutIsSift<K>(s: seq<K>, x: K, i: nat, rest: seq<K>)
    requires Distinct(s) && IsCut(s, x, i, rest)
    ensures rest == Sift(s, {x})
  {
    hide Sift;
    var front, back := s[..i], s[i + 1..];
    assert s == front + ([x] + back);
    SiftConcat(front, [x] + back, {x});
    SiftConcat([x], back, {x});
    SiftAll([x], {x});
    SiftNothing(front, {x});
    SiftNothing(back, {x});
    assert [] + back == back;
  }

  lemma RemoveFirstIsSift<K>(s: seq<K>, x: K)
    requires Distinct(s)
    ensures RemoveFirst(s, x) == Sift(s, {x})
  {
    hide RemoveFirst, Sift, IsCut;
    RemoveFirstExactly(s, x);
    if x in s {
      var i: nat :| IsCut(s, x, i, RemoveFirst(s, x));
      CutIsSift(s, x, i, RemoveFirst(s, x));
    } else {
      SiftNothing(s, {x});
    }
  }

  /** Committing leaves the queue without the committed keys, in its order. */
  lemma {:induction false} CommittedQueue<K, V, L, C>(p: Pool<K, V, L, C>, lease: L, keys: seq<K>)
    requires Distinct(p.queue)
    ensures CommitKeys(p, lease, keys).queue == Sift(p.queue, Members(keys))
  {
    hide RemoveFirst, Sift;
    if keys == [] {
      SiftNothing(p.queue, Members(keys));
    } else {
      var n := |keys| - 1;
      CommittedQueue(p, lease, keys[..n]);
      CommittedClosedForm(p, lease, keys[..n]);
      OneMoreGone(p.queue, CommitKeys(p, lease, keys[..n]).queue, keys);
    }
  }

  /** Leasing named keys leaves the queue without them, in its order. */
  lemma {:induction false} LeasedQueueExactly<K, V, L, C>(p: Pool<K, V, L, C>, lease: L, keys: seq<K>)
    requires Distinct(p.queue)
    ensures LeaseKeys(p, lease, keys).queue == Sift(p.queue, Members(keys))
  {
    hide RemoveFirst, Sift;
    if keys == [] {
      SiftNothing(p.queue, Members(keys));
    } else {
      var n := |keys| - 1;
      LeasedQueueExactly(p, lease, keys[..n]);
      LeasedClosedForm(p, lease, keys[..n]);
      OneMoreGone(p.queue, LeaseKeys(p, lease, keys[..n]).queue, keys);
    }
  }

  lemma OneMoreGone<K>(queue: seq<K>, left: seq<K>, keys: seq<K>)
    requires keys != [] && Distinct(left) && left == Sift(queue, Members(keys[..|keys| - 1]))
    ensures RemoveFirst(left, keys[|keys| - 1]) == Sift(queue, Members(keys))
  {
    hide RemoveFirst, Sift;
    var n := |keys| - 1;
    RemoveFirstIsSift(left, keys[n]);
    SiftTwice(queue, Members(keys[..n]), {keys[n]});
    assert keys == keys[..n] + [keys[n]];
    assert Members(keys) == Members(keys[..n]) + {keys[n]};
  }

  // ---------------------------------------------------------------------------------------
  // Waiting in line
  // ---------------------------------------------------------------------------------------

  /** The keys of the batch a pool would hand out. */
  function Batched<K(==), V, L(==), C(==)>(p: Pool<K, V, L, C>, lease: L, max: nat): set<K> {
    var d := LeaseBatch(p, lease, max);
    if d.Finished? then Members(Keys(d.batch)) else {}
  }

  /** The key an event adds, if it adds one: a new key whose changes nobody else makes. */
  ghost function Arrival<K, V, L, C>(p: Pool<K, V, L, C>, op: Op<K, V, L, C>): seq<K> {
    if op.Add? && op.key !in p.txns && (forall c, k :: k in p.txns && c in op.changes ==> c !in p.txns[k].changes) then [op.key] else []
  }

  /** The keys an event takes out of line: named by a commit or a lease, or handed out. */
  function Leaving<K(==), V, L(==), C(==)>(p: Pool<K, V, L, C>, op: Op<K, V, L, C>): set<K> {
    match op
    case Remove(_, keys) => Members(keys)
    case LeaseTxns(_, keys) => Members(keys)
    case TakeBatch(lease, max) => Batched(p, lease, max)
    case _ => {}
  }

  /** All keys added in a run, in order. */
  ghost function Arrivals<K, V, L, C>(ops: seq<Op<K, V, L, C>>): seq<K> {
    if ops == [] then []
    else
      var before := ApplyAll(ops[..|ops| - 1]);
      Arrivals(ops[..|ops| - 1]) + if before.Some? then Arrival(before.value, ops[|ops| - 1]) else []
  }

  /** The keys still in line: added, and neither named nor handed out since. */
  ghost function Waiting<K, V, L, C>(ops: seq<Op<K, V, L, C>>): seq<K> {
    if ops == [] then []
    else
      var before := ApplyAll(ops[..|ops| - 1]);
      if before.None? then []
      else Sift(Waiting(ops[..|ops| - 1]), Leaving(before.value, ops[|ops| - 1])) + Arrival(before.value, ops[|ops| - 1])
  }

  ghost predicate EndsWith<K>(s: seq<K>, end: seq<K>) {
    |end| <= |s| && s[|s| - |end|..] == end
  }

  lemma SiftEnd<K>(s: seq<K>, end: seq<K>, gone: set<K>)
    requires EndsWith(s, end)
    ensures EndsWith(Sift(s, gone), Sift(end, gone))
  {
    hide Sift;
    var front := s[..|s| - |end|];
    assert s == front + end;
    SiftConcat(front, end, gone);
  }

  /** What a single event does to the queue. */
  lemma QueueStep<K, V, L, C>(p: Pool<K, V, L, C>, op: Op<K, V, L, C>)
    requires QueueInv(p) && Returning(p, op)
    ensures Apply(p, op).Some?
    ensures Apply(p, op).value.queue == (if op.Free? then op.order else []) + Sift(p.queue, Leaving(p, op)) + Arrival(p, op)
  {
    hide Sift, CommitKeys, LeaseKeys, LeaseBatch, QueueInv, Returnable, Enumerates, AddStep;
    DistinctOf(p);
    ApplyKeepsQueue(p, op);
    match op
    case Add(key, txn, changes) =>
      AddExactly(p, key, txn, changes);
      TakenMeaning(p.txns, changes);
      SiftNothing(p.queue, {});
    case Remove(lease, keys) => CommittedQueue(p, lease, keys);
    case Free(lease, order) => SiftNothing(p.queue, {});
    case LeaseTxns(lease, keys) => LeasedQueueExactly(p, lease, keys);
    case TakeBatch(lease, max) => BatchedQueue(p, lease, max);
  }

  lemma DistinctOf<K, V, L, C>(p: Pool<K, V, L, C>)
    requires QueueInv(p)
    ensures Distinct(p.queue)
  {
  }

  lemma TakenMeaning<K, V, C>(txns: map<K, Pending<V, C>>, changes: seq<C>)
    ensures (forall c :: c in changes ==> !Taken(txns, c)) <==> forall c, k :: k in txns && c in changes ==> c !in txns[k].changes
  {
    if forall c :: c in changes ==> !Taken(txns, c) {
      forall c, k | k in txns && c in changes ensures c !in txns[k].changes {
        assert !Taken(txns, c);
      }
    }
  }

  lemma BatchedQueue<K, V, L, C>(p: Pool<K, V, L, C>, lease: L, max: nat)
    requires QueueInv(p)
    ensures var m := Min(|p.queue|, Quota(max));
      && Batched(p, lease, max) == Members(p.queue[..m])
      && LeaseBatch(p, lease, max).Finished? && LeaseBatch(p, lease, max).pool.queue == p.queue[m..] == Sift(p.queue, Batched(p, lease, max))
  {
    hide Sift, LeaseBatch;
    BatchKeepsQueue(p, lease, max);
    var m := Min(|p.queue|, Quota(max));
    var front := p.queue[..m];
    assert Keys(LeaseBatch(p, lease, max).batch) == front;
    assert p.queue == front + p.queue[m..];
    SiftConcat(front, p.queue[m..], Members(front));
    SiftAll(front, Members(front));
    SiftNothing(p.queue[m..], Members(front));
  }

  lemma ReturningPrefix<K, V, L, C>(ops: seq<Op<K, V, L, C>>)
    requires ReturningRun(ops) && ops != []
    ensures ReturningRun(ops[..|ops| - 1])
  {
    hide Returning, ApplyAll;
    var n := |ops| - 1;
    forall i | 0 <= i < n && ApplyAll(ops[..n][..i]).Some? ensures Returning(ApplyAll(ops[..n][..i]).value, ops[..n][i]) {
      assert ops[..n][..i] == ops[..i];
    }
  }

  /** One event moves the queue and the line alike. */
  lemma LineStep<K, V, L, C>(p: Pool<K, V, L, C>, op: Op<K, V, L, C>, line: seq<K>)
    requires QueueInv(p) && Returning(p, op) && EndsWith(p.queue, line)
    ensures Apply(p, op).Some? && EndsWith(Apply(p, op).value.queue, Sift(line, Leaving(p, op)) + Arrival(p, op))
  {
    hide Returning, Apply, QueueInv, Sift, Leaving, Arrival;
    QueueStep(p, op);
    SiftEnd(p.queue, line, Leaving(p, op));
  }

  /** Over every run the queue is what leases gave back, followed by the keys still in line. */
  lemma {:induction false} QueueIsLine<K, V, L, C>(ops: seq<Op<K, V, L, C>>)
    requires ReturningRun(ops)
    ensures ApplyAll(ops).Some? && QueueInv(ApplyAll(ops).value)
    ensures EndsWith(ApplyAll(ops).value.queue, Waiting(ops))
  {
    hide Returning, Apply, QueueInv, Sift, Leaving, Arrival, LeaseBatch, Prefix, AllPending;
    if ops == [] {
      EmptyQueue<K, V, L, C>();
    } else {
      var n := |ops| - 1;
      ReturningPrefix(ops);
      QueueIsLine(ops[..n]);
      ApplyKeepsQueue(ApplyAll(ops[..n]).value, ops[n]);
      LineStep(ApplyAll(ops[..n]).value, ops[n], Waiting(ops[..n]));
    }
  }

  /** `a` is left when some of `b` is crossed out. */
  ghost predicate Subsequence<K>(a: seq<K>, b: seq<K>) {
    a == [] || (b != [] && (Subsequence(a, b[..|b| - 1]) || (a[|a| - 1] == b[|b| - 1] && Subsequence(a[..|a| - 1], b[..|b| - 1]))))
  }

  lemma {:induction false} SiftSubsequence<K>(a: seq<K>, b: seq<K>, gone: set<K>)
    requires Subsequence(a, b)
    ensures Subsequence(Sift(a, gone), b)
    decreases |b|
  {
    if a != [] {
      var n := |b| - 1;
      if Subsequence(a, b[..n]) {
        SiftSubsequence(a, b[..n], gone);
      } else {
        var m := |a| - 1;
        SiftSubsequence(a[..m], b[..n], gone);
        if a[m] in gone {
          assert Sift(a, gone) == Sift(a[..m], gone);
        } else {
          assert Sift(a, gone)[..|Sift(a, gone)| - 1] == Sift(a[..m], gone);
        }
      }
    }
  }

  lemma SubsequenceMore<K>(a: seq<K>, b: seq<K>, more: seq<K>)
    requires Subsequence(a, b) && |more| <= 1
    ensures Subsequence(a + more, b + more)
  {
    if more == [] {
      assert a + more == a && b + more == b;
    } else {
      assert (a + more)[..|a|] == a && (b + more)[..|b|] == b;
    }
  }

  /** The keys in line stand in the order in which they came. */
  lemma {:induction false} LineIsInOrder<K, V, L, C>(ops: seq<Op<K, V, L, C>>)
    ensures Subsequence(Waiting(ops), Arrivals(ops))
  {
    hide Sift, Leaving;
    if ops != [] {
      var n := |ops| - 1;
      LineIsInOrder(ops[..n]);
      var before := ApplyAll(ops[..n]);
      if before.Some? {
        SiftSubsequence(Waiting(ops[..n]), Arrivals(ops[..n]), Leaving(before.value, ops[n]));
        SubsequenceMore(Sift(Waiting(ops[..n]), Leaving(before.value, ops[n])), Arrivals(ops[..n]), Arrival(before.value, ops[n]));
      }
    }
  }

  /** First in, first out over every run: whatever was committed, leased and given back in between, a batch takes
    the keys in line from the front, so in the order in which they were added. */
  lemma FirstComeFirstServed<K, V, L, C>(ops: seq<Op<K, V, L, C>>, lease: L, max: nat)
    requires ReturningRun(ops)
    ensures ApplyAll(ops).Some?
    ensures var p, line := ApplyAll(ops).value, Waiting(ops);
      var m := Min(|p.queue|, Quota(max));
      var taken := m - (|p.queue| - |line|);
      && Subsequence(line, Arrivals(ops)) && |line| <= |p.queue|
      && Batched(p, lease, max) == Members(p.queue[..m])
      && Sift(line, Batched(p, lease, max)) == if taken <= 0 then line else line[taken..]
  {
    hide Sift, Waiting, Arrivals, ApplyAll, QueueInv, Batched;
    QueueIsLine(ops);
    LineIsInOrder(ops);
    var p, line := ApplyAll(ops).value, Waiting(ops);
    var m := Min(|p.queue|, Quota(max));
    BatchedQueue(p, lease, max);
    DistinctOf(p);
    LineFromFront(p.queue, line, m);
  }

  lemma LineFromFront<K>(queue: seq<K>, line: seq<K>, m: nat)
    requires Distinct(queue) && EndsWith(queue, line) && m <= |queue|
    ensures var taken := m - (|queue| - |line|);
      Sift(line, Members(queue[..m])) == if taken <= 0 then line else line[taken..]
  {
    hide Sift, Members;
    var k, gone := |queue| - |line|, Members(queue[..m]);
    if m <= k {
      AfterCut(queue, line, m, 0);
      assert line[0..] == line;
      SiftNothing(line, gone);
    } else {
      var front, back := line[..m - k], line[m - k..];
      assert line == front + back;
      SiftConcat(front, back, gone);
      BeforeCut(queue, line, m);
      SiftAll(front, gone);
      AfterCut(queue, line, m, m - k);
      SiftNothing(back, gone);
    }
  }

  lemma BeforeCut<K>(queue: seq<K>, line: seq<K>, m: nat)
    requires EndsWith(queue, line) && |queue| - |line| < m <= |queue|
    ensures forall x :: x in line[..m - (|queue| - |line|)] ==> x in Members(queue[..m])
  {
    var k := |queue| - |line|;
    var front := line[..m - k];
    forall x | x in front ensures x in Members(queue[..m]) {
      var i :| 0 <= i < |front| && front[i] == x;
      assert queue[..m][k + i] == x;
    }
  }

  lemma AfterCut<K>(queue: seq<K>, line: seq<K>, m: nat, j: nat)
    requires Distinct(queue) && EndsWith(queue, line) && j <= |line| && m <= |queue| - |line| + j
    ensures forall x :: x in line[j..] ==> x !in Members(queue[..m])
  {
    var k := |queue| - |line|;
    forall x | x in line[j..] ensures x !in Members(queue[..m]) {
      var i :| 0 <= i < |line[j..]| && line[j..][i] == x;
      assert queue[k + j + i] == x;
    }
  }

  // ---------------------------------------------------------------------------------------
  // Batches of any pool
  // ---------------------------------------------------------------------------------------

  /** Some transaction of the batch makes a change that the pending transaction of `k` makes too. */
  ghost predicate ClashesWith<K, V, C>(txns: map<K, Pending<V, C>>, batch: seq<(K, V)>, k: K) {
    k in txns && exists i, c :: 0 <= i < |batch| && batch[i].0 in txns && c in txns[batch[i].0].changes && c in txns[k].changes
  }

  /** The first `m` queued keys went into the batch or were passed over, each list in queue order; the keys passed
    over clash with the batch; `seen` are the changes of the batch. */
  ghost predicate Walked<K, V, L, C>(p: Pool<K, V, L, C>, m: nat, batch: seq<(K, V)>, passed: seq<K>) {
    && m <= |p.queue| && |batch| + |passed| == m
    && Subsequence(Keys(batch), p.queue[..m]) && Subsequence(passed, p.queue[..m])
    && (forall k :: k in passed ==> ClashesWith(p.txns, batch, k))
  }

  ghost predicate SeenIs<K, V, C>(txns: map<K, Pending<V, C>>, batch: seq<(K, V)>, seen: set<C>) {
    forall c :: c in seen ==> exists i :: 0 <= i < |batch| && batch[i].0 in txns && c in txns[batch[i].0].changes
  }

  ghost predicate WalkedSoFar<K, V, L, C>(p: Pool<K, V, L, C>, m: nat, d: Draining<K, V, L, C>) {
    && m <= |p.queue|
    && match d
      case Going(q, batch, seen, passed) =>
        q.txns == p.txns && q.queue == p.queue[m..] && Walked(p, m, batch, passed) && SeenIs(p.txns, batch, seen)
      case Finished(q, batch) =>
        var unreached := |p.queue| - m;
        unreached <= |q.queue| && q.queue[..unreached] == p.queue[m..] && Walked(p, m, batch, q.queue[unreached..])
      case Panicked => m < |p.queue| && p.queue[m] !in p.txns
  }

  lemma ClashesGrow<K, V, C>(txns: map<K, Pending<V, C>>, batch: seq<(K, V)>, x: (K, V), k: K)
    requires ClashesWith(txns, batch, k)
    ensures ClashesWith(txns, batch + [x], k)
  {
    var i, c :| 0 <= i < |batch| && batch[i].0 in txns && c in txns[batch[i].0].changes && c in txns[k].changes;
    assert (batch + [x])[i] == batch[i];
  }

  lemma {:induction false} SubsequenceOfMore<K>(a: seq<K>, b: seq<K>, x: K)
    requires Subsequence(a, b)
    ensures Subsequence(a, b + [x]) && Subsequence(a + [x], b + [x])
  {
    assert (b + [x])[..|b|] == b && (a + [x])[..|a|] == a;
  }

  lemma WalkedTaken<K, V, L, C>(p: Pool<K, V, L, C>, m: nat, batch: seq<(K, V)>, passed: seq<K>, v: V)
    requires Walked(p, m, batch, passed) && m < |p.queue|
    ensures Walked(p, m + 1, batch + [(p.queue[m], v)], passed)
  {
    hide ClashesWith, Subsequence;
    var key := p.queue[m];
    assert p.queue[..m + 1] == p.queue[..m] + [key];
    assert Keys(batch + [(key, v)]) == Keys(batch) + [key];
    SubsequenceOfMore(Keys(batch), p.queue[..m], key);
    SubsequenceOfMore(passed, p.queue[..m], key);
    forall k | k in passed ensures ClashesWith(p.txns, batch + [(key, v)], k) { ClashesGrow(p.txns, batch, (key, v), k); }
  }

  lemma WalkedPast<K, V, L, C>(p: Pool<K, V, L, C>, m: nat, batch: seq<(K, V)>, passed: seq<K>)
    requires Walked(p, m, batch, passed) && m < |p.queue| && ClashesWith(p.txns, batch, p.queue[m])
    ensures Walked(p, m + 1, batch, passed + [p.queue[m]])
  {
    hide ClashesWith, Subsequence, Keys;
    var key := p.queue[m];
    assert p.queue[..m + 1] == p.queue[..m] + [key];
    SubsequenceOfMore(Keys(batch), p.queue[..m], key);
    SubsequenceOfMore(passed, p.queue[..m], key);
  }

  lemma SeenGrowsBy<K, V, C>(txns: map<K, Pending<V, C>>, batch: seq<(K, V)>, seen: set<C>, key: K, v: V)
    requires SeenIs(txns, batch, seen) && key in txns
    ensures SeenIs(txns, batch + [(key, v)], seen + (set c | c in txns[key].changes))
  {
    var more := batch + [(key, v)];
    var all := seen + (set c | c in txns[key].changes);
    forall c | c in all
      ensures exists i :: 0 <= i < |more| && more[i].0 in txns && c in txns[more[i].0].changes
    {
      if c in txns[key].changes {
        assert more[|batch|].0 == key;
      } else {
        var i :| 0 <= i < |batch| && batch[i].0 in txns && c in txns[batch[i].0].changes;
        assert more[i] == batch[i];
      }
    }
  }

  lemma ClashIsSeen<K, V, C>(txns: map<K, Pending<V, C>>, batch: seq<(K, V)>, seen: set<C>, key: K)
    requires SeenIs(txns, batch, seen) && key in txns && Clashes(txns[key].changes, seen)
    ensures ClashesWith(txns, batch, key)
  {
    var c :| c in txns[key].changes && c in seen;
  }

  lemma WalkStep<K, V, L, C>(p: Pool<K, V, L, C>, m: nat, d: Draining<K, V, L, C>, lease: L, max: nat)
    requires d.Going? && WalkedSoFar(p, m, d)
    ensures WalkedSoFar(p, m, DrainStep(d, lease, max)) || WalkedSoFar(p, m + 1, DrainStep(d, lease, max))
  {
    hide Walked, SeenIs, Clashes, ClashesWith, HeldBy;
    if m == |p.queue| {
      assert p.queue[m..] == [] && d.passed[0..] == d.passed;
    } else {
      var key := p.queue[m];
      var ended := p.queue[m + 1..] + d.passed;
      assert ended[..|p.queue| - m - 1] == p.queue[m + 1..] && ended[|p.queue| - m - 1..] == d.passed;
      assert d.pool.queue[0] == key && d.pool.queue[1..] == p.queue[m + 1..];
      if key in p.txns {
        if Clashes(p.txns[key].changes, d.seen) {
          ClashIsSeen(p.txns, d.batch, d.seen, key);
          WalkedPast(p, m, d.batch, d.passed);
        } else {
          WalkedTaken(p, m, d.batch, d.passed, p.txns[key].txn);
          SeenGrowsBy(p.txns, d.batch, d.seen, key, p.txns[key].txn);
        }
      }
    }
  }

  lemma {:induction false} WalkDrain<K, V, L, C>(p: Pool<K, V, L, C>, m: nat, d: Draining<K, V, L, C>, lease: L, max: nat)
    requires WalkedSoFar(p, m, d)
    ensures exists n: nat :: WalkedSoFar(p, n, Drain(d, lease, max))
    decreases if d.Going? then |d.pool.queue| + 1 else 0
  {
    hide WalkedSoFar;
    if d.Going? {
      WalkStep(p, m, d, lease, max);
      var next := DrainStep(d, lease, max);
      var at := if WalkedSoFar(p, m, next) then m else m + 1;
      WalkDrain(p, at, next, lease, max);
      var n: nat :| WalkedSoFar(p, n, Drain(next, lease, max));
      assert WalkedSoFar(p, n, Drain(d, lease, max));
    } else {
      assert WalkedSoFar(p, m, Drain(d, lease, max));
    }
  }

  /** In any pool a batch walks a stretch of the queue from its front. What it does not take of that stretch clashes
    with what it takes, and goes to the end of the queue, behind what it did not reach, both in order. It
    fails only at a key without a transaction. */
  lemma BatchesWalkTheQueue<K, V, L, C>(p: Pool<K, V, L, C>, lease: L, max: nat)
    ensures exists m: nat :: WalkedSoFar(p, m, LeaseBatch(p, lease, max))
  {
    var start: Draining<K, V, L, C> := Going(p, [], {}, []);
    assert p.queue[0..] == p.queue && Keys(start.batch) == [];
    assert WalkedSoFar(p, 0, start);
    WalkDrain(p, 0, start, lease, max);
    var n: nat :| WalkedSoFar(p, n, Drain(start, lease, max));
    assert WalkedSoFar(p, n, LeaseBatch(p, lease, max));
  }
}
