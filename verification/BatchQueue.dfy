/** Calls collected into batches: the shared queue, and every interleaving of callers and workers. */
module BatchQueue {
  import opened Util

  /** A caller waiting for its reply; tickets are numbered in the order of the calls. */
  type Ticket = nat

  datatype BatchError<E> = TaskDropped | ProcessorError(error: E)

  /** The state behind the lock. `next` and `processing` say whether a run is scheduled, and whether one is on. */
  datatype Shared = Shared(items: seq<Ticket>, next: bool, processing: bool)

  // ---------------------------------------------------------------------------------------
  // The critical sections
  // ---------------------------------------------------------------------------------------

  function Enqueue(q: Shared, t: Ticket): (Shared, bool) {
    var pushed := q.(items := q.items + [t]);
    if !q.next && !q.processing then (pushed.(next := true), true) else (pushed, false)
  }

  function Take(q: Shared): (Shared, seq<Ticket>) {
    (Shared([], false, true), q.items)
  }

  function Finish(q: Shared): (Shared, bool) {
    if q.items != [] && !q.next then (Shared(q.items, true, false), true) else (q.(processing := false), false)
  }

  /** The reply to the `i`th caller of a batch. A missing result drops the sender. */
  function Answer<R, E>(outcome: Result<seq<R>, E>, i: nat): Result<R, BatchError<E>> {
    match outcome
    case Ok(results) => if i < |results| then Ok(results[i]) else Err(TaskDropped)
    case Err(error) => Err(ProcessorError(error))
  }

  /** `r` is what the `i`th caller should hear: its own result if the batch succeeded and has one for it, that
    it was dropped if there is none, and the batch's error otherwise. */
  ghost predicate IsOutcome<R, E>(outcome: Result<seq<R>, E>, i: nat, r: Result<R, BatchError<E>>) {
    && (outcome.Ok? && i < |outcome.value| ==> r.Ok? && r.value == outcome.value[i])
    && (outcome.Ok? && i >= |outcome.value| ==> r.Err? && r.error.TaskDropped?)
    && (outcome.Err? ==> r.Err? && r.error.ProcessorError? && r.error.error == outcome.error)
  }

  function Answers<R, E>(batch: seq<Ticket>, outcome: Result<seq<R>, E>): seq<(Ticket, Result<R, BatchError<E>>)> {
    seq(|batch|, i requires 0 <= i < |batch| => (batch[i], Answer(outcome, i)))
  }

  class Queue {
    var items: seq<Ticket>
    var next: bool
    var processing: bool

    function View(): Shared
      reads this
    {
      Shared(items, next, processing)
    }

    constructor ()
      ensures View() == Shared([], false, false)
    {
      items, next, processing := [], false, false;
    }

    /** A call joins the queue; `true` if it must start a worker. */
    method Join(t: Ticket) returns (schedule: bool)
      modifies this
      ensures (View(), schedule) == Enqueue(old(View()), t)
    {
      items := items + [t];
      if !next && !processing {
        next := true;
        return true;
      }
      return false;
    }

    method TakeAll() returns (batch: seq<Ticket>)
      modifies this
      ensures (View(), batch) == Take(old(View()))
    {
      next := false;
      processing := true;
      batch := items;
      items := [];
    }

    /** A worker is done with its batch; `true` if it must go on with another. */
    method Complete() returns (again: bool)
      modifies this
      ensures (View(), again) == Finish(old(View()))
    {
      processing := false;
      if items != [] && !next {
        next := true;
        return true;
      }
      return false;
    }
  }

  /** Sending the replies: results are paired with senders, and senders left over are dropped. */
  method SendReplies<R, E>(senders: seq<Ticket>, outcome: Result<seq<R>, E>)
    returns (sent: seq<(Ticket, Result<R, BatchError<E>>)>)
    ensures sent == Answers(senders, outcome)
    ensures |sent| == |senders|
    ensures forall i :: 0 <= i < |senders| ==> sent[i].0 == senders[i] && IsOutcome(outcome, i, sent[i].1)
  {
    sent := [];
    match outcome
    case Ok(results) =>
      var i := 0;
      while i < |senders| && i < |results|
        invariant 0 <= i <= |senders| && i <= |results|
        invariant sent == Answers(senders, outcome)[..i]
      {
        sent := sent + [(senders[i], Ok(results[i]))];
        i := i + 1;
      }
      while i < |senders|
        invariant 0 <= i <= |senders| && (i < |senders| ==> i >= |results|)
        invariant sent == Answers(senders, outcome)[..i]
      {
        sent := sent + [(senders[i], Err(TaskDropped))];
        i := i + 1;
      }
    case Err(error) =>
      for i := 0 to |senders|
        invariant sent == Answers(senders, outcome)[..i]
      {
        sent := sent + [(senders[i], Err(ProcessorError(error)))];
      }
  }

  // ---------------------------------------------------------------------------------------
  // Interleavings
  // ---------------------------------------------------------------------------------------

  /** Where a worker stands between two atomic steps. */
  datatype Phase<R, E> =
    | Starting
    | Sleeping
    | Working(batch: seq<Ticket>)
    | Replying(left: seq<(Ticket, Result<R, BatchError<E>>)>)

  /** A finished call of the processor: who was in it, with which arguments, and what it returned. */
  datatype Batch<I, R, E> = Batch(tickets: seq<Ticket>, args: seq<I>, outcome: Result<seq<R>, E>)

  datatype State<I, R, E> = State(
    queue: Shared,
    workers: seq<Phase<R, E>>,
    submitted: seq<I>,
    batches: seq<Batch<I, R, E>>,
    replies: seq<(Ticket, Result<R, BatchError<E>>)>)

  /** A caller submits an item, or a worker takes its next step; `outcome` is what the processor returns
    if that step calls it. */
  datatype Step<I, R, E> = Call(item: I) | Work(worker: nat, outcome: Result<seq<R>, E>)

  function Without<A>(s: seq<A>, i: nat): seq<A>
    requires i < |s|
  {
    s[..i] + s[i + 1..]
  }

  function Args<I>(submitted: seq<I>, tickets: seq<Ticket>): seq<I>
    requires forall t :: t in tickets ==> t < |submitted|
  {
    seq(|tickets|, i requires 0 <= i < |tickets| => assert tickets[i] in tickets; submitted[tickets[i]])
  }

  ghost predicate Known<I, R, E>(s: State<I, R, E>) {
    && (forall t :: t in s.queue.items ==> t < |s.submitted|)
    && (forall k, t :: 0 <= k < |s.workers| && s.workers[k].Working? && t in s.workers[k].batch ==> t < |s.submitted|)
  }

  function DoCall<I, R, E>(s: State<I, R, E>, item: I): State<I, R, E> {
    var (queue, schedule) := Enqueue(s.queue, |s.submitted|);
    s.(queue := queue, submitted := s.submitted + [item], workers := if schedule then s.workers + [Starting] else s.workers)
  }

  function DoWork<I, R, E>(s: State<I, R, E>, w: nat, outcome: Result<seq<R>, E>): State<I, R, E>
    requires w < |s.workers| && Known(s)
  {
    match s.workers[w]
    case Starting =>
      if s.queue.next then s.(workers := s.workers[w := Sleeping]) else s.(workers := Without(s.workers, w))
    case Sleeping =>
      var (queue, batch) := Take(s.queue);
      s.(queue := queue, workers := s.workers[w := if batch == [] then Replying([]) else Working(batch)])
    case Working(batch) =>
      s.(batches := s.batches + [Batch(batch, Args(s.submitted, batch), outcome)],
         workers := s.workers[w := Replying(Answers(batch, outcome))])
    case Replying(left) =>
      if left != [] then s.(replies := s.replies + [left[0]], workers := s.workers[w := Replying(left[1..])])
      else
        var (queue, again) := Finish(s.queue);
        s.(queue := queue, workers := if again then s.workers[w := Starting] else Without(s.workers, w))
  }

  predicate Enabled<I, R, E>(s: State<I, R, E>, step: Step<I, R, E>) {
    step.Work? ==> step.worker < |s.workers|
  }

  function Next<I, R, E>(s: State<I, R, E>, step: Step<I, R, E>): State<I, R, E>
    requires Known(s) && Enabled(s, step)
  {
    match step
    case Call(item) => DoCall(s, item)
    case Work(w, outcome) => DoWork(s, w, outcome)
  }

  function Init<I, R, E>(): State<I, R, E> {
    State(Shared([], false, false), [], [], [], [])
  }

  ghost predicate IsRun<I, R, E>(run: seq<State<I, R, E>>, steps: seq<Step<I, R, E>>) {
    && |run| == |steps| + 1 && run[0] == Init()
    && forall i :: 0 <= i < |steps| ==> Known(run[i]) && Enabled(run[i], steps[i]) && run[i + 1] == Next(run[i], steps[i])
  }

  // ---------------------------------------------------------------------------------------
  // The invariant
  // ---------------------------------------------------------------------------------------

  function Tickets<R, E>(replies: seq<(Ticket, Result<R, BatchError<E>>)>): seq<Ticket> {
    seq(|replies|, i requires 0 <= i < |replies| => replies[i].0)
  }

  /** The tickets a worker holds. */
  function Holds<R, E>(w: Phase<R, E>): seq<Ticket> {
    match w
    case Working(batch) => batch
    case Replying(left) => Tickets(left)
    case _ => []
  }

  function InFlight<I, R, E>(s: State<I, R, E>): seq<Ticket> {
    if s.workers == [] then [] else Holds(s.workers[0])
  }

  /** The tickets from `0` up to, not including, `n`. */
  function UpTo(n: nat): seq<Ticket> {
    seq(n, i => i)
  }

  function AllAnswers<I, R, E>(batches: seq<Batch<I, R, E>>): seq<(Ticket, Result<R, BatchError<E>>)> {
    if batches == [] then []
    else
      var b := batches[|batches| - 1];
      AllAnswers(batches[..|batches| - 1]) + Answers(b.tickets, b.outcome)
  }

  function Unsent<I, R, E>(s: State<I, R, E>): seq<(Ticket, Result<R, BatchError<E>>)> {
    if s.workers != [] && s.workers[0].Replying? then s.workers[0].left else []
  }

  /** At most one worker; a worker that is to run is scheduled and has something to do; one that runs has
    the queue marked; with no worker, nothing is queued. */
  ghost predicate OneWorker<I, R, E>(s: State<I, R, E>) {
    && |s.workers| <= 1
    && (s.workers == [] ==> s.queue == Shared([], false, false))
    && (s.workers != [] ==>
          match s.workers[0]
          case Starting => s.queue.next && !s.queue.processing && s.queue.items != []
          case Sleeping => s.queue.next && !s.queue.processing && s.queue.items != []
          case Working(batch) => !s.queue.next && s.queue.processing && batch != []
          case Replying(_) => !s.queue.next && s.queue.processing)
  }

  /** Every ticket is replied to, in flight or queued: in that order, each once. */
  ghost predicate InLine<I, R, E>(s: State<I, R, E>) {
    Tickets(s.replies) + InFlight(s) + s.queue.items == UpTo(|s.submitted|)
  }

  /** Replies are the answers of the batches, in order. */
  ghost predicate Faithful<I, R, E>(s: State<I, R, E>) {
    s.replies + Unsent(s) == AllAnswers(s.batches) && forall b :: b in s.batches ==> GoodBatch(s.submitted, b)
  }

  ghost predicate GoodBatch<I, R, E>(submitted: seq<I>, b: Batch<I, R, E>) {
    b.tickets != [] && (forall t :: t in b.tickets ==> t < |submitted|) && b.args == Args(submitted, b.tickets)
  }

  ghost predicate Inv<I, R, E>(s: State<I, R, E>) {
    OneWorker(s) && InLine(s) && Faithful(s)
  }

  lemma InLineKnown<I, R, E>(s: State<I, R, E>)
    requires OneWorker(s) && InLine(s)
    ensures Known(s)
  {
    var all := UpTo(|s.submitted|);
    assert forall t :: t in all ==> t < |s.submitted|;
    assert forall t :: t in s.queue.items ==> t in all;
    assert forall t :: t in InFlight(s) ==> t in all;
  }

  // ---------------------------------------------------------------------------------------
  // Every interleaving
  // ---------------------------------------------------------------------------------------

  lemma UpToMore(n: nat)
    ensures UpTo(n + 1) == UpTo(n) + [n]
  {
  }

  lemma CallKeepsInv<I, R, E>(s: State<I, R, E>, item: I)
    requires Inv(s)
    ensures Inv(DoCall(s, item))
  {
    hide UpTo, AllAnswers;
    var after := DoCall(s, item);
    var n := |s.submitted|;
    UpToMore(n);
    assert InFlight(after) == InFlight(s);
    assert Tickets(s.replies) + InFlight(s) + (s.queue.items + [n]) == Tickets(s.replies) + InFlight(s) + s.queue.items + [n];
    assert Unsent(after) == Unsent(s);
    forall b | b in s.batches ensures GoodBatch(after.submitted, b) {
      ArgsGrow(s.submitted, item, b.tickets);
    }
  }

  lemma ArgsGrow<I>(submitted: seq<I>, item: I, tickets: seq<Ticket>)
    requires forall t :: t in tickets ==> t < |submitted|
    ensures Args(submitted + [item], tickets) == Args(submitted, tickets)
  {
    assert forall i :: 0 <= i < |tickets| ==> tickets[i] in tickets;
  }

  lemma WorkKeepsOneWorker<I, R, E>(s: State<I, R, E>, outcome: Result<seq<R>, E>)
    requires OneWorker(s) && Known(s) && s.workers != []
    ensures OneWorker(DoWork(s, 0, outcome))
  {
    hide Answers, Args;
  }

  lemma NoTickets<R, E>()
    ensures Tickets<R, E>([]) == []
  {
  }

  lemma TicketsOfAnswers<R, E>(batch: seq<Ticket>, outcome: Result<seq<R>, E>)
    ensures Tickets(Answers(batch, outcome)) == batch
  {
  }

  lemma WorkKeepsInLine<I, R, E>(s: State<I, R, E>, outcome: Result<seq<R>, E>)
    requires OneWorker(s) && InLine(s) && Known(s) && s.workers != []
    ensures InLine(DoWork(s, 0, outcome))
  {
    hide Answers, Args, UpTo, Tickets;
    NoTickets<R, E>();
    match s.workers[0]
    case Starting =>
    case Sleeping =>
      assert Tickets(s.replies) + [] + s.queue.items == Tickets(s.replies) + s.queue.items + [];
    case Working(batch) =>
      TicketsOfAnswers(batch, outcome);
    case Replying(left) =>
      if left != [] {
        SendOne(s.replies, left, s.queue.items);
      }
  }

  lemma SendOne<R, E>(replies: seq<(Ticket, Result<R, BatchError<E>>)>, left: seq<(Ticket, Result<R, BatchError<E>>)>, items: seq<Ticket>)
    requires left != []
    ensures Tickets(replies + [left[0]]) + Tickets(left[1..]) + items == Tickets(replies) + Tickets(left) + items
  {
    assert Tickets(left) == [left[0].0] + Tickets(left[1..]);
    assert Tickets(replies + [left[0]]) == Tickets(replies) + [left[0].0];
  }

  lemma GoodBatchMade<I, R, E>(submitted: seq<I>, batch: seq<Ticket>, outcome: Result<seq<R>, E>)
    requires batch != [] && forall t :: t in batch ==> t < |submitted|
    ensures GoodBatch(submitted, Batch(batch, Args(submitted, batch), outcome))
  {
  }

  lemma WorkKeepsFaithful<I, R, E>(s: State<I, R, E>, outcome: Result<seq<R>, E>)
    requires Inv(s) && Known(s) && s.workers != []
    ensures Faithful(DoWork(s, 0, outcome))
  {
    hide Answers, InLine, GoodBatch;
    match s.workers[0]
    case Starting =>
    case Sleeping =>
    case Working(batch) =>
      var b := Batch(batch, Args(s.submitted, batch), outcome);
      GoodBatchMade(s.submitted, batch, outcome);
      assert (s.batches + [b])[..|s.batches|] == s.batches;
      assert s.replies + [] == s.replies;
    case Replying(left) =>
      if left != [] {
        assert s.replies + left == s.replies + [left[0]] + left[1..];
      }
  }

  lemma NextKeepsInv<I, R, E>(s: State<I, R, E>, step: Step<I, R, E>)
    requires Inv(s) && Known(s) && Enabled(s, step)
    ensures Inv(Next(s, step)) && Known(Next(s, step))
  {
    hide OneWorker, InLine, Faithful, Known, DoCall, DoWork;
    match step
    case Call(item) =>
      CallKeepsInv(s, item);
      InLineKnown(DoCall(s, item));
    case Work(w, outcome) =>
      assert w == 0 by { FirstWorker(s, w); }
      WorkKeepsOneWorker(s, outcome);
      WorkKeepsInLine(s, outcome);
      WorkKeepsFaithful(s, outcome);
      InLineKnown(DoWork(s, 0, outcome));
  }

  lemma FirstWorker<I, R, E>(s: State<I, R, E>, w: nat)
    requires OneWorker(s) && w < |s.workers|
    ensures w == 0
  {
  }

  lemma InitInv<I, R, E>()
    ensures Inv(Init<I, R, E>()) && Known(Init<I, R, E>())
  {
    assert UpTo(0) == [];
  }

  /** Over every interleaving there is at most one worker, a queue that is not empty has one, and every call
    is replied to, in flight or queued, in the order of the calls. */
  lemma {:induction false} RunKeepsInv<I, R, E>(run: seq<State<I, R, E>>, steps: seq<Step<I, R, E>>, k: nat)
    requires IsRun(run, steps) && k < |run|
    ensures Inv(run[k])
  {
    hide Inv, Known, Next, Enabled;
    if k == 0 {
      InitInv<I, R, E>();
    } else {
      RunKeepsInv(run, steps, k - 1);
      NextKeepsInv(run[k - 1], steps[k - 1]);
    }
  }

  // ---------------------------------------------------------------------------------------
  // Replies
  // ---------------------------------------------------------------------------------------

  /** The processor gives one result per item, or fails as a whole. */
  ghost predicate Conforming<I, R, E>(batches: seq<Batch<I, R, E>>) {
    forall k :: 0 <= k < |batches| && batches[k].outcome.Ok? ==> |batches[k].outcome.value| == |batches[k].tickets|
  }

  /** Reply `r` to ticket `t` comes from its place `i` in batch `k`. */
  ghost predicate ComesFrom<I, R, E>(s: State<I, R, E>, t: Ticket, r: Result<R, BatchError<E>>, k: nat, i: nat) {
    && k < |s.batches| && i < |s.batches[k].tickets| && s.batches[k].tickets[i] == t
    && t < |s.submitted| && i < |s.batches[k].args| && s.batches[k].args[i] == s.submitted[t]
    && IsOutcome(s.batches[k].outcome, i, r)
  }

  ghost predicate IsAnswer<I, R, E>(batches: seq<Batch<I, R, E>>, reply: (Ticket, Result<R, BatchError<E>>), k: nat, i: nat) {
    k < |batches| && i < |batches[k].tickets| && reply == (batches[k].tickets[i], Answer(batches[k].outcome, i))
  }

  lemma {:induction false} AnswerHasBatch<I, R, E>(batches: seq<Batch<I, R, E>>, m: nat)
    requires m < |AllAnswers(batches)|
    ensures exists k, i :: IsAnswer(batches, AllAnswers(batches)[m], k, i)
  {
    var n := |batches| - 1;
    var before := AllAnswers(batches[..n]);
    if m < |before| {
      AnswerHasBatch(batches[..n], m);
      var k: nat, i: nat :| IsAnswer(batches[..n], before[m], k, i);
      assert IsAnswer(batches, AllAnswers(batches)[m], k, i);
    } else {
      var i := m - |before|;
      assert IsAnswer(batches, AllAnswers(batches)[m], n, i);
    }
  }

  /** Reply number `m` goes to caller number `m`, so nobody gets two; it is the result of that caller's own
    item in its batch, or the batch's error; and with a conforming processor never `TaskDropped`. */
  lemma RepliesAreOwn<I, R, E>(run: seq<State<I, R, E>>, steps: seq<Step<I, R, E>>, n: nat, m: nat)
    requires IsRun(run, steps) && n < |run| && m < |run[n].replies|
    ensures var s := run[n]; var (t, r) := s.replies[m];
      && t == m < |s.submitted|
      && (exists k, i :: ComesFrom(s, t, r, k, i))
      && (Conforming(s.batches) ==> r != Err(TaskDropped))
  {
    hide AllAnswers, Next, Known, Enabled;
    RunKeepsInv(run, steps, n);
    var s := run[n];
    var (t, r) := s.replies[m];
    assert Tickets(s.replies)[m] == UpTo(|s.submitted|)[m];
    assert (s.replies + Unsent(s))[m] == (t, r);
    AnswerHasBatch(s.batches, m);
    var k: nat, i: nat :| IsAnswer(s.batches, AllAnswers(s.batches)[m], k, i);
    assert s.batches[k] in s.batches;
    assert ComesFrom(s, t, r, k, i);
  }

  function Handled<I, R, E>(batches: seq<Batch<I, R, E>>): seq<Ticket> {
    if batches == [] then [] else Handled(batches[..|batches| - 1]) + batches[|batches| - 1].tickets
  }

  lemma {:induction false} HandledAreAnswered<I, R, E>(batches: seq<Batch<I, R, E>>)
    ensures Tickets(AllAnswers(batches)) == Handled(batches)
  {
    if batches != [] {
      var n := |batches| - 1;
      HandledAreAnswered(batches[..n]);
      TicketsOfAnswers(batches[n].tickets, batches[n].outcome);
    }
  }

  /** Laid end to end, the batches hold the calls in order, each once: no item is processed twice, and the
    processed ones are exactly those replied to or about to be. */
  lemma EachInOneBatch<I, R, E>(run: seq<State<I, R, E>>, steps: seq<Step<I, R, E>>, n: nat)
    requires IsRun(run, steps) && n < |run|
    ensures var s := run[n];
      Handled(s.batches) == UpTo(|s.replies| + |Unsent(s)|) && |s.replies| + |Unsent(s)| <= |s.submitted|
  {
    hide AllAnswers, Handled, Next, Known, Enabled;
    RunKeepsInv(run, steps, n);
    var s := run[n];
    HandledAreAnswered(s.batches);
    var done := s.replies + Unsent(s);
    assert Tickets(done) == Tickets(s.replies) + Tickets(Unsent(s));
    assert Tickets(done) <= UpTo(|s.submitted|);
  }

  // ---------------------------------------------------------------------------------------
  // Progress
  // ---------------------------------------------------------------------------------------

  /** Steps left until the worker has nothing to do, if no more calls come. */
  function Rank<I, R, E>(s: State<I, R, E>): nat {
    if s.workers == [] then 0 else 20 * |s.queue.items| + 2 * |InFlight(s)| + PhaseRank(s.workers[0])
  }

  function PhaseRank<R, E>(w: Phase<R, E>): nat {
    match w
    case Starting => 5
    case Sleeping => 4
    case Working(_) => 13
    case Replying(_) => 12
  }

  lemma WorkGoesOn<I, R, E>(s: State<I, R, E>, outcome: Result<seq<R>, E>)
    requires Inv(s) && Known(s) && s.workers != []
    ensures Rank(DoWork(s, 0, outcome)) < Rank(s)
    ensures DoWork(s, 0, outcome).submitted == s.submitted
  {
    hide Args, AllAnswers, UpTo;
    if s.workers[0].Working? {
      TicketsOfAnswers(s.workers[0].batch, outcome);
    }
  }

  /** Let the worker run until it stops; `outcomes` are what the processor returns at each step. */
  ghost function Settle<I, R, E>(s: State<I, R, E>, outcomes: nat -> Result<seq<R>, E>): State<I, R, E>
    requires Inv(s) && Known(s)
    decreases Rank(s)
  {
    if s.workers == [] then s
    else
      WorkGoesOn(s, outcomes(Rank(s)));
      NextKeepsInv(s, Work(0, outcomes(Rank(s))));
      Settle(DoWork(s, 0, outcomes(Rank(s))), outcomes)
  }

  /** Whatever the processor returns, once no more calls come every call made is replied to, exactly once. */
  lemma {:induction false} EveryCallIsReplied<I, R, E>(s: State<I, R, E>, outcomes: nat -> Result<seq<R>, E>)
    requires Inv(s) && Known(s)
    ensures var end := Settle(s, outcomes);
      && Inv(end) && end.workers == [] && end.submitted == s.submitted
      && Tickets(end.replies) == UpTo(|s.submitted|)
    decreases Rank(s)
  {
    hide Known, DoWork, UpTo, Faithful;
    if s.workers == [] {
      assert Tickets(s.replies) + [] + [] == Tickets(s.replies);
    } else {
      WorkGoesOn(s, outcomes(Rank(s)));
      NextKeepsInv(s, Work(0, outcomes(Rank(s))));
      EveryCallIsReplied(DoWork(s, 0, outcomes(Rank(s))), outcomes);
    }
  }

  // ---------------------------------------------------------------------------------------
  // How long a call waits
  // ---------------------------------------------------------------------------------------

  /** Worker steps that are not replies, from this phase until ticket `t` is sent; `mine` says whether the worker
    holds `t`. A queued ticket waits for the worker to finish, start, take and process. */
  function Overhead<R, E>(w: Phase<R, E>, mine: bool): nat {
    match w
    case Starting => 3
    case Sleeping => 2
    case Working(_) => if mine then 1 else 5
    case Replying(_) => if mine then 0 else 4
  }

  /** Worker steps until ticket `t` is replied to: one for each reply up to its own, and the overhead. */
  function Wait<I, R, E>(s: State<I, R, E>, t: Ticket): nat
    requires |s.replies| <= t
  {
    t + 1 - |s.replies| + if s.workers == [] then 0 else Overhead(s.workers[0], t < |s.replies| + |InFlight(s)|)
  }

  lemma LineLengths<I, R, E>(s: State<I, R, E>)
    requires InLine(s)
    ensures |s.replies| + |InFlight(s)| + |s.queue.items| == |s.submitted|
  {
    hide InFlight;
    assert |Tickets(s.replies) + InFlight(s) + s.queue.items| == |UpTo(|s.submitted|)|;
  }

  /** A call to an idle queue is replied to in four worker steps: start, take, process and reply. */
  lemma IdleCallWaits<I, R, E>(s: State<I, R, E>, item: I)
    requires Inv(s) && s.workers == []
    ensures |DoCall(s, item).replies| == |s.submitted| && Wait(DoCall(s, item), |s.submitted|) == 4
  {
    hide AllAnswers, GoodBatch, Tickets, UpTo;
    LineLengths(s);
  }

  /** A call that is not replied to has a worker; another call does not make it wait longer. */
  lemma CallKeepsWait<I, R, E>(s: State<I, R, E>, item: I, t: Ticket)
    requires Inv(s) && |s.replies| <= t < |s.submitted|
    ensures s.workers != [] && |DoCall(s, item).replies| == |s.replies| && Wait(DoCall(s, item), t) == Wait(s, t)
  {
    hide AllAnswers, GoodBatch, Tickets, UpTo;
    LineLengths(s);
  }

  /** Each worker step brings the reply nearer by exactly one. */
  lemma WorkShortensWait<I, R, E>(s: State<I, R, E>, outcome: Result<seq<R>, E>, t: Ticket)
    requires Inv(s) && Known(s) && |s.replies| <= t < |s.submitted|
    ensures s.workers != []
    ensures var after := DoWork(s, 0, outcome);
      if |after.replies| <= t then Wait(after, t) + 1 == Wait(s, t) else Wait(s, t) == 1
  {
    hide AllAnswers, GoodBatch, UpTo, Args;
    LineLengths(s);
    if s.workers != [] && s.workers[0].Working? {
      TicketsOfAnswers(s.workers[0].batch, outcome);
    }
  }

  /** How many of the steps are a worker's. */
  function WorkSteps<I, R, E>(steps: seq<Step<I, R, E>>): nat {
    if steps == [] then 0 else WorkSteps(steps[..|steps| - 1]) + if steps[|steps| - 1].Work? then 1 else 0
  }

  /** Where ticket `t` stands `done` worker steps after it had `wait` to go. */
  ghost predicate OnTime<I, R, E>(s: State<I, R, E>, t: Ticket, wait: nat, done: nat) {
    t < |s.submitted| && if |s.replies| <= t then done < wait && Wait(s, t) == wait - done else done >= wait
  }

  lemma StepOnTime<I, R, E>(s: State<I, R, E>, step: Step<I, R, E>, t: Ticket, wait: nat, done: nat)
    requires Inv(s) && Known(s) && Enabled(s, step) && OnTime(s, t, wait, done)
    ensures OnTime(Next(s, step), t, wait, if step.Work? then done + 1 else done)
  {
    hide Wait, Inv;
    match step
    case Call(item) =>
      CallGrows(s, item);
      if |s.replies| <= t { CallKeepsWait(s, item, t); }
    case Work(w, outcome) =>
      OnlyWorker(s, w);
      WorkGrows(s, outcome);
      if |s.replies| <= t {
        WorkShortensWait(s, outcome, t);
        if |DoWork(s, 0, outcome).replies| <= t { WaitIsPositive(s, outcome, t); }
      }
  }

  lemma OnlyWorker<I, R, E>(s: State<I, R, E>, w: nat)
    requires Inv(s) && w < |s.workers|
    ensures w == 0
  {
  }

  lemma WaitIsPositive<I, R, E>(s: State<I, R, E>, outcome: Result<seq<R>, E>, t: Ticket)
    requires Known(s) && s.workers != [] && |DoWork(s, 0, outcome).replies| <= t
    ensures Wait(DoWork(s, 0, outcome), t) >= 1
  {
  }

  lemma CallGrows<I, R, E>(s: State<I, R, E>, item: I)
    ensures DoCall(s, item).replies == s.replies && |DoCall(s, item).submitted| == |s.submitted| + 1
  {
  }

  lemma WorkGrows<I, R, E>(s: State<I, R, E>, outcome: Result<seq<R>, E>)
    requires Known(s) && s.workers != []
    ensures |DoWork(s, 0, outcome).replies| >= |s.replies| && DoWork(s, 0, outcome).submitted == s.submitted
  {
  }

  /** In every interleaving, whatever calls arrive meanwhile, a call waiting at state `i` is replied to at state
    `j` if and only if the worker has taken `Wait` steps in between: at most five more than the calls before it
    that are waiting, and itself. */
  lemma {:induction false} RepliedExactly<I, R, E>(run: seq<State<I, R, E>>, steps: seq<Step<I, R, E>>, i: nat, j: nat, t: Ticket)
    requires IsRun(run, steps) && i <= j < |run| && |run[i].replies| <= t < |run[i].submitted|
    ensures OnTime(run[j], t, Wait(run[i], t), WorkSteps(steps[i..j]))
    ensures t < |run[j].replies| <==> WorkSteps(steps[i..j]) >= Wait(run[i], t)
    ensures Wait(run[i], t) <= t + 1 - |run[i].replies| + 5
    decreases j - i
  {
    hide Inv, Known, Next, Enabled, Wait;
    if i == j {
      StartsOnTime(run[i], t);
    } else {
      RepliedExactly(run, steps, i, j - 1, t);
      RunKeepsInv(run, steps, j - 1);
      StepOnTime(run[j - 1], steps[j - 1], t, Wait(run[i], t), WorkSteps(steps[i..j - 1]));
      assert steps[i..j][..j - 1 - i] == steps[i..j - 1];
    }
    WaitIsBounded(run[i], t);
  }

  lemma StartsOnTime<I, R, E>(s: State<I, R, E>, t: Ticket)
    requires |s.replies| <= t < |s.submitted|
    ensures OnTime(s, t, Wait(s, t), 0)
  {
  }

  lemma WaitIsBounded<I, R, E>(s: State<I, R, E>, t: Ticket)
    requires |s.replies| <= t
    ensures Wait(s, t) <= t + 1 - |s.replies| + 5
  {
  }
}
