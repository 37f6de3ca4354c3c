/** The timed part of Doomslug: when a validator endorses its tip and when it skips a height.

  The instance fields live in class `Doomslug` in DoomslugNode.dfy; this module describes the timer as a
  step function over values. */
module DoomslugTimer {
  import opened Util
  import opened Approval

  const MAX_TIMER_ITERS: nat := 20
  const U32_MAX: nat := 0xFFFF_FFFF

  /** Instants and durations in one unit. */
  type Time = nat

  datatype Delays = Delays(endorsement: Time, min: Time, step: Time, max: Time)

  /** `DoomslugTimer::get_delay`: the wait `n` heights after the last final block. */
  function GetDelay(d: Delays, n: nat): Time {
    var n32 := if n <= U32_MAX then n else U32_MAX;
    Min(d.max, d.min + d.step * SatSub(n32, 2))
  }

  /** The fields of `Doomslug` that its timer reads or writes. */
  datatype Clockwork = Clockwork(
    largestSent: Height,
    largestFinal: Height,
    tipHash: Hash,
    tipHeight: Height,
    pending: bool,
    started: Time,
    lastEndorsementSent: Time,
    timerHeight: Height,
    delays: Delays)

  /** `Doomslug::new` reads the clock twice, at `t0` and then at `t1`. */
  function New(largestSent: Height, delays: Delays, t0: Time, t1: Time): Clockwork {
    Clockwork(largestSent, 0, DEFAULT_HASH, 0, false, t0, t1, 0, delays)
  }

  /** `Doomslug::on_block`, without the tracker retention. */
  function OnBlock(c: Clockwork, now: Time, hash: Hash, height: Height, lastFinal: Height): Clockwork {
    c.(tipHash := hash, tipHeight := height, largestFinal := lastFinal,
       timerHeight := height + 1, started := now, pending := true)
  }

  function SkipDelay(c: Clockwork): Time {
    GetDelay(c.delays, SatSub(c.timerHeight, c.largestFinal))
  }

  function CreateApproval(c: Clockwork, target: Height): ApprovalContent {
    NewContent(c.tipHash, c.tipHeight, target)
  }

  /** The endorsement half of one iteration of `process_timer`. */
  function EndorseDue(c: Clockwork, cur: Time): bool {
    c.pending && cur >= c.lastEndorsementSent + c.delays.endorsement
  }

  function AfterEndorse(c: Clockwork, cur: Time): Clockwork {
    if !EndorseDue(c, cur) then c
    else c.(largestSent := if c.tipHeight >= c.largestSent then c.tipHeight + 1 else c.largestSent,
            lastEndorsementSent := cur, pending := false)
  }

  function EndorseOutput(c: Clockwork, cur: Time): seq<ApprovalContent> {
    if EndorseDue(c, cur) && c.tipHeight >= c.largestSent then [CreateApproval(c, c.tipHeight + 1)] else []
  }

  /** The skip half of one iteration; the delay was fixed at the start of the iteration, and the
    endorsement half changes none of its inputs. */
  function SkipDue(c: Clockwork, cur: Time): bool {
    cur >= c.started + SkipDelay(c)
  }

  function AfterSkip(c: Clockwork): Clockwork {
    c.(largestSent := Max(c.timerHeight + 1, c.largestSent),
       started := c.started + SkipDelay(c), timerHeight := c.timerHeight + 1)
  }

  function SkipOutput(c: Clockwork): seq<ApprovalContent> {
    [CreateApproval(c, c.timerHeight + 1)]
  }

  /** At most `iters` iterations of the loop of `process_timer`: final fields and approvals sent. */
  function RunTimer(c: Clockwork, cur: Time, iters: nat): (Clockwork, seq<ApprovalContent>)
    decreases iters
  {
    if iters == 0 then (c, []) else
      var c1 := AfterEndorse(c, cur);
      var out1 := EndorseOutput(c, cur);
      if SkipDue(c1, cur) then
        var (c2, out2) := RunTimer(AfterSkip(c1), cur, iters - 1);
        (c2, out1 + SkipOutput(c1) + out2)
      else
        (c1, out1)
  }

  function ProcessTimer(c: Clockwork, cur: Time): (Clockwork, seq<ApprovalContent>) {
    RunTimer(c, cur, MAX_TIMER_ITERS)
  }

  // ---------------------------------------------------------------------------------------
  // What one call sends
  // ---------------------------------------------------------------------------------------

  /** When the timer was last restarted if it has run out `k` times since `c`. */
  function StartedAfter(c: Clockwork, k: nat): Time {
    if k == 0 then c.started
    else StartedAfter(c, k - 1) + GetDelay(c.delays, SatSub(c.timerHeight + k - 1, c.largestFinal))
  }

  lemma {:induction false} StartedAfterSkip(c: Clockwork, k: nat)
    ensures StartedAfter(AfterSkip(c), k) == StartedAfter(c, k + 1)
    decreases k
  {
    if k != 0 {
      StartedAfterSkip(c, k - 1);
    }
  }

  /** The approvals for `k` heights in a row, all naming the current tip. */
  function SkipsSent(c: Clockwork, k: nat): (out: seq<ApprovalContent>)
    ensures |out| == k
    ensures forall i :: 0 <= i < k ==> out[i] == NewContent(c.tipHash, c.tipHeight, c.timerHeight + 1 + i)
  {
    if k == 0 then [] else SkipsSent(c, k - 1) + [CreateApproval(c, c.timerHeight + k)]
  }

  /** `k` timeouts have passed by `cur`, and no more unless the `iters` iterations ran out. */
  ghost predicate CaughtUp(c: Clockwork, cur: Time, iters: nat, k: nat, started: Time) {
    && k <= iters
    && started == StartedAfter(c, k)
    && (k > 0 ==> StartedAfter(c, k) <= cur)
    && (k < iters ==> cur < StartedAfter(c, k + 1))
  }

  /** Fields that neither half of an iteration changes, or that only the endorsement does. */
  ghost predicate SameTip(c: Clockwork, cur: Time, d: Clockwork) {
    && d.tipHash == c.tipHash && d.tipHeight == c.tipHeight
    && d.largestFinal == c.largestFinal && d.delays == c.delays
    && d.pending == (c.pending && !EndorseDue(c, cur))
    && d.lastEndorsementSent == (if EndorseDue(c, cur) then cur else c.lastEndorsementSent)
  }

  /** What a call with `iters` iterations left may turn `c` into and send. */
  ghost predicate TimerEffect(c: Clockwork, cur: Time, iters: nat, d: Clockwork, out: seq<ApprovalContent>) {
    && c.timerHeight <= d.timerHeight
    && CaughtUp(c, cur, iters, d.timerHeight - c.timerHeight, d.started)
    && SameTip(c, cur, d)
    && out == EndorseOutput(c, cur) + SkipsSent(c, d.timerHeight - c.timerHeight)
    && d.largestSent == Max(Max(c.largestSent, if EndorseDue(c, cur) then c.tipHeight + 1 else 0),
                            if c.timerHeight < d.timerHeight then d.timerHeight else 0)
  }

  lemma SkipsFirst(c: Clockwork, c1: Clockwork, k: nat)
    requires (c1.tipHash, c1.tipHeight, c1.timerHeight) == (c.tipHash, c.tipHeight, c.timerHeight)
    ensures SkipsSent(c, k + 1) == SkipOutput(c1) + SkipsSent(AfterSkip(c1), k)
  {
    var rest := SkipsSent(AfterSkip(c1), k);
    forall i | 0 <= i < k ensures SkipsSent(c, k + 1)[i + 1] == rest[i] {
      assert c.timerHeight + 1 + (i + 1) == AfterSkip(c1).timerHeight + 1 + i;
    }
  }

  lemma CaughtUpStep(c: Clockwork, c1: Clockwork, cur: Time, iters: nat, k: nat, started: Time)
    requires c1.started == c.started && c1.delays == c.delays
    requires c1.timerHeight == c.timerHeight && c1.largestFinal == c.largestFinal
    requires SkipDue(c1, cur) && CaughtUp(AfterSkip(c1), cur, iters, k, started)
    ensures CaughtUp(c, cur, iters + 1, k + 1, started)
  {
    StartedAfterSkip(c1, k);
    StartedAfterSkip(c1, k + 1);
    ShiftedStart(c, c1, k + 1);
    ShiftedStart(c, c1, k + 2);
    if k == 0 {
      assert StartedAfter(c1, 1) == c1.started + SkipDelay(c1);
    }
  }

  lemma TimerEffectStep(c: Clockwork, cur: Time, iters: nat, d: Clockwork, out: seq<ApprovalContent>)
    requires SkipDue(AfterEndorse(c, cur), cur)
    requires TimerEffect(AfterSkip(AfterEndorse(c, cur)), cur, iters, d, out)
    ensures TimerEffect(c, cur, iters + 1, d, EndorseOutput(c, cur) + SkipOutput(AfterEndorse(c, cur)) + out)
  {
    hide GetDelay, CaughtUp, StartedAfter, SkipsSent, NewContent, SkipDue;
    var c1 := AfterEndorse(c, cur);
    var c2 := AfterSkip(c1);
    var k := d.timerHeight - c2.timerHeight;
    CaughtUpStep(c, c1, cur, iters, k, d.started);
    assert EndorseOutput(c2, cur) == [];
    SkipsFirst(c, c1, k);
    assert out == SkipsSent(c2, k);
  }

  /** A call sends the due endorsement once, then one approval per timeout that the clock has
    passed, for consecutive heights, until it has caught up or used its iterations. */
  lemma {:induction false} TimerMeaning(c: Clockwork, cur: Time, iters: nat)
    requires iters > 0
    ensures TimerEffect(c, cur, iters, RunTimer(c, cur, iters).0, RunTimer(c, cur, iters).1)
    decreases iters
  {
    var c1 := AfterEndorse(c, cur);
    if SkipDue(c1, cur) {
      var c2 := AfterSkip(c1);
      var (d, out) := RunTimer(c2, cur, iters - 1);
      if iters > 1 {
        TimerMeaning(c2, cur, iters - 1);
      } else {
        assert EndorseOutput(c2, cur) + SkipsSent(c2, 0) == [];
      }
      TimerEffectStep(c, cur, iters - 1, d, out);
    } else {
      assert StartedAfter(c, 1) == c.started + SkipDelay(c);
      assert SkipsSent(c, 0) == [];
    }
  }

  lemma {:induction false} ShiftedStart(c: Clockwork, c1: Clockwork, k: nat)
    requires c1.started == c.started && c1.delays == c.delays
    requires c1.timerHeight == c.timerHeight && c1.largestFinal == c.largestFinal
    ensures StartedAfter(c1, k) == StartedAfter(c, k)
    decreases k
  {
    if k != 0 {
      ShiftedStart(c, c1, k - 1);
    }
  }

  /** The first timer call after a block, counted from the block. Before the delay for the next height has
    passed it sends at most the endorsement of the block; from then on also a skip over the block's
    successor, that is, an approval for two heights above the block. */
  lemma FirstCallAfterBlock(c: Clockwork, now: Time, hash: Hash, height: Height, lastFinal: Height, cur: Time)
    ensures var (d, out) := ProcessTimer(OnBlock(c, now, hash, height, lastFinal), cur);
      var endorse := cur >= c.lastEndorsementSent + c.delays.endorsement && height >= c.largestSent;
      var sent := if endorse then [ApprovalContent(Endorsement(hash), height + 1)] else [];
      var delay := GetDelay(c.delays, if height + 1 < lastFinal then 0 else height + 1 - lastFinal);
      && (d.tipHash, d.tipHeight, d.largestFinal) == (hash, height, lastFinal)
      && (cur < now + delay ==> out == sent && d.timerHeight == height + 1 && d.started == now)
      && (cur >= now + delay ==> d.timerHeight > height + 1 && sent + [ApprovalContent(Skip(height), height + 2)] <= out)
  {
    hide RunTimer, GetDelay;
    var b := OnBlock(c, now, hash, height, lastFinal);
    TimerMeaning(b, cur, MAX_TIMER_ITERS);
    var (d, out) := ProcessTimer(b, cur);
    var k := d.timerHeight - b.timerHeight;
    assert StartedAfter(b, 0) == now && StartedAfter(b, 1) == now + GetDelay(c.delays, SatSub(height + 1, lastFinal));
    StartsRise(b, 1, k);
    if k > 0 {
      assert SkipsSent(b, k)[0] == ApprovalContent(Skip(height), height + 2);
    } else {
      assert SkipsSent(b, 0) == [];
    }
  }

  /** A fresh instance: until the least delay after its start has passed it sends nothing; then it endorses the
    default hash at height 1. Its `k`th timeout follows the one before by the delay for height `k`, and its
    first block is endorsed once the endorsement delay has passed since the second reading of the clock. */
  lemma FreshInstance(largestSent: Height, delays: Delays, t0: Time, t1: Time, cur: Time, k: nat)
    ensures var c := New(largestSent, delays, t0, t1);
      var (d, out) := ProcessTimer(c, cur);
      && c.largestSent == largestSent && c.largestFinal == c.tipHeight == 0
      && (cur < t0 + Min(delays.max, delays.min) ==> out == [] && d == c)
      && (cur >= t0 + Min(delays.max, delays.min) ==> [ApprovalContent(Endorsement(DEFAULT_HASH), 1)] <= out)
      && StartedAfter(c, 0) == t0 && StartedAfter(c, k + 1) == StartedAfter(c, k) + GetDelay(delays, k)
    ensures forall now: Time, hash: Hash, height: Height, lastFinal: Height :: cur < now ==>
      ProcessTimer(OnBlock(New(largestSent, delays, t0, t1), now, hash, height, lastFinal), cur).1 ==
        if cur >= t1 + delays.endorsement && height >= largestSent then [ApprovalContent(Endorsement(hash), height + 1)] else []
  {
    hide RunTimer, GetDelay;
    var c := New(largestSent, delays, t0, t1);
    TimerMeaning(c, cur, MAX_TIMER_ITERS);
    DelayBacksOff(delays, 0);
    var (d, out) := ProcessTimer(c, cur);
    assert StartedAfter(c, 1) == t0 + GetDelay(delays, 0);
    StartsRise(c, 1, d.timerHeight);
    if d.timerHeight > 0 {
      assert SkipsSent(c, d.timerHeight)[0] == ApprovalContent(Endorsement(DEFAULT_HASH), 1);
    } else {
      assert SkipsSent(c, 0) == [];
    }
    forall now: Time, hash: Hash, height: Height, lastFinal: Height | cur < now
      ensures ProcessTimer(OnBlock(c, now, hash, height, lastFinal), cur).1 ==
        if cur >= t1 + delays.endorsement && height >= largestSent then [ApprovalContent(Endorsement(hash), height + 1)] else []
    {
      FirstCallAfterBlock(c, now, hash, height, lastFinal, cur);
    }
  }

  lemma {:induction false} StartsRise(c: Clockwork, i: nat, j: nat)
    ensures i <= j ==> StartedAfter(c, i) <= StartedAfter(c, j)
    decreases j
  {
    hide GetDelay;
    if i < j { StartsRise(c, i, j - 1); }
  }

  // ---------------------------------------------------------------------------------------
  // What one node has sent
  // ---------------------------------------------------------------------------------------

  /** The history discipline: endorsements climb strictly, each above everything sent before. */
  ghost predicate Climbing(sent: seq<ApprovalContent>) {
    forall i, j :: 0 <= i < j < |sent| && sent[j].inner.Endorsement? ==> sent[i].target < sent[j].target
  }

  /** Everything sent is at or below `bound`. */
  ghost predicate Bounded(sent: seq<ApprovalContent>, bound: Height) {
    forall i :: 0 <= i < |sent| ==> sent[i].target <= bound
  }

  /** The timer is ahead of the tip, except before the first block and the first timeout. */
  ghost predicate TimerAhead(c: Clockwork, sent: seq<ApprovalContent>) {
    c.timerHeight > c.tipHeight || (c.timerHeight == c.tipHeight == 0 && sent == [] && !c.pending)
  }

  /** Invariant of a node and the approvals it has sent since `New`. */
  ghost predicate NodeInv(c: Clockwork, sent: seq<ApprovalContent>) {
    Climbing(sent) && Bounded(sent, c.largestSent) && TimerAhead(c, sent)
  }

  lemma EndorseKeepsInv(c: Clockwork, sent: seq<ApprovalContent>, cur: Time)
    requires NodeInv(c, sent)
    ensures NodeInv(AfterEndorse(c, cur), sent + EndorseOutput(c, cur))
    ensures AfterEndorse(c, cur).largestSent >= c.largestSent
  {
  }

  lemma SkipKeepsInv(c: Clockwork, sent: seq<ApprovalContent>)
    requires NodeInv(c, sent)
    ensures NodeInv(AfterSkip(c), sent + SkipOutput(c))
    ensures AfterSkip(c).largestSent >= c.largestSent
  {
  }

  lemma {:induction false} RunTimerKeepsInv(c: Clockwork, sent: seq<ApprovalContent>, cur: Time, iters: nat)
    requires NodeInv(c, sent)
    ensures NodeInv(RunTimer(c, cur, iters).0, sent + RunTimer(c, cur, iters).1)
    ensures RunTimer(c, cur, iters).0.largestSent >= c.largestSent
    decreases iters
  {
    if iters == 0 {
      assert sent + [] == sent;
    } else {
      hide NodeInv, AfterEndorse, AfterSkip, EndorseOutput, SkipOutput, SkipDue;
      EndorseKeepsInv(c, sent, cur);
      var c1 := AfterEndorse(c, cur);
      var sent1 := sent + EndorseOutput(c, cur);
      if SkipDue(c1, cur) {
        SkipKeepsInv(c1, sent1);
        RunTimerKeepsInv(AfterSkip(c1), sent1 + SkipOutput(c1), cur, iters - 1);
        assert sent + RunTimer(c, cur, iters).1
            == sent1 + SkipOutput(c1) + RunTimer(AfterSkip(c1), cur, iters - 1).1;
      }
    }
  }

  datatype Op =
    | Tick(cur: Time)
    | Block(now: Time, hash: Hash, height: Height, lastFinal: Height)

  /** A node and its ghost history of approvals sent. */
  datatype Node = Node(clock: Clockwork, sent: seq<ApprovalContent>)

  function Apply(n: Node, op: Op): Node {
    match op
    case Tick(cur) =>
      var (c, out) := ProcessTimer(n.clock, cur);
      Node(c, n.sent + out)
    case Block(now, hash, height, lastFinal) =>
      Node(OnBlock(n.clock, now, hash, height, lastFinal), n.sent)
  }

  function Run(n: Node, ops: seq<Op>): Node
    decreases |ops|
  {
    if ops == [] then n else Apply(Run(n, ops[..|ops| - 1]), ops[|ops| - 1])
  }

  lemma ApplyKeepsInv(n: Node, op: Op)
    requires NodeInv(n.clock, n.sent)
    ensures var m := Apply(n, op);
      NodeInv(m.clock, m.sent) && m.clock.largestSent >= n.clock.largestSent && n.sent <= m.sent
  {
    if op.Tick? {
      RunTimerKeepsInv(n.clock, n.sent, op.cur, MAX_TIMER_ITERS);
    }
  }

  /** Over every run from `New`, whatever the clock and the blocks do: endorsements have strictly
    rising targets, each above every target sent before it, so no height is endorsed twice;
    `largestSent` bounds everything sent and never falls. */
  lemma {:induction false} EndorsementsClimb(largestSent: Height, delays: Delays, t0: Time, t1: Time, ops: seq<Op>)
    ensures var n := Run(Node(New(largestSent, delays, t0, t1), []), ops);
      && NodeInv(n.clock, n.sent)
      && n.clock.largestSent >= largestSent
      && (forall i, j :: 0 <= i < j < |n.sent| && n.sent[i].inner.Endorsement? && n.sent[j].inner.Endorsement?
                     ==> n.sent[i].target != n.sent[j].target)
    decreases |ops|
  {
    if ops != [] {
      EndorsementsClimb(largestSent, delays, t0, t1, ops[..|ops| - 1]);
      ApplyKeepsInv(Run(Node(New(largestSent, delays, t0, t1), []), ops[..|ops| - 1]), ops[|ops| - 1]);
    }
  }

  // ---------------------------------------------------------------------------------------
  // Restart: heights sent by an earlier instance
  // ---------------------------------------------------------------------------------------

  ghost predicate AllEndorsementsAbove(out: seq<ApprovalContent>, bound: Height) {
    forall i :: 0 <= i < |out| && out[i].inner.Endorsement? ==> bound < out[i].target
  }

  lemma {:induction false} AheadEndorsesAbove(c: Clockwork, cur: Time, iters: nat)
    requires c.timerHeight > c.tipHeight
    ensures AllEndorsementsAbove(RunTimer(c, cur, iters).1, c.largestSent)
    decreases iters
  {
    if iters != 0 {
      var c1 := AfterEndorse(c, cur);
      if SkipDue(c1, cur) {
        AheadEndorsesAbove(AfterSkip(c1), cur, iters - 1);
      }
    }
  }

  /** One timer call endorses only above the persisted `largestSent` exactly when it is not the
    first timeout of a fresh instance that has seen no block but was given a positive height. */
  lemma RestartSafeExactly(c: Clockwork, cur: Time)
    requires c.timerHeight > c.tipHeight || (c.timerHeight == c.tipHeight == 0 && !c.pending)
    ensures AllEndorsementsAbove(ProcessTimer(c, cur).1, c.largestSent)
       <==> !(c.timerHeight == c.tipHeight && c.largestSent >= 1 && SkipDue(c, cur))
  {
    hide GetDelay;
    if c.timerHeight > c.tipHeight {
      AheadEndorsesAbove(c, cur, MAX_TIMER_ITERS);
    } else if SkipDue(c, cur) {
      var rest := RunTimer(AfterSkip(c), cur, MAX_TIMER_ITERS - 1).1;
      AheadEndorsesAbove(AfterSkip(c), cur, MAX_TIMER_ITERS - 1);
      var out := ProcessTimer(c, cur).1;
      assert out == SkipOutput(c) + rest;
      assert out[0] == ApprovalContent(Endorsement(c.tipHash), 1);
      forall i | 0 <= i < |out| && out[i].inner.Endorsement? && c.largestSent == 0
        ensures c.largestSent < out[i].target
      {
        if i > 0 { assert out[i] == rest[i - 1]; }
      }
    }
  }

  /** A restarted node that had already sent for height 7 endorses height 1 again. */
  lemma RestartHazard()
    ensures var c := New(7, Delays(1, 2, 1, 4), 0, 0);
      ApprovalContent(Endorsement(DEFAULT_HASH), 1) in ProcessTimer(c, 10).1
  {
    var c := New(7, Delays(1, 2, 1, 4), 0, 0);
    assert SkipDelay(c) == 2;
    assert ProcessTimer(c, 10).1[0] == ApprovalContent(Endorsement(DEFAULT_HASH), 1);
  }

  // ---------------------------------------------------------------------------------------
  // The two assertions inside `process_timer`
  // ---------------------------------------------------------------------------------------

  /** Both debug assertions hold in each of at most `iters` iterations. */
  ghost predicate AssertionsHold(c: Clockwork, cur: Time, iters: nat)
    decreases iters
  {
    iters == 0 ||
    (&& SkipDelay(c) >= 2 * c.delays.endorsement
     && var c1 := AfterEndorse(c, cur);
        SkipDue(c1, cur) ==> !c1.pending && AssertionsHold(AfterSkip(c1), cur, iters - 1))
  }

  lemma DelayMonotone(d: Delays, n: nat)
    ensures GetDelay(d, n) >= Min(d.max, d.min) == GetDelay(d, 0)
  {
    var m := SatSub(if n <= U32_MAX then n else U32_MAX, 2);
    assert d.step * m >= 0;
    assert d.step * 0 == 0;
  }

  /** The delay starts at the least, grows by one step per height from the third on, is capped by the greatest,
    and no longer grows once heights leave 32 bits. */
  lemma DelayBacksOff(d: Delays, n: nat)
    ensures n <= 2 ==> GetDelay(d, n) == Min(d.max, d.min)
    ensures 2 <= n < U32_MAX ==> GetDelay(d, n + 1) == Min(d.max, GetDelay(d, n) + d.step)
    ensures n >= U32_MAX ==> GetDelay(d, n) == GetDelay(d, U32_MAX)
    ensures d.min <= d.max && n < U32_MAX ==>
      GetDelay(d, n) == if n <= 2 then d.min else if d.min + d.step * (n - 2) <= d.max then d.min + d.step * (n - 2) else d.max
  {
    if 2 <= n < U32_MAX {
      assert d.step * (n + 1 - 2) == d.step * (n - 2) + d.step;
      assert d.step * (n - 2) >= 0;
    }
  }

  /** The skip delay is long enough at every height exactly when both configured bounds are. */
  lemma SkipDelayLongEnoughExactly(d: Delays)
    ensures (forall n: nat :: GetDelay(d, n) >= 2 * d.endorsement)
       <==> d.min >= 2 * d.endorsement && d.max >= 2 * d.endorsement
  {
    if d.min >= 2 * d.endorsement && d.max >= 2 * d.endorsement {
      forall n: nat ensures GetDelay(d, n) >= 2 * d.endorsement { DelayMonotone(d, n); }
    }
    DelayMonotone(d, 0);
  }

  /** The clock has not passed `now`, and a pending endorsement was requested after the last one. */
  ghost predicate ClockInv(c: Clockwork, now: Time) {
    && c.lastEndorsementSent <= now
    && (c.pending ==> c.lastEndorsementSent <= c.started)
    && c.delays.min >= 2 * c.delays.endorsement && c.delays.max >= 2 * c.delays.endorsement
  }

  lemma {:induction false} TimerAssertions(c: Clockwork, cur: Time, iters: nat)
    requires ClockInv(c, cur)
    ensures AssertionsHold(c, cur, iters)
    ensures ClockInv(RunTimer(c, cur, iters).0, cur)
    decreases iters
  {
    if iters != 0 {
      DelayMonotone(c.delays, SatSub(c.timerHeight, c.largestFinal));
      var c1 := AfterEndorse(c, cur);
      assert SkipDelay(c1) == SkipDelay(c);
      if SkipDue(c1, cur) {
        TimerAssertions(AfterSkip(c1), cur, iters - 1);
      }
    }
  }

  function OpTime(op: Op): Time {
    match op
    case Tick(cur) => cur
    case Block(now, _, _, _) => now
  }

  /** A clock that starts at `from` and never goes back. */
  ghost predicate ClockForward(from: Time, ops: seq<Op>) {
    && (forall i :: 0 <= i < |ops| ==> from <= OpTime(ops[i]))
    && (forall i, j :: 0 <= i <= j < |ops| ==> OpTime(ops[i]) <= OpTime(ops[j]))
  }

  function LastTime(from: Time, ops: seq<Op>): Time {
    if ops == [] then from else OpTime(ops[|ops| - 1])
  }

  lemma {:induction false} ClockInvAlong(largestSent: Height, delays: Delays, t0: Time, t1: Time, ops: seq<Op>)
    requires t0 <= t1 && ClockForward(t1, ops)
    requires delays.min >= 2 * delays.endorsement && delays.max >= 2 * delays.endorsement
    ensures ClockInv(Run(Node(New(largestSent, delays, t0, t1), []), ops).clock, LastTime(t1, ops))
    decreases |ops|
  {
    if ops != [] {
      var before := ops[..|ops| - 1];
      ClockInvAlong(largestSent, delays, t0, t1, before);
      var n := Run(Node(New(largestSent, delays, t0, t1), []), before);
      assert LastTime(t1, before) <= OpTime(ops[|ops| - 1]);
      if ops[|ops| - 1].Tick? {
        TimerAssertions(n.clock, ops[|ops| - 1].cur, MAX_TIMER_ITERS);
      }
    }
  }

  /** With a clock that never goes back and bounds at least twice the endorsement delay, no call of
    `process_timer` in any run can fail either assertion. */
  lemma AssertionsNeverFail(largestSent: Height, delays: Delays, t0: Time, t1: Time, ops: seq<Op>, i: nat)
    requires t0 <= t1 && ClockForward(t1, ops)
    requires delays.min >= 2 * delays.endorsement && delays.max >= 2 * delays.endorsement
    requires i < |ops| && ops[i].Tick?
    ensures AssertionsHold(Run(Node(New(largestSent, delays, t0, t1), []), ops[..i]).clock, ops[i].cur, MAX_TIMER_ITERS)
  {
    ClockInvAlong(largestSent, delays, t0, t1, ops[..i]);
    TimerAssertions(Run(Node(New(largestSent, delays, t0, t1), []), ops[..i]).clock, ops[i].cur, MAX_TIMER_ITERS);
  }
}
