/** A validator that is stopped and started again, each time with the largest target it remembers. */
module DoomslugRestarts {
  import opened Util
  import opened Approval
  import opened DoomslugTimer

  /** One instance: when it was started, and what happened to it. */
  datatype Life = Life(delays: Delays, t0: Time, t1: Time, ops: seq<Op>)

  function Born(life: Life, largestSent: Height): Node {
    Node(New(largestSent, life.delays, life.t0, life.t1), [])
  }

  /** The largest target remembered and everything sent, over all lives; nothing is remembered at first. */
  function History(lives: seq<Life>): (Height, seq<ApprovalContent>) {
    if lives == [] then (0, [])
    else
      var (largest, sent) := History(lives[..|lives| - 1]);
      var n := Run(Born(lives[|lives| - 1], largest), lives[|lives| - 1].ops);
      (n.clock.largestSent, sent + n.sent)
  }

  /** The timer fires in a life that has seen no block yet, although something was sent before it. */
  ghost predicate EarlyTimeout(life: Life, largest: Height) {
    exists i :: 0 <= i < |life.ops| && FiresEarly(life, largest, i)
  }

  ghost predicate FiresEarly(life: Life, largest: Height, i: nat)
    requires i < |life.ops|
  {
    var c := Run(Born(life, largest), life.ops[..i]).clock;
    life.ops[i].Tick? && largest >= 1 && c.timerHeight == c.tipHeight && SkipDue(c, life.ops[i].cur)
  }

  // ---------------------------------------------------------------------------------------
  // One life
  // ---------------------------------------------------------------------------------------

  /** What holds throughout a life started with `largest`. */
  ghost predicate LifeInv(n: Node, largest: Height) {
    && NodeInv(n.clock, n.sent)
    && n.clock.largestSent >= largest
    && (n.clock.timerHeight == n.clock.tipHeight ==> n.clock.largestSent == largest)
    && (n.clock.largestSent == largest || exists i :: 0 <= i < |n.sent| && n.sent[i].target == n.clock.largestSent)
  }

  lemma TickKeepsLifeInv(n: Node, largest: Height, cur: Time)
    requires LifeInv(n, largest)
    ensures LifeInv(Apply(n, Tick(cur)), largest)
  {
    hide NodeInv, RunTimer, CaughtUp, SkipDelay;
    var c := n.clock;
    var (d, out) := ProcessTimer(c, cur);
    ApplyKeepsInv(n, Tick(cur));
    TimerMeaning(c, cur, MAX_TIMER_ITERS);
    AheadUnlessFresh(n);
    var sent := n.sent + out;
    if d.largestSent == c.largestSent {
      if i :| 0 <= i < |n.sent| && n.sent[i].target == c.largestSent { assert sent[i].target == d.largestSent; }
    } else {
      NewLargestIsSent(c, cur, d, out);
      var i :| 0 <= i < |out| && out[i].target == d.largestSent;
      assert sent[|n.sent| + i].target == d.largestSent;
    }
  }

  lemma AheadUnlessFresh(n: Node)
    requires NodeInv(n.clock, n.sent)
    ensures n.clock.timerHeight > n.clock.tipHeight || (n.clock.timerHeight == n.clock.tipHeight == 0 && !n.clock.pending)
  {
  }

  lemma NewLargestIsSent(c: Clockwork, cur: Time, d: Clockwork, out: seq<ApprovalContent>)
    requires TimerEffect(c, cur, MAX_TIMER_ITERS, d, out) && d.largestSent != c.largestSent
    ensures exists i :: 0 <= i < |out| && out[i].target == d.largestSent
  {
    hide CaughtUp;
    var endorse, k := EndorseOutput(c, cur), d.timerHeight - c.timerHeight;
    if c.timerHeight < d.timerHeight && d.largestSent == d.timerHeight {
      var i := |endorse| + k - 1;
      assert out[i] == SkipsSent(c, k)[k - 1];
    } else {
      assert out[0] == endorse[0];
    }
  }

  lemma BlockKeepsLifeInv(n: Node, largest: Height, op: Op)
    requires LifeInv(n, largest) && op.Block?
    ensures LifeInv(Apply(n, op), largest)
  {
    ApplyKeepsInv(n, op);
  }

  lemma {:induction false} LifeKeepsInv(life: Life, largest: Height, k: nat)
    requires k <= |life.ops|
    ensures LifeInv(Run(Born(life, largest), life.ops[..k]), largest)
    decreases k
  {
    hide LifeInv, Apply;
    if k == 0 {
      BornInv(life, largest);
    } else {
      LifeKeepsInv(life, largest, k - 1);
      var op, n := life.ops[k - 1], Run(Born(life, largest), life.ops[..k - 1]);
      assert life.ops[..k][..k - 1] == life.ops[..k - 1];
      if op.Tick? { TickKeepsLifeInv(n, largest, op.cur); } else { BlockKeepsLifeInv(n, largest, op); }
    }
  }

  lemma BornInv(life: Life, largest: Height)
    ensures LifeInv(Born(life, largest), largest)
  {
  }

  /** One more event keeps endorsements above what was remembered, exactly unless it is an early timeout. */
  lemma EventSafeExactly(life: Life, largest: Height, k: nat)
    requires k < |life.ops|
    ensures var before, after := Run(Born(life, largest), life.ops[..k]), Run(Born(life, largest), life.ops[..k + 1]);
      AllEndorsementsAbove(after.sent, largest) <==> AllEndorsementsAbove(before.sent, largest) && !FiresEarly(life, largest, k)
  {
    hide ProcessTimer, NodeInv, SkipDue;
    var n, op := Run(Born(life, largest), life.ops[..k]), life.ops[k];
    assert life.ops[..k + 1][..k] == life.ops[..k];
    LifeKeepsInv(life, largest, k);
    if op.Tick? {
      AheadUnlessFresh(n);
      RestartSafeExactly(n.clock, op.cur);
      TickAbove(n, largest, op.cur);
      AboveConcat(n.sent, ProcessTimer(n.clock, op.cur).1, largest);
    }
  }

  /** For one timer call, being above the remembered target and above the current largest come to the same. */
  lemma TickAbove(n: Node, largest: Height, cur: Time)
    requires LifeInv(n, largest)
    ensures AllEndorsementsAbove(ProcessTimer(n.clock, cur).1, largest) <==> AllEndorsementsAbove(ProcessTimer(n.clock, cur).1, n.clock.largestSent)
  {
    hide ProcessTimer, SkipDue;
    if n.clock.timerHeight > n.clock.tipHeight {
      AheadUnlessFresh(n);
      RestartSafeExactly(n.clock, cur);
    }
  }

  lemma AboveConcat(a: seq<ApprovalContent>, b: seq<ApprovalContent>, bound: Height)
    ensures AllEndorsementsAbove(a + b, bound) <==> AllEndorsementsAbove(a, bound) && AllEndorsementsAbove(b, bound)
  {
    if AllEndorsementsAbove(a + b, bound) {
      forall i | 0 <= i < |a| && a[i].inner.Endorsement? ensures bound < a[i].target { assert (a + b)[i] == a[i]; }
      forall i | 0 <= i < |b| && b[i].inner.Endorsement? ensures bound < b[i].target { assert (a + b)[|a| + i] == b[i]; }
    }
  }

  lemma {:induction false} LifeSafeExactly(life: Life, largest: Height, k: nat)
    requires k <= |life.ops|
    ensures AllEndorsementsAbove(Run(Born(life, largest), life.ops[..k]).sent, largest) <==>
      forall i :: 0 <= i < k ==> !FiresEarly(life, largest, i)
    decreases k
  {
    hide FiresEarly, Apply;
    if k > 0 {
      LifeSafeExactly(life, largest, k - 1);
      EventSafeExactly(life, largest, k - 1);
    }
  }

  // ---------------------------------------------------------------------------------------
  // All lives
  // ---------------------------------------------------------------------------------------

  /** What is remembered is the largest target sent, and was sent unless nothing was. */
  ghost predicate Remembers(largest: Height, sent: seq<ApprovalContent>) {
    Bounded(sent, largest) && (largest == 0 || exists i :: 0 <= i < |sent| && sent[i].target == largest)
  }

  lemma ClimbingConcat(a: seq<ApprovalContent>, b: seq<ApprovalContent>, largest: Height)
    requires Remembers(largest, a) && Climbing(b) && forall i :: 0 <= i < |b| ==> b[i].target >= 1
    ensures Climbing(a + b) <==> Climbing(a) && AllEndorsementsAbove(b, largest)
  {
    var all := a + b;
    if Climbing(all) {
      forall i, j | 0 <= i < j < |a| && a[j].inner.Endorsement? ensures a[i].target < a[j].target {
        assert all[i] == a[i] && all[j] == a[j];
      }
      forall j | 0 <= j < |b| && b[j].inner.Endorsement? ensures largest < b[j].target {
        if largest > 0 {
          var i :| 0 <= i < |a| && a[i].target == largest;
          assert all[i] == a[i] && all[|a| + j] == b[j];
        }
      }
    }
  }

  lemma {:induction false} TargetsPositive(life: Life, largest: Height, k: nat)
    requires k <= |life.ops|
    ensures forall i :: 0 <= i < |Run(Born(life, largest), life.ops[..k]).sent| ==> Run(Born(life, largest), life.ops[..k]).sent[i].target >= 1
    decreases k
  {
    hide RunTimer, CaughtUp;
    if k > 0 {
      TargetsPositive(life, largest, k - 1);
      assert life.ops[..k][..k - 1] == life.ops[..k - 1];
      if life.ops[k - 1].Tick? {
        TimerMeaning(Run(Born(life, largest), life.ops[..k - 1]).clock, life.ops[k - 1].cur, MAX_TIMER_ITERS);
      }
    }
  }

  lemma {:induction false} HistoryRemembers(lives: seq<Life>)
    ensures Remembers(History(lives).0, History(lives).1)
    decreases |lives|
  {
    hide Run;
    if lives != [] {
      var n := |lives| - 1;
      var life, before := lives[n], History(lives[..n]);
      HistoryRemembers(lives[..n]);
      LifeKeepsInv(life, before.0, |life.ops|);
      assert life.ops[..|life.ops|] == life.ops;
      LifeRemembers(before.0, before.1, Run(Born(life, before.0), life.ops));
    }
  }

  lemma LifeRemembers(largest: Height, sent: seq<ApprovalContent>, n: Node)
    requires Remembers(largest, sent) && LifeInv(n, largest)
    ensures Remembers(n.clock.largestSent, sent + n.sent)
  {
    var all := sent + n.sent;
    if n.clock.largestSent == largest {
      if i :| 0 <= i < |sent| && sent[i].target == largest { assert all[i] == sent[i]; }
    } else {
      var i :| 0 <= i < |n.sent| && n.sent[i].target == n.clock.largestSent;
      assert all[|sent| + i] == n.sent[i];
    }
  }

  /** No life times out early. */
  ghost predicate NeverEarly(lives: seq<Life>) {
    forall j :: 0 <= j < |lives| ==> !EarlyTimeout(lives[j], History(lives[..j]).0)
  }

  lemma NeverEarlyStep(lives: seq<Life>)
    requires lives != []
    ensures var n := |lives| - 1;
      NeverEarly(lives) <==> NeverEarly(lives[..n]) && !EarlyTimeout(lives[n], History(lives[..n]).0)
  {
    hide History, EarlyTimeout;
    var n := |lives| - 1;
    forall j | 0 <= j < n ensures lives[..n][..j] == lives[..j] && lives[..n][j] == lives[j] {
    }
  }

  /** Over any number of restarts, each remembering the largest target sent, endorsements climb above
    everything sent before them if and only if no life after the first sending times out before it has
    seen a block. */
  lemma {:induction false} RestartsSafeExactly(lives: seq<Life>)
    ensures Climbing(History(lives).1) <==> NeverEarly(lives)
    decreases |lives|
  {
    hide Run, EarlyTimeout, Climbing, Remembers, NeverEarly;
    if lives == [] {
      NothingClimbs();
      NoLives();
    } else {
      var before := lives[..|lives| - 1];
      RestartsSafeExactly(before);
      HistoryRemembers(before);
      LastLife(lives[|lives| - 1], History(before).0, History(before).1);
      NeverEarlyStep(lives);
    }
  }

  lemma NoLives()
    ensures NeverEarly([])
  {
  }

  lemma NothingClimbs()
    ensures Climbing([])
  {
  }

  lemma LastLife(life: Life, largest: Height, sent: seq<ApprovalContent>)
    requires Remembers(largest, sent)
    ensures Climbing(sent + Run(Born(life, largest), life.ops).sent) <==> Climbing(sent) && !EarlyTimeout(life, largest)
  {
    hide Run, FiresEarly, Climbing, AllEndorsementsAbove, Remembers;
    var n := |life.ops|;
    assert life.ops[..n] == life.ops;
    LifeSafeExactly(life, largest, n);
    TargetsPositive(life, largest, n);
    EndorsementsClimb(largest, life.delays, life.t0, life.t1, life.ops);
    ClimbingConcat(sent, Run(Born(life, largest), life.ops).sent, largest);
  }

  // ---------------------------------------------------------------------------------------
  // What a validator has sent over all its lives
  // ---------------------------------------------------------------------------------------

  /** Endorsements climb above everything sent before them; unless `strict`, those for height 1 are let off. */
  ghost predicate Climbs(sent: seq<ApprovalContent>, strict: bool) {
    forall i, j :: 0 <= i < j < |sent| && sent[j].inner.Endorsement? && (strict || sent[j].target != 1) ==>
      sent[i].target < sent[j].target
  }

  /** The timer has not moved and no block was seen since the start. */
  predicate Fresh(c: Clockwork) {
    c.timerHeight == c.tipHeight == 0 && !c.pending
  }

  /** A clock and everything sent so far, in this life and earlier ones. */
  ghost predicate Line(c: Clockwork, sent: seq<ApprovalContent>, strict: bool) {
    Climbs(sent, strict) && Bounded(sent, c.largestSent) && (c.timerHeight > c.tipHeight || Fresh(c))
  }

  /** The next timeout would come before the first block, after something was sent. */
  predicate TooEarly(c: Clockwork, sent: seq<ApprovalContent>, cur: Time) {
    Fresh(c) && sent != [] && SkipDue(c, cur)
  }

  lemma EndorseKeepsLine(c: Clockwork, sent: seq<ApprovalContent>, cur: Time, strict: bool)
    requires Line(c, sent, strict)
    ensures Line(AfterEndorse(c, cur), sent + EndorseOutput(c, cur), strict)
    ensures Fresh(c) ==> AfterEndorse(c, cur) == c && EndorseOutput(c, cur) == []
  {
  }

  lemma SkipKeepsLine(c: Clockwork, sent: seq<ApprovalContent>, strict: bool)
    requires Line(c, sent, strict) && (strict && Fresh(c) ==> sent == [])
    ensures Line(AfterSkip(c), sent + SkipOutput(c), strict) && !Fresh(AfterSkip(c))
  {
  }

  lemma {:induction false} TimerKeepsLine(c: Clockwork, sent: seq<ApprovalContent>, cur: Time, iters: nat, strict: bool)
    requires Line(c, sent, strict) && (strict ==> !TooEarly(c, sent, cur))
    ensures Line(RunTimer(c, cur, iters).0, sent + RunTimer(c, cur, iters).1, strict)
    decreases iters
  {
    if iters == 0 {
      assert sent + [] == sent;
    } else {
      hide Line, AfterEndorse, AfterSkip, EndorseOutput, SkipOutput, SkipDue;
      EndorseKeepsLine(c, sent, cur, strict);
      var c1 := AfterEndorse(c, cur);
      var sent1 := sent + EndorseOutput(c, cur);
      if SkipDue(c1, cur) {
        StillFresh(c, cur);
        assert sent + [] == sent;
        SkipKeepsLine(c1, sent1, strict);
        TimerKeepsLine(AfterSkip(c1), sent1 + SkipOutput(c1), cur, iters - 1, strict);
        assert sent + RunTimer(c, cur, iters).1
            == sent1 + SkipOutput(c1) + RunTimer(AfterSkip(c1), cur, iters - 1).1;
      }
    }
  }

  lemma StillFresh(c: Clockwork, cur: Time)
    ensures Fresh(AfterEndorse(c, cur)) ==> Fresh(c) || c.pending
    ensures Fresh(AfterEndorse(c, cur)) && !c.pending ==> AfterEndorse(c, cur) == c && EndorseOutput(c, cur) == []
    ensures c.timerHeight > c.tipHeight ==> !Fresh(AfterEndorse(c, cur))
  {
  }

  lemma BlockKeepsLine(c: Clockwork, sent: seq<ApprovalContent>, now: Time, hash: Hash, height: Height, lastFinal: Height, strict: bool)
    requires Line(c, sent, strict)
    ensures Line(OnBlock(c, now, hash, height, lastFinal), sent, strict)
  {
  }

  /** A restart with the remembered target. */
  lemma RestartKeepsLine(c: Clockwork, sent: seq<ApprovalContent>, delays: Delays, t0: Time, t1: Time, strict: bool)
    requires Line(c, sent, strict)
    ensures Line(New(c.largestSent, delays, t0, t1), sent, strict)
  {
  }

  /** A clock that is not fresh stays so; a fresh one that does not time out does not move. */
  lemma TimerLeavesFresh(c: Clockwork, cur: Time)
    requires c.timerHeight > c.tipHeight || Fresh(c)
    ensures var (d, out) := ProcessTimer(c, cur);
      Fresh(d) ==> Fresh(c) && out == []
  {
    hide RunTimer, CaughtUp;
    TimerMeaning(c, cur, MAX_TIMER_ITERS);
  }
}
