/** One Doomslug instance: the timer and the trackers together, updated in place. */
module DoomslugNode {
  import opened Util
  import opened Approval
  import opened DoomslugTimer
  import opened ApprovalTrackers

  const MAX_HEIGHTS_AHEAD: nat := 10_000
  const MAX_HEIGHTS_BEFORE: nat := 20

  /** The fields of an instance as a value. */
  datatype State = State(
    clock: Clockwork,
    tracking: map<Height, AtHeight>,
    largestThreshold: Height,
    largestApproval: Height,
    mode: Mode)

  function Initial(largestSent: Height, delays: Delays, t0: Time, t1: Time, mode: Mode): State {
    State(New(largestSent, delays, t0, t1), map[], 0, 0, mode)
  }

  function Retain(tracking: map<Height, AtHeight>, height: Height): map<Height, AtHeight> {
    map h | h in tracking && SatSub(height, MAX_HEIGHTS_BEFORE) < h <= height + MAX_HEIGHTS_AHEAD :: tracking[h]
  }

  function BlockStep(s: State, now: Time, hash: Hash, height: Height, lastFinal: Height): State {
    s.(clock := OnBlock(s.clock, now, hash, height, lastFinal), tracking := Retain(s.tracking, height))
  }

  predicate InHorizon(s: State, target: Height) {
    s.clock.tipHeight <= target <= s.clock.tipHeight + MAX_HEIGHTS_AHEAD
  }

  function TrackersAt(s: State, target: Height): AtHeight {
    if target in s.tracking then s.tracking[target] else EMPTY
  }

  /** `on_approval` and `on_approval_internal`. */
  function ApprovalStep(s: State, now: Time, approval: ApprovalValidated, entries: seq<StakeEntry>): State
    requires CleanStakes(entries)
  {
    var target := approval.content.target;
    if !InHorizon(s, target) then s else
      var (h, r) := ProcessApproval(TrackersAt(s, target), now, approval, entries, s.mode);
      s.(tracking := s.tracking[target := h],
         largestApproval := Max(target, s.largestApproval),
         largestThreshold := if r.NotReady? then s.largestThreshold else Max(target, s.largestThreshold))
  }

  // ---------------------------------------------------------------------------------------
  // How much an instance remembers
  // ---------------------------------------------------------------------------------------

  datatype Event =
    | Timer(cur: Time)
    | NewBlock(now: Time, hash: Hash, height: Height, lastFinal: Height)
    | NewApproval(now: Time, approval: ApprovalValidated, entries: seq<StakeEntry>)

  function React(s: State, e: Event): State
    requires e.NewApproval? ==> CleanStakes(e.entries)
  {
    match e
    case Timer(cur) => s.(clock := DoomslugTimer.ProcessTimer(s.clock, cur).0)
    case NewBlock(now, hash, height, lastFinal) => BlockStep(s, now, hash, height, lastFinal)
    case NewApproval(now, approval, entries) => ApprovalStep(s, now, approval, entries)
  }

  function ReactAll(s: State, es: seq<Event>): State
    requires forall i :: 0 <= i < |es| && es[i].NewApproval? ==> CleanStakes(es[i].entries)
    decreases |es|
  {
    if es == [] then s else React(ReactAll(s, es[..|es| - 1]), es[|es| - 1])
  }

  /** Every tracked height is near the tip. */
  ghost predicate NearTip(s: State) {
    forall h :: h in s.tracking ==>
      && (h == s.clock.tipHeight || (0 < h && s.clock.tipHeight < h + 20))
      && h <= s.clock.tipHeight + 10_000
  }

  /** Whatever blocks and approvals arrive, an instance keeps trackers only for heights near its
    tip, hence for at most 10,020 heights: spam cannot make it grow further. */
  lemma {:induction false} MemoryIsBounded(largestSent: Height, delays: Delays, t0: Time, t1: Time, mode: Mode, es: seq<Event>)
    requires forall i :: 0 <= i < |es| && es[i].NewApproval? ==> CleanStakes(es[i].entries)
    ensures var s := ReactAll(Initial(largestSent, delays, t0, t1, mode), es);
      NearTip(s) && |s.tracking| <= 10_020
    decreases |es|
  {
    hide RunTimer, ProcessApproval;
    var s := ReactAll(Initial(largestSent, delays, t0, t1, mode), es);
    if es != [] {
      MemoryIsBounded(largestSent, delays, t0, t1, mode, es[..|es| - 1]);
      var before := ReactAll(Initial(largestSent, delays, t0, t1, mode), es[..|es| - 1]);
      if es[|es| - 1].Timer? {
        TimerMeaning(before.clock, es[|es| - 1].cur, MAX_TIMER_ITERS);
      }
    }
    var tip := s.clock.tipHeight;
    var low := if tip < 20 then 0 else tip - 19;
    IntervalBound(s.tracking.Keys, low, tip + MAX_HEIGHTS_AHEAD + 1);
    assert |s.tracking| == |s.tracking.Keys|;
  }

  /** The approvals for height `t` that an instance still counts after a run: those that came while the height
    was within reach of the tip, since the last block that put it out of the window. */
  function Remembered(start: State, es: seq<Event>, t: Height): seq<Delivery>
    requires forall i :: 0 <= i < |es| && es[i].NewApproval? ==> CleanStakes(es[i].entries)
    decreases |es|
  {
    if es == [] then [] else
      var n := |es| - 1;
      var before := Remembered(start, es[..n], t);
      match es[n]
      case Timer(_) => before
      case NewBlock(_, _, height, _) =>
        if 0 < t && height < t + 20 && t <= height + 10_000 then before else []
      case NewApproval(now, approval, entries) =>
        var tip := ReactAll(start, es[..n]).clock.tipHeight;
        if approval.content.target == t && tip <= t <= tip + 10_000
        then before + [Delivery(now, approval, entries, start.mode)]
        else before
  }

  /** At every height, in every run, the trackers are exactly what delivering the remembered approvals one by
    one gives: nothing in the window is forgotten, and nothing outside it counts. */
  lemma {:induction false} TrackersAreDeliveries(start: State, es: seq<Event>, t: Height)
    requires start.tracking == map[]
    requires forall i :: 0 <= i < |es| && es[i].NewApproval? ==> CleanStakes(es[i].entries)
    ensures ForHeight(Remembered(start, es, t), t)
    ensures TrackersAt(ReactAll(start, es), t) == Deliver(Remembered(start, es, t))
    ensures HeightInv(TrackersAt(ReactAll(start, es), t), t)
    ensures ReactAll(start, es).mode == start.mode
    decreases |es|
  {
    hide React, InHorizon, TrackersAt, ProcessApproval, HeightInv, CleanStakes;
    if es == [] {
      NothingTracked(start, t);
    } else {
      var n := |es| - 1;
      TrackersAreDeliveries(start, es[..n], t);
      var before := Remembered(start, es[..n], t);
      ReactTrackers(ReactAll(start, es[..n]), es[n], t);
      if es[n].NewApproval? {
        var d := Delivery(es[n].now, es[n].approval, es[n].entries, start.mode);
        assert (before + [d])[..|before|] == before;
      }
    }
    TrackersConsistent(Remembered(start, es, t), t);
  }

  lemma NothingTracked(s: State, t: Height)
    requires s.tracking == map[]
    ensures TrackersAt(s, t) == EMPTY
  {
  }

  lemma ReactTrackers(s: State, e: Event, t: Height)
    requires e.NewApproval? ==> CleanStakes(e.entries)
    ensures React(s, e).mode == s.mode
    ensures TrackersAt(React(s, e), t) ==
      match e
      case Timer(_) => TrackersAt(s, t)
      case NewBlock(_, _, height, _) =>
        if 0 < t && height < t + 20 && t <= height + 10_000 then TrackersAt(s, t) else EMPTY
      case NewApproval(now, approval, entries) =>
        if approval.content.target == t && s.clock.tipHeight <= t <= s.clock.tipHeight + 10_000
        then ProcessApproval(TrackersAt(s, t), now, approval, entries, s.mode).0
        else TrackersAt(s, t)
  {
    hide RunTimer, ProcessApproval, CleanStakes;
  }

  /** The tip is the last block that came, and its timer restarted then; the timer never moves the tip. */
  lemma {:induction false} TipIsLastBlock(start: State, es: seq<Event>, i: nat)
    requires forall i :: 0 <= i < |es| && es[i].NewApproval? ==> CleanStakes(es[i].entries)
    requires i < |es| && es[i].NewBlock? && forall k :: i < k < |es| ==> !es[k].NewBlock?
    ensures var c := ReactAll(start, es).clock;
      && c.tipHash == es[i].hash && c.tipHeight == es[i].height && c.largestFinal == es[i].lastFinal
      && c.timerHeight >= es[i].height + 1 && c.started >= es[i].now
      && ((forall k :: i < k < |es| ==> !es[k].Timer?) ==> c.pending && c.timerHeight == es[i].height + 1 && c.started == es[i].now)
    decreases |es|
  {
    hide RunTimer, ProcessApproval, CleanStakes, GetDelay;
    var n := |es| - 1;
    if i < n {
      TipIsLastBlock(start, es[..n], i);
      var c := ReactAll(start, es[..n]).clock;
      if es[n].Timer? {
        TimerMeaning(c, es[n].cur, MAX_TIMER_ITERS);
        StartsRise(c, 0, DoomslugTimer.ProcessTimer(c, es[n].cur).0.timerHeight - c.timerHeight);
      }
    }
  }

  /** Event `i` is an approval for a height within reach that counts, and its content is then ready. */
  ghost predicate Crosses(start: State, es: seq<Event>, i: nat)
    requires i < |es| && forall i :: 0 <= i < |es| && es[i].NewApproval? ==> CleanStakes(es[i].entries)
  {
    Reaches(start, es, i) && es[i].approval.validator in ToStakeMap(es[i].entries)
    && var t, k := es[i].approval.content.target, es[i].approval.content.inner;
      var trackers := TrackersAt(ReactAll(start, es[..i + 1]), t).trackers;
      k in trackers && Ready(trackers[k])
  }

  /** Event `i` is an approval for a height within reach of the tip. */
  ghost predicate Reaches(start: State, es: seq<Event>, i: nat)
    requires i < |es| && forall i :: 0 <= i < |es| && es[i].NewApproval? ==> CleanStakes(es[i].entries)
  {
    es[i].NewApproval? && var tip := ReactAll(start, es[..i]).clock.tipHeight;
      tip <= es[i].approval.content.target <= tip + 10_000
  }

  /** `h` is the largest target among the events for which `p` holds, or 0. */
  ghost predicate IsLargest(es: seq<Event>, h: Height, p: nat -> bool) {
    && (forall i :: 0 <= i < |es| && p(i) && es[i].NewApproval? ==> es[i].approval.content.target <= h)
    && (h == 0 || exists i :: 0 <= i < |es| && p(i) && es[i].NewApproval? && es[i].approval.content.target == h)
  }

  ghost predicate LargestHeights(start: State, es: seq<Event>)
    requires forall i :: 0 <= i < |es| && es[i].NewApproval? ==> CleanStakes(es[i].entries)
  {
    && IsLargest(es, ReactAll(start, es).largestApproval, i => 0 <= i < |es| && Reaches(start, es, i))
    && IsLargest(es, ReactAll(start, es).largestThreshold, i => 0 <= i < |es| && Crosses(start, es, i))
  }

  /** Over every run, one recorded height is the largest target of any approval that came within reach, and the
    other the largest whose content was ready when an approval for it landed. */
  lemma {:induction false} LargestHeightsExactly(start: State, es: seq<Event>)
    requires start.tracking == map[] && start.largestApproval == start.largestThreshold == 0
    requires forall i :: 0 <= i < |es| && es[i].NewApproval? ==> CleanStakes(es[i].entries)
    ensures LargestHeights(start, es)
    decreases |es|
  {
    hide React, Ready, TrackersAt, CleanStakes, ToStakeMap;
    if es != [] {
      var n := |es| - 1;
      LargestHeightsExactly(start, es[..n]);
      forall i | 0 <= i < n
        ensures Reaches(start, es, i) <==> Reaches(start, es[..n], i)
        ensures Crosses(start, es, i) <==> Crosses(start, es[..n], i)
      {
        assert es[..n][..i] == es[..i] && es[..n][..i + 1] == es[..i + 1] && es[..n][i] == es[i];
      }
      assert es[..n + 1] == es;
      LargestStep(start, es);
      LargestGrows(es, ReactAll(start, es[..n]).largestApproval, ReactAll(start, es).largestApproval,
        i => 0 <= i < n && Reaches(start, es[..n], i), i => 0 <= i < |es| && Reaches(start, es, i));
      LargestGrows(es, ReactAll(start, es[..n]).largestThreshold, ReactAll(start, es).largestThreshold,
        i => 0 <= i < n && Crosses(start, es[..n], i), i => 0 <= i < |es| && Crosses(start, es, i));
    }
  }

  lemma LargestGrows(es: seq<Event>, before: Height, after: Height, p: nat -> bool, q: nat -> bool)
    requires es != [] && IsLargest(es[..|es| - 1], before, p) && (forall i :: 0 <= i < |es| - 1 ==> (p(i) <==> q(i)))
    requires var e, n := es[|es| - 1], |es| - 1;
      if e.NewApproval? && q(n) then after == Max(before, e.approval.content.target) else after == before
    ensures IsLargest(es, after, q)
  {
    var n := |es| - 1;
    forall i | 0 <= i < |es| && q(i) && es[i].NewApproval? ensures es[i].approval.content.target <= after {
      if i < n { assert p(i) && es[..n][i] == es[i]; }
    }
    if after != before {
      assert q(n) && es[n].approval.content.target == after;
    } else if before != 0 {
      var i :| 0 <= i < n && p(i) && es[..n][i].NewApproval? && es[..n][i].approval.content.target == before;
      assert es[i] == es[..n][i] && q(i);
    }
  }

  lemma LargestStep(start: State, es: seq<Event>)
    requires es != [] && start.tracking == map[]
    requires forall i :: 0 <= i < |es| && es[i].NewApproval? ==> CleanStakes(es[i].entries)
    ensures var before, after, n := ReactAll(start, es[..|es| - 1]), ReactAll(start, es), |es| - 1;
      && (if Reaches(start, es, n) then after.largestApproval == Max(before.largestApproval, es[n].approval.content.target)
          else after.largestApproval == before.largestApproval)
      && (if Crosses(start, es, n) then after.largestThreshold == Max(before.largestThreshold, es[n].approval.content.target)
          else after.largestThreshold == before.largestThreshold)
  {
    hide React, Ready, CleanStakes, ToStakeMap, HeightInv, TrackersAt;
    var n := |es| - 1;
    assert es[..n + 1] == es;
    if es[n].NewApproval? {
      TrackersAreDeliveries(start, es[..n], es[n].approval.content.target);
    }
    ReactLargest(ReactAll(start, es[..n]), es[n]);
  }

  lemma ReactLargest(s: State, e: Event)
    requires e.NewApproval? ==> CleanStakes(e.entries) && HeightInv(TrackersAt(s, e.approval.content.target), e.approval.content.target)
    ensures var after := React(s, e);
      if e.NewApproval? && s.clock.tipHeight <= e.approval.content.target <= s.clock.tipHeight + 10_000 then
        var t, k := e.approval.content.target, e.approval.content.inner;
        var trackers := TrackersAt(after, t).trackers;
        && after.largestApproval == Max(s.largestApproval, t)
        && after.largestThreshold ==
          if e.approval.validator in ToStakeMap(e.entries) && k in trackers && Ready(trackers[k]) then Max(s.largestThreshold, t)
          else s.largestThreshold
      else after.largestApproval == s.largestApproval && after.largestThreshold == s.largestThreshold
  {
    hide RunTimer, ProcessApproval, Ready, CleanStakes, ToStakeMap, HeightInv, KnownSince;
    if e.NewApproval? {
      var t := e.approval.content.target;
      var (h, r) := ProcessApproval(TrackersAt(s, t), e.now, e.approval, e.entries, s.mode);
      ReadinessExactly(TrackersAt(s, t), e.now, e.approval, e.entries, s.mode);
      if s.clock.tipHeight <= t <= s.clock.tipHeight + 10_000 {
        assert InHorizon(s, t);
        assert TrackersAt(React(s, e), t) == h;
      } else {
        assert !InHorizon(s, t);
      }
    }
  }

  /** One iteration of the timer. */
  lemma TimerUnfold(c: Clockwork, cur: Time, iters: nat)
    ensures iters == 0 ==> RunTimer(c, cur, 0) == (c, [])
    ensures iters > 0 ==>
      var c1, out1 := AfterEndorse(c, cur), EndorseOutput(c, cur);
      var rest := RunTimer(AfterSkip(c1), cur, iters - 1);
      RunTimer(c, cur, iters) == if SkipDue(c1, cur) then (rest.0, out1 + SkipOutput(c1) + rest.1) else (c1, out1)
  {
  }

  /** The instance as the program holds it. */
  class Doomslug {
    var tracking: map<Height, AtHeight>
    var largestSent: Height
    var largestFinal: Height
    var largestThreshold: Height
    var largestApproval: Height
    var tipHash: Hash
    var tipHeight: Height
    var pending: bool
    var started: Time
    var lastEndorsementSent: Time
    var timerHeight: Height
    const delays: Delays
    const mode: Mode

    function Clock(): Clockwork
      reads this
    {
      Clockwork(largestSent, largestFinal, tipHash, tipHeight, pending, started, lastEndorsementSent, timerHeight, delays)
    }

    function View(): State
      reads this
    {
      State(Clock(), tracking, largestThreshold, largestApproval, mode)
    }

    constructor (largestSent: Height, delays: Delays, mode: Mode, t0: Time, t1: Time)
      ensures View() == Initial(largestSent, delays, t0, t1, mode)
    {
      this.tracking := map[];
      this.largestSent, this.largestFinal, this.largestThreshold, this.largestApproval := largestSent, 0, 0, 0;
      this.tipHash, this.tipHeight, this.pending := DEFAULT_HASH, 0, false;
      this.started, this.lastEndorsementSent, this.timerHeight := t0, t1, 0;
      this.delays, this.mode := delays, mode;
    }

    /** One pass through the body of the timer loop; `again` is false where the source breaks. */
    method TimerIteration(cur: Time) returns (sent: seq<ApprovalContent>, again: bool)
      modifies this
      ensures again == SkipDue(AfterEndorse(old(Clock()), cur), cur)
      ensures again ==> Clock() == AfterSkip(AfterEndorse(old(Clock()), cur))
      ensures again ==> sent == EndorseOutput(old(Clock()), cur) + SkipOutput(AfterEndorse(old(Clock()), cur))
      ensures !again ==> Clock() == AfterEndorse(old(Clock()), cur) && sent == EndorseOutput(old(Clock()), cur)
      ensures tracking == old(tracking)
      ensures largestThreshold == old(largestThreshold) && largestApproval == old(largestApproval)
    {
      hide GetDelay, NewContent;
      sent := [];
      var skipDelay := GetDelay(delays, SatSub(timerHeight, largestFinal));
      var tip := tipHeight;
      if pending && cur >= lastEndorsementSent + delays.endorsement {
        if tip >= largestSent {
          largestSent := tip + 1;
          sent := sent + [NewContent(tipHash, tipHeight, tip + 1)];
        }
        lastEndorsementSent := cur;
        pending := false;
      }
      again := cur >= started + skipDelay;
      if again {
        largestSent := Max(timerHeight + 1, largestSent);
        sent := sent + [NewContent(tipHash, tipHeight, timerHeight + 1)];
        started := started + skipDelay;
        timerHeight := timerHeight + 1;
      }
    }

    /** The loop of `process_timer`, stated by the step function whose meaning is
      `DoomslugTimer.TimerMeaning`. */
    method ProcessTimer(cur: Time) returns (ret: seq<ApprovalContent>)
      modifies this
      ensures (Clock(), ret) == RunTimer(old(Clock()), cur, MAX_TIMER_ITERS)
      ensures View() == old(View()).(clock := Clock())
    {
      hide AfterEndorse, AfterSkip, EndorseOutput, SkipOutput, SkipDue, RunTimer;
      ret := [];
      var i := 0;
      ghost var goal := RunTimer(Clock(), cur, MAX_TIMER_ITERS);
      while i < MAX_TIMER_ITERS
        invariant 0 <= i <= MAX_TIMER_ITERS
        invariant goal.0 == RunTimer(Clock(), cur, MAX_TIMER_ITERS - i).0
        invariant goal.1 == ret + RunTimer(Clock(), cur, MAX_TIMER_ITERS - i).1
        invariant tracking == old(tracking)
        invariant largestThreshold == old(largestThreshold) && largestApproval == old(largestApproval)
      {
        TimerUnfold(Clock(), cur, MAX_TIMER_ITERS - i);
        var sent, again := TimerIteration(cur);
        ret := ret + sent;
        if !again {
          return;
        }
        i := i + 1;
      }
      TimerUnfold(Clock(), cur, 0);
      assert ret + [] == ret;
    }

    method OnBlock(now: Time, hash: Hash, height: Height, lastFinal: Height)
      modifies this
      ensures View() == BlockStep(old(View()), now, hash, height, lastFinal)
    {
      tipHash, tipHeight := hash, height;
      largestFinal := lastFinal;
      timerHeight := height + 1;
      started := now;
      tracking := Retain(tracking, height);
      pending := true;
    }

    method OnApproval(now: Time, approval: ApprovalValidated, entries: seq<StakeEntry>)
      requires CleanStakes(entries)
      modifies this
      ensures View() == ApprovalStep(old(View()), now, approval, entries)
    {
      var target := approval.content.target;
      if target < tipHeight || target > tipHeight + MAX_HEIGHTS_AHEAD {
        return;
      }
      var h := if target in tracking then tracking[target] else EMPTY;
      var (h', r) := ProcessApproval(h, now, approval, entries, mode);
      tracking := tracking[target := h'];
      if target > largestApproval {
        largestApproval := target;
      }
      if r != NotReady && target > largestThreshold {
        largestThreshold := target;
      }
    }
  }
}
