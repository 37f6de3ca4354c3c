/** Cross-node safety of Doomslug endorsements.

  Honest validators run the instance of module DoomslugNode, and may be restarted with the largest target they
  remember; the network delivers any approval an honest validator has sent, any number of times, in any
  order, to any leader, and anything at all on behalf of the others. */
module DoomslugSafety {
  import opened Util
  import opened Approval
  import opened DoomslugTimer
  import opened ApprovalTrackers
  import opened DoomslugNode
  import opened DoomslugRestarts

  /** An honest validator: its instance and everything it has sent. */
  datatype Validator = Validator(state: State, sent: seq<ApprovalContent>)

  /** The honest validators by address. */
  type System = map<Address, Validator>

  /** The stake list used for approvals of each target height. */
  type Electorate = Height -> seq<StakeEntry>

  datatype Step =
    | TimerStep(node: Address, cur: Time)
    | BlockArrives(node: Address, now: Time, hash: Hash, height: Height, lastFinal: Height)
    | ApprovalArrives(node: Address, now: Time, approval: ApprovalValidated)
    | Restart(node: Address, delays: Delays, t0: Time, t1: Time)

  /** Signatures cannot be forged: an approval of an honest validator is one it has sent. */
  predicate Enabled(s: System, step: Step) {
    && step.node in s
    && (step.ApprovalArrives? && step.approval.validator in s ==>
          step.approval.content in s[step.approval.validator].sent)
  }

  function Next(s: System, step: Step, stakes: Electorate): System
    requires Enabled(s, step)
    requires forall t :: CleanStakes(stakes(t))
  {
    var v := s[step.node];
    match step
    case TimerStep(_, cur) =>
      var (c, out) := DoomslugTimer.ProcessTimer(v.state.clock, cur);
      s[step.node := Validator(v.state.(clock := c), v.sent + out)]
    case BlockArrives(_, now, hash, height, lastFinal) =>
      s[step.node := v.(state := BlockStep(v.state, now, hash, height, lastFinal))]
    case ApprovalArrives(_, now, approval) =>
      s[step.node := v.(state := ApprovalStep(v.state, now, approval, stakes(approval.content.target)))]
    case Restart(_, delays, t0, t1) =>
      s[step.node := v.(state := Initial(v.state.clock.largestSent, delays, t0, t1, TwoThirds))]
  }

  /** A restarted validator times out before it has seen a block, after it has sent something. */
  predicate EarlyStep(s: System, step: Step) {
    step.TimerStep? && step.node in s && TooEarly(s[step.node].state.clock, s[step.node].sent, step.cur)
  }

  /** A fresh instance asking for two thirds that has sent nothing. */
  ghost predicate FreshValidator(v: Validator) {
    v.sent == [] &&
    exists largestSent, delays, t0, t1 :: v.state == Initial(largestSent, delays, t0, t1, TwoThirds)
  }

  /** `run[i + 1]` follows from `run[i]` by `steps[i]`, from fresh validators. */
  ghost predicate IsRun(run: seq<System>, steps: seq<Step>, stakes: Electorate) {
    && (forall t :: CleanStakes(stakes(t)))
    && |run| == |steps| + 1
    && (forall a :: a in run[0] ==> FreshValidator(run[0][a]))
    && (forall i :: 0 <= i < |steps| ==> Enabled(run[i], steps[i]) && run[i + 1] == Next(run[i], steps[i], stakes))
  }

  /** What every reachable validator satisfies, given who has sent what. */
  ghost predicate TrackingInv(s: System, a: Address, stakes: Electorate)
    requires a in s
  {
    && s[a].state.mode == TwoThirds
    && forall t :: t in s[a].state.tracking ==>
         && HeightInv(s[a].state.tracking[t], t)
         && OneElectorate(s[a].state.tracking[t], ToStakeMap(stakes(t)))
         && Signed(s, s[a].state.tracking[t], t)
  }

  /** Every honest witness of a content has sent it. */
  ghost predicate Signed(s: System, h: AtHeight, t: Height) {
    forall k, u :: Counts(h, k, u) && u in s ==> ApprovalContent(k, t) in s[u].sent
  }

  /** Unless `strict`, endorsements for height 1 are let off. */
  ghost predicate SystemInv(s: System, stakes: Electorate, strict: bool) {
    && (forall a :: a in s ==> Line(s[a].state.clock, s[a].sent, strict))
    && (forall a :: a in s ==> TrackingInv(s, a, stakes))
  }

  /** Histories only grow. */
  ghost predicate Grows(s: System, s': System) {
    s.Keys == s'.Keys && forall a :: a in s ==> s[a].sent <= s'[a].sent
  }

  lemma SignedGrows(s: System, s': System, h: AtHeight, t: Height)
    requires Grows(s, s') && Signed(s, h, t)
    ensures Signed(s', h, t)
  {
  }

  /** Trackers that were not touched stay justified when histories grow. */
  lemma TrackingGrows(s: System, s': System, a: Address, stakes: Electorate)
    requires a in s && Grows(s, s') && TrackingInv(s, a, stakes)
    requires s'[a].state.mode == s[a].state.mode
    requires forall t :: t in s'[a].state.tracking ==>
      t in s[a].state.tracking && s'[a].state.tracking[t] == s[a].state.tracking[t]
    ensures TrackingInv(s', a, stakes)
  {
    hide HeightInv, OneElectorate, Signed;
    forall t | t in s'[a].state.tracking ensures Signed(s', s'[a].state.tracking[t], t) {
      SignedGrows(s, s', s[a].state.tracking[t], t);
    }
  }

  /** The tracker touched by an approval stays justified. */
  lemma ApprovalTracked(s: System, h: AtHeight, now: Time, approval: ApprovalValidated, entries: seq<StakeEntry>)
    requires CleanStakes(entries)
    requires HeightInv(h, approval.content.target) && OneElectorate(h, ToStakeMap(entries))
    requires Signed(s, h, approval.content.target)
    requires approval.validator in s ==> approval.content in s[approval.validator].sent
    ensures var h' := ProcessApproval(h, now, approval, entries, TwoThirds).0;
      && HeightInv(h', approval.content.target) && OneElectorate(h', ToStakeMap(entries))
      && Signed(s, h', approval.content.target)
  {
    hide HeightInv, OneElectorate, Counts, ProcessApproval;
    ProcessKeepsInv(h, now, approval, entries, TwoThirds);
    ProcessKeepsElectorate(h, now, approval, entries);
  }

  lemma EmptyTracked(s: System, t: Height, m: StakeMap)
    ensures HeightInv(EMPTY, t) && OneElectorate(EMPTY, m) && Signed(s, EMPTY, t)
  {
  }

  lemma ApprovalStepTracked(s: System, step: Step, stakes: Electorate)
    requires step.ApprovalArrives? && Enabled(s, step) && TrackingInv(s, step.node, stakes)
    requires forall t :: CleanStakes(stakes(t))
    ensures TrackingInv(Next(s, step, stakes), step.node, stakes)
  {
    hide HeightInv, OneElectorate, Signed, ProcessApproval;
    var s' := Next(s, step, stakes);
    var v, target := s[step.node], step.approval.content.target;
    assert TrackingInv(s, step.node, stakes);
    EmptyTracked(s, target, ToStakeMap(stakes(target)));
    ApprovalTracked(s, TrackersAt(v.state, target), step.now, step.approval, stakes(target));
    assert Grows(s, s');
    forall t | t in s'[step.node].state.tracking
      ensures HeightInv(s'[step.node].state.tracking[t], t)
      ensures OneElectorate(s'[step.node].state.tracking[t], ToStakeMap(stakes(t)))
      ensures Signed(s', s'[step.node].state.tracking[t], t)
    {
      SignedGrows(s, s', s'[step.node].state.tracking[t], t);
    }
  }

  lemma StepKeepsLines(s: System, step: Step, stakes: Electorate, strict: bool, a: Address)
    requires Enabled(s, step) && (strict ==> !EarlyStep(s, step)) && a in s && Line(s[a].state.clock, s[a].sent, strict)
    requires forall t :: CleanStakes(stakes(t))
    ensures var s' := Next(s, step, stakes);
      Line(s'[a].state.clock, s'[a].sent, strict)
  {
    hide Line, RunTimer, ProcessApproval, TooEarly, CleanStakes, New, OnBlock;
    var v := s[a];
    if a == step.node {
      match step
      case TimerStep(_, cur) => TimerKeepsLine(v.state.clock, v.sent, cur, MAX_TIMER_ITERS, strict);
      case BlockArrives(_, now, hash, height, lastFinal) =>
        BlockKeepsLine(v.state.clock, v.sent, now, hash, height, lastFinal, strict);
      case ApprovalArrives(_, _, _) =>
      case Restart(_, delays, t0, t1) => RestartKeepsLine(v.state.clock, v.sent, delays, t0, t1, strict);
    }
  }

  /** Every step keeps the invariant, with any restarts; its strict form, exactly if nobody times out early. */
  lemma StepKeepsInv(s: System, step: Step, stakes: Electorate, strict: bool)
    requires SystemInv(s, stakes, strict) && Enabled(s, step) && (strict ==> !EarlyStep(s, step))
    requires forall t :: CleanStakes(stakes(t))
    ensures SystemInv(Next(s, step, stakes), stakes, strict) && Grows(s, Next(s, step, stakes))
  {
    hide Line, TrackingInv, RunTimer, EarlyStep;
    var s' := Next(s, step, stakes);
    assert Grows(s, s');
    forall a | a in s' ensures Line(s'[a].state.clock, s'[a].sent, strict) {
      StepKeepsLines(s, step, stakes, strict, a);
    }
    forall a | a in s' ensures TrackingInv(s', a, stakes) {
      assert TrackingInv(s, a, stakes);
      if step.ApprovalArrives? && a == step.node {
        ApprovalStepTracked(s, step, stakes);
      } else {
        ModeKept(s, step, stakes, a);
        TrackingGrows(s, s', a, stakes);
      }
    }
  }

  lemma ModeKept(s: System, step: Step, stakes: Electorate, a: Address)
    requires Enabled(s, step) && a in s && (step.ApprovalArrives? ==> a != step.node)
    requires TrackingInv(s, a, stakes)
    requires forall t :: CleanStakes(stakes(t))
    ensures var s' := Next(s, step, stakes);
      && s'[a].state.mode == s[a].state.mode
      && forall t :: t in s'[a].state.tracking ==>
           t in s[a].state.tracking && s'[a].state.tracking[t] == s[a].state.tracking[t]
  {
    hide HeightInv, OneElectorate, Signed, RunTimer;
  }

  /** Nobody times out early in the first `n` steps. */
  ghost predicate Punctual(run: seq<System>, steps: seq<Step>, n: nat) {
    n <= |steps| && n <= |run| && forall k :: 0 <= k < n ==> !EarlyStep(run[k], steps[k])
  }

  lemma {:induction false} RunInv(run: seq<System>, steps: seq<Step>, stakes: Electorate, i: nat, strict: bool)
    requires IsRun(run, steps, stakes) && i < |run| && (strict ==> Punctual(run, steps, i))
    ensures SystemInv(run[i], stakes, strict)
    decreases i
  {
    hide Next, Enabled, CleanStakes, EarlyStep;
    if i == 0 {
      forall a | a in run[0] ensures Line(run[0][a].state.clock, run[0][a].sent, strict) && TrackingInv(run[0], a, stakes) {
        assert FreshValidator(run[0][a]);
      }
    } else {
      RunInv(run, steps, stakes, i - 1, strict);
      StepKeepsInv(run[i - 1], steps[i - 1], stakes, strict);
    }
  }

  lemma {:induction false} RunGrows(run: seq<System>, steps: seq<Step>, stakes: Electorate, i: nat, j: nat)
    requires IsRun(run, steps, stakes) && i <= j < |run|
    ensures Grows(run[i], run[j])
    decreases j - i
  {
    hide Next, SystemInv, Enabled, CleanStakes, FreshValidator;
    if i < j {
      RunGrows(run, steps, stakes, i, j - 1);
      RunInv(run, steps, stakes, j - 1, false);
      StepKeepsInv(run[j - 1], steps[j - 1], stakes, false);
    }
  }

  /** Leader `l` has a ready tracker for endorsing `hash` at height `t`. */
  ghost predicate Quorum(s: System, l: Address, t: Height, hash: Hash) {
    && l in s && t in s[l].state.tracking
    && Endorsement(hash) in s[l].state.tracking[t].trackers
    && Ready(s[l].state.tracking[t].trackers[Endorsement(hash)])
  }

  /** The electorate members that do not follow the protocol. */
  ghost function Deviating(s: System, m: StakeMap): set<Address> {
    m.Keys - s.Keys
  }

  /** The accounts behind a quorum. */
  ghost function Voters(s: System, l: Address, t: Height, hash: Hash): set<Address>
    requires Quorum(s, l, t, hash)
  {
    s[l].state.tracking[t].trackers[Endorsement(hash)].witnesses.Keys
  }

  /** A quorum is more than two thirds of the stake, and its honest members sent the endorsement. */
  lemma QuorumMeaning(s: System, stakes: Electorate, l: Address, t: Height, hash: Hash)
    requires SystemInv(s, stakes, false) && Quorum(s, l, t, hash)
    ensures var m := ToStakeMap(stakes(t));
      3 * Weight(Voters(s, l, t, hash), m).cur > 2 * Weight(m.Keys, m).cur
    ensures forall u :: u in Voters(s, l, t, hash) && u in s ==> ApprovalContent(Endorsement(hash), t) in s[u].sent
  {
    hide Line;
    assert TrackingInv(s, l, stakes);
    var h := s[l].state.tracking[t];
    assert SlotInv(h, Endorsement(hash), t);
    ReadyMeansTwoThirds(h.trackers[Endorsement(hash)], ApprovalContent(Endorsement(hash), t));
    forall u | u in Voters(s, l, t, hash) && u in s
      ensures ApprovalContent(Endorsement(hash), t) in s[u].sent
    {
      assert Counts(h, Endorsement(hash), u);
    }
  }

  /** Two sets of more than two thirds share someone outside any set of at most one third. */
  lemma QuorumsMeetOutside(a: set<Address>, b: set<Address>, bad: set<Address>, m: StakeMap)
    requires 3 * Weight(a, m).cur > 2 * Weight(m.Keys, m).cur
    requires 3 * Weight(b, m).cur > 2 * Weight(m.Keys, m).cur
    requires 3 * Weight(bad, m).cur <= Weight(m.Keys, m).cur
    ensures exists u :: u in a && u in b && u in m && u !in bad
  {
    SumOverOverlap(a, b, CurOf(m));
    WeightInside(a + b, m);
    WeightInside(a * b, m);
    var common := a * b * m.Keys;
    if common <= bad {
      SumOverSubset(common, bad, CurOf(m));
      assert false;
    }
    var u :| u in common && u !in bad;
  }

  /** An honest validator endorses at most one hash per height. */
  lemma OneEndorsementPerHeight(sent: seq<ApprovalContent>, t: Height, h1: Hash, h2: Hash, strict: bool)
    requires Climbs(sent, strict) && (strict || t != 1)
    requires ApprovalContent(Endorsement(h1), t) in sent && ApprovalContent(Endorsement(h2), t) in sent
    ensures h1 == h2
  {
    var i :| 0 <= i < |sent| && sent[i] == ApprovalContent(Endorsement(h1), t);
    var j :| 0 <= j < |sent| && sent[j] == ApprovalContent(Endorsement(h2), t);
    assert !(i < j) && !(j < i);
  }

  /** Safety: while deviating validators hold at most a third of the stake at height `t`, no two
    different hashes ever have an endorsement quorum for `t`, whichever leaders see them and at
    whatever points of the run, and however often honest validators are restarted. Only for height 1 it
    takes more: nobody may time out, after a restart, before seeing a block. */
  lemma NoConflictingQuorums(run: seq<System>, steps: seq<Step>, stakes: Electorate,
                             i: nat, l1: Address, h1: Hash, j: nat, l2: Address, h2: Hash, t: Height)
    requires IsRun(run, steps, stakes) && i <= j < |run|
    requires Quorum(run[i], l1, t, h1) && Quorum(run[j], l2, t, h2)
    requires var m := ToStakeMap(stakes(t));
      3 * Weight(Deviating(run[0], m), m).cur <= Weight(m.Keys, m).cur
    requires t != 1 || Punctual(run, steps, j)
    ensures h1 == h2
  {
    hide Line, TrackingInv, Weight, Ready, IsRun, EarlyStep;
    var m, strict := ToStakeMap(stakes(t)), t == 1;
    RunInv(run, steps, stakes, i, false);
    RunInv(run, steps, stakes, j, false);
    RunInv(run, steps, stakes, j, strict);
    RunGrows(run, steps, stakes, 0, j);
    RunGrows(run, steps, stakes, i, j);
    QuorumMeaning(run[i], stakes, l1, t, h1);
    QuorumMeaning(run[j], stakes, l2, t, h2);
    var a, b := Voters(run[i], l1, t, h1), Voters(run[j], l2, t, h2);
    QuorumsMeetOutside(a, b, Deviating(run[0], m), m);
    var u :| u in a && u in b && u in m && u !in Deviating(run[0], m);
    HonestSent(run[j], stakes, u, strict);
    OneEndorsementPerHeight(run[j][u].sent, t, h1, h2, strict);
  }

  lemma HonestSent(s: System, stakes: Electorate, u: Address, strict: bool)
    requires SystemInv(s, stakes, strict) && u in s
    ensures Climbs(s[u].sent, strict)
  {
  }

  // ---------------------------------------------------------------------------------------
  // Without restarts
  // ---------------------------------------------------------------------------------------

  /** Whoever is as fresh as at the start has sent nothing. */
  ghost predicate FreshAreSilent(s: System) {
    forall a :: a in s ==> Fresh(s[a].state.clock) ==> s[a].sent == []
  }

  lemma StepKeepsSilent(s: System, step: Step, stakes: Electorate)
    requires Enabled(s, step) && !step.Restart? && FreshAreSilent(s) && (forall t :: CleanStakes(stakes(t)))
    requires forall a :: a in s ==> s[a].state.clock.timerHeight > s[a].state.clock.tipHeight || Fresh(s[a].state.clock)
    ensures FreshAreSilent(Next(s, step, stakes))
  {
    hide RunTimer, ProcessApproval, CleanStakes, DoomslugTimer.ProcessTimer;
    if step.TimerStep? {
      TimerLeavesFresh(s[step.node].state.clock, step.cur);
    }
  }

  lemma {:induction false} UnrestartedSilent(run: seq<System>, steps: seq<Step>, stakes: Electorate, n: nat)
    requires IsRun(run, steps, stakes) && n < |run| && forall k :: 0 <= k < n ==> !steps[k].Restart?
    ensures FreshAreSilent(run[n])
    decreases n
  {
    hide Next, Enabled, CleanStakes, Fresh;
    if n == 0 {
      forall a | a in run[0] ensures run[0][a].sent == [] { assert FreshValidator(run[0][a]); }
    } else {
      UnrestartedSilent(run, steps, stakes, n - 1);
      RunInv(run, steps, stakes, n - 1, false);
      StepKeepsSilent(run[n - 1], steps[n - 1], stakes);
    }
  }

  /** Where nobody is restarted nobody is early, so the safety theorem holds for every height. */
  lemma UnrestartedIsPunctual(run: seq<System>, steps: seq<Step>, stakes: Electorate, j: nat)
    requires IsRun(run, steps, stakes) && j < |run| && forall k :: 0 <= k < j ==> !steps[k].Restart?
    ensures Punctual(run, steps, j)
  {
    hide Next, Enabled, CleanStakes, FreshValidator;
    forall k | 0 <= k < j ensures !EarlyStep(run[k], steps[k]) {
      UnrestartedSilent(run, steps, stakes, k);
    }
  }

  // ---------------------------------------------------------------------------------------
  // Quorums are reached
  // ---------------------------------------------------------------------------------------

  const ALONE: seq<StakeEntry> := [StakeEntry(0, Stake(1, 0), false)]

  const ENDORSED: ApprovalContent := ApprovalContent(Endorsement(5), 4)

  lemma AloneIsClean()
    ensures ToStakeMap(ALONE) == map[0 := Stake(1, 0)] && CleanStakes(ALONE) && TotalStake(ALONE) == Stake(1, 0)
  {
    assert ALONE[..0] == [];
  }

  /** A single validator receives a block, endorses it when its timer says so, and counts its own approval. */
  lemma QuorumsHappen()
    ensures exists run, steps, stakes :: IsRun(run, steps, stakes) && |run| > 3 && Quorum(run[3], 0, 4, 5)
  {
    hide ToStakeMap, TotalStake, CleanStakes, RunTimer, DoomslugTimer.ProcessTimer, ApprovalStep, New, OnBlock;
    AloneIsClean();
    var stakes: Electorate := t => ALONE;
    var steps := [BlockArrives(0, 10, 5, 3, 3), TimerStep(0, 10), ApprovalArrives(0, 11, ApprovalValidated(ENDORSED, 0))];
    var start := New(0, Delays(1, 100, 1, 100), 0, 0);
    var s0: System := map[0 := Validator(State(start, map[], 0, 0, TwoThirds), [])];
    assert s0[0].state == Initial(0, Delays(1, 100, 1, 100), 0, 0, TwoThirds);
    var s1 := Next(s0, steps[0], stakes);
    TimerEndorses(s1[0].state.clock);
    var s2 := Next(s1, steps[1], stakes);
    assert s2[0].sent == [ENDORSED];
    assert s2[0].state.tracking == map[];
    var s3 := Next(s2, steps[2], stakes);
    CountsItself(s2[0].state, 11, ApprovalValidated(ENDORSED, 0), ALONE);
    var run := [s0, s1, s2, s3];
    assert IsRun(run, steps, stakes) && Quorum(run[3], 0, 4, 5);
  }

  lemma TimerEndorses(c: Clockwork)
    requires c == OnBlock(New(0, Delays(1, 100, 1, 100), 0, 0), 10, 5, 3, 3)
    ensures DoomslugTimer.ProcessTimer(c, 10).1 == [ENDORSED]
    ensures DoomslugTimer.ProcessTimer(c, 10).0.tipHeight == 3
  {
    hide RunTimer;
    TimerUnfold(c, 10, MAX_TIMER_ITERS);
    assert SkipDelay(c) == 100;
  }

  lemma CountsItself(s: State, now: Time, a: ApprovalValidated, entries: seq<StakeEntry>)
    requires CleanStakes(entries) && ToStakeMap(entries) == map[a.validator := Stake(1, 0)] && TotalStake(entries) == Stake(1, 0)
    requires s.tracking == map[] && InHorizon(s, a.content.target) && s.mode == TwoThirds
    ensures var after := ApprovalStep(s, now, a, entries);
      && a.content.target in after.tracking && a.content.inner in after.tracking[a.content.target].trackers
      && Ready(after.tracking[a.content.target].trackers[a.content.inner])
  {
    hide ToStakeMap, TotalStake, CleanStakes, Deliver, ProcessApproval;
    var d := Delivery(now, a, entries, TwoThirds);
    FirstDelivery(d);
    OneDelivery(d);
  }

  lemma OneDelivery(d: Delivery)
    requires CleanStakes(d.entries)
    ensures Deliver([d]) == ProcessApproval(EMPTY, d.now, d.approval, d.entries, d.mode).0
  {
    hide CleanStakes;
    assert [d][..0] == [];
  }

  // ---------------------------------------------------------------------------------------
  // Height 1 after a restart
  // ---------------------------------------------------------------------------------------

  const DELAYS: Delays := Delays(1, 100, 1, 100)

  /** The approval of hash `h` at height 1 by the only validator. */
  function ForOne(h: Hash): ApprovalValidated {
    ApprovalValidated(ApprovalContent(Endorsement(h), 1), 0)
  }

  /** What a run of the only validator looks like half-way: it has sent `sent` and counted nothing. */
  ghost predicate Uncounted(s: System, sent: seq<ApprovalContent>) {
    && s.Keys == {0} && s[0].sent == sent
    && s[0].state.tracking == map[] && s[0].state.mode == TwoThirds && s[0].state.clock.tipHeight == 0
  }

  lemma CountsForOne(s: System, sent: seq<ApprovalContent>, now: Time, h: Hash, stakes: Electorate)
    requires Uncounted(s, sent) && ForOne(h).content in sent && forall t :: stakes(t) == ALONE && CleanStakes(stakes(t))
    ensures Enabled(s, ApprovalArrives(0, now, ForOne(h)))
    ensures var s' := Next(s, ApprovalArrives(0, now, ForOne(h)), stakes);
      && Quorum(s', 0, 1, h) && s'.Keys == {0} && s'[0].sent == sent && s'[0].state.clock == s[0].state.clock
  {
    hide ToStakeMap, TotalStake, CleanStakes, ProcessApproval, Ready;
    AloneIsClean();
    CountsItself(s[0].state, now, ForOne(h), ALONE);
  }

  lemma EndorsesGenesis(c: Clockwork)
    requires c == OnBlock(New(0, DELAYS, 0, 0), 10, 5, 0, 0)
    ensures var (d, out) := DoomslugTimer.ProcessTimer(c, 10);
      out == [ForOne(5).content] && d.tipHeight == 0 && d.largestSent == 1
  {
    hide RunTimer;
    TimerUnfold(c, 10, MAX_TIMER_ITERS);
    assert SkipDelay(c) == 100;
  }

  lemma EndorsesDefault(c: Clockwork)
    requires c == New(1, DELAYS, 20, 20)
    ensures var (d, out) := DoomslugTimer.ProcessTimer(c, 130);
      out == [ForOne(DEFAULT_HASH).content] && d.tipHeight == 0
  {
    hide RunTimer;
    TimerUnfold(c, 130, MAX_TIMER_ITERS);
    assert SkipDelay(c) == 100;
    var c1 := AfterSkip(c);
    TimerUnfold(c1, 130, MAX_TIMER_ITERS - 1);
    assert SkipDelay(c1) == 100;
  }

  /** At height 1 a restart can break safety with no validator deviating: the only validator endorses a block
    at height 0, is restarted, times out at once and endorses the default hash for the same height. */
  lemma RestartsConflictAtOne()
    ensures exists run, steps, stakes ::
      IsRun(run, steps, stakes) && |run| > 6 && Quorum(run[3], 0, 1, 5) && Quorum(run[6], 0, 1, DEFAULT_HASH)
      && Deviating(run[0], ToStakeMap(stakes(1))) == {}
  {
    hide ToStakeMap, TotalStake, CleanStakes, RunTimer, DoomslugTimer.ProcessTimer, ApprovalStep, Quorum, New, OnBlock;
    AloneIsClean();
    var stakes: Electorate := t => ALONE;
    var steps := [BlockArrives(0, 10, 5, 0, 0), TimerStep(0, 10), ApprovalArrives(0, 11, ForOne(5)),
                  Restart(0, DELAYS, 20, 20), TimerStep(0, 130), ApprovalArrives(0, 131, ForOne(DEFAULT_HASH))];
    var s0: System := map[0 := Validator(Initial(0, DELAYS, 0, 0, TwoThirds), [])];
    assert FreshValidator(s0[0]);
    var s1 := Next(s0, steps[0], stakes);
    EndorsesGenesis(s1[0].state.clock);
    var s2 := Next(s1, steps[1], stakes);
    CountsForOne(s2, [ForOne(5).content], 11, 5, stakes);
    var s3 := Next(s2, steps[2], stakes);
    var s4 := Next(s3, steps[3], stakes);
    EndorsesDefault(s4[0].state.clock);
    var s5 := Next(s4, steps[4], stakes);
    CountsForOne(s5, [ForOne(5).content] + [ForOne(DEFAULT_HASH).content], 131, DEFAULT_HASH, stakes);
    var s6 := Next(s5, steps[5], stakes);
    var run := [s0, s1, s2, s3, s4, s5, s6];
    assert IsRun(run, steps, stakes);
  }
}
