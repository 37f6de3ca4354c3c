/** The leader side of Doomslug: one tracker per approved content at each height, at most one
  approval per account, and the two-thirds threshold. */
module ApprovalTrackers {
  import opened Util
  import opened Approval
  import opened DoomslugTimer

  datatype Mode = NoApprovals | TwoThirds

  datatype Readiness = NotReady | ReadySince(when: Time)

  /** An account's stake in the current epoch and in the next one. */
  datatype Stake = Stake(cur: nat, next: nat)

  type StakeMap = map<Address, Stake>

  datatype StakeEntry = StakeEntry(validator: Address, stake: Stake, slashed: bool)

  /** The unslashed entries as a map; a later entry for the same account wins. */
  function ToStakeMap(entries: seq<StakeEntry>): StakeMap {
    if entries == [] then map[] else
      var n := |entries| - 1;
      var m := ToStakeMap(entries[..n]);
      if entries[n].slashed then m else m[entries[n].validator := entries[n].stake]
  }

  /** What `process_approval` asserts of the stakes it is given: nobody slashed, nobody twice. */
  predicate CleanStakes(entries: seq<StakeEntry>) {
    |ToStakeMap(entries)| == |entries|
  }

  function TotalStake(entries: seq<StakeEntry>): Stake {
    if entries == [] then Stake(0, 0) else
      var n := |entries| - 1;
      var t := TotalStake(entries[..n]);
      Stake(t.cur + entries[n].stake.cur, t.next + entries[n].stake.next)
  }

  function StakeOf(m: StakeMap, a: Address): Stake {
    if a in m then m[a] else Stake(0, 0)
  }

  ghost function CurOf(m: StakeMap): Address -> nat {
    a => StakeOf(m, a).cur
  }

  ghost function NextOf(m: StakeMap): Address -> nat {
    a => StakeOf(m, a).next
  }

  /** The stake behind a set of accounts. */
  ghost function Weight(w: set<Address>, m: StakeMap): Stake {
    Stake(SumOver(w, CurOf(m)), SumOver(w, NextOf(m)))
  }

  // ---------------------------------------------------------------------------------------
  // One tracker
  // ---------------------------------------------------------------------------------------

  /** The counters are unsigned in the source; here they are integers, and never going below zero
    is proved. */
  datatype Tracker = Tracker(
    witnesses: map<Address, ApprovalValidated>,
    stakes: StakeMap,
    total: Stake,
    approvedCur: int,
    approvedNext: int,
    passed: Option<Time>,
    mode: Mode)

  function NewTracker(entries: seq<StakeEntry>, mode: Mode): Tracker {
    Tracker(map[], ToStakeMap(entries), TotalStake(entries), 0, 0, None, mode)
  }

  predicate Ready(t: Tracker) {
    || (t.approvedCur > t.total.cur * 2 / 3
        && (t.approvedNext > t.total.next * 2 / 3 || t.total.next == 0))
    || t.mode == NoApprovals
  }

  /** `get_block_production_readiness`: the first time the threshold was seen is kept. */
  function GetReadiness(t: Tracker, now: Time): (Tracker, Readiness) {
    if Ready(t) then
      var when := if t.passed.None? then now else t.passed.value;
      (t.(passed := Some(when)), ReadySince(when))
    else
      (t, NotReady)
  }

  function AddWitness(t: Tracker, approval: ApprovalValidated): Tracker {
    if approval.validator in t.witnesses then t else
      var s := StakeOf(t.stakes, approval.validator);
      t.(witnesses := t.witnesses[approval.validator := approval],
         approvedCur := t.approvedCur + s.cur, approvedNext := t.approvedNext + s.next)
  }

  function TrackerProcess(t: Tracker, now: Time, approval: ApprovalValidated): (Tracker, Readiness) {
    GetReadiness(AddWitness(t, approval), now)
  }

  function Withdraw(t: Tracker, validator: Address): Tracker {
    if validator !in t.witnesses then t else
      var s := StakeOf(t.stakes, t.witnesses[validator].validator);
      t.(witnesses := t.witnesses - {validator},
         approvedCur := t.approvedCur - s.cur, approvedNext := t.approvedNext - s.next)
  }

  /** A tracker's counters are the stake behind its witnesses and behind all its accounts. */
  ghost predicate TrackerInv(t: Tracker, content: ApprovalContent) {
    && Stake(t.total.cur, t.total.next) == Weight(t.stakes.Keys, t.stakes)
    && t.approvedCur == Weight(t.witnesses.Keys, t.stakes).cur
    && t.approvedNext == Weight(t.witnesses.Keys, t.stakes).next
    && (forall v :: v in t.witnesses ==> t.witnesses[v] == ApprovalValidated(content, v))
  }

  lemma WeightAdd(w: set<Address>, m: StakeMap, v: Address)
    requires v !in w
    ensures Weight(w + {v}, m).cur == Weight(w, m).cur + StakeOf(m, v).cur
    ensures Weight(w + {v}, m).next == Weight(w, m).next + StakeOf(m, v).next
  {
    SumOverRemove(w + {v}, CurOf(m), v);
    SumOverRemove(w + {v}, NextOf(m), v);
    assert w + {v} - {v} == w;
  }

  lemma AddWitnessKeepsInv(t: Tracker, approval: ApprovalValidated)
    requires TrackerInv(t, approval.content)
    ensures TrackerInv(AddWitness(t, approval), approval.content)
    ensures AddWitness(t, approval).witnesses.Keys == t.witnesses.Keys + {approval.validator}
  {
    if approval.validator !in t.witnesses {
      WeightAdd(t.witnesses.Keys, t.stakes, approval.validator);
      assert AddWitness(t, approval).witnesses.Keys == t.witnesses.Keys + {approval.validator};
    }
  }

  /** Withdrawing takes the account's stake off the counters, which are large enough for it. */
  lemma WithdrawNeverUnderflows(t: Tracker, content: ApprovalContent, v: Address)
    requires TrackerInv(t, content)
    ensures TrackerInv(Withdraw(t, v), content)
    ensures Withdraw(t, v).witnesses.Keys == t.witnesses.Keys - {v}
    ensures 0 <= Withdraw(t, v).approvedCur <= t.approvedCur
    ensures 0 <= Withdraw(t, v).approvedNext <= t.approvedNext
  {
    if v in t.witnesses {
      WeightAdd(t.witnesses.Keys - {v}, t.stakes, v);
      assert t.witnesses.Keys - {v} + {v} == t.witnesses.Keys;
      assert Withdraw(t, v).witnesses.Keys == t.witnesses.Keys - {v};
    }
  }

  // ---------------------------------------------------------------------------------------
  // Totals of a clean stake list
  // ---------------------------------------------------------------------------------------

  lemma {:induction false} StakeMapSize(entries: seq<StakeEntry>)
    ensures |ToStakeMap(entries)| <= |entries|
    decreases |entries|
  {
    if entries != [] {
      var n := |entries| - 1;
      StakeMapSize(entries[..n]);
      var m := ToStakeMap(entries[..n]);
      if !entries[n].slashed {
        assert ToStakeMap(entries).Keys == m.Keys + {entries[n].validator};
      }
    }
  }

  /** A clean list stays clean without its last entry, which is unslashed and new. */
  lemma CleanInit(entries: seq<StakeEntry>)
    requires entries != [] && CleanStakes(entries)
    ensures var n := |entries| - 1;
      CleanStakes(entries[..n]) && !entries[n].slashed && entries[n].validator !in ToStakeMap(entries[..n])
  {
    var n := |entries| - 1;
    var m := ToStakeMap(entries[..n]);
    StakeMapSize(entries[..n]);
    if !entries[n].slashed {
      assert ToStakeMap(entries).Keys == m.Keys + {entries[n].validator};
    }
  }

  lemma WeightGrowMap(w: set<Address>, m: StakeMap, v: Address, s: Stake)
    requires v !in m
    ensures var m' := m[v := s];
      && Weight(w, m').cur == Weight(w, m).cur + (if v in w then s.cur else 0)
      && Weight(w, m').next == Weight(w, m).next + (if v in w then s.next else 0)
  {
    var m' := m[v := s];
    SumOverAgree(w - {v}, CurOf(m), CurOf(m'));
    SumOverAgree(w - {v}, NextOf(m), NextOf(m'));
    if v in w {
      WeightAdd(w - {v}, m, v);
      WeightAdd(w - {v}, m', v);
      assert w - {v} + {v} == w;
    } else {
      assert w - {v} == w;
    }
  }

  /** The total a tracker starts with is the stake behind every account of its map. */
  lemma {:induction false} TotalIsWeight(entries: seq<StakeEntry>)
    requires CleanStakes(entries)
    ensures TotalStake(entries) == Weight(ToStakeMap(entries).Keys, ToStakeMap(entries))
    decreases |entries|
  {
    if entries != [] {
      var n := |entries| - 1;
      CleanInit(entries);
      TotalIsWeight(entries[..n]);
      var m := ToStakeMap(entries[..n]);
      var v, s := entries[n].validator, entries[n].stake;
      WeightAdd(m.Keys, m, v);
      WeightGrowMap(m.Keys + {v}, m, v, s);
      assert ToStakeMap(entries).Keys == m.Keys + {v};
    }
  }

  // ---------------------------------------------------------------------------------------
  // All trackers at one height
  // ---------------------------------------------------------------------------------------

  datatype AtHeight = AtHeight(trackers: map<ApprovalInner, Tracker>, last: map<Address, ApprovalInner>)

  const EMPTY: AtHeight := AtHeight(map[], map[])

  /** Take the account's previous approval out of its tracker, dropping a tracker left empty. */
  function WithdrawLast(h: AtHeight, v: Address): AtHeight {
    if v in h.last && h.last[v] in h.trackers then
      var t := Withdraw(h.trackers[h.last[v]], v);
      if t.witnesses.Keys == {} then h.(trackers := h.trackers - {h.last[v]})
      else h.(trackers := h.trackers[h.last[v] := t])
    else h
  }

  /** `DoomslugApprovalsTrackersAtHeight::process_approval`. */
  function ProcessApproval(h: AtHeight, now: Time, approval: ApprovalValidated, entries: seq<StakeEntry>, mode: Mode)
    : (AtHeight, Readiness)
    requires CleanStakes(entries)
  {
    var h1 := WithdrawLast(h, approval.validator);
    if approval.validator !in ToStakeMap(entries) then (h1, NotReady) else
      var inner := approval.content.inner;
      var t := if inner in h1.trackers then h1.trackers[inner] else NewTracker(entries, mode);
      var (t', r) := TrackerProcess(t, now, approval);
      (AtHeight(h1.trackers[inner := t'], h1.last[approval.validator := inner]), r)
  }

  ghost predicate SlotInv(h: AtHeight, k: ApprovalInner, target: Height)
    requires k in h.trackers
  {
    && TrackerInv(h.trackers[k], ApprovalContent(k, target))
    && h.trackers[k].witnesses.Keys != {}
    && (forall v :: v in h.trackers[k].witnesses.Keys ==> v in h.last && h.last[v] == k)
  }

  /** Each account is a witness of at most one tracker, the one `last` names; no tracker is empty;
    every counter is the stake behind its witnesses. */
  ghost predicate HeightInv(h: AtHeight, target: Height) {
    forall k :: k in h.trackers ==> SlotInv(h, k, target)
  }

  /** `u` is a witness of content `k`. */
  ghost predicate Counts(h: AtHeight, k: ApprovalInner, u: Address) {
    k in h.trackers && u in h.trackers[k].witnesses.Keys
  }

  lemma WithdrawLastKeepsInv(h: AtHeight, target: Height, v: Address)
    requires HeightInv(h, target)
    ensures HeightInv(WithdrawLast(h, v), target)
  {
    hide Weight;
    var h1 := WithdrawLast(h, v);
    if v in h.last && h.last[v] in h.trackers {
      var k := h.last[v];
      assert SlotInv(h, k, target);
      WithdrawNeverUnderflows(h.trackers[k], ApprovalContent(k, target), v);
      var t := Withdraw(h.trackers[k], v);
      forall j | j in h1.trackers ensures SlotInv(h1, j, target) {
        assert SlotInv(h, j, target);
        if j == k {
          assert h1.trackers[j] == t;
          assert t.witnesses.Keys != {};
        }
      }
    }
  }

  lemma WithdrawLastCounts(h: AtHeight, target: Height, v: Address, k: ApprovalInner, u: Address)
    requires HeightInv(h, target)
    ensures Counts(WithdrawLast(h, v), k, u) <==> u != v && Counts(h, k, u)
  {
    hide Weight;
    if k in h.trackers {
      assert SlotInv(h, k, target);
      WithdrawNeverUnderflows(h.trackers[k], ApprovalContent(k, target), v);
    }
  }

  lemma NewTrackerInv(entries: seq<StakeEntry>, mode: Mode, content: ApprovalContent)
    requires CleanStakes(entries)
    ensures TrackerInv(NewTracker(entries, mode), content)
  {
    TotalIsWeight(entries);
    assert NewTracker(entries, mode).witnesses.Keys == {};
  }

  /** The tracker an approval lands in, after the account's old approval is gone. */
  lemma LandingKeepsInv(h: AtHeight, now: Time, approval: ApprovalValidated, t: Tracker)
    requires HeightInv(h, approval.content.target)
    requires forall k :: !Counts(h, k, approval.validator)
    requires TrackerInv(t, approval.content)
    requires if approval.content.inner in h.trackers then t == h.trackers[approval.content.inner]
             else t.witnesses.Keys == {}
    ensures var inner := approval.content.inner;
      var h' := AtHeight(h.trackers[inner := TrackerProcess(t, now, approval).0], h.last[approval.validator := inner]);
      && HeightInv(h', approval.content.target)
      && (forall k, u :: Counts(h', k, u) <==>
            if u == approval.validator then k == inner else Counts(h, k, u))
  {
    var target, v, inner := approval.content.target, approval.validator, approval.content.inner;
    hide Weight;
    var h' := AtHeight(h.trackers[inner := TrackerProcess(t, now, approval).0], h.last[v := inner]);
    AddWitnessKeepsInv(t, approval);
    forall k | k in h'.trackers ensures SlotInv(h', k, target) {
      if k in h.trackers {
        assert SlotInv(h, k, target);
        assert !Counts(h, k, v);
      }
    }
  }

  /** Processing keeps the bookkeeping consistent, and says who counts for what: the account is a
    witness of its new content if it has stake and of nothing otherwise; no other account moves. */
  lemma ProcessKeepsInv(h: AtHeight, now: Time, approval: ApprovalValidated, entries: seq<StakeEntry>, mode: Mode)
    requires HeightInv(h, approval.content.target) && CleanStakes(entries)
    ensures var h' := ProcessApproval(h, now, approval, entries, mode).0;
      && HeightInv(h', approval.content.target)
      && (forall k, u :: Counts(h', k, u) <==>
            if u == approval.validator then u in ToStakeMap(entries) && k == approval.content.inner
            else Counts(h, k, u))
  {
    var target, v, inner := approval.content.target, approval.validator, approval.content.inner;
    hide Weight, TrackerInv;
    var h1 := WithdrawLast(h, v);
    WithdrawLastKeepsInv(h, target, v);
    forall k, u ensures Counts(h1, k, u) <==> u != v && Counts(h, k, u) {
      WithdrawLastCounts(h, target, v, k, u);
    }
    if v in ToStakeMap(entries) {
      NewTrackerInv(entries, mode, approval.content);
      var t := if inner in h1.trackers then h1.trackers[inner] else NewTracker(entries, mode);
      assert inner in h1.trackers ==> SlotInv(h1, inner, target);
      LandingKeepsInv(h1, now, approval, t);
    }
  }

  /** Another account than `v` counts for content `k`, so its tracker outlives a withdrawal by `v`. */
  ghost predicate Outlives(h: AtHeight, k: ApprovalInner, v: Address) {
    exists u :: u != v && Counts(h, k, u)
  }

  /** When the content's tracker was first ready, as far as it is still known. */
  ghost function KnownSince(h: AtHeight, k: ApprovalInner, v: Address): Option<Time> {
    if Outlives(h, k, v) then (if k in h.trackers then h.trackers[k].passed else None) else None
  }

  /** What processing answers: ready exactly if the approval counts and its tracker is then ready, since the first
    time the tracker was found so. That time is remembered while the tracker exists, even through times
    when it is not ready, and forgotten when its only witness approves again. */
  lemma ReadinessExactly(h: AtHeight, now: Time, approval: ApprovalValidated, entries: seq<StakeEntry>, mode: Mode)
    requires HeightInv(h, approval.content.target) && CleanStakes(entries)
    ensures var (h', r) := ProcessApproval(h, now, approval, entries, mode);
      var inner, since := approval.content.inner, KnownSince(h, approval.content.inner, approval.validator);
      && (approval.validator !in ToStakeMap(entries) ==> r == NotReady)
      && (approval.validator in ToStakeMap(entries) ==>
            && inner in h'.trackers
            && (r.ReadySince? <==> Ready(h'.trackers[inner]))
            && h'.trackers[inner].passed == (if since.None? && Ready(h'.trackers[inner]) then Some(now) else since)
            && (r.ReadySince? ==> h'.trackers[inner].passed == Some(r.when)))
  {
    hide Weight, TrackerInv, CleanStakes, ToStakeMap, NewTracker, HeightInv, WithdrawLast, AddWitness, Outlives;
    var v, inner := approval.validator, approval.content.inner;
    SurvivesExactly(h, approval.content.target, v, inner);
    NewIsUnknown(entries, mode);
    var t := if inner in WithdrawLast(h, v).trackers then WithdrawLast(h, v).trackers[inner] else NewTracker(entries, mode);
    AddKeepsSince(t, approval);
  }

  lemma NewIsUnknown(entries: seq<StakeEntry>, mode: Mode)
    ensures NewTracker(entries, mode).passed == None
  {
  }

  lemma AddKeepsSince(t: Tracker, approval: ApprovalValidated)
    ensures AddWitness(t, approval).passed == t.passed
  {
  }

  lemma SurvivesExactly(h: AtHeight, target: Height, v: Address, k: ApprovalInner)
    requires HeightInv(h, target)
    ensures k in WithdrawLast(h, v).trackers <==> Outlives(h, k, v)
    ensures k in WithdrawLast(h, v).trackers ==> k in h.trackers && WithdrawLast(h, v).trackers[k].passed == h.trackers[k].passed
  {
    hide Weight, TrackerInv;
    var h1 := WithdrawLast(h, v);
    WithdrawLastKeepsInv(h, target, v);
    if k in h1.trackers {
      assert SlotInv(h1, k, target);
      var u :| u in h1.trackers[k].witnesses.Keys;
      assert Counts(h1, k, u);
      WithdrawLastCounts(h, target, v, k, u);
    }
    if u :| u != v && Counts(h, k, u) {
      WithdrawLastCounts(h, target, v, k, u);
    }
  }

  // ---------------------------------------------------------------------------------------
  // At most one content is ready
  // ---------------------------------------------------------------------------------------

  /** Every tracker was made from one stake list and asks for two thirds. */
  ghost predicate OneElectorate(h: AtHeight, m: StakeMap) {
    forall k :: k in h.trackers ==> h.trackers[k].stakes == m && h.trackers[k].mode == TwoThirds
  }

  lemma ProcessKeepsElectorate(h: AtHeight, now: Time, approval: ApprovalValidated, entries: seq<StakeEntry>)
    requires CleanStakes(entries) && OneElectorate(h, ToStakeMap(entries))
    ensures OneElectorate(ProcessApproval(h, now, approval, entries, TwoThirds).0, ToStakeMap(entries))
  {
  }

  lemma ReadyMeansTwoThirds(t: Tracker, content: ApprovalContent)
    requires TrackerInv(t, content) && t.mode == TwoThirds && Ready(t)
    ensures 3 * Weight(t.witnesses.Keys, t.stakes).cur > 2 * Weight(t.stakes.Keys, t.stakes).cur
  {
  }

  /** Accounts outside the electorate weigh nothing. */
  lemma WeightInside(w: set<Address>, m: StakeMap)
    ensures Weight(w, m) == Weight(w * m.Keys, m)
    ensures Weight(w, m).cur <= Weight(m.Keys, m).cur
  {
    SumOverUnion(w * m.Keys, w - m.Keys, CurOf(m));
    SumOverUnion(w * m.Keys, w - m.Keys, NextOf(m));
    assert w * m.Keys + (w - m.Keys) == w;
    ZeroWeight(w - m.Keys, m);
    SumOverSubset(w * m.Keys, m.Keys, CurOf(m));
  }

  lemma {:induction false} ZeroWeight(w: set<Address>, m: StakeMap)
    requires w !! m.Keys
    ensures Weight(w, m) == Stake(0, 0)
    decreases |w|
  {
    if w != {} {
      var v :| v in w;
      ZeroWeight(w - {v}, m);
      WeightAdd(w - {v}, m, v);
      assert w - {v} + {v} == w;
    }
  }

  lemma AtMostOneReady(h: AtHeight, target: Height, m: StakeMap, j: ApprovalInner, k: ApprovalInner)
    requires HeightInv(h, target) && OneElectorate(h, m)
    requires j in h.trackers && Ready(h.trackers[j])
    requires k in h.trackers && Ready(h.trackers[k])
    ensures j == k
  {
    if j != k {
      var a, b := h.trackers[j].witnesses.Keys, h.trackers[k].witnesses.Keys;
      assert SlotInv(h, j, target) && SlotInv(h, k, target);
      ReadyMeansTwoThirds(h.trackers[j], ApprovalContent(j, target));
      ReadyMeansTwoThirds(h.trackers[k], ApprovalContent(k, target));
      assert a !! b;
      SumOverUnion(a, b, CurOf(m));
      WeightInside(a + b, m);
      assert false;
    }
  }

  datatype Delivery = Delivery(now: Time, approval: ApprovalValidated, entries: seq<StakeEntry>, mode: Mode)

  /** Any sequence of approvals for one height, each with whatever clean stakes came with it. */
  ghost predicate ForHeight(ds: seq<Delivery>, target: Height) {
    forall i :: 0 <= i < |ds| ==> ds[i].approval.content.target == target && CleanStakes(ds[i].entries)
  }

  function Deliver(ds: seq<Delivery>): AtHeight
    requires forall i :: 0 <= i < |ds| ==> CleanStakes(ds[i].entries)
  {
    if ds == [] then EMPTY else
      var d := ds[|ds| - 1];
      ProcessApproval(Deliver(ds[..|ds| - 1]), d.now, d.approval, d.entries, d.mode).0
  }

  lemma {:induction false} TrackersConsistent(ds: seq<Delivery>, target: Height)
    requires ForHeight(ds, target)
    ensures HeightInv(Deliver(ds), target)
    decreases |ds|
  {
    if ds != [] {
      TrackersConsistent(ds[..|ds| - 1], target);
      var d := ds[|ds| - 1];
      ProcessKeepsInv(Deliver(ds[..|ds| - 1]), d.now, d.approval, d.entries, d.mode);
    }
  }

  lemma {:induction false} ElectorateAlong(ds: seq<Delivery>, target: Height, entries: seq<StakeEntry>)
    requires ForHeight(ds, target) && CleanStakes(entries)
    requires forall i :: 0 <= i < |ds| ==> ds[i].entries == entries && ds[i].mode == TwoThirds
    ensures OneElectorate(Deliver(ds), ToStakeMap(entries))
    decreases |ds|
  {
    if ds != [] {
      ElectorateAlong(ds[..|ds| - 1], target, entries);
      var d := ds[|ds| - 1];
      ProcessKeepsElectorate(Deliver(ds[..|ds| - 1]), d.now, d.approval, entries);
    }
  }

  /** For any sequence of approvals at one height with one stake list and the two-thirds
    threshold, at most one content is ready. */
  lemma OneReadyPerHeight(ds: seq<Delivery>, target: Height, entries: seq<StakeEntry>, j: ApprovalInner, k: ApprovalInner)
    requires ForHeight(ds, target) && CleanStakes(entries)
    requires forall i :: 0 <= i < |ds| ==> ds[i].entries == entries && ds[i].mode == TwoThirds
    requires j in Deliver(ds).trackers && Ready(Deliver(ds).trackers[j])
    requires k in Deliver(ds).trackers && Ready(Deliver(ds).trackers[k])
    ensures j == k
  {
    TrackersConsistent(ds, target);
    ElectorateAlong(ds, target, entries);
    AtMostOneReady(Deliver(ds), target, ToStakeMap(entries), j, k);
  }

  // ---------------------------------------------------------------------------------------
  // The one-shot check on a finished block
  // ---------------------------------------------------------------------------------------

  /** Stake of the unslashed entries whose approval slot is filled; the shorter list ends the zip. */
  function ApprovedStake(approvals: seq<bool>, entries: seq<StakeEntry>): Stake
    decreases |entries|
  {
    if entries == [] then Stake(0, 0) else
      var n := |entries| - 1;
      var s := ApprovedStake(approvals, entries[..n]);
      if n < |approvals| && approvals[n] && !entries[n].slashed
      then Stake(s.cur + entries[n].stake.cur, s.next + entries[n].stake.next)
      else s
  }

  /** `can_approved_block_be_produced`. */
  predicate CanBeProduced(mode: Mode, approvals: seq<bool>, entries: seq<StakeEntry>) {
    mode == NoApprovals ||
    var threshold1, threshold2 := TotalStake(entries).cur * 2 / 3, TotalStake(entries).next * 2 / 3;
    var approved := ApprovedStake(approvals, entries);
    (approved.cur > threshold1 || threshold1 == 0) && (approved.next > threshold2 || threshold2 == 0)
  }

  /** The approval slots of a block built from a tracker's witnesses. */
  ghost predicate Matches(approvals: seq<bool>, entries: seq<StakeEntry>, w: set<Address>) {
    |approvals| == |entries| && forall i :: 0 <= i < |entries| ==> (approvals[i] <==> entries[i].validator in w)
  }

  lemma {:induction false} ApprovedIsWeight(approvals: seq<bool>, entries: seq<StakeEntry>, w: set<Address>, n: nat)
    requires Matches(approvals, entries, w) && n <= |entries| && CleanStakes(entries[..n])
    ensures ApprovedStake(approvals, entries[..n]) == Weight(w, ToStakeMap(entries[..n]))
    decreases n
  {
    if n == 0 {
      ZeroWeight(w, map[]);
    } else {
      CleanInit(entries[..n]);
      assert entries[..n][..n - 1] == entries[..n - 1];
      ApprovedIsWeight(approvals, entries, w, n - 1);
      WeightGrowMap(w, ToStakeMap(entries[..n - 1]), entries[n - 1].validator, entries[n - 1].stake);
    }
  }

  /** A tracker is ready exactly when the one-shot check accepts its block, apart from totals so
    small that a threshold rounds to zero, where the tracker still wants some stake. */
  lemma ReadyRefinesCheck(t: Tracker, content: ApprovalContent, approvals: seq<bool>, entries: seq<StakeEntry>)
    requires CleanStakes(entries)
    requires TrackerInv(t, content) && t.stakes == ToStakeMap(entries) && t.mode == TwoThirds
    requires Matches(approvals, entries, t.witnesses.Keys)
    ensures Ready(t) ==> CanBeProduced(TwoThirds, approvals, entries)
    ensures CanBeProduced(TwoThirds, approvals, entries) && t.total.cur >= 2 && t.total.next != 1 ==> Ready(t)
    ensures Ready(t) <==>
      && CanBeProduced(TwoThirds, approvals, entries)
      && (t.total.cur >= 2 || t.approvedCur > 0)
      && (t.total.next != 1 || t.approvedNext > 0)
  {
    assert entries[..|entries|] == entries;
    ApprovedIsWeight(approvals, entries, t.witnesses.Keys, |entries|);
    TotalIsWeight(entries);
  }

  const SMALL_STAKES: seq<StakeEntry> := [StakeEntry(0, Stake(0, 0), false), StakeEntry(1, Stake(1, 0), false)]

  const FROM_ZERO: Delivery := Delivery(0, ApprovalValidated(ApprovalContent(Endorsement(5), 9), 0), SMALL_STAKES, TwoThirds)

  /** The two checks do differ: with stakes 0 and 1, and an approval from the account without stake, the block
    may be produced and its tracker is not ready. */
  lemma ChecksDiffer()
    ensures CleanStakes(SMALL_STAKES)
    ensures Endorsement(5) in Deliver([FROM_ZERO]).trackers
    ensures var t := Deliver([FROM_ZERO]).trackers[Endorsement(5)];
      && Matches([true, false], SMALL_STAKES, t.witnesses.Keys)
      && CanBeProduced(TwoThirds, [true, false], SMALL_STAKES) && !Ready(t)
  {
    hide ToStakeMap, TotalStake, ApprovedStake, CleanStakes, Deliver;
    SmallStakes();
    FirstDelivery(FROM_ZERO);
    var t := TrackerProcess(NewTracker(SMALL_STAKES, TwoThirds), 0, FROM_ZERO.approval).0;
    assert t.witnesses.Keys == {0};
  }

  /** The first approval at a height starts one tracker. */
  lemma FirstDelivery(d: Delivery)
    requires CleanStakes(d.entries) && d.approval.validator in ToStakeMap(d.entries)
    ensures Deliver([d]).trackers ==
      map[d.approval.content.inner := TrackerProcess(NewTracker(d.entries, d.mode), d.now, d.approval).0]
  {
    hide ToStakeMap, TotalStake, CleanStakes;
    assert [d][..0] == [];
  }

  lemma SmallStakes()
    ensures ToStakeMap(SMALL_STAKES) == map[0 := Stake(0, 0), 1 := Stake(1, 0)] && CleanStakes(SMALL_STAKES)
    ensures TotalStake(SMALL_STAKES) == Stake(1, 0) && ApprovedStake([true, false], SMALL_STAKES) == Stake(0, 0)
  {
    var one := [SMALL_STAKES[0]];
    assert one[..0] == [] && SMALL_STAKES[..1] == one;
    assert ToStakeMap(one) == map[0 := Stake(0, 0)];
    assert ToStakeMap(SMALL_STAKES).Keys == {0, 1};
    assert TotalStake(one) == Stake(0, 0) && ApprovedStake([true, false], one) == Stake(0, 0);
  }
}
