/**
 The greedy pod fill of `_find_best_assignment` (steps 2 and 3): days are
 visited in priority order; on each day groups of four are taken from the
 front of the list of eligible players until fewer than four remain, and
 then reservations whose target day can no longer form a pod are released.
 */
module Assignment {
  import opened Seqs
  import opened Multimap
  import opened Days
  import opened Availability
  import opened Preferences
  import opened Pods
  import opened Wrappers

  /** The fill's working state: the loop variables of the source. */
  datatype FillState = FillState(
    pods: seq<Pod>,
    placed: set<Player>,
    podDays: map<Player, seq<Day>>,
    reserved: set<Player>)

  /** Nobody placed yet; every critical player reserved. */
  function Start(critical: map<Player, Day>): FillState {
    FillState([], {}, map[], critical.Keys)
  }

  /** `p` is held back for a day other than `day`. */
  predicate ReservedElsewhere(st: FillState, critical: map<Player, Day>, p: Player, day: Day) {
    p in st.reserved && !(p in critical && critical[p] == day)
  }

  /** `is_eligible`: not placed yet, not held for another day, and the preferences allow `day`. */
  predicate IsEligible(st: FillState, critical: map<Player, Day>, prefs: Prefs, day: Day, p: Player) {
    && p !in st.placed
    && !ReservedElsewhere(st, critical, p, day)
    && CanAssign(p, day, st.podDays, prefs)
  }

  function EligibleTest(st: FillState, critical: map<Player, Day>, prefs: Prefs, day: Day): Player -> bool {
    p => IsEligible(st, critical, prefs, day, p)
  }

  /** `unassigned_available`: the eligible players of the day's list, in list order. */
  function Eligible(st: FillState, critical: map<Player, Day>, prefs: Prefs, day: Day, l: seq<Player>): seq<Player> {
    Filter(l, EligibleTest(st, critical, prefs, day))
  }

  /** `player_assigned_days[p].append(day)` for each `p` of `ps` in turn. */
  function Record(podDays: map<Player, seq<Day>>, ps: seq<Player>, day: Day): (r: map<Player, seq<Day>>)
    ensures forall q :: q !in ps ==> AssignedDaysOf(r, q) == AssignedDaysOf(podDays, q)
    ensures NoDup(ps) ==> forall q :: q in ps ==> AssignedDaysOf(r, q) == AssignedDaysOf(podDays, q) + [day]
    decreases |ps|
  {
    if ps == [] then podDays
    else
      assert NoDup(ps) ==> NoDup(ps[1..]) && ps[0] !in ps[1..];
      Record(podDays[ps[0] := AssignedDaysOf(podDays, ps[0]) + [day]], ps[1..], day)
  }

  /** One pod formed: its players are placed, their days recorded and their reservations dropped. */
  function AssignPod(st: FillState, day: Day, ps: seq<Player>): FillState {
    var members := set p | p in ps;
    FillState(st.pods + [Pod(day, ps)], st.placed + members, Record(st.podDays, ps, day), st.reserved - members)
  }

  /** The players of `l` not placed yet. */
  function UnassignedSet(l: seq<Player>, placed: set<Player>): set<Player> {
    set p | p in l && p !in placed
  }

  /**
   The `while len(unassigned_available) >= 4` loop of one day: afterwards
   fewer than four players of the day are still eligible, the earlier pods
   are untouched, and every new pod is four of the day's players meeting
   that day.
   */
  function FillDay(st: FillState, critical: map<Player, Day>, prefs: Prefs, day: Day, l: seq<Player>): (r: FillState)
    ensures |Eligible(r, critical, prefs, day, l)| < 4
    ensures |st.pods| <= |r.pods| && r.pods[..|st.pods|] == st.pods
    ensures PodsFrom(r.pods, |st.pods|, day, l)
    decreases |UnassignedSet(l, st.placed)|
  {
    var e := Eligible(st, critical, prefs, day, l);
    if |e| >= 4 then
      var next := AssignPod(st, day, e[..4]);
      FillShrinks(st, critical, prefs, day, l);
      var r := FillDay(next, critical, prefs, day, l);
      PrefixOfPrefix(r.pods, |next.pods|, |st.pods|);
      assert r.pods[|st.pods|] == next.pods[|st.pods|];
      EligibleInList(st, critical, prefs, day, l);
      PodsFromStep(r.pods, |st.pods|, day, l);
      r
    else st
  }

  /** The pods from position `from` on are four players of `l` each, meeting on `day`. */
  ghost predicate PodsFrom(pods: seq<Pod>, from: nat, day: Day, l: seq<Player>) {
    forall i :: from <= i < |pods| ==>
      && pods[i].day == day
      && |pods[i].players| == 4
      && forall p :: p in pods[i].players ==> p in l
  }

  lemma PodsFromStep(pods: seq<Pod>, k: nat, day: Day, l: seq<Player>)
    requires k < |pods|
    requires PodsFrom(pods, k + 1, day, l)
    requires pods[k].day == day && |pods[k].players| == 4
    requires forall p :: p in pods[k].players ==> p in l
    ensures PodsFrom(pods, k, day, l)
  {
  }

  /** The eligible players are players of the list. */
  lemma EligibleInList(st: FillState, critical: map<Player, Day>, prefs: Prefs, day: Day, l: seq<Player>)
    ensures forall p :: p in Eligible(st, critical, prefs, day, l) ==> p in l
  {
  }

  /** Each pod formed leaves fewer of the day's players unplaced. */
  lemma FillShrinks(st: FillState, critical: map<Player, Day>, prefs: Prefs, day: Day, l: seq<Player>)
    requires |Eligible(st, critical, prefs, day, l)| >= 4
    ensures var e := Eligible(st, critical, prefs, day, l);
            |UnassignedSet(l, AssignPod(st, day, e[..4]).placed)| < |UnassignedSet(l, st.placed)|
  {
    var e := Eligible(st, critical, prefs, day, l);
    var next := AssignPod(st, day, e[..4]);
    assert EligibleTest(st, critical, prefs, day)(e[0]);
    assert e[0] in e[..4] && e[0] in l;
    assert e[0] in UnassignedSet(l, st.placed) && e[0] !in UnassignedSet(l, next.placed);
    var before, after := UnassignedSet(l, st.placed), UnassignedSet(l, next.placed);
    assert next.placed == st.placed + (set p | p in e[..4]);
    assert after <= before;
    assert before == after + (before - after);
    assert |before - after| >= 1 by {
      assert e[0] in before - after;
    }
  }

  /**
   The same loop as the source writes it: recompute the eligible list after
   every pod. It ends in the state the recursive definition describes.
   */
  method FillDayLoop(st: FillState, critical: map<Player, Day>, prefs: Prefs, day: Day, l: seq<Player>)
    returns (r: FillState)
    ensures r == FillDay(st, critical, prefs, day, l)
    ensures |Eligible(r, critical, prefs, day, l)| < 4
  {
    r := st;
    var available := Eligible(r, critical, prefs, day, l);
    while |available| >= 4
      invariant available == Eligible(r, critical, prefs, day, l)
      invariant FillDay(r, critical, prefs, day, l) == FillDay(st, critical, prefs, day, l)
      decreases |UnassignedSet(l, r.placed)|
    {
      FillShrinks(r, critical, prefs, day, l);
      r := AssignPod(r, day, available[..4]);
      available := Eligible(r, critical, prefs, day, l);
    }
  }

  /** `[p for p in players if p not in assigned_players]`. */
  function Unassigned(l: seq<Player>, placed: set<Player>): seq<Player> {
    Filter(l, p => p !in placed)
  }

  /**
   The release test after a day: `q` is reserved for a (non-empty) day
   that no longer has four unplaced players.
   */
  predicate Moot(critical: map<Player, Day>, dm: DayMap, placed: set<Player>, q: Player) {
    && q in critical
    && !IsBlank(critical[q])
    && |Unassigned(Lookup(dm, critical[q]), placed)| < 4
  }

  /** Drop the reservations that have become moot. */
  function Release(st: FillState, critical: map<Player, Day>, dm: DayMap): FillState {
    st.(reserved := set q | q in st.reserved && !Moot(critical, dm, st.placed, q))
  }

  /** The `for day, available in sorted_days` loop of step 3. */
  function FillDays(st: FillState, critical: map<Player, Day>, prefs: Prefs, dm: DayMap,
                    days: seq<(Day, seq<Player>)>): (r: FillState)
    ensures |st.pods| <= |r.pods| && r.pods[..|st.pods|] == st.pods
    ensures forall i :: |st.pods| <= i < |r.pods| ==> |r.pods[i].players| == 4
    ensures days != [] ==> forall q :: q in r.reserved ==> !Moot(critical, dm, r.placed, q)
    decreases |days|
  {
    if days == [] then st
    else
      var mid := Release(FillDay(st, critical, prefs, days[0].0, days[0].1), critical, dm);
      var r := FillDays(mid, critical, prefs, dm, days[1..]);
      PrefixOfPrefix(r.pods, |mid.pods|, |st.pods|);
      assert forall i :: |st.pods| <= i < |mid.pods| ==> r.pods[i] == mid.pods[i];
      r
  }

  // ---------------------------------------------------------------------
  // One day's fill, exactly

  /** The players left over after cutting `e` into groups of four from the front: its last `|e| % 4`. */
  function Leftover(e: seq<Player>): (r: seq<Player>)
    ensures |r| == |e| % 4 && r == e[|e| - |r|..]
  {
    e[4 * (|e| / 4)..]
  }

  /** Cutting off one group of four leaves the same remainder. */
  lemma LeftoverDrop(e: seq<Player>)
    requires |e| >= 4
    ensures Leftover(e[4..]) == Leftover(e)
  {
    var n := |e| / 4;
    assert |e[4..]| / 4 == n - 1;
    DropDrop(e, 4, 4 * (n - 1));
  }

  /** Consecutive groups of four from the front of `e`; a short tail is left over. */
  function Blocks(day: Day, e: seq<Player>): (r: seq<Pod>)
    ensures |r| == |e| / 4
    decreases |e|
  {
    if |e| < 4 then [] else [Pod(day, e[..4])] + Blocks(day, e[4..])
  }

  /**
   Forming a pod from eligible players changes nobody else's eligibility:
   exactly the pod's players drop out.
   */
  lemma EligibleAfterPod(st: FillState, critical: map<Player, Day>, prefs: Prefs, day: Day, ps: seq<Player>, x: Player)
    requires NoDup(ps)
    ensures IsEligible(AssignPod(st, day, ps), critical, prefs, day, x)
        <==> IsEligible(st, critical, prefs, day, x) && x !in ps
  {
    var next := AssignPod(st, day, ps);
    if x !in ps {
      assert AssignedDaysOf(next.podDays, x) == AssignedDaysOf(st.podDays, x);
    }
  }

  /**
   On a day whose list has no repeats, the fill takes the eligible players
   in consecutive groups of four from the front, in list order.
   */
  lemma {:induction false} FillDayBlocks(st: FillState, critical: map<Player, Day>, prefs: Prefs, day: Day, l: seq<Player>)
    requires NoDup(l)
    ensures FillDay(st, critical, prefs, day, l).pods
            == st.pods + Blocks(day, Eligible(st, critical, prefs, day, l))
    decreases |UnassignedSet(l, st.placed)|
  {
    var e := Eligible(st, critical, prefs, day, l);
    if |e| >= 4 {
      var next := AssignPod(st, day, e[..4]);
      FillShrinks(st, critical, prefs, day, l);
      FillDayBlocks(next, critical, prefs, day, l);
      BlocksStep(st, critical, prefs, day, l);
    } else {
      assert FillDay(st, critical, prefs, day, l) == st;
      assert Blocks(day, e) == [];
    }
  }

  /** The inductive step of FillDayBlocks: one pod, then the blocks of what is left. */
  lemma BlocksStep(st: FillState, critical: map<Player, Day>, prefs: Prefs, day: Day, l: seq<Player>)
    requires NoDup(l)
    requires |Eligible(st, critical, prefs, day, l)| >= 4
    requires var next := AssignPod(st, day, Eligible(st, critical, prefs, day, l)[..4]);
             FillDay(next, critical, prefs, day, l).pods
             == next.pods + Blocks(day, Eligible(next, critical, prefs, day, l))
    ensures FillDay(st, critical, prefs, day, l).pods
            == st.pods + Blocks(day, Eligible(st, critical, prefs, day, l))
  {
    var e := Eligible(st, critical, prefs, day, l);
    var pod := Pod(day, e[..4]);
    var next := AssignPod(st, day, e[..4]);
    var rest := Blocks(day, e[4..]);
    assert Eligible(next, critical, prefs, day, l) == e[4..] by {
      EligibleAfterBlock(st, critical, prefs, day, l);
    }
    assert FillDay(st, critical, prefs, day, l) == FillDay(next, critical, prefs, day, l)
        && next.pods == st.pods + [pod] by {
      FillDayStep(st, critical, prefs, day, l);
    }
    assert Blocks(day, e) == [pod] + rest;
    ConsRegroup(st.pods, pod, rest);
  }

  /** One turn of the loop: with four or more eligible, the fill continues from the state after their pod. */
  lemma FillDayStep(st: FillState, critical: map<Player, Day>, prefs: Prefs, day: Day, l: seq<Player>)
    requires |Eligible(st, critical, prefs, day, l)| >= 4
    ensures var e := Eligible(st, critical, prefs, day, l);
            && AssignPod(st, day, e[..4]).pods == st.pods + [Pod(day, e[..4])]
            && FillDay(st, critical, prefs, day, l) == FillDay(AssignPod(st, day, e[..4]), critical, prefs, day, l)
  {
  }

  /** What the fill leaves of the eligible list is its tail of fewer than four. */
  lemma {:induction false} FillDayLeftover(st: FillState, critical: map<Player, Day>, prefs: Prefs, day: Day, l: seq<Player>)
    requires NoDup(l)
    ensures var e := Eligible(st, critical, prefs, day, l);
            Eligible(FillDay(st, critical, prefs, day, l), critical, prefs, day, l) == Leftover(e)
    decreases |UnassignedSet(l, st.placed)|
  {
    var e := Eligible(st, critical, prefs, day, l);
    if |e| >= 4 {
      var next := AssignPod(st, day, e[..4]);
      FillShrinks(st, critical, prefs, day, l);
      FillDayLeftover(next, critical, prefs, day, l);
      LeftoverStep(st, critical, prefs, day, l);
    } else {
      assert FillDay(st, critical, prefs, day, l) == st;
      assert Leftover(e) == e;
    }
  }

  /** The inductive step of FillDayLeftover: the first pod takes the first four eligible. */
  lemma LeftoverStep(st: FillState, critical: map<Player, Day>, prefs: Prefs, day: Day, l: seq<Player>)
    requires NoDup(l)
    requires |Eligible(st, critical, prefs, day, l)| >= 4
    requires var next := AssignPod(st, day, Eligible(st, critical, prefs, day, l)[..4]);
             var e' := Eligible(next, critical, prefs, day, l);
             Eligible(FillDay(next, critical, prefs, day, l), critical, prefs, day, l) == Leftover(e')
    ensures var e := Eligible(st, critical, prefs, day, l);
            Eligible(FillDay(st, critical, prefs, day, l), critical, prefs, day, l) == Leftover(e)
  {
    var e := Eligible(st, critical, prefs, day, l);
    var next := AssignPod(st, day, e[..4]);
    assert Eligible(next, critical, prefs, day, l) == e[4..] by {
      EligibleAfterBlock(st, critical, prefs, day, l);
    }
    assert FillDay(st, critical, prefs, day, l) == FillDay(next, critical, prefs, day, l) by {
      FillDayStep(st, critical, prefs, day, l);
    }
    LeftoverDrop(e);
  }

  /** After one pod, the eligible list is the old one without its first four. */
  lemma EligibleAfterBlock(st: FillState, critical: map<Player, Day>, prefs: Prefs, day: Day, l: seq<Player>)
    requires NoDup(l)
    requires |Eligible(st, critical, prefs, day, l)| >= 4
    ensures var e := Eligible(st, critical, prefs, day, l);
            Eligible(AssignPod(st, day, e[..4]), critical, prefs, day, l) == e[4..]
  {
    var e := Eligible(st, critical, prefs, day, l);
    var ps := e[..4];
    var next := AssignPod(st, day, ps);
    FilterNoDup(l, EligibleTest(st, critical, prefs, day));
    assert NoDup(ps);
    forall x | x in l
      ensures EligibleTest(next, critical, prefs, day)(x)
           == (EligibleTest(st, critical, prefs, day)(x) && x !in e[..4])
    {
      EligibleAfterPod(st, critical, prefs, day, ps, x);
    }
    FilterDropFront(l, EligibleTest(st, critical, prefs, day), EligibleTest(next, critical, prefs, day), 4);
  }

  /**
   A day none of whose players has a pod yet forms a pod for every four
   players it has, as long as the players held back for other days do not
   cost it a group of four.
   */
  lemma UntouchedDayPods(st: FillState, critical: map<Player, Day>, prefs: Prefs, day: Day,
                         l: seq<Player>, away: set<Player>)
    requires NoDup(l)
    requires forall p :: p in l ==> p !in st.placed && AssignedDaysOf(st.podDays, p) == []
    requires forall p :: p in l && ReservedElsewhere(st, critical, p, day) ==> p in away
    requires (|l| - |away|) / 4 == |l| / 4
    ensures |FillDay(st, critical, prefs, day, l).pods| == |st.pods| + |l| / 4
  {
    var f := EligibleTest(st, critical, prefs, day);
    var g := (p: Player) => !IsEligible(st, critical, prefs, day, p);
    var e := Filter(l, f);
    FilterSplitLength(l, f, g);
    FilterNoDup(l, g);
    forall p | p in Filter(l, g) ensures p in away {
      assert p in l;
    }
    NoDupLengthBound(Filter(l, g), away);
    QuarterBetween(|l| - |away|, |e|, |l|);
    FillDayBlocks(st, critical, prefs, day, l);
  }

  /** A count between two with the same number of whole groups of four has that number too. */
  lemma QuarterBetween(a: int, b: int, c: int)
    requires a <= b <= c
    requires a / 4 == c / 4
    ensures b / 4 == c / 4
  {
  }

  // ---------------------------------------------------------------------
  // What the fill maintains

  /**
   The fill's invariant: pods of four drawn from their day's list, nobody
   seated twice, the placed set and the per-player day log agreeing with
   the pods, and reservations only for critical players not yet placed.
   */
  ghost predicate Inv(st: FillState, dm: DayMap, critical: map<Player, Day>) {
    && PodsOfVoters(st.pods, dm)
    && NoDup(Roster(st.pods))
    && st.placed == Members(st.pods)
    && (forall p :: AssignedDaysOf(st.podDays, p) == PodDaysOf(st.pods, p))
    && st.reserved <= critical.Keys
    && (forall p :: p in st.reserved ==> p !in st.placed)
  }

  lemma StartInv(dm: DayMap, critical: map<Player, Day>)
    ensures Inv(Start(critical), dm, critical)
  {
  }

  lemma AssignPodKeepsInv(st: FillState, dm: DayMap, critical: map<Player, Day>, day: Day, ps: seq<Player>)
    requires Inv(st, dm, critical)
    requires |ps| == 4 && NoDup(ps)
    requires forall p :: p in ps ==> p in Lookup(dm, day) && p !in st.placed
    ensures Inv(AssignPod(st, day, ps), dm, critical)
  {
    var next := AssignPod(st, day, ps);
    var pod := Pod(day, ps);
    RosterAppend(st.pods, pod);
    NoDupAppend(Roster(st.pods), ps);
    MembersAppend(st.pods, pod);
    PodsOfVotersAppend(st.pods, dm, pod);
    forall p ensures AssignedDaysOf(next.podDays, p) == PodDaysOf(next.pods, p) {
      RecordTracksPods(st.podDays, st.pods, day, ps, p);
    }
    InvIntro(next, dm, critical);
  }

  /** Every pod has four players who all voted for its day. */
  ghost predicate PodsOfVoters(pods: seq<Pod>, dm: DayMap) {
    forall i :: 0 <= i < |pods| ==>
      |pods[i].players| == 4 && forall p :: p in pods[i].players ==> p in Lookup(dm, pods[i].day)
  }

  lemma PodsOfVotersAppend(pods: seq<Pod>, dm: DayMap, pod: Pod)
    requires PodsOfVoters(pods, dm)
    requires |pod.players| == 4 && forall p :: p in pod.players ==> p in Lookup(dm, pod.day)
    ensures PodsOfVoters(pods + [pod], dm)
  {
    forall i | 0 <= i < |pods| + 1
      ensures |(pods + [pod])[i].players| == 4
      ensures forall p :: p in (pods + [pod])[i].players ==> p in Lookup(dm, (pods + [pod])[i].day)
    {
      if i < |pods| {
        assert (pods + [pod])[i] == pods[i];
      }
    }
  }

  /** Recording a pod's day for its players keeps the recorded days equal to the pods' days. */
  lemma RecordTracksPods(podDays: map<Player, seq<Day>>, pods: seq<Pod>, day: Day, ps: seq<Player>, p: Player)
    requires NoDup(ps)
    requires AssignedDaysOf(podDays, p) == PodDaysOf(pods, p)
    ensures AssignedDaysOf(Record(podDays, ps, day), p) == PodDaysOf(pods + [Pod(day, ps)], p)
  {
    PodDaysOfAppend(pods, Pod(day, ps), p);
  }

  lemma InvIntro(st: FillState, dm: DayMap, critical: map<Player, Day>)
    requires PodsOfVoters(st.pods, dm)
    requires NoDup(Roster(st.pods))
    requires st.placed == Members(st.pods)
    requires forall p :: AssignedDaysOf(st.podDays, p) == PodDaysOf(st.pods, p)
    requires st.reserved <= critical.Keys
    requires forall p :: p in st.reserved ==> p !in st.placed
    ensures Inv(st, dm, critical)
  {
  }

  lemma PodFromEligible(st: FillState, dm: DayMap, critical: map<Player, Day>, prefs: Prefs, day: Day, l: seq<Player>)
    requires Inv(st, dm, critical)
    requires NoDup(l)
    requires forall p :: p in l ==> p in Lookup(dm, day)
    requires |Eligible(st, critical, prefs, day, l)| >= 4
    ensures Inv(AssignPod(st, day, Eligible(st, critical, prefs, day, l)[..4]), dm, critical)
  {
    var e := Eligible(st, critical, prefs, day, l);
    FilterNoDup(l, EligibleTest(st, critical, prefs, day));
    forall p | p in e[..4] ensures p in Lookup(dm, day) && p !in st.placed {
      assert p in e;
      assert EligibleTest(st, critical, prefs, day)(p);
    }
    AssignPodKeepsInv(st, dm, critical, day, e[..4]);
  }

  /**
   On a duplicate-free list drawn from the day's voters, one day's fill
   keeps the invariant.
   */
  lemma {:induction false} FillDayKeepsInv(st: FillState, dm: DayMap, critical: map<Player, Day>, prefs: Prefs, day: Day, l: seq<Player>)
    requires Inv(st, dm, critical)
    requires NoDup(l)
    requires forall p :: p in l ==> p in Lookup(dm, day)
    ensures Inv(FillDay(st, critical, prefs, day, l), dm, critical)
    decreases |UnassignedSet(l, st.placed)|
  {
    var e := Eligible(st, critical, prefs, day, l);
    if |e| >= 4 {
      var next := AssignPod(st, day, e[..4]);
      PodFromEligible(st, dm, critical, prefs, day, l);
      FillShrinks(st, critical, prefs, day, l);
      FillDayKeepsInv(next, dm, critical, prefs, day, l);
    }
  }

  /**
   In a state satisfying the invariant a player has at most one pod, so the
   game days of every player are ones their preferences accept.
   */
  lemma InvKeepsPrefs(st: FillState, dm: DayMap, critical: map<Player, Day>, prefs: Prefs, p: Player)
    requires Inv(st, dm, critical)
    ensures |PodDaysOf(st.pods, p)| <= 1
    ensures RespectsPrefs(PodDaysOf(st.pods, p), PrefsOf(prefs, p))
  {
    PodDaysOfOnce(st.pods, p);
    var held := PodDaysOf(st.pods, p);
    if held != [] {
      AdjacencySymmetric(held[0], held[0]);
    }
  }

  /**
   During the fill the preferences never exclude anybody: a player who has
   no pod yet has no game days to clash with, so eligibility comes down to
   being unplaced and not held back for another day.
   */
  lemma PrefsNeverBlockFill(st: FillState, dm: DayMap, critical: map<Player, Day>, prefs: Prefs, day: Day, p: Player)
    requires Inv(st, dm, critical)
    ensures IsEligible(st, critical, prefs, day, p) <==> p !in st.placed && !ReservedElsewhere(st, critical, p, day)
  {
    if p !in st.placed {
      PodDaysOfAbsent(st.pods, p);
    }
  }

  /** A player still held back is eligible on the day they are held for and on no other. */
  lemma ReservedOnlyForTarget(st: FillState, critical: map<Player, Day>, prefs: Prefs, day: Day, p: Player)
    requires p in st.reserved
    ensures IsEligible(st, critical, prefs, day, p) ==> p in critical && critical[p] == day
  {
  }

  /** The day list the fill walks: entries of `dm`, each list without repeats. */
  ghost predicate DaysFrom(days: seq<(Day, seq<Player>)>, dm: DayMap) {
    forall j :: 0 <= j < |days| ==> days[j].1 == Lookup(dm, days[j].0) && NoDup(days[j].1)
  }

  lemma {:induction false} FillDaysKeepsInv(st: FillState, critical: map<Player, Day>, prefs: Prefs, dm: DayMap,
                                            days: seq<(Day, seq<Player>)>)
    requires Inv(st, dm, critical)
    requires DaysFrom(days, dm)
    ensures Inv(FillDays(st, critical, prefs, dm, days), dm, critical)
    decreases |days|
  {
    if days != [] {
      FillDayKeepsInv(st, dm, critical, prefs, days[0].0, days[0].1);
      var mid := Release(FillDay(st, critical, prefs, days[0].0, days[0].1), critical, dm);
      assert DaysFrom(days[1..], dm) by {
        forall j | 0 <= j < |days[1..]|
          ensures days[1..][j].1 == Lookup(dm, days[1..][j].0) && NoDup(days[1..][j].1)
        {
          assert days[1..][j] == days[j + 1];
        }
      }
      FillDaysKeepsInv(mid, critical, prefs, dm, days[1..]);
    }
  }

  /** Walking two stretches of days in a row is walking them joined. */
  lemma {:induction false} FillDaysSplit(st: FillState, critical: map<Player, Day>, prefs: Prefs, dm: DayMap,
                                         a: seq<(Day, seq<Player>)>, b: seq<(Day, seq<Player>)>)
    ensures FillDays(st, critical, prefs, dm, a + b)
            == FillDays(FillDays(st, critical, prefs, dm, a), critical, prefs, dm, b)
    decreases |a|
  {
    if a == [] {
      assert a + b == b;
    } else {
      var mid := Release(FillDay(st, critical, prefs, a[0].0, a[0].1), critical, dm);
      assert (a + b)[0] == a[0] && (a + b)[1..] == a[1..] + b;
      FillDaysSplit(mid, critical, prefs, dm, a[1..], b);
    }
  }

  /**
   The pods the walk forms on its `j`-th day stay, in order, at the front of
   the pods of the whole walk.
   */
  lemma DayPodsStay(st: FillState, critical: map<Player, Day>, prefs: Prefs, dm: DayMap,
                    days: seq<(Day, seq<Player>)>, j: nat)
    requires j < |days|
    ensures var after := FillDay(FillDays(st, critical, prefs, dm, days[..j]), critical, prefs, days[j].0, days[j].1);
            var r := FillDays(st, critical, prefs, dm, days);
            |after.pods| <= |r.pods| && r.pods[..|after.pods|] == after.pods
  {
    var before := FillDays(st, critical, prefs, dm, days[..j]);
    var after := FillDay(before, critical, prefs, days[j].0, days[j].1);
    var rest := [days[j]] + days[j + 1..];
    assert days == days[..j] + rest;
    FillDaysSplit(st, critical, prefs, dm, days[..j], rest);
    assert rest[1..] == days[j + 1..];
    assert FillDays(before, critical, prefs, dm, rest)
        == FillDays(Release(after, critical, dm), critical, prefs, dm, days[j + 1..]);
  }

  // ---------------------------------------------------------------------
  // What the invariant means for the votes

  /** Any reordering of the day map is a day list the fill may walk. */
  lemma ReorderedDaysFrom(avail: Availability, days: seq<(Day, seq<Player>)>)
    requires ValidAvailability(avail)
    requires multiset(days) == multiset(DayIndex(avail))
    ensures DaysFrom(days, DayIndex(avail))
  {
    var dm := DayIndex(avail);
    forall j | 0 <= j < |days| ensures days[j].1 == Lookup(dm, days[j].0) && NoDup(days[j].1) {
      assert days[j] in multiset(dm);
      var i :| 0 <= i < |dm| && dm[i] == days[j];
      DayIndexEntry(avail, i);
      DayIndexVoters(avail, days[j].0);
    }
  }

  /**
   A fill state satisfying the invariant over the day map of well-formed
   votes, reported with the voters split by it, is a valid assignment
   whatever choice accompanies it.
   */
  lemma InvGivesValidResult(avail: Availability, st: FillState, critical: map<Player, Day>, c: Option<Choice>)
    requires ValidAvailability(avail)
    requires Inv(st, DayIndex(avail), critical)
    ensures ValidResult(avail, OptimizationResult(st.pods, st.placed, Keys(avail) - st.placed, c))
  {
    var r := OptimizationResult(st.pods, st.placed, Keys(avail) - st.placed, c);
    forall i | 0 <= i < |r.pods| ensures PodFits(r.pods[i], avail) {
      DayIndexVoters(avail, r.pods[i].day);
    }
    forall p | p in r.withGames ensures p in Keys(avail) {
      RosterMember(r.pods, p);
      var i :| 0 <= i < |r.pods| && p in r.pods[i].players;
      DayIndexVoters(avail, r.pods[i].day);
    }
  }

  // ---------------------------------------------------------------------
  // Days where nothing happens

  /** Releasing nothing changes nothing. */
  lemma ReleaseNothing(st: FillState, critical: map<Player, Day>, dm: DayMap)
    requires st.reserved == {}
    ensures Release(st, critical, dm) == st
  {
  }

  /** With nobody held and no preferences, the eligible players are the unplaced ones. */
  lemma EligibleUnplaced(st: FillState, critical: map<Player, Day>, day: Day, l: seq<Player>)
    requires st.reserved == {}
    ensures Eligible(st, critical, map[], day, l) == Unassigned(l, st.placed)
  {
    FilterCongruent(l, EligibleTest(st, critical, map[], day), p => p !in st.placed);
  }

  /** Days of fewer than four players each form no pod: the pods and the placed players stay as they were. */
  lemma {:induction false} ShortDaysAddNothing(st: FillState, critical: map<Player, Day>, prefs: Prefs, dm: DayMap,
                                               days: seq<(Day, seq<Player>)>)
    requires forall i :: 0 <= i < |days| ==> |days[i].1| < 4
    ensures FillDays(st, critical, prefs, dm, days).pods == st.pods
    ensures FillDays(st, critical, prefs, dm, days).placed == st.placed
    decreases |days|
  {
    if days != [] {
      assert FillDay(st, critical, prefs, days[0].0, days[0].1) == st;
      var mid := Release(st, critical, dm);
      assert forall i :: 0 <= i < |days[1..]| ==> days[1..][i] == days[i + 1];
      ShortDaysAddNothing(mid, critical, prefs, dm, days[1..]);
    }
  }

  /** A day with fewer than four eligible players forms no pod and, with nobody held, changes nothing. */
  lemma ShortDayStays(st: FillState, critical: map<Player, Day>, prefs: Prefs, dm: DayMap,
                      days: seq<(Day, seq<Player>)>)
    requires days != [] && st.reserved == {}
    requires |Eligible(st, critical, prefs, days[0].0, days[0].1)| < 4
    ensures FillDays(st, critical, prefs, dm, days) == FillDays(st, critical, prefs, dm, days[1..])
  {
    ReleaseNothing(st, critical, dm);
  }
}
