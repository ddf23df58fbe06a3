/**
 `optimize_pods` and `_find_best_assignment`: invert the votes, reserve
 critical flexible players, visit the days in priority order forming pods,
 look for a day one player short, and let a player who is the fourth of
 two days override that with their own choice.
 */
module Optimizer {
  import opened Seqs
  import opened Multimap
  import opened Days
  import opened Availability
  import opened Preferences
  import opened Critical
  import opened Ordering
  import opened Pods
  import opened Assignment
  import opened Choices
  import opened Wrappers

  /** A day list of a positive multiple of four players fills its pods exactly. */
  predicate IsComplete(l: seq<Player>) {
    |l| % 4 == 0 && |l| > 0
  }

  lemma ShortNotComplete(l: seq<Player>)
    requires |l| < 4
    ensures !IsComplete(l)
  {
  }

  /**
   `day_priority`: the tuple (is complete, players only free that day,
   players, minus the weekday's index) that days are sorted by, largest first.
   */
  function Priority(dm: DayMap, avail: Availability, entry: (Day, seq<Player>)): (k: seq<int>)
    ensures |k| == 4
    ensures k[0] == 1 <==> IsComplete(entry.1)
    ensures k[0] == 0 <==> !IsComplete(entry.1)
    ensures k[1] == CountUnique(entry.0, dm, avail)
    ensures k[2] == |entry.1|
    ensures k[3] == -DayOrder(entry.0)
  {
    [if IsComplete(entry.1) then 1 else 0, CountUnique(entry.0, dm, avail), |entry.1|, -DayOrder(entry.0)]
  }

  function PriorityKey(dm: DayMap, avail: Availability): ((Day, seq<Player>)) -> seq<int> {
    e => Priority(dm, avail, e)
  }

  /** `sorted(day_to_players.items(), key=day_priority, reverse=True)`. */
  function SortedDays(dm: DayMap, avail: Availability): seq<(Day, seq<Player>)> {
    SortDesc(dm, PriorityKey(dm, avail))
  }

  /**
   The visiting order puts every complete day before every incomplete one;
   among days equally complete, more players who can come on no other day
   first; then more players in all; then the earlier weekday.
   */
  lemma CompleteDaysFirst(dm: DayMap, avail: Availability, i: nat, j: nat)
    requires i < j < |SortedDays(dm, avail)|
    ensures var days := SortedDays(dm, avail);
            IsComplete(days[j].1) ==> IsComplete(days[i].1)
    ensures var days := SortedDays(dm, avail);
            IsComplete(days[i].1) == IsComplete(days[j].1) ==>
              CountUnique(days[i].0, dm, avail) >= CountUnique(days[j].0, dm, avail)
    ensures var days := SortedDays(dm, avail);
            IsComplete(days[i].1) == IsComplete(days[j].1)
            && CountUnique(days[i].0, dm, avail) == CountUnique(days[j].0, dm, avail) ==>
              |days[i].1| >= |days[j].1|
    ensures var days := SortedDays(dm, avail);
            IsComplete(days[i].1) == IsComplete(days[j].1)
            && CountUnique(days[i].0, dm, avail) == CountUnique(days[j].0, dm, avail)
            && |days[i].1| == |days[j].1| ==>
              DayOrder(days[i].0) <= DayOrder(days[j].0)
  {
    var days := SortedDays(dm, avail);
    var a := Priority(dm, avail, days[i]);
    var b := Priority(dm, avail, days[j]);
    assert !LexLess(PriorityKey(dm, avail)(days[i]), PriorityKey(dm, avail)(days[j]));
    assert a[1..][1..][1..][1..] == [];
    if a[0] == b[0] && a[1] == b[1] {
      assert !LexLess(a[1..], b[1..]);
      assert !LexLess(a[1..][1..], b[1..][1..]);
      assert a[1..][1..] == [a[2], a[3]] && b[1..][1..] == [b[2], b[3]];
      if a[2] == b[2] {
        assert !LexLess([a[3]], [b[3]]);
      }
    }
  }

  /**
   Days of equal priority are visited in the order they were first voted
   for. The key ends in the weekday's rank, so two distinct weekdays never
   tie: this only ever orders day names outside the week, which all share
   rank 99.
   */
  lemma TiesKeepVoteOrder(dm: DayMap, avail: Availability, k: seq<int>)
    ensures WithKey(SortedDays(dm, avail), PriorityKey(dm, avail), k) == WithKey(dm, PriorityKey(dm, avail), k)
  {
    SortStable(dm, PriorityKey(dm, avail), k);
  }

  /** The votes `_find_best_assignment` works from: the given ones, or the day map turned back around. */
  function VotesFor(dm: DayMap, given: Option<Availability>): Availability {
    if given.Some? then given.value else Reconstruct(dm)
  }

  /** Steps 1 to 3: reserve, sort, fill. */
  function Fill(dm: DayMap, avail: Availability, prefs: Prefs): FillState {
    var critical := DetectCritical(dm, avail);
    FillDays(Start(critical), critical, prefs, dm, SortedDays(dm, avail))
  }

  /** `_find_best_assignment`. */
  function FindBestAssignment(dm: DayMap, allPlayers: set<Player>, given: Option<Availability>, prefs: Prefs)
    : (r: OptimizationResult)
    ensures r.withoutGames == allPlayers - r.withGames
    ensures r.choice.Some? ==> r.choice.value.DoublePlayNeeded?
  {
    var avail := VotesFor(dm, given);
    var st := Fill(dm, avail, prefs);
    OptimizationResult(st.pods, st.placed, allPlayers - st.placed, DetectDoublePlay(st, avail, prefs, SortedDays(dm, avail)))
  }

  /** `optimize_pods` (the preferences default to none: pass `map[]`). */
  function OptimizePods(avail: Availability, prefs: Prefs): OptimizationResult {
    var dm := DayIndex(avail);
    var best := FindBestAssignment(dm, Keys(avail), Some(avail), prefs);
    var c := DetectCriticalForBoth(dm, avail);
    if c.Some? then best.(choice := c) else best
  }

  // ---------------------------------------------------------------------
  // The result is a valid assignment

  /** The sorted day list consists of day map entries, each without repeats. */
  lemma SortedDaysFromIndex(avail: Availability)
    requires ValidAvailability(avail)
    ensures DaysFrom(SortedDays(DayIndex(avail), avail), DayIndex(avail))
  {
    ReorderedDaysFrom(avail, SortedDays(DayIndex(avail), avail));
  }

  lemma FillInv(avail: Availability, prefs: Prefs)
    requires ValidAvailability(avail)
    ensures Inv(Fill(DayIndex(avail), avail, prefs), DayIndex(avail), DetectCritical(DayIndex(avail), avail))
  {
    var dm := DayIndex(avail);
    var critical := DetectCritical(dm, avail);
    SortedDaysFromIndex(avail);
    StartInv(dm, critical);
    FillDaysKeepsInv(Start(critical), critical, prefs, dm, SortedDays(dm, avail));
  }

  /**
   On well-formed votes the result is a valid assignment: pods of four who
   all voted for the pod's day, nobody in two pods, and the voters split
   into those with a game and those without.
   */
  lemma OptimizeIsValid(avail: Availability, prefs: Prefs)
    requires ValidAvailability(avail)
    ensures ValidResult(avail, OptimizePods(avail, prefs))
  {
    var dm := DayIndex(avail);
    var st := Fill(dm, avail, prefs);
    FillInv(avail, prefs);
    InvGivesValidResult(avail, st, DetectCritical(dm, avail), OptimizePods(avail, prefs).choice);
  }

  /**
   Everybody gets at most one game, and the game days of every player are
   ones their preferences accept.
   */
  lemma OptimizeKeepsPrefs(avail: Availability, prefs: Prefs, p: Player)
    requires ValidAvailability(avail)
    ensures |PodDaysOf(OptimizePods(avail, prefs).pods, p)| <= 1
    ensures RespectsPrefs(PodDaysOf(OptimizePods(avail, prefs).pods, p), PrefsOf(prefs, p))
  {
    FillInv(avail, prefs);
    OptimizePodsAreFill(avail, prefs);
    InvKeepsPrefs(Fill(DayIndex(avail), avail, prefs), DayIndex(avail), DetectCritical(DayIndex(avail), avail), prefs, p);
  }

  // ---------------------------------------------------------------------
  // Which choice is reported

  /**
   A player who is the fourth of two days takes precedence: the result asks
   them to choose exactly when there is such a player, and otherwise
   carries whatever the second pass found.
   */
  lemma ChoicePrecedence(avail: Availability, prefs: Prefs)
    requires ValidAvailability(avail)
    ensures var r := OptimizePods(avail, prefs);
            (r.choice.Some? && r.choice.value.CriticalForBoth?)
            <==> exists p, d1, d2 :: NeededOnTwoDays(avail, p, d1, d2)
    ensures var r := OptimizePods(avail, prefs);
            var dm := DayIndex(avail);
            (!exists p, d1, d2 :: NeededOnTwoDays(avail, p, d1, d2)) ==>
              r.choice == DetectDoublePlay(Fill(dm, avail, prefs), avail, prefs, SortedDays(dm, avail))
  {
    CriticalForBothComplete(avail);
  }

  // ---------------------------------------------------------------------
  // Days nobody has been taken from

  /** The fill's state when it reaches the `j`-th day of the visiting order. */
  function Before(avail: Availability, prefs: Prefs, j: nat): FillState
    requires j <= |SortedDays(DayIndex(avail), avail)|
  {
    var dm := DayIndex(avail);
    var critical := DetectCritical(dm, avail);
    FillDays(Start(critical), critical, prefs, dm, SortedDays(dm, avail)[..j])
  }

  /** The fill's state before the `j`-th day satisfies the fill's invariant. */
  lemma BeforeInv(avail: Availability, prefs: Prefs, j: nat)
    requires ValidAvailability(avail)
    requires j <= |SortedDays(DayIndex(avail), avail)|
    ensures Inv(Before(avail, prefs, j), DayIndex(avail), DetectCritical(DayIndex(avail), avail))
  {
    var dm := DayIndex(avail);
    var critical := DetectCritical(dm, avail);
    var days := SortedDays(dm, avail);
    SortedDaysFromIndex(avail);
    StartInv(dm, critical);
    assert DaysFrom(days[..j], dm) by {
      forall i | 0 <= i < j ensures days[..j][i].1 == Lookup(dm, days[..j][i].0) && NoDup(days[..j][i].1) {
        assert days[..j][i] == days[i];
      }
    }
    FillDaysKeepsInv(Start(critical), critical, prefs, dm, days[..j]);
  }

  /** The result's pods are the fill's pods. */
  lemma OptimizePodsAreFill(avail: Availability, prefs: Prefs)
    ensures OptimizePods(avail, prefs).pods == Fill(DayIndex(avail), avail, prefs).pods
    ensures OptimizePods(avail, prefs).withGames == Fill(DayIndex(avail), avail, prefs).placed
  {
  }

  /** What the fill does on the `j`-th day stays at the front of the final pod list. */
  lemma DayPodsKept(avail: Availability, prefs: Prefs, j: nat)
    requires j < |SortedDays(DayIndex(avail), avail)|
    ensures var dm := DayIndex(avail);
            var day := SortedDays(dm, avail)[j];
            var after := FillDay(Before(avail, prefs, j), DetectCritical(dm, avail), prefs, day.0, day.1);
            |after.pods| <= |OptimizePods(avail, prefs).pods|
            && OptimizePods(avail, prefs).pods[..|after.pods|] == after.pods
  {
    var dm := DayIndex(avail);
    var critical := DetectCritical(dm, avail);
    OptimizePodsAreFill(avail, prefs);
    DayPodsStay(Start(critical), critical, prefs, dm, SortedDays(dm, avail), j);
  }

  /**
   When the fill reaches a day none of whose voters has a game yet, that
   day gets a pod for every four of its voters (the reservations never cost
   it one), and these pods are part of the result.
   */
  lemma UnclaimedDayFillsCompletely(avail: Availability, prefs: Prefs, j: nat)
    requires ValidAvailability(avail)
    requires j < |SortedDays(DayIndex(avail), avail)|
    requires forall p :: p in SortedDays(DayIndex(avail), avail)[j].1 ==> p !in Before(avail, prefs, j).placed
    ensures var dm := DayIndex(avail);
            var day := SortedDays(dm, avail)[j];
            var before := Before(avail, prefs, j);
            var after := FillDay(before, DetectCritical(dm, avail), prefs, day.0, day.1);
            && |after.pods| == |before.pods| + |day.1| / 4
            && (forall i :: |before.pods| <= i < |after.pods| ==> after.pods[i].day == day.0)
            && |after.pods| <= |OptimizePods(avail, prefs).pods|
            && OptimizePods(avail, prefs).pods[..|after.pods|] == after.pods
  {
    var dm := DayIndex(avail);
    var critical := DetectCritical(dm, avail);
    var day := SortedDays(dm, avail)[j];
    var before := Before(avail, prefs, j);
    BeforeInv(avail, prefs, j);
    SortedDaysFromIndex(avail);
    UnclaimedStep(avail, before, prefs, day.0, day.1);
    DayPodsKept(avail, prefs, j);
  }

  /** The counting behind UnclaimedDayFillsCompletely, for any state satisfying the invariant. */
  lemma UnclaimedStep(avail: Availability, before: FillState, prefs: Prefs, d: Day, l: seq<Player>)
    requires ValidAvailability(avail)
    requires Inv(before, DayIndex(avail), DetectCritical(DayIndex(avail), avail))
    requires l == Lookup(DayIndex(avail), d)
    requires forall p :: p in l ==> p !in before.placed
    ensures |FillDay(before, DetectCritical(DayIndex(avail), avail), prefs, d, l).pods| == |before.pods| + |l| / 4
  {
    var dm := DayIndex(avail);
    var critical := DetectCritical(dm, avail);
    DayIndexVoters(avail, d);
    forall p | p in l ensures p !in before.placed && AssignedDaysOf(before.podDays, p) == [] {
      PodDaysOfAbsent(before.pods, p);
    }
    var away := ReservedAway(critical, avail, d);
    forall p | p in l && ReservedElsewhere(before, critical, p, d) ensures p in away {
    }
    VetoKeepsEveryDaysPods(dm, avail, d);
    UntouchedDayPods(before, critical, prefs, d, l, away);
  }

  /** The result opens with a pod for every four voters of the first day visited. */
  lemma FirstDayFillsCompletely(avail: Availability, prefs: Prefs)
    requires ValidAvailability(avail)
    requires |SortedDays(DayIndex(avail), avail)| > 0
    ensures var first := SortedDays(DayIndex(avail), avail)[0];
            var r := OptimizePods(avail, prefs);
            && |first.1| / 4 <= |r.pods|
            && forall i :: 0 <= i < |first.1| / 4 ==> r.pods[i].day == first.0
  {
    var dm := DayIndex(avail);
    var critical := DetectCritical(dm, avail);
    var first := SortedDays(dm, avail)[0];
    assert SortedDays(dm, avail)[..0] == [];
    assert Before(avail, prefs, 0) == Start(critical);
    UnclaimedDayFillsCompletely(avail, prefs, 0);
    var after := FillDay(Start(critical), critical, prefs, first.0, first.1);
    PrefixPodDays(OptimizePods(avail, prefs).pods, after.pods, 0, |first.1| / 4, first.0);
  }
  // ---------------------------------------------------------------------
  // Which days get pods

  /**
   Every pod is four different voters of its day, so a day with fewer than
   four voters never gets a pod.
   */
  lemma PodsAreFourVoters(avail: Availability, prefs: Prefs, i: nat)
    requires ValidAvailability(avail)
    requires i < |OptimizePods(avail, prefs).pods|
    ensures var pod := OptimizePods(avail, prefs).pods[i];
            && |pod.players| == 4 && NoDup(pod.players)
            && (forall p :: p in pod.players ==> p in Lookup(DayIndex(avail), pod.day))
            && |Lookup(DayIndex(avail), pod.day)| >= 4
  {
    OptimizeIsValid(avail, prefs);
    ValidPodIsFourVoters(avail, OptimizePods(avail, prefs), i);
  }

  /** PodsAreFourVoters for any valid result. */
  lemma ValidPodIsFourVoters(avail: Availability, r: OptimizationResult, i: nat)
    requires ValidAvailability(avail)
    requires ValidResult(avail, r)
    requires i < |r.pods|
    ensures var pod := r.pods[i];
            && |pod.players| == 4 && NoDup(pod.players)
            && (forall p :: p in pod.players ==> p in Lookup(DayIndex(avail), pod.day))
            && |Lookup(DayIndex(avail), pod.day)| >= 4
  {
    var pod := r.pods[i];
    var voters := Lookup(DayIndex(avail), pod.day);
    assert PodFits(pod, avail);
    PodNoDup(r.pods, i);
    DayIndexVoters(avail, pod.day);
    NoDupLengthBound(pod.players, set q | q in voters);
    NoDupCardinality(voters);
  }

  /** When exactly one entry of a day map has a complete list, it is visited first. */
  lemma SoleCompleteDayFirst(dm: DayMap, avail: Availability, k: nat)
    requires k < |dm|
    requires IsComplete(dm[k].1)
    requires forall i :: 0 <= i < |dm| && i != k ==> !IsComplete(dm[i].1)
    ensures |SortedDays(dm, avail)| > 0
    ensures SortedDays(dm, avail)[0] == dm[k]
  {
    var days := SortedDays(dm, avail);
    assert dm[k] in multiset(days);
    var m :| 0 <= m < |days| && days[m] == dm[k];
    if m > 0 {
      CompleteDaysFirst(dm, avail, 0, m);
      assert days[0] in multiset(dm);
      var j :| 0 <= j < |dm| && dm[j] == days[0];
    }
  }

  /** When only one day has four or more voters, every seat of a valid result is on that day. */
  lemma OnlyDayWithPods(avail: Availability, r: OptimizationResult, k: nat)
    requires ValidAvailability(avail)
    requires ValidResult(avail, r)
    requires k < |DayIndex(avail)|
    requires forall i :: 0 <= i < |DayIndex(avail)| && i != k ==> |DayIndex(avail)[i].1| < 4
    ensures forall i :: 0 <= i < |r.pods| ==> r.pods[i].day == DayIndex(avail)[k].0
    ensures forall p :: p in Roster(r.pods) ==> p in DayIndex(avail)[k].1
  {
    forall i | 0 <= i < |r.pods|
      ensures r.pods[i].day == DayIndex(avail)[k].0
      ensures forall p :: p in r.pods[i].players ==> p in DayIndex(avail)[k].1
    {
      PodOnOnlyDay(avail, r, k, i);
    }
    forall p | p in Roster(r.pods) ensures p in DayIndex(avail)[k].1 {
      RosterMember(r.pods, p);
    }
  }

  lemma PodOnOnlyDay(avail: Availability, r: OptimizationResult, k: nat, i: nat)
    requires ValidAvailability(avail)
    requires ValidResult(avail, r)
    requires k < |DayIndex(avail)| && i < |r.pods|
    requires forall i :: 0 <= i < |DayIndex(avail)| && i != k ==> |DayIndex(avail)[i].1| < 4
    ensures r.pods[i].day == DayIndex(avail)[k].0
    ensures forall p :: p in r.pods[i].players ==> p in DayIndex(avail)[k].1
  {
    var dm := DayIndex(avail);
    ValidPodIsFourVoters(avail, r, i);
    var m :| 0 <= m < |dm| && dm[m].0 == r.pods[i].day;
    DayIndexEntry(avail, m);
  }

  /**
   A valid result whose seats all lie in one duplicate-free list of a
   multiple of four players, with a pod for every four of them, seats
   exactly those players.
   */
  lemma FullCount(avail: Availability, r: OptimizationResult, l: seq<Player>)
    requires ValidResult(avail, r)
    requires NoDup(l) && |l| % 4 == 0
    requires |l| / 4 <= |r.pods|
    requires forall p :: p in Roster(r.pods) ==> p in l
    ensures |r.pods| == |l| / 4
    ensures r.withGames == set p | p in l
  {
    var ls := set p | p in l;
    NoDupCardinality(l);
    NoDupLengthBound(Roster(r.pods), ls);
    assert forall i :: 0 <= i < |r.pods| ==> PodFits(r.pods[i], avail);
    RosterLength(r.pods);
    NoDupCardinality(Roster(r.pods));
    assert Members(r.pods) <= ls;
    assert |ls - Members(r.pods)| == 0;
  }

  /**
   When one day has a complete list of voters and every other day has fewer
   than four, the result is a pod for every four voters of that day and
   nothing else: exactly that day's voters get a game.
   */
  lemma SoleFullDay(avail: Availability, prefs: Prefs, k: nat)
    requires ValidAvailability(avail)
    requires k < |DayIndex(avail)|
    requires IsComplete(DayIndex(avail)[k].1)
    requires forall i :: 0 <= i < |DayIndex(avail)| && i != k ==> |DayIndex(avail)[i].1| < 4
    ensures var r := OptimizePods(avail, prefs);
            var entry := DayIndex(avail)[k];
            && |r.pods| == |entry.1| / 4
            && (forall i :: 0 <= i < |r.pods| ==> r.pods[i].day == entry.0)
            && r.withGames == (set p | p in entry.1)
            && r.withoutGames == Keys(avail) - (set p | p in entry.1)
  {
    var dm := DayIndex(avail);
    forall i | 0 <= i < |dm| && i != k ensures !IsComplete(dm[i].1) {
      ShortNotComplete(dm[i].1);
    }
    SoleCompleteDayFirst(dm, avail, k);
    FirstDayFillsCompletely(avail, prefs);
    OptimizeIsValid(avail, prefs);
    ValidSoleFullDay(avail, OptimizePods(avail, prefs), k);
  }

  /** The counting behind SoleFullDay, for any valid result with a pod for every four of the day's voters. */
  lemma ValidSoleFullDay(avail: Availability, r: OptimizationResult, k: nat)
    requires ValidAvailability(avail)
    requires ValidResult(avail, r)
    requires k < |DayIndex(avail)|
    requires IsComplete(DayIndex(avail)[k].1)
    requires forall i :: 0 <= i < |DayIndex(avail)| && i != k ==> |DayIndex(avail)[i].1| < 4
    requires |DayIndex(avail)[k].1| / 4 <= |r.pods|
    ensures var entry := DayIndex(avail)[k];
            && |r.pods| == |entry.1| / 4
            && (forall i :: 0 <= i < |r.pods| ==> r.pods[i].day == entry.0)
            && r.withGames == (set p | p in entry.1)
            && r.withoutGames == Keys(avail) - (set p | p in entry.1)
  {
    var dm := DayIndex(avail);
    OnlyDayWithPods(avail, r, k);
    DayIndexEntry(avail, k);
    DayIndexVoters(avail, dm[k].0);
    FullCount(avail, r, dm[k].1);
  }

  /**
   When only one day has four or more voters, it gets a pod for every four
   of its voters and no other day gets any: four players per pod have a
   game, all of them voters of that day, and every other voter has none.
   */
  lemma OnlyBusyDay(avail: Availability, prefs: Prefs, k: nat)
    requires ValidAvailability(avail)
    requires k < |DayIndex(avail)|
    requires forall i :: 0 <= i < |DayIndex(avail)| && i != k ==> |DayIndex(avail)[i].1| < 4
    ensures var r := OptimizePods(avail, prefs);
            var entry := DayIndex(avail)[k];
            && |r.pods| == |entry.1| / 4
            && (forall i :: 0 <= i < |r.pods| ==> r.pods[i].day == entry.0)
            && r.withGames <= (set p | p in entry.1)
            && |r.withGames| == 4 * (|entry.1| / 4)
            && |r.withoutGames| == |Keys(avail)| - 4 * (|entry.1| / 4)
  {
    var j := BusyDayReached(avail, prefs, k);
    UnclaimedDayFillsCompletely(avail, prefs, j);
    OptimizeIsValid(avail, prefs);
    ValidBusyDay(avail, OptimizePods(avail, prefs), k);
  }

  /** The fill reaches the busy day with nobody placed: the days before it are all short. */
  lemma BusyDayReached(avail: Availability, prefs: Prefs, k: nat) returns (j: nat)
    requires k < |DayIndex(avail)|
    requires forall i :: 0 <= i < |DayIndex(avail)| && i != k ==> |DayIndex(avail)[i].1| < 4
    ensures j < |SortedDays(DayIndex(avail), avail)|
    ensures SortedDays(DayIndex(avail), avail)[j] == DayIndex(avail)[k]
    ensures Before(avail, prefs, j).pods == [] && Before(avail, prefs, j).placed == {}
  {
    var dm := DayIndex(avail);
    var critical := DetectCritical(dm, avail);
    var days := SortedDays(dm, avail);
    assert dm[k] in multiset(dm);
    j := FirstPosition(days, dm[k]);
    forall i | 0 <= i < |days[..j]| ensures |days[..j][i].1| < 4 {
      assert days[..j][i] == days[i] && days[i] in multiset(dm);
      var m :| 0 <= m < |dm| && dm[m] == days[i];
    }
    ShortDaysAddNothing(Start(critical), critical, prefs, dm, days[..j]);
  }

  /** The counting behind OnlyBusyDay, for any valid result with a pod for every four of the day's voters. */
  lemma ValidBusyDay(avail: Availability, r: OptimizationResult, k: nat)
    requires ValidAvailability(avail)
    requires ValidResult(avail, r)
    requires k < |DayIndex(avail)|
    requires forall i :: 0 <= i < |DayIndex(avail)| && i != k ==> |DayIndex(avail)[i].1| < 4
    requires |DayIndex(avail)[k].1| / 4 <= |r.pods|
    ensures var entry := DayIndex(avail)[k];
            && |r.pods| == |entry.1| / 4
            && (forall i :: 0 <= i < |r.pods| ==> r.pods[i].day == entry.0)
            && r.withGames <= (set p | p in entry.1)
            && |r.withGames| == 4 * (|entry.1| / 4)
            && |r.withoutGames| == |Keys(avail)| - 4 * (|entry.1| / 4)
  {
    OnlyDayWithPods(avail, r, k);
    BusyDaySeats(avail, r, k);
    SplitCount(Keys(avail), r.withGames, r.withoutGames);
  }

  /** A valid result seated only from a day's list has at most a pod per four of its voters. */
  lemma BusyDaySeats(avail: Availability, r: OptimizationResult, k: nat)
    requires ValidAvailability(avail)
    requires ValidResult(avail, r)
    requires k < |DayIndex(avail)|
    requires forall p :: p in Roster(r.pods) ==> p in DayIndex(avail)[k].1
    ensures 4 * |r.pods| <= |DayIndex(avail)[k].1|
    ensures |r.withGames| == 4 * |r.pods|
  {
    var dm := DayIndex(avail);
    var l := dm[k].1;
    DayIndexEntry(avail, k);
    DayIndexVoters(avail, dm[k].0);
    NoDupCardinality(l);
    NoDupLengthBound(Roster(r.pods), set p | p in l);
    assert forall i :: 0 <= i < |r.pods| ==> PodFits(r.pods[i], avail);
    RosterLength(r.pods);
    NoDupCardinality(Roster(r.pods));
  }

  /** A set split into two disjoint parts has as many elements as both parts. */
  lemma SplitCount(all: set<Player>, a: set<Player>, b: set<Player>)
    requires a <= all && b == all - a
    ensures |b| == |all| - |a|
  {
    assert all == a + b;
  }

  /** A complete day is never ranked below an incomplete one. */
  lemma CompleteOutranks(dm: DayMap, avail: Availability, e1: (Day, seq<Player>), e2: (Day, seq<Player>))
    requires IsComplete(e1.1) && !IsComplete(e2.1)
    ensures !LexLess(PriorityKey(dm, avail)(e1), PriorityKey(dm, avail)(e2))
  {
    var a := PriorityKey(dm, avail)(e1);
    var b := PriorityKey(dm, avail)(e2);
    assert a[0] == 1 && b[0] == 0;
  }
}
