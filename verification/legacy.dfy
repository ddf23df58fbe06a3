/**
 The earlier optimizer (the repository's top-level `pod_optimizer.py`):
 no reservations, no preferences, no second pass; days are sorted by
 (players only free that day, players) and filled greedily from the front.
 */
module Legacy {
  import opened Seqs
  import opened Multimap
  import opened Days
  import opened Availability
  import opened Preferences
  import opened Ordering
  import opened Pods
  import opened Assignment
  import opened Choices
  import opened Optimizer
  import opened Wrappers

  /** The loop variables of the earlier fill. */
  datatype Plain = Plain(pods: seq<Pod>, placed: set<Player>)

  /** The sort key `(unique count, player count)`. */
  function PlainPriority(dm: DayMap, avail: Availability, entry: (Day, seq<Player>)): (k: seq<int>)
    ensures |k| == 2 && k[0] == CountUnique(entry.0, dm, avail) && k[1] == |entry.1|
  {
    [CountUnique(entry.0, dm, avail), |entry.1|]
  }

  function PlainKey(dm: DayMap, avail: Availability): ((Day, seq<Player>)) -> seq<int> {
    e => PlainPriority(dm, avail, e)
  }

  function PlainSortedDays(dm: DayMap, avail: Availability): seq<(Day, seq<Player>)> {
    SortDesc(dm, PlainKey(dm, avail))
  }

  /**
   The earlier visiting order: more players free only that day first, and
   among equals, more players first.
   */
  lemma PlainOrder(dm: DayMap, avail: Availability, i: nat, j: nat)
    requires i < j < |PlainSortedDays(dm, avail)|
    ensures var days := PlainSortedDays(dm, avail);
            && CountUnique(days[i].0, dm, avail) >= CountUnique(days[j].0, dm, avail)
            && (CountUnique(days[i].0, dm, avail) == CountUnique(days[j].0, dm, avail) ==> |days[i].1| >= |days[j].1|)
  {
    var days := PlainSortedDays(dm, avail);
    var a := PlainPriority(dm, avail, days[i]);
    assert !LexLess(PlainKey(dm, avail)(days[i]), PlainKey(dm, avail)(days[j]));
    assert a[1..][1..] == [];
  }

  /** The earlier `while` loop of one day: pods of four from the unplaced players, in list order. */
  function PlainFillDay(s: Plain, day: Day, l: seq<Player>): (r: Plain)
    ensures |Unassigned(l, r.placed)| < 4
    ensures |s.pods| <= |r.pods| && r.pods[..|s.pods|] == s.pods
    decreases |UnassignedSet(l, s.placed)|
  {
    var e := Unassigned(l, s.placed);
    if |e| >= 4 then
      var next := Plain(s.pods + [Pod(day, e[..4])], s.placed + (set p | p in e[..4]));
      assert e[0] in e[..4] && e[0] in l;
      var before, after := UnassignedSet(l, s.placed), UnassignedSet(l, next.placed);
      assert after <= before && e[0] in before - after;
      assert before == after + (before - after);
      var r := PlainFillDay(next, day, l);
      PrefixOfPrefix(r.pods, |next.pods|, |s.pods|);
      r
    else s
  }

  function PlainFillDays(s: Plain, days: seq<(Day, seq<Player>)>): (r: Plain)
    ensures |s.pods| <= |r.pods| && r.pods[..|s.pods|] == s.pods
    decreases |days|
  {
    if days == [] then s
    else
      var mid := PlainFillDay(s, days[0].0, days[0].1);
      var r := PlainFillDays(mid, days[1..]);
      PrefixOfPrefix(r.pods, |mid.pods|, |s.pods|);
      r
  }

  /** The earlier `_find_best_assignment`: it never reports a choice of its own. */
  function PlainFindBestAssignment(dm: DayMap, allPlayers: set<Player>, given: Option<Availability>): (r: OptimizationResult)
    ensures r.choice == None
    ensures r.withoutGames == allPlayers - r.withGames
  {
    var avail := VotesFor(dm, given);
    var s := PlainFillDays(Plain([], {}), PlainSortedDays(dm, avail));
    OptimizationResult(s.pods, s.placed, allPlayers - s.placed, None)
  }

  /** The earlier `optimize_pods`. */
  function PlainOptimizePods(avail: Availability): OptimizationResult {
    var dm := DayIndex(avail);
    var best := PlainFindBestAssignment(dm, Keys(avail), Some(avail));
    var c := DetectCriticalForBoth(dm, avail);
    if c.Some? then best.(choice := c) else best
  }

  // ---------------------------------------------------------------------
  // The earlier fill is the current fill with nothing reserved and no preferences

  /** With nothing reserved and no preferences, being eligible is just being unplaced. */
  lemma EligibleWhenUnreserved(st: FillState, day: Day, l: seq<Player>)
    requires st.reserved == {}
    ensures Eligible(st, map[], map[], day, l) == Unassigned(l, st.placed)
  {
    FilterCongruent(l, EligibleTest(st, map[], map[], day), p => p !in st.placed);
  }

  /**
   On any day, the earlier loop forms the same pods and places the same
   players as the current one run with nothing reserved and no preferences.
   */
  lemma {:induction false} PlainFillDayAgrees(s: Plain, podDays: map<Player, seq<Day>>, day: Day, l: seq<Player>)
    ensures var r := FillDay(FillState(s.pods, s.placed, podDays, {}), map[], map[], day, l);
            && r.reserved == {}
            && PlainFillDay(s, day, l) == Plain(r.pods, r.placed)
    decreases |UnassignedSet(l, s.placed)|
  {
    var st := FillState(s.pods, s.placed, podDays, {});
    var e := Unassigned(l, s.placed);
    EligibleWhenUnreserved(st, day, l);
    if |e| >= 4 {
      var next := AssignPod(st, day, e[..4]);
      assert next.reserved == {};
      FillShrinks(st, map[], map[], day, l);
      PlainFillDayAgrees(Plain(next.pods, next.placed), next.podDays, day, l);
      assert FillState(next.pods, next.placed, next.podDays, {}) == next;
    }
  }

  /** Over a whole day list the earlier fill and the unreserved current fill agree. */
  lemma {:induction false} PlainFillDaysAgrees(s: Plain, podDays: map<Player, seq<Day>>, dm: DayMap,
                                               days: seq<(Day, seq<Player>)>)
    ensures var r := FillDays(FillState(s.pods, s.placed, podDays, {}), map[], map[], dm, days);
            PlainFillDays(s, days) == Plain(r.pods, r.placed)
    decreases |days|
  {
    if days != [] {
      var st := FillState(s.pods, s.placed, podDays, {});
      var after := FillDay(st, map[], map[], days[0].0, days[0].1);
      PlainFillDayAgrees(s, podDays, days[0].0, days[0].1);
      var mid := Release(after, map[], dm);
      assert mid == FillState(after.pods, after.placed, after.podDays, {});
      PlainFillDaysAgrees(Plain(after.pods, after.placed), after.podDays, dm, days[1..]);
    }
  }

  /**
   The earlier optimizer's result is a valid assignment too: pods of four
   who all voted for the pod's day, nobody in two pods, and the voters split
   into those with a game and those without.
   */
  lemma PlainOptimizeIsValid(avail: Availability)
    requires ValidAvailability(avail)
    ensures ValidResult(avail, PlainOptimizePods(avail))
  {
    var dm := DayIndex(avail);
    var days := PlainSortedDays(dm, avail);
    var st := FillDays(Start(map[]), map[], map[], dm, days);
    PlainFillDaysAgrees(Plain([], {}), map[], dm, days);
    assert Start(map[]) == FillState([], {}, map[], {});
    ReorderedDaysFrom(avail, days);
    StartInv(dm, map[]);
    FillDaysKeepsInv(Start(map[]), map[], map[], dm, days);
    InvGivesValidResult(avail, st, map[], PlainOptimizePods(avail).choice);
  }

  /** Both optimizers ask the same player to choose, when one is the fourth of two days. */
  lemma SameCriticalChoice(avail: Availability, prefs: Prefs)
    requires DetectCriticalForBoth(DayIndex(avail), avail).Some?
    ensures PlainOptimizePods(avail).choice == OptimizePods(avail, prefs).choice
  {
  }
}
