/**
 Concrete polls from the repository's test suite, worked through the
 general lemmas: what the optimizer must answer for them follows from the
 properties proved about every poll.
 */
module Scenarios {
  import opened Seqs
  import opened Multimap
  import opened Days
  import opened Availability
  import opened Pods
  import opened Preferences
  import opened Optimizer
  import opened Legacy

  // ---------------------------------------------------------------------
  // Nobody voted

  /** With no votes, the optimizer forms no pod and lists nobody. */
  lemma EmptyPoll(prefs: Prefs)
    ensures var r := OptimizePods([], prefs);
            r.pods == [] && r.withGames == {} && r.withoutGames == {}
  {
    var none: Availability := [];
    OptimizeIsValid(none, prefs);
    EmptyRoster(OptimizePods(none, prefs));
  }

  /** The same for the earlier optimizer. */
  lemma PlainEmptyPoll()
    ensures var r := PlainOptimizePods([]);
            r.pods == [] && r.withGames == {} && r.withoutGames == {}
  {
    var none: Availability := [];
    PlainOptimizeIsValid(none);
    EmptyRoster(PlainOptimizePods(none));
  }

  /** A valid result for a poll nobody answered has no pods and nobody in them. */
  lemma EmptyRoster(r: OptimizationResult)
    requires ValidResult([], r)
    ensures r.pods == [] && r.withGames == {} && r.withoutGames == {}
  {
    var none: Availability := [];
    assert Keys(none) == {};
    RosterLength(r.pods);
    NoDupLengthBound(Roster(r.pods), r.withGames);
  }

  // ---------------------------------------------------------------------
  // Eight flexible players on Monday

  /** Eight players free on Monday and one other day, and one free on Thursday only. */
  const Eight: Availability := [
    ("p1", [Monday, Tuesday]), ("p2", [Monday, Tuesday]), ("p3", [Monday, Tuesday]),
    ("p4", [Monday, Wednesday]), ("p5", [Monday, Wednesday]), ("p6", [Monday, Wednesday]),
    ("p7", [Monday, Thursday]), ("p8", [Monday, Thursday]),
    ("p9", [Thursday])]

  const EightMonday: seq<Player> := ["p1", "p2", "p3", "p4", "p5", "p6", "p7", "p8"]

  lemma EightValid()
    ensures ValidAvailability(Eight)
  {
  }

  lemma EightVotes()
    ensures AllValues(Eight) == [Monday, Tuesday, Monday, Tuesday, Monday, Tuesday,
                                 Monday, Wednesday, Monday, Wednesday, Monday, Wednesday,
                                 Monday, Thursday, Monday, Thursday, Thursday]
  {
  }

  lemma EightMondayVoters()
    ensures Holders(Eight, Monday) == EightMonday
  {
  }

  lemma EightTuesdayVoters()
    ensures |Holders(Eight, Tuesday)| == 3
  {
  }

  lemma EightWednesdayVoters()
    ensures |Holders(Eight, Wednesday)| == 3
  {
  }

  lemma EightThursdayVoters()
    ensures |Holders(Eight, Thursday)| == 3
  {
  }

  lemma EightVotedDays()
    ensures forall x :: x in AllValues(Eight) <==> x in [Monday, Tuesday, Wednesday, Thursday]
  {
    EightVotes();
  }

  lemma EightOthersShort()
    ensures forall x :: x in [Monday, Tuesday, Wednesday, Thursday] && x != Monday ==> |Holders(Eight, x)| < 4
  {
    EightTuesdayVoters();
    EightWednesdayVoters();
    EightThursdayVoters();
  }

  lemma EightMondayAlone()
    ensures SoleFullDayPoll(Eight, Monday, [Monday, Tuesday, Wednesday, Thursday])
  {
    EightValid();
    EightVotedDays();
    EightMondayComplete();
    EightOthersShort();
  }

  lemma EightMondayComplete()
    ensures IsComplete(Holders(Eight, Monday))
  {
    EightMondayCount();
  }

  lemma EightKeyList()
    ensures KeyList(Eight) == ["p1", "p2", "p3", "p4", "p5", "p6", "p7", "p8", "p9"]
  {
  }

  lemma EightKeys()
    ensures Keys(Eight) == {"p1", "p2", "p3", "p4", "p5", "p6", "p7", "p8", "p9"}
  {
    EightKeyList();
  }

  lemma EightMondaySet()
    ensures (set p | p in EightMonday) == {"p1", "p2", "p3", "p4", "p5", "p6", "p7", "p8"}
  {
  }

  lemma EightLeftOut()
    ensures {"p1", "p2", "p3", "p4", "p5", "p6", "p7", "p8", "p9"} - {"p1", "p2", "p3", "p4", "p5", "p6", "p7", "p8"}
            == {"p9"}
  {
    var all: set<Player> := {"p1", "p2", "p3", "p4", "p5", "p6", "p7", "p8", "p9"};
    var eight: set<Player> := {"p1", "p2", "p3", "p4", "p5", "p6", "p7", "p8"};
    assert "p9" !in eight by {
      forall x | x in eight ensures x[1] != '9' { }
    }
  }

  /**
   The eight players free on Monday form two Monday pods and all get a game;
   the Thursday-only player, left with two others, gets none. The
   reservations cannot hold any of the eight back: no day but Monday can
   reach four.
   */
  lemma EightFlexibleFormTwoPods(prefs: Prefs)
    ensures var r := OptimizePods(Eight, prefs);
            && |r.pods| == 2
            && (forall i :: 0 <= i < |r.pods| ==> r.pods[i].day == Monday)
            && r.withGames == {"p1", "p2", "p3", "p4", "p5", "p6", "p7", "p8"}
            && r.withoutGames == {"p9"}
  {
    EightTwoPods(prefs);
    EightOnMonday(prefs);
    EightSeated(prefs);
    EightNinthWaits(prefs);
  }

  lemma EightTwoPods(prefs: Prefs)
    ensures |OptimizePods(Eight, prefs).pods| == 2
  {
    EightMondayAlone();
    OneFullDay(Eight, prefs, Monday, [Monday, Tuesday, Wednesday, Thursday]);
    EightMondayCount();
  }

  lemma EightMondayCount()
    ensures |Holders(Eight, Monday)| / 4 == 2
  {
    EightMondayVoters();
  }

  lemma EightOnMonday(prefs: Prefs)
    ensures var r := OptimizePods(Eight, prefs);
            forall i :: 0 <= i < |r.pods| ==> r.pods[i].day == Monday
  {
    EightMondayAlone();
    OneFullDay(Eight, prefs, Monday, [Monday, Tuesday, Wednesday, Thursday]);
  }

  lemma EightSeated(prefs: Prefs)
    ensures OptimizePods(Eight, prefs).withGames == {"p1", "p2", "p3", "p4", "p5", "p6", "p7", "p8"}
  {
    EightMondayAlone();
    EightMondayVoters();
    OneFullDay(Eight, prefs, Monday, [Monday, Tuesday, Wednesday, Thursday]);
    EightMondaySet();
  }

  lemma EightNinthWaits(prefs: Prefs)
    ensures OptimizePods(Eight, prefs).withoutGames == {"p9"}
  {
    EightMondayAlone();
    EightMondayVoters();
    OneFullDay(Eight, prefs, Monday, [Monday, Tuesday, Wednesday, Thursday]);
    EightKeys();
    EightMondaySet();
    EightLeftOut();
  }

  // ---------------------------------------------------------------------
  // One day reaching a multiple of four, stated on the votes

  /**
   When the voters of one day make up a positive multiple of four and every
   other voted-for day has fewer than four voters, the optimizer seats
   exactly that day's voters, all on that day.
   */
  lemma OneFullDay(avail: Availability, prefs: Prefs, d: Day, days: seq<Day>)
    requires SoleFullDayPoll(avail, d, days)
    ensures var r := OptimizePods(avail, prefs);
            && |r.pods| == |Holders(avail, d)| / 4
            && (forall i :: 0 <= i < |r.pods| ==> r.pods[i].day == d)
            && r.withGames == (set p | p in Holders(avail, d))
            && r.withoutGames == Keys(avail) - (set p | p in Holders(avail, d))
  {
    var dm := DayIndex(avail);
    var keys := KeyList(dm);
    var k :| 0 <= k < |keys| && keys[k] == d;
    IndexedHolders(avail, k);
    forall i | 0 <= i < |dm| && i != k ensures |dm[i].1| < 4 {
      IndexedHolders(avail, i);
      assert keys[i] != keys[k];
    }
    SoleFullDay(avail, prefs, k);
  }

  /**
   A valid poll whose voted-for days are `days`, in which `d` has a positive
   multiple of four voters and every other day fewer than four.
   */
  ghost predicate SoleFullDayPoll(avail: Availability, d: Day, days: seq<Day>)
  {
    && ValidAvailability(avail)
    && (forall x :: x in AllValues(avail) <==> x in days)
    && d in days
    && IsComplete(Holders(avail, d))
    && (forall x :: x in days && x != d ==> |Holders(avail, x)| < 4)
  }

  /** An entry of the day index lists the holders of its day. */
  lemma IndexedHolders(avail: Availability, i: nat)
    requires ValidAvailability(avail)
    requires i < |DayIndex(avail)|
    ensures DayIndex(avail)[i].1 == Holders(avail, DayIndex(avail)[i].0)
    ensures DayIndex(avail)[i].0 in AllValues(avail)
  {
    DayIndexEntry(avail, i);
    assert DayIndex(avail)[i].0 == KeyList(DayIndex(avail))[i];
  }

  /** A day index is pinned down by its day order and each day's holders. */
  lemma IndexIs(avail: Availability, dm: DayMap)
    requires ValidAvailability(avail)
    requires Dedup(AllValues(avail)) == KeyList(dm)
    requires forall i :: 0 <= i < |dm| ==> dm[i].1 == Holders(avail, dm[i].0)
    ensures DayIndex(avail) == dm
  {
    var ix := DayIndex(avail);
    assert |ix| == |KeyList(ix)| == |KeyList(dm)| == |dm|;
    forall i | 0 <= i < |dm| ensures ix[i] == dm[i] {
      IndexedHolders(avail, i);
      assert ix[i].0 == KeyList(ix)[i] && dm[i].0 == KeyList(dm)[i];
    }
  }
}
