/**
 The poll from the repository's double-play regression test, worked
 through step by step: Monday has exactly four voters, Tuesday three and
 Wednesday five. The reservation pass holds one flexible player for
 Monday, Monday forms its pod, and Wednesday is left three short of a
 second pod with two Monday players who could play twice.
 */
module DoublePlayPoll {
  import opened Seqs
  import opened Multimap
  import opened Days
  import opened Availability
  import opened Preferences
  import opened Pods
  import opened Critical
  import opened Ordering
  import opened Assignment
  import opened Choices
  import opened Optimizer
  import opened Wrappers
  import opened Scenarios

  const Poll: Availability := [
    ("n8", [Monday]),
    ("chris", [Monday]),
    ("patrick", [Monday, Tuesday, Wednesday]),
    ("eli", [Monday, Wednesday]),
    ("chad", [Tuesday, Wednesday]),
    ("matt", [Tuesday, Wednesday]),
    ("trevor", [Wednesday])]

  const MondayVoters: seq<Player> := ["n8", "chris", "patrick", "eli"]
  const TuesdayVoters: seq<Player> := ["patrick", "chad", "matt"]
  const WednesdayVoters: seq<Player> := ["patrick", "eli", "chad", "matt", "trevor"]

  /** The day index `optimize_pods` builds from the poll. */
  const PollIndex: DayMap := [(Monday, MondayVoters), (Tuesday, TuesdayVoters), (Wednesday, WednesdayVoters)]

  // ---------------------------------------------------------------------
  // The day index

  lemma PollValid()
    ensures ValidAvailability(Poll)
  {
  }

  lemma PollMonday()
    ensures Holders(Poll, Monday) == MondayVoters
  {
  }

  lemma PollTuesday()
    ensures Holders(Poll, Tuesday) == TuesdayVoters
  {
  }

  lemma PollWednesday()
    ensures Holders(Poll, Wednesday) == WednesdayVoters
  {
  }

  lemma PollVotes()
    ensures AllValues(Poll) == [Monday, Monday, Monday, Tuesday, Wednesday, Monday, Wednesday,
                                Tuesday, Wednesday, Tuesday, Wednesday, Wednesday]
  {
  }

  /** The days in the order they were first voted for. */
  lemma PollDayOrder()
    ensures Dedup(AllValues(Poll)) == [Monday, Tuesday, Wednesday]
  {
    var first := [Monday, Monday, Monday, Tuesday, Wednesday];
    var rest := [Monday, Wednesday, Tuesday, Wednesday, Tuesday, Wednesday, Wednesday];
    PollVotes();
    assert AllValues(Poll) == first + rest;
    DedupIntoAppend([], first, rest);
    FirstVotesOrder();
    DedupIntoSeen([Monday, Tuesday, Wednesday], rest);
  }

  /** The first five votes already name every day. */
  lemma FirstVotesOrder()
    ensures DedupInto([], [Monday, Monday, Monday, Tuesday, Wednesday]) == [Monday, Tuesday, Wednesday]
  {
    var days := [Monday, Tuesday, Wednesday];
    LaterVotesOrder();
    assert DedupInto([Monday], [Monday, Tuesday, Wednesday]) == days;
    assert DedupInto([Monday], [Monday, Monday, Tuesday, Wednesday]) == days;
    var none: seq<Day> := [];
    assert none + [Monday] == [Monday];
  }

  lemma LaterVotesOrder()
    ensures DedupInto([Monday], [Tuesday, Wednesday]) == [Monday, Tuesday, Wednesday]
  {
    var days := [Monday, Tuesday, Wednesday];
    assert DedupInto(days, []) == days;
    assert [Monday, Tuesday] + [Wednesday] == days;
    assert DedupInto([Monday, Tuesday], [Wednesday]) == days;
    assert [Monday] + [Tuesday] == [Monday, Tuesday];
  }

  lemma PollKeyOrder()
    ensures Dedup(AllValues(Poll)) == KeyList(PollIndex)
  {
    PollDayOrder();
  }

  lemma PollHolders()
    ensures forall i :: 0 <= i < |PollIndex| ==> PollIndex[i].1 == Holders(Poll, PollIndex[i].0)
  {
    forall i | 0 <= i < |PollIndex| ensures PollIndex[i].1 == Holders(Poll, PollIndex[i].0) {
      if i == 0 {
        PollMonday();
      } else if i == 1 {
        PollTuesday();
      } else {
        PollWednesday();
      }
    }
  }

  /** Inverting the poll gives the expected index. */
  lemma PollIndexed()
    ensures DayIndex(Poll) == PollIndex
  {
    PollValid();
    PollKeyOrder();
    PollHolders();
    IndexIs(Poll, PollIndex);
  }

  // ---------------------------------------------------------------------
  // The reservation pass

  /** The reservations the pass makes: eli, for Monday. */
  const Held: map<Player, Day> := map["eli" := Monday]

  /** The bookkeeping after eli is held for Monday, one player away from Wednesday. */
  const EliHeld := Reservations(Held, map[Wednesday := 1])

  lemma MondayListed()
    ensures Lookup(PollIndex, Monday) == MondayVoters
  {
  }

  lemma TuesdayListed()
    ensures Lookup(PollIndex, Tuesday) == TuesdayVoters
  {
  }

  lemma WednesdayListed()
    ensures Lookup(PollIndex, Wednesday) == WednesdayVoters
  {
    assert PollIndex[2..] == [(Wednesday, WednesdayVoters)];
    assert Lookup(PollIndex, Wednesday) == Lookup(PollIndex[1..], Wednesday) == Lookup(PollIndex[2..], Wednesday);
  }

  lemma PatrickRemaining()
    ensures Remaining(PollIndex, "patrick", Monday) == 3
    ensures Remaining(PollIndex, "patrick", Tuesday) == 2
  {
    MondayListed();
    TuesdayListed();
  }

  lemma EliRemaining()
    ensures Remaining(PollIndex, "eli", Monday) == 3
    ensures Remaining(PollIndex, "eli", Wednesday) == 4
  {
    MondayListed();
    WednesdayListed();
  }

  lemma PairRemaining(p: Player)
    requires p == "chad" || p == "matt"
    ensures Remaining(PollIndex, p, Wednesday) == 4
  {
    WednesdayListed();
  }

  /** Patrick would leave both Monday and Tuesday short, so he is not held. */
  lemma PatrickNotHeld(res: Reservations)
    ensures Consider(res, PollIndex, "patrick", [Monday, Tuesday, Wednesday]) == res
  {
    var needing := NeedingDays(PollIndex, "patrick", [Monday, Tuesday, Wednesday]);
    PatrickRemaining();
    assert Monday in needing && Tuesday in needing;
  }

  lemma EliNeeds()
    ensures NeedingDays(PollIndex, "eli", [Monday, Wednesday]) == [Monday]
  {
    EliRemaining();
    OnlyElement(NeedingDays(PollIndex, "eli", [Monday, Wednesday]), Monday);
  }

  lemma EliSpares()
    ensures SpareDays(PollIndex, "eli", [Monday, Wednesday]) == [Wednesday]
  {
    EliRemaining();
    OnlyElement(SpareDays(PollIndex, "eli", [Monday, Wednesday]), Wednesday);
  }

  /** Five on Wednesday: taking one away still leaves a pod. */
  lemma WednesdayRoomy()
    ensures !CostsAPod(PollIndex, map[], Wednesday)
  {
    WednesdayListed();
  }

  /** Four left on Wednesday once eli is held away: taking one more loses the pod. */
  lemma WednesdayTight()
    ensures CostsAPod(PollIndex, map[Wednesday := 1], Wednesday)
  {
    WednesdayListed();
  }

  /** Eli is Monday's fourth player and Wednesday keeps four without him: he is held for Monday. */
  lemma EliHeldForMonday()
    ensures Consider(Reservations(map[], map[]), PollIndex, "eli", [Monday, Wednesday]) == EliHeld
  {
    EliNeeds();
    EliSpares();
    WednesdayRoomy();
    WednesdayHeldFrom();
  }

  lemma WednesdayHeldFrom()
    ensures IncrementAll(map[], [Wednesday]) == map[Wednesday := 1]
  {
  }

  lemma PairSpares(p: Player)
    requires p == "chad" || p == "matt"
    ensures Wednesday in SpareDays(PollIndex, p, [Tuesday, Wednesday])
  {
    PairRemaining(p);
  }

  /**
   Holding chad or matt for Tuesday would take Wednesday, with eli already
   held away from it, below one pod: the reservation is vetoed.
   */
  lemma PairVetoed(res: Reservations, p: Player)
    requires p == "chad" || p == "matt"
    requires res.reservedFrom == map[Wednesday := 1]
    ensures Consider(res, PollIndex, p, [Tuesday, Wednesday]) == res
  {
    var spare := SpareDays(PollIndex, p, [Tuesday, Wednesday]);
    PairSpares(p);
    WednesdayTight();
    var i :| 0 <= i < |spare| && spare[i] == Wednesday;
    assert Vetoed(PollIndex, res.reservedFrom, spare);
  }

  lemma HeadPassed()
    ensures DetectFrom(Reservations(map[], map[]), PollIndex, Poll, 0)
         == DetectFrom(Reservations(map[], map[]), PollIndex, Poll, 3)
  {
    PatrickNotHeld(Reservations(map[], map[]));
  }

  lemma EliStep()
    ensures DetectFrom(Reservations(map[], map[]), PollIndex, Poll, 3) == DetectFrom(EliHeld, PollIndex, Poll, 4)
  {
    EliHeldForMonday();
  }

  lemma TailPassed()
    ensures DetectFrom(EliHeld, PollIndex, Poll, 4) == EliHeld
  {
    PairVetoed(EliHeld, "chad");
    PairVetoed(EliHeld, "matt");
  }

  /** The reservation pass holds eli, and only eli, for Monday. */
  lemma PollReservations()
    ensures DetectState(PollIndex, Poll) == EliHeld
  {
    HeadPassed();
    EliStep();
    TailPassed();
  }

  // ---------------------------------------------------------------------
  // The visiting order

  /** The days in the order the fill visits them: Monday (complete), Wednesday, Tuesday. */
  const PollOrder: seq<(Day, seq<Player>)> := [PollIndex[0], PollIndex[2], PollIndex[1]]

  /** Each player's votes, found under their name. */
  lemma VotesOf(i: nat)
    requires i < |Poll|
    ensures DaysOf(Poll, Poll[i].0) == Poll[i].1
  {
    PollValid();
    LookupEntry(Poll, i);
  }

  lemma TuesdayUnique()
    ensures CountUnique(Tuesday, PollIndex, Poll) == 0
  {
    TuesdayListed();
    VotesOf(2);
    VotesOf(4);
    VotesOf(5);
  }

  lemma WednesdayUnique()
    ensures CountUnique(Wednesday, PollIndex, Poll) == 1
  {
    WednesdayListed();
    VotesOf(2);
    VotesOf(3);
    VotesOf(4);
    VotesOf(5);
    VotesOf(6);
  }

  /** Wednesday outranks Tuesday: neither is complete, and trevor can come on Wednesday only. */
  lemma WednesdayBeforeTuesday()
    ensures LexLess(PriorityKey(PollIndex, Poll)(PollIndex[1]), PriorityKey(PollIndex, Poll)(PollIndex[2]))
  {
    TuesdayUnique();
    WednesdayUnique();
  }

  /** Monday, the one complete day, outranks Wednesday. */
  lemma MondayBeforeWednesday()
    ensures !LexLess(PriorityKey(PollIndex, Poll)(PollIndex[0]), PriorityKey(PollIndex, Poll)(PollIndex[2]))
  {
    assert IsComplete(PollIndex[0].1);
    assert !IsComplete(PollIndex[2].1);
    CompleteOutranks(PollIndex, Poll, PollIndex[0], PollIndex[2]);
  }

  /** Monday first, then Wednesday before Tuesday. */
  lemma PollSorted()
    ensures SortedDays(PollIndex, Poll) == PollOrder
  {
    WednesdayBeforeTuesday();
    MondayBeforeWednesday();
    SortThree(PollIndex, PriorityKey(PollIndex, Poll));
  }

  // ---------------------------------------------------------------------
  // The fill

  /** Monday's four form the one pod. */
  const MondayPod := Pod(Monday, MondayVoters)

  const Seated: set<Player> := {"n8", "chris", "patrick", "eli"}

  /** Wednesday's voters left without a game. */
  const Waiting: seq<Player> := ["chad", "matt", "trevor"]

  /** The fill's state once Monday's pod is formed; nothing changes after it. */
  const AfterMonday := AssignPod(Start(Held), Monday, MondayVoters)

  /** Eli is held for Monday itself, so all four of Monday's voters are eligible there. */
  lemma MondayAllEligible()
    ensures Eligible(Start(Held), Held, map[], Monday, MondayVoters) == MondayVoters
  {
    FilterKeepsAll(MondayVoters, EligibleTest(Start(Held), Held, map[], Monday));
  }

  lemma SeatedAfterMonday()
    ensures AfterMonday.placed == Seated
  {
  }

  lemma NoneHeldAfterMonday()
    ensures AfterMonday.reserved == {}
  {
    assert "eli" in MondayVoters;
  }

  lemma MondayDone()
    ensures Eligible(AfterMonday, Held, map[], Monday, MondayVoters) == []
  {
    SeatedAfterMonday();
  }

  lemma MondayFill()
    ensures FillDay(Start(Held), Held, map[], Monday, MondayVoters) == AfterMonday
  {
    MondayAllEligible();
    assert MondayVoters[..4] == MondayVoters;
    MondayDone();
  }

  lemma WednesdayWaiting()
    ensures Unassigned(WednesdayVoters, Seated) == Waiting
  {
    var seated: seq<Player> := ["patrick", "eli"];
    assert WednesdayVoters == seated + Waiting;
    FilterAppend(seated, Waiting, p => p !in Seated);
    assert Unassigned(seated, Seated) == [];
    NotSeated();
    FilterKeepsAll(Waiting, p => p !in Seated);
  }

  lemma NotSeated()
    ensures "chad" !in Seated && "matt" !in Seated && "trevor" !in Seated
  {
  }

  lemma TuesdayWaiting()
    ensures Unassigned(TuesdayVoters, Seated) == ["chad", "matt"]
  {
  }

  lemma WednesdayShort()
    ensures |Eligible(AfterMonday, Held, map[], Wednesday, WednesdayVoters)| == 3
  {
    SeatedAfterMonday();
    NoneHeldAfterMonday();
    EligibleUnplaced(AfterMonday, Held, Wednesday, WednesdayVoters);
    WednesdayWaiting();
  }

  lemma TuesdayShort()
    ensures |Eligible(AfterMonday, Held, map[], Tuesday, TuesdayVoters)| == 2
  {
    SeatedAfterMonday();
    NoneHeldAfterMonday();
    EligibleUnplaced(AfterMonday, Held, Tuesday, TuesdayVoters);
    TuesdayWaiting();
  }

  lemma ShortDaysPass()
    ensures FillDays(AfterMonday, Held, map[], PollIndex, PollOrder[1..]) == AfterMonday
  {
    NoneHeldAfterMonday();
    WednesdayShort();
    ShortDayStays(AfterMonday, Held, map[], PollIndex, PollOrder[1..]);
    TuesdayShort();
    ShortDayStays(AfterMonday, Held, map[], PollIndex, PollOrder[2..]);
    assert PollOrder[1..][1..] == PollOrder[2..];
    assert PollOrder[2..][1..] == [];
  }

  /** The reservations, the order and the fill together: Monday's pod, and nothing else. */
  lemma PollFill()
    ensures Fill(PollIndex, Poll, map[]) == AfterMonday
  {
    PollReservations();
    PollSorted();
    MondayFill();
    NoneHeldAfterMonday();
    ReleaseNothing(AfterMonday, Held, PollIndex);
    ShortDaysPass();
  }

  // ---------------------------------------------------------------------
  // The double-play prompt

  /** Wednesday is one short of a pod, and patrick or eli could play a second game. */
  const Prompt := DoublePlayNeeded(Wednesday, Waiting, ["patrick", "eli"])

  lemma MondayNoneWaiting()
    ensures Unassigned(MondayVoters, Seated) == []
  {
  }

  lemma WednesdayCandidates()
    ensures Filter(WednesdayVoters, p => p in Seated && |DaysOf(Poll, p)| > 1) == ["patrick", "eli"]
  {
    var seated: seq<Player> := ["patrick", "eli"];
    assert WednesdayVoters == seated + Waiting;
    var f := p => p in Seated && |DaysOf(Poll, p)| > 1;
    FilterAppend(seated, Waiting, f);
    VotesOf(2);
    VotesOf(3);
    FilterKeepsAll(seated, f);
    NotSeated();
    assert Filter(Waiting, f) == [];
  }

  lemma CandidatesAfterMonday()
    ensures Candidates(AfterMonday, Poll, map[], Wednesday, WednesdayVoters) == ["patrick", "eli"]
  {
    SeatedAfterMonday();
    CandidatesWithoutPrefs(AfterMonday, Poll, Wednesday, WednesdayVoters);
    WednesdayCandidates();
  }

  lemma DoublePlayOnWednesday()
    ensures DetectDoublePlay(AfterMonday, Poll, map[], PollOrder) == Some(Prompt)
  {
    SeatedAfterMonday();
    MondayNoneWaiting();
    PassOver(AfterMonday, Poll, map[], PollOrder);
    WednesdayWaiting();
    CandidatesAfterMonday();
    ReportHere(AfterMonday, Poll, map[], PollOrder[1..]);
  }

  // ---------------------------------------------------------------------
  // Nobody is the fourth of two days

  lemma OnlyMondayHasFour()
    ensures forall d :: |Lookup(PollIndex, d)| == 4 ==> d == Monday
  {
    forall d | d != Monday ensures |Lookup(PollIndex, d)| != 4 {
      if d == Tuesday {
        TuesdayListed();
      } else if d == Wednesday {
        WednesdayListed();
      } else {
        assert d !in KeyList(PollIndex);
      }
    }
  }

  lemma NoCriticalForBoth()
    ensures DetectCriticalForBoth(PollIndex, Poll) == None
  {
    PollValid();
    PollIndexed();
    OnlyMondayHasFour();
    OneDayOfFour(Poll, Monday);
  }

  // ---------------------------------------------------------------------
  // The whole run

  lemma PollKeyList()
    ensures KeyList(Poll) == ["n8", "chris", "patrick", "eli", "chad", "matt", "trevor"]
  {
  }

  lemma PollKeys()
    ensures Keys(Poll) == {"n8", "chris", "patrick", "eli", "chad", "matt", "trevor"}
  {
    PollKeyList();
  }

  lemma PollLeftOut()
    ensures {"n8", "chris", "patrick", "eli", "chad", "matt", "trevor"} - Seated == {"chad", "matt", "trevor"}
  {
    NotSeated();
  }

  lemma OnlyMondayPod()
    ensures AfterMonday.pods == [MondayPod]
  {
  }

  lemma PollBest()
    ensures FindBestAssignment(PollIndex, Keys(Poll), Some(Poll), map[])
         == OptimizationResult([MondayPod], Seated, {"chad", "matt", "trevor"}, Some(Prompt))
  {
    PollFill();
    PollSorted();
    DoublePlayOnWednesday();
    OnlyMondayPod();
    SeatedAfterMonday();
    PollKeys();
    PollLeftOut();
  }

  /**
   With no preferences, the poll yields Monday's pod of n8, chris, patrick
   and eli; chad, matt and trevor go without a game; and the prompt asks
   whether patrick or eli will play a second game on Wednesday, where
   chad, matt and trevor wait. Nobody is the fourth of two days, so
   nothing overrides that prompt.
   */
  lemma DoublePlayPollResult()
    ensures OptimizePods(Poll, map[])
         == OptimizationResult([MondayPod], Seated, {"chad", "matt", "trevor"}, Some(Prompt))
  {
    PollIndexed();
    PollBest();
    NoCriticalForBoth();
  }
}
