/**
 What the optimizer returns: pods of four, who got a game and who did not,
 and at most one situation a person has to decide.
 */
module Pods {
  import opened Seqs
  import opened Days
  import opened Availability
  import opened Wrappers

  /** A group of players meeting on a day. */
  datatype Pod = Pod(day: Day, players: seq<Player>)

  /** The one decision the optimizer can hand to a person. */
  datatype Choice =
    | // One player is the fourth of two different days' groups.
      CriticalForBoth(player: Player, day1: Day, day2: Day, pod1: seq<Player>, pod2: seq<Player>)
    | // A day is one short; players who already have a game could play twice.
      DoublePlayNeeded(day: Day, waiting: seq<Player>, candidates: seq<Player>)

  datatype OptimizationResult = OptimizationResult(
    pods: seq<Pod>,
    withGames: set<Player>,
    withoutGames: set<Player>,
    choice: Option<Choice>)

  /** Every seat of every pod, pod after pod. */
  function Roster(pods: seq<Pod>): (r: seq<Player>)
    ensures forall i :: 0 <= i < |pods| ==> forall p :: p in pods[i].players ==> p in r
  {
    if pods == [] then []
    else
      var init := pods[..|pods| - 1];
      var r := Roster(init) + pods[|pods| - 1].players;
      assert forall i :: 0 <= i < |init| ==> pods[i] == init[i];
      r
  }

  lemma RosterAppend(pods: seq<Pod>, pod: Pod)
    ensures Roster(pods + [pod]) == Roster(pods) + pod.players
  {
    assert (pods + [pod])[..|pods|] == pods;
  }

  /** Whoever sits in some pod. */
  function Members(pods: seq<Pod>): set<Player> {
    set p | p in Roster(pods)
  }

  /** Pods on one day in a prefix are on that day in the whole list too. */
  lemma PrefixPodDays(r: seq<Pod>, a: seq<Pod>, lo: nat, hi: nat, day: Day)
    requires lo <= hi <= |a| <= |r| && r[..|a|] == a
    requires forall i :: lo <= i < hi ==> a[i].day == day
    ensures forall i :: lo <= i < hi ==> r[i].day == day
  {
    forall i | lo <= i < hi ensures r[i].day == day {
      assert r[i] == r[..|a|][i];
    }
  }

  /** Appending a pod adds exactly its players to the members. */
  lemma MembersAppend(pods: seq<Pod>, pod: Pod)
    ensures Members(pods + [pod]) == Members(pods) + (set p | p in pod.players)
  {
    RosterAppend(pods, pod);
  }

  /** Every seat in the roster belongs to some pod. */
  lemma {:induction false} RosterMember(pods: seq<Pod>, p: Player)
    requires p in Roster(pods)
    ensures exists i :: 0 <= i < |pods| && p in pods[i].players
  {
    var init := pods[..|pods| - 1];
    if p in Roster(init) {
      RosterMember(init, p);
      var i :| 0 <= i < |init| && p in init[i].players;
      assert pods[i] == init[i];
    } else {
      assert p in pods[|pods| - 1].players;
    }
  }

  /** Four players, each of whom voted for the pod's day. */
  predicate PodFits(pod: Pod, avail: Availability) {
    && |pod.players| == 4
    && forall p :: p in pod.players ==> p in Keys(avail) && pod.day in DaysOf(avail, p)
  }

  /**
   The invariants any pod assignment must satisfy: pods of four who all
   voted for that day, nobody seated twice (so no one in two pods), and the
   players with and without a game splitting the voters between them.
   */
  ghost predicate ValidResult(avail: Availability, r: OptimizationResult) {
    && (forall i :: 0 <= i < |r.pods| ==> PodFits(r.pods[i], avail))
    && NoDup(Roster(r.pods))
    && r.withGames == Members(r.pods)
    && r.withGames <= Keys(avail)
    && r.withoutGames == Keys(avail) - r.withGames
  }

  /** When every pod has four seats, the roster has four seats per pod. */
  lemma {:induction false} RosterLength(pods: seq<Pod>)
    requires forall i :: 0 <= i < |pods| ==> |pods[i].players| == 4
    ensures |Roster(pods)| == 4 * |pods|
  {
    if pods != [] {
      var init := pods[..|pods| - 1];
      assert forall i :: 0 <= i < |init| ==> init[i] == pods[i];
      RosterLength(init);
    }
  }

  /** When nobody is seated twice, no pod lists a player twice. */
  lemma {:induction false} PodNoDup(pods: seq<Pod>, i: nat)
    requires NoDup(Roster(pods))
    requires i < |pods|
    ensures NoDup(pods[i].players)
  {
    var init := pods[..|pods| - 1];
    NoDupSplit(Roster(init), pods[|pods| - 1].players);
    if i < |init| {
      PodNoDup(init, i);
      assert init[i] == pods[i];
    }
  }

  /** When nobody is seated twice, two different pods share no player. */
  lemma {:induction false} PodsDisjoint(pods: seq<Pod>, i: nat, j: nat)
    requires NoDup(Roster(pods))
    requires i < j < |pods|
    ensures forall p :: p in pods[i].players ==> p !in pods[j].players
  {
    var init := pods[..|pods| - 1];
    NoDupSplit(Roster(init), pods[|pods| - 1].players);
    assert init[i] == pods[i];
    if j < |init| {
      PodsDisjoint(init, i, j);
      assert init[j] == pods[j];
    } else {
      assert forall p :: p in init[i].players ==> p in Roster(init);
    }
  }

  /** The days of the pods a player sits in, in pod order. */
  function PodDaysOf(pods: seq<Pod>, p: Player): seq<Day> {
    if pods == [] then []
    else
      var init := pods[..|pods| - 1];
      var last := pods[|pods| - 1];
      PodDaysOf(init, p) + (if p in last.players then [last.day] else [])
  }

  lemma PodDaysOfAppend(pods: seq<Pod>, pod: Pod, p: Player)
    ensures PodDaysOf(pods + [pod], p) == PodDaysOf(pods, p) + (if p in pod.players then [pod.day] else [])
  {
    assert (pods + [pod])[..|pods|] == pods;
  }

  /** Someone in no pod has no pod days. */
  lemma {:induction false} PodDaysOfAbsent(pods: seq<Pod>, p: Player)
    requires p !in Roster(pods)
    ensures PodDaysOf(pods, p) == []
  {
    if pods != [] {
      PodDaysOfAbsent(pods[..|pods| - 1], p);
    }
  }

  /**
   When nobody is seated twice, each player has at most one pod day, and
   exactly one when they sit in some pod.
   */
  lemma {:induction false} PodDaysOfOnce(pods: seq<Pod>, p: Player)
    requires NoDup(Roster(pods))
    ensures |PodDaysOf(pods, p)| <= 1
    ensures |PodDaysOf(pods, p)| == 1 <==> p in Roster(pods)
  {
    if pods != [] {
      var init := pods[..|pods| - 1];
      var last := pods[|pods| - 1];
      NoDupSplit(Roster(init), last.players);
      PodDaysOfOnce(init, p);
      if p in last.players {
        PodDaysOfAbsent(init, p);
      }
    }
  }
}
