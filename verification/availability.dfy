/**
 Votes: which players can play on which days. The availability map is the
 poll's player-to-days dict; the day index is its inversion, built at the
 start of `optimize_pods`.
 */
module Availability {
  import opened Seqs
  import opened Days
  import opened Multimap

  /** An opaque player id (a Discord user id as a string). */
  type Player = string

  /** Player to the days they voted for, in vote order. */
  type Availability = Multimap<Player, Day>

  /** Day to the players who voted for it, in availability order. */
  type DayMap = Multimap<Day, Player>

  /** `set(availability.keys())`. */
  function Keys(avail: Availability): (r: set<Player>)
    ensures forall p :: p in r <==> p in KeyList(avail)
  {
    set p | p in KeyList(avail)
  }

  /** `availability.get(player, [])`. */
  function DaysOf(avail: Availability, p: Player): seq<Day> {
    Lookup(avail, p)
  }

  /**
   What a poll delivers: each player once (a dict), and each player's days
   without repeats (a voter is listed once under each answer).
   */
  predicate ValidAvailability(avail: Availability) {
    DistinctKeys(avail) && DistinctValues(avail)
  }

  /**
   The day index: every day somebody voted for, in order of first vote,
   listing its voters in availability order.
   */
  function DayIndex(avail: Availability): (dm: DayMap)
    ensures NoDup(KeyList(dm))
    ensures forall d :: d in KeyList(dm) <==> d in AllValues(avail)
    ensures KeyList(dm) == Dedup(AllValues(avail))
  {
    Invert(avail)
  }

  /**
   A player is listed under a day exactly when the day is among the player's
   votes; each day lists its voters once, in the order of the availability
   keys.
   */
  lemma DayIndexVoters(avail: Availability, d: Day)
    requires ValidAvailability(avail)
    ensures Lookup(DayIndex(avail), d) == Filter(KeyList(avail), p => d in DaysOf(avail, p))
    ensures NoDup(Lookup(DayIndex(avail), d))
    ensures forall p :: p in Lookup(DayIndex(avail), d) <==> p in Keys(avail) && d in DaysOf(avail, p)
  {
    HoldersFilter(avail, d);
    FilterCongruent(KeyList(avail), p => d in Lookup(avail, p), p => d in DaysOf(avail, p));
  }

  /** A voted-for day has at least one voter. */
  lemma DayIndexNonEmpty(avail: Availability, i: nat)
    requires ValidAvailability(avail)
    requires i < |DayIndex(avail)|
    ensures DayIndex(avail)[i].1 != []
  {
    var dm := DayIndex(avail);
    var d := dm[i].0;
    assert d in KeyList(dm);
    assert DistinctKeys(dm) by {
      forall a, b | 0 <= a < b < |dm| ensures dm[a].0 != dm[b].0 {
        assert KeyList(dm)[a] == dm[a].0 && KeyList(dm)[b] == dm[b].0;
      }
    }
    LookupEntry(dm, i);
    AllValuesMembership(avail, d);
    var j :| 0 <= j < |avail| && d in avail[j].1;
    LookupEntry(avail, j);
    assert avail[j].0 in KeyList(avail);
    DayIndexVoters(avail, d);
    assert avail[j].0 in Lookup(dm, d);
  }

  /** The day index has one entry per day, so its entries can be looked up by day. */
  lemma DayIndexEntry(avail: Availability, i: nat)
    requires i < |DayIndex(avail)|
    ensures DistinctKeys(DayIndex(avail))
    ensures Lookup(DayIndex(avail), DayIndex(avail)[i].0) == DayIndex(avail)[i].1
  {
    var dm := DayIndex(avail);
    assert DistinctKeys(dm) by {
      forall a, b | 0 <= a < b < |dm| ensures dm[a].0 != dm[b].0 {
        assert KeyList(dm)[a] == dm[a].0 && KeyList(dm)[b] == dm[b].0;
      }
    }
    LookupEntry(dm, i);
  }

  /**
   `_count_unique_players`: how many of a day's listed players voted for
   that day only.
   */
  function CountUnique(d: Day, dm: DayMap, avail: Availability): (r: nat)
    ensures r <= |Lookup(dm, d)|
  {
    |Filter(Lookup(dm, d), VotedOnce(avail))|
  }

  /** `len(availability[player]) == 1`. */
  function VotedOnce(avail: Availability): Player -> bool {
    p => |DaysOf(avail, p)| == 1
  }

  /** The players whose only vote is for `d`. */
  function OnlyOn(avail: Availability, d: Day): set<Player> {
    set p | p in Keys(avail) && |DaysOf(avail, p)| == 1 && d in DaysOf(avail, p)
  }

  /**
   On the day index, the unique count of a day is the number of players who
   can play on that day and no other.
   */
  lemma CountUniqueMeaning(avail: Availability, d: Day)
    requires ValidAvailability(avail)
    ensures CountUnique(d, DayIndex(avail), avail) == |OnlyOn(avail, d)|
  {
    var l := Lookup(DayIndex(avail), d);
    DayIndexVoters(avail, d);
    FilterCount(l, VotedOnce(avail), OnlyOn(avail, d));
  }

  /**
   The availability map rebuilt from a day index, as `_find_best_assignment`
   does when it is not given one: every listed player gets the days listing
   them, in day-index order.
   */
  function Reconstruct(dm: DayMap): (avail: Availability)
    ensures NoDup(KeyList(avail))
  {
    Invert(dm)
  }

  /**
   Rebuilding the availability map from the day index gives every player the
   days they voted for, each once, now in the order the days were first
   voted for.
   */
  lemma ReconstructRoundTrip(avail: Availability, p: Player)
    requires ValidAvailability(avail)
    ensures forall d :: d in DaysOf(Reconstruct(DayIndex(avail)), p) <==> d in DaysOf(avail, p)
    ensures NoDup(DaysOf(Reconstruct(DayIndex(avail)), p))
  {
    InvertTwice(avail, p);
  }
}
