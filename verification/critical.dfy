/**
 `_detect_critical_flexible_players`: a flexible player (two or more votes)
 whose presence is what keeps exactly one of their days at four players,
 while some other of their days has four without them, is reserved for
 that one day. A reservation is vetoed when taking the player away from
 their other days would lower the number of complete pods one of those
 days could still form, counting the players already reserved away from it.
 */
module Critical {
  import opened Seqs
  import opened Days
  import opened Multimap
  import opened Availability

  /** The reservations made so far and, per day, how many players they took away from it. */
  datatype Reservations = Reservations(critical: map<Player, Day>, reservedFrom: map<Day, int>)

  /** `len([q for q in day_to_players.get(d, []) if q != p])`. */
  function Remaining(dm: DayMap, p: Player, d: Day): (r: nat)
    ensures r <= |Lookup(dm, d)|
  {
    |Filter(Lookup(dm, d), q => q != p)|
  }

  /** The player's distinct days that would drop below four without them. */
  function NeedingDays(dm: DayMap, p: Player, ds: seq<Day>): (r: seq<Day>)
    ensures NoDup(r)
    ensures forall d :: d in r <==> d in ds && Remaining(dm, p, d) < 4
  {
    FilterNoDup(Dedup(ds), d => Remaining(dm, p, d) < 4);
    Filter(Dedup(ds), d => Remaining(dm, p, d) < 4)
  }

  /** The player's distinct days that keep four or more without them. */
  function SpareDays(dm: DayMap, p: Player, ds: seq<Day>): (r: seq<Day>)
    ensures NoDup(r)
    ensures forall d :: d in r <==> d in ds && Remaining(dm, p, d) >= 4
  {
    FilterNoDup(Dedup(ds), d => Remaining(dm, p, d) >= 4);
    Filter(Dedup(ds), d => Remaining(dm, p, d) >= 4)
  }

  /** `reserved_from_day.get(d, 0)`. */
  function ReservedFrom(rf: map<Day, int>, d: Day): int {
    if d in rf then rf[d] else 0
  }

  /** Players on `d` not yet reserved away from it. */
  function Effective(dm: DayMap, rf: map<Day, int>, d: Day): int {
    |Lookup(dm, d)| - ReservedFrom(rf, d)
  }

  /**
   Reserving one more player away from `d` would lower the number of
   complete pods `d` can form (Python's `//` is floor division, as Dafny's
   `/` is for a positive divisor).
   */
  predicate CostsAPod(dm: DayMap, rf: map<Day, int>, d: Day) {
    (Effective(dm, rf, d) - 1) / 4 < Effective(dm, rf, d) / 4
  }

  /** Some spare day would lose a pod. */
  predicate Vetoed(dm: DayMap, rf: map<Day, int>, spare: seq<Day>) {
    exists i :: 0 <= i < |spare| && CostsAPod(dm, rf, spare[i])
  }

  /** One more player reserved away from each of `ds`. */
  function IncrementAll(rf: map<Day, int>, ds: seq<Day>): (r: map<Day, int>)
    ensures NoDup(ds) ==>
      forall d :: ReservedFrom(r, d) == ReservedFrom(rf, d) + (if d in ds then 1 else 0)
    decreases |ds|
  {
    if ds == [] then rf
    else
      assert NoDup(ds) ==> NoDup(ds[1..]) && ds[0] !in ds[1..] by {
        if NoDup(ds) { NoDupTail(ds); }
      }
      IncrementAll(rf[ds[0] := ReservedFrom(rf, ds[0]) + 1], ds[1..])
  }

  /** The loop body for one player of the availability map. */
  function Consider(res: Reservations, dm: DayMap, p: Player, ds: seq<Day>): Reservations {
    if |ds| >= 2 then
      var needing := NeedingDays(dm, p, ds);
      var spare := SpareDays(dm, p, ds);
      if |needing| == 1 && |spare| >= 1 && !Vetoed(dm, res.reservedFrom, spare) then
        Reservations(res.critical[p := needing[0]], IncrementAll(res.reservedFrom, spare))
      else res
    else res
  }

  /** The loop over the players from position `k` of the availability map on. */
  function DetectFrom(res: Reservations, dm: DayMap, avail: Availability, k: nat): Reservations
    decreases |avail| - k
  {
    if k >= |avail| then res
    else DetectFrom(Consider(res, dm, avail[k].0, avail[k].1), dm, avail, k + 1)
  }

  /** The reservation bookkeeping at the end of the detector's loop. */
  function DetectState(dm: DayMap, avail: Availability): Reservations {
    DetectFrom(Reservations(map[], map[]), dm, avail, 0)
  }

  /** `_detect_critical_flexible_players`: player to the day they are reserved for. */
  function DetectCritical(dm: DayMap, avail: Availability): map<Player, Day> {
    DetectState(dm, avail).critical
  }

  // ---------------------------------------------------------------------
  // What a reservation means

  /**
   A reservation of `p` for `c` is justified: `p` voted for two or more
   days including `c`, `c` is the only one of them that would fall below
   four players without `p`, and some other of them would not.
   */
  predicate Justified(dm: DayMap, avail: Availability, p: Player, c: Day) {
    var ds := DaysOf(avail, p);
    && p in Keys(avail)
    && |ds| >= 2
    && c in ds
    && Remaining(dm, p, c) < 4
    && (forall d :: d in ds && d != c ==> Remaining(dm, p, d) >= 4)
    && (exists d :: d in ds && Remaining(dm, p, d) >= 4)
  }

  /** The players with a reservation who can play on `d` but are reserved for another day. */
  function ReservedAway(critical: map<Player, Day>, avail: Availability, d: Day): set<Player> {
    set p | p in critical && d in DaysOf(avail, p) && critical[p] != d
  }

  /**
   No day has lost a complete pod to the reservations: counting the players
   reserved away from it, every day can still form as many groups of four
   as its full headcount allows.
   */
  ghost predicate KeepsPods(dm: DayMap, rf: map<Day, int>) {
    forall d :: ReservedFrom(rf, d) >= 0 && (|Lookup(dm, d)| - ReservedFrom(rf, d)) / 4 == |Lookup(dm, d)| / 4
  }

  /** The bookkeeping invariant of the detector after the first `k` players. */
  ghost predicate DetectInv(res: Reservations, dm: DayMap, avail: Availability, k: nat) {
    && k <= |avail|
    && (forall p :: p in res.critical ==> p in KeyList(avail[..k]) && Justified(dm, avail, p, res.critical[p]))
    && KeepsPods(dm, res.reservedFrom)
    && (forall d :: ReservedFrom(res.reservedFrom, d) == |ReservedAway(res.critical, avail, d)|)
  }

  /** One player's step keeps the invariant. */
  lemma ConsiderKeepsInv(res: Reservations, dm: DayMap, avail: Availability, k: nat)
    requires DistinctKeys(avail)
    requires k < |avail|
    requires DetectInv(res, dm, avail, k)
    ensures DetectInv(Consider(res, dm, avail[k].0, avail[k].1), dm, avail, k + 1)
  {
    var p := avail[k].0;
    var ds := avail[k].1;
    PrefixKeys(avail, k);
    var needing := NeedingDays(dm, p, ds);
    var spare := SpareDays(dm, p, ds);
    if |ds| >= 2 && |needing| == 1 && |spare| >= 1 && !Vetoed(dm, res.reservedFrom, spare) {
      ReserveBranch(res, dm, avail, k);
    } else {
      SkipKeepsInv(res, dm, avail, k);
      assert Consider(res, dm, p, ds) == res;
    }
  }

  /** A player who is not reserved leaves the invariant as it was. */
  lemma SkipKeepsInv(res: Reservations, dm: DayMap, avail: Availability, k: nat)
    requires k < |avail|
    requires DetectInv(res, dm, avail, k)
    requires KeyList(avail[..k + 1]) == KeyList(avail[..k]) + [avail[k].0]
    ensures DetectInv(res, dm, avail, k + 1)
  {
    DetectInvIntro(res, dm, avail, k + 1);
  }

  /** The reserving branch of the loop body, connected to the reservation step. */
  lemma ReserveBranch(res: Reservations, dm: DayMap, avail: Availability, k: nat)
    requires DistinctKeys(avail)
    requires k < |avail|
    requires DetectInv(res, dm, avail, k)
    requires KeyList(avail[..k + 1]) == KeyList(avail[..k]) + [avail[k].0]
    requires avail[k].0 !in KeyList(avail[..k])
    requires |avail[k].1| >= 2
    requires |NeedingDays(dm, avail[k].0, avail[k].1)| == 1
    requires |SpareDays(dm, avail[k].0, avail[k].1)| >= 1
    requires !Vetoed(dm, res.reservedFrom, SpareDays(dm, avail[k].0, avail[k].1))
    ensures DetectInv(Consider(res, dm, avail[k].0, avail[k].1), dm, avail, k + 1)
  {
    var p := avail[k].0;
    var ds := avail[k].1;
    var needing := NeedingDays(dm, p, ds);
    var spare := SpareDays(dm, p, ds);
    var c := needing[0];
    Singleton(needing);
    assert p in Keys(avail) && DaysOf(avail, p) == ds by {
      LookupEntry(avail, k);
      assert p in KeyList(avail);
    }
    ReservationJustified(dm, avail, p, ds, c);
    SpareIsRest(dm, p, ds, c);
    ReserveKeepsInv(res, dm, avail, k, c, spare);
    assert Consider(res, dm, p, ds) == Reservations(res.critical[p := c], IncrementAll(res.reservedFrom, spare));
  }

  /**
   The step that makes a reservation keeps the invariant: the new
   reservation is justified, the spare days it takes the player from keep
   their pods, and the counts follow the player.
   */
  lemma ReserveKeepsInv(res: Reservations, dm: DayMap, avail: Availability, k: nat, c: Day, spare: seq<Day>)
    requires k < |avail|
    requires DetectInv(res, dm, avail, k)
    requires KeyList(avail[..k + 1]) == KeyList(avail[..k]) + [avail[k].0]
    requires avail[k].0 !in KeyList(avail[..k])
    requires Justified(dm, avail, avail[k].0, c)
    requires NoDup(spare)
    requires forall d :: d in spare <==> d in DaysOf(avail, avail[k].0) && d != c
    requires !Vetoed(dm, res.reservedFrom, spare)
    ensures DetectInv(Reservations(res.critical[avail[k].0 := c], IncrementAll(res.reservedFrom, spare)), dm, avail, k + 1)
  {
    var p := avail[k].0;
    var next := Reservations(res.critical[p := c], IncrementAll(res.reservedFrom, spare));
    ReserveJustifiedAll(res.critical, next.critical, dm, avail, k, c);
    IncrementKeepsPods(dm, res.reservedFrom, spare);
    assert p !in res.critical;
    ReserveCounts(res, avail, p, c, spare);
    DetectInvIntro(next, dm, avail, k + 1);
  }

  lemma DetectInvIntro(res: Reservations, dm: DayMap, avail: Availability, k: nat)
    requires k <= |avail|
    requires forall q :: q in res.critical ==> q in KeyList(avail[..k]) && Justified(dm, avail, q, res.critical[q])
    requires KeepsPods(dm, res.reservedFrom)
    requires forall d :: ReservedFrom(res.reservedFrom, d) == |ReservedAway(res.critical, avail, d)|
    ensures DetectInv(res, dm, avail, k)
  {
  }

  lemma ReserveCounts(res: Reservations, avail: Availability, p: Player, c: Day, spare: seq<Day>)
    requires p !in res.critical
    requires NoDup(spare)
    requires forall d :: d in spare <==> d in DaysOf(avail, p) && d != c
    requires forall d :: ReservedFrom(res.reservedFrom, d) == |ReservedAway(res.critical, avail, d)|
    ensures forall d :: ReservedFrom(IncrementAll(res.reservedFrom, spare), d)
                        == |ReservedAway(res.critical[p := c], avail, d)|
  {
    forall d ensures ReservedFrom(IncrementAll(res.reservedFrom, spare), d)
                     == |ReservedAway(res.critical[p := c], avail, d)|
    {
      ReservedAwayStep(res.critical, avail, p, c, d);
    }
  }

  /** After a justified reservation every reservation is justified and belongs to a seen player. */
  lemma ReserveJustifiedAll(critical: map<Player, Day>, next: map<Player, Day>, dm: DayMap, avail: Availability, k: nat, c: Day)
    requires k < |avail|
    requires next == critical[avail[k].0 := c]
    requires KeyList(avail[..k + 1]) == KeyList(avail[..k]) + [avail[k].0]
    requires forall q :: q in critical ==> q in KeyList(avail[..k]) && Justified(dm, avail, q, critical[q])
    requires Justified(dm, avail, avail[k].0, c)
    ensures forall q :: q in next ==> q in KeyList(avail[..k + 1]) && Justified(dm, avail, q, next[q])
  {
  }

  /** The keys of the first `k + 1` players, and the new key is not among the earlier ones. */
  lemma PrefixKeys(avail: Availability, k: nat)
    requires DistinctKeys(avail) && k < |avail|
    ensures KeyList(avail[..k + 1]) == KeyList(avail[..k]) + [avail[k].0]
    ensures avail[k].0 !in KeyList(avail[..k])
  {
    assert KeyList(avail[..k + 1]) == KeyList(avail[..k]) + [avail[k].0];
    forall i | 0 <= i < k ensures KeyList(avail[..k])[i] != avail[k].0 {
      assert KeyList(avail[..k])[i] == avail[i].0;
    }
  }

  /** A reservation the step makes is justified. */
  lemma ReservationJustified(dm: DayMap, avail: Availability, p: Player, ds: seq<Day>, c: Day)
    requires p in Keys(avail) && DaysOf(avail, p) == ds && |ds| >= 2
    requires NeedingDays(dm, p, ds) == [c]
    requires |SpareDays(dm, p, ds)| >= 1
    ensures Justified(dm, avail, p, c)
  {
    SpareIsRest(dm, p, ds, c);
    var spare := SpareDays(dm, p, ds);
    assert spare[0] in spare;
  }

  /** When `c` is the one needing day, the spare days are all the others. */
  lemma SpareIsRest(dm: DayMap, p: Player, ds: seq<Day>, c: Day)
    requires NeedingDays(dm, p, ds) == [c]
    ensures forall d :: d in SpareDays(dm, p, ds) <==> d in ds && d != c
  {
    var nd := NeedingDays(dm, p, ds);
    assert c in nd;
    forall d | d in ds ensures Remaining(dm, p, d) < 4 <==> d == c {
      assert (d in nd) == (Remaining(dm, p, d) < 4);
    }
  }

  lemma IncrementKeepsPods(dm: DayMap, rf: map<Day, int>, spare: seq<Day>)
    requires NoDup(spare)
    requires KeepsPods(dm, rf)
    requires !Vetoed(dm, rf, spare)
    ensures KeepsPods(dm, IncrementAll(rf, spare))
  {
    var r := IncrementAll(rf, spare);
    forall d ensures ReservedFrom(r, d) >= 0
      && (|Lookup(dm, d)| - ReservedFrom(r, d)) / 4 == |Lookup(dm, d)| / 4
    {
      var taken := d in spare;
      assert taken ==> !CostsAPod(dm, rf, d) by {
        if taken {
          var i :| 0 <= i < |spare| && spare[i] == d;
          assert !CostsAPod(dm, rf, spare[i]);
        }
      }
      OneMoreKeepsPods(|Lookup(dm, d)|, ReservedFrom(rf, d), ReservedFrom(r, d), taken);
    }
  }

  /**
   A day of `n` players with `k` reserved away, which still has its full
   pod count, keeps that count after possibly one more is taken exactly
   when the taking does not cost it a pod.
   */
  lemma OneMoreKeepsPods(n: int, k: int, k2: int, taken: bool)
    requires k >= 0 && (n - k) / 4 == n / 4
    requires k2 == k + (if taken then 1 else 0)
    ensures k2 >= 0
    ensures (n - k2) / 4 == n / 4 <==> !(taken && (n - k - 1) / 4 < (n - k) / 4)
  {
  }

  /** Adding a fresh player's reservation adds them to the days they were taken away from. */
  lemma ReservedAwayStep(critical: map<Player, Day>, avail: Availability, p: Player, c: Day, d: Day)
    requires p !in critical
    ensures |ReservedAway(critical[p := c], avail, d)|
      == |ReservedAway(critical, avail, d)| + (if d in DaysOf(avail, p) && c != d then 1 else 0)
  {
    var before := ReservedAway(critical, avail, d);
    if d in DaysOf(avail, p) && c != d {
      ReservedAwayAdds(critical, avail, p, c, d);
      assert p !in before;
      assert |before + {p}| == |before| + 1;
    } else {
      ReservedAwaySame(critical, avail, p, c, d);
    }
  }

  /** Reserving `p` away from `d` adds exactly `p` to the players reserved away from `d`. */
  lemma ReservedAwayAdds(critical: map<Player, Day>, avail: Availability, p: Player, c: Day, d: Day)
    requires p !in critical
    requires d in DaysOf(avail, p) && c != d
    ensures ReservedAway(critical[p := c], avail, d) == ReservedAway(critical, avail, d) + {p}
  {
    var before := ReservedAway(critical, avail, d);
    var after := ReservedAway(critical[p := c], avail, d);
    forall q | q in after ensures q in before + {p} {
      if q != p {
        assert critical[p := c][q] == critical[q];
      }
    }
    forall q | q in before + {p} ensures q in after {
      if q != p {
        assert critical[p := c][q] == critical[q];
      }
    }
  }

  /** A reservation for `d` itself, or by a player who cannot play on `d`, changes nothing for `d`. */
  lemma ReservedAwaySame(critical: map<Player, Day>, avail: Availability, p: Player, c: Day, d: Day)
    requires p !in critical
    requires !(d in DaysOf(avail, p) && c != d)
    ensures ReservedAway(critical[p := c], avail, d) == ReservedAway(critical, avail, d)
  {
    var before := ReservedAway(critical, avail, d);
    var after := ReservedAway(critical[p := c], avail, d);
    forall q | q in after ensures q in before {
      assert q != p;
      assert critical[p := c][q] == critical[q];
    }
    forall q | q in before ensures q in after {
      assert critical[p := c][q] == critical[q];
    }
  }

  lemma {:induction false} DetectFromInv(res: Reservations, dm: DayMap, avail: Availability, k: nat)
    requires DistinctKeys(avail)
    requires DetectInv(res, dm, avail, k)
    ensures DetectInv(DetectFrom(res, dm, avail, k), dm, avail, |avail|)
    decreases |avail| - k
  {
    if k < |avail| {
      ConsiderKeepsInv(res, dm, avail, k);
      DetectFromInv(Consider(res, dm, avail[k].0, avail[k].1), dm, avail, k + 1);
    } else {
      assert avail[..k] == avail;
    }
  }

  /**
   Every reservation the detector makes is justified, and for every day the
   number recorded as reserved away from it is the number of players who
   voted for it but are reserved for another day.
   */
  lemma DetectCriticalSound(dm: DayMap, avail: Availability)
    requires DistinctKeys(avail)
    ensures forall p :: p in DetectCritical(dm, avail) ==> Justified(dm, avail, p, DetectCritical(dm, avail)[p])
    ensures forall d :: ReservedFrom(DetectState(dm, avail).reservedFrom, d)
                        == |ReservedAway(DetectCritical(dm, avail), avail, d)|
    ensures KeepsPods(dm, DetectState(dm, avail).reservedFrom)
  {
    var init := Reservations(map[], map[]);
    forall d ensures ReservedFrom(init.reservedFrom, d) == |ReservedAway(init.critical, avail, d)| {
      assert ReservedAway(init.critical, avail, d) == {};
    }
    DetectFromInv(init, dm, avail, 0);
  }

  /**
   The veto works: however many flexible players are reserved, every day can
   still form as many complete pods from the players not reserved away from
   it as from its whole headcount.
   */
  lemma VetoKeepsEveryDaysPods(dm: DayMap, avail: Availability, d: Day)
    requires DistinctKeys(avail)
    ensures (|Lookup(dm, d)| - |ReservedAway(DetectCritical(dm, avail), avail, d)|) / 4
            == |Lookup(dm, d)| / 4
  {
    DetectCriticalSound(dm, avail);
  }
}
