/**
 The two situations the optimizer hands to a person: a day one player
 short that someone with a game could complete by playing twice (the
 second pass of `_find_best_assignment`), and a player who is the fourth
 of two different days (`_detect_choice_scenario`).
 */
module Choices {
  import opened Seqs
  import opened Multimap
  import opened Days
  import opened Availability
  import opened Preferences
  import opened Pods
  import opened Assignment
  import opened Wrappers

  // ---------------------------------------------------------------------
  // Double play

  /**
   `flexible_candidates`: the day's voters who already have a game, voted
   for more than one day, did not ask for one game only, and whose
   preferences allow this day.
   */
  predicate IsCandidate(st: FillState, avail: Availability, prefs: Prefs, day: Day, p: Player) {
    && p in st.placed
    && |DaysOf(avail, p)| > 1
    && OneGameOnly !in PrefsOf(prefs, p)
    && CanAssign(p, day, st.podDays, prefs)
  }

  function Candidates(st: FillState, avail: Availability, prefs: Prefs, day: Day, l: seq<Player>): seq<Player> {
    Filter(l, p => IsCandidate(st, avail, prefs, day, p))
  }

  /** Day `days[j]` is one player short and someone could play twice there. */
  predicate Opening(st: FillState, avail: Availability, prefs: Prefs, days: seq<(Day, seq<Player>)>, j: int) {
    && 0 <= j < |days|
    && |Unassigned(days[j].1, st.placed)| == 3
    && Candidates(st, avail, prefs, days[j].0, days[j].1) != []
  }

  /** The second pass: the first day in priority order that is one player short, if any. */
  function DetectDoublePlay(st: FillState, avail: Availability, prefs: Prefs, days: seq<(Day, seq<Player>)>): (r: Option<Choice>)
    ensures r.Some? ==> r.value.DoublePlayNeeded?
    decreases |days|
  {
    if days == [] then None
    else
      var day := days[0].0;
      var l := days[0].1;
      var waiting := Unassigned(l, st.placed);
      var candidates := Candidates(st, avail, prefs, day, l);
      if |waiting| == 3 && candidates != [] then Some(DoublePlayNeeded(day, waiting, candidates))
      else DetectDoublePlay(st, avail, prefs, days[1..])
  }

  /**
   The second pass reports exactly the first opening in priority order:
   nothing when there is none, and otherwise that day with its three
   waiting players and its candidates.
   */
  lemma {:induction false} DoublePlayIsFirstOpening(st: FillState, avail: Availability, prefs: Prefs, days: seq<(Day, seq<Player>)>)
    ensures DetectDoublePlay(st, avail, prefs, days).None?
            <==> forall j :: 0 <= j < |days| ==> !Opening(st, avail, prefs, days, j)
    ensures DetectDoublePlay(st, avail, prefs, days).Some? ==>
              exists j :: Opening(st, avail, prefs, days, j)
                && (forall i :: 0 <= i < j ==> !Opening(st, avail, prefs, days, i))
                && DetectDoublePlay(st, avail, prefs, days).value
                   == DoublePlayNeeded(days[j].0, Unassigned(days[j].1, st.placed),
                                       Candidates(st, avail, prefs, days[j].0, days[j].1))
    decreases |days|
  {
    if days != [] && !Opening(st, avail, prefs, days, 0) {
      var rest := days[1..];
      DoublePlayIsFirstOpening(st, avail, prefs, rest);
      forall j | 1 <= j < |days| ensures Opening(st, avail, prefs, days, j) <==> Opening(st, avail, prefs, rest, j - 1) {
        assert days[j] == rest[j - 1];
      }
      if DetectDoublePlay(st, avail, prefs, rest).Some? {
        var j :| Opening(st, avail, prefs, rest, j)
                 && (forall i :: 0 <= i < j ==> !Opening(st, avail, prefs, rest, i))
                 && DetectDoublePlay(st, avail, prefs, rest).value
                    == DoublePlayNeeded(rest[j].0, Unassigned(rest[j].1, st.placed),
                                        Candidates(st, avail, prefs, rest[j].0, rest[j].1));
        assert Opening(st, avail, prefs, days, j + 1);
        forall i | 0 <= i < j + 1 ensures !Opening(st, avail, prefs, days, i) {
          if i > 0 {
            assert !Opening(st, avail, prefs, rest, i - 1);
          }
        }
      }
    }
  }

  /**
   Every candidate could take the second game without breaking their
   preferences: once the fill has given each player at most one game,
   adding the day leaves a list of game days the player accepts.
   */
  lemma CandidatesKeepPrefs(st: FillState, dm: DayMap, critical: map<Player, Day>, avail: Availability,
                            prefs: Prefs, day: Day, l: seq<Player>, p: Player)
    requires Inv(st, dm, critical)
    requires p in Candidates(st, avail, prefs, day, l)
    ensures p in l && p in st.placed && |DaysOf(avail, p)| > 1
    ensures |PodDaysOf(st.pods, p)| == 1
    ensures RespectsPrefs(PodDaysOf(st.pods, p) + [day], PrefsOf(prefs, p))
  {
    PodDaysOfOnce(st.pods, p);
    var held := PodDaysOf(st.pods, p);
    AdjacencySymmetric(held[0], held[0]);
    assert RespectsPrefs(held, PrefsOf(prefs, p));
    CanAssignExactly(p, day, st.podDays, prefs);
  }

  // ---------------------------------------------------------------------
  // Critical for both

  /** Position pair `(i, j)` comes before `(i2, j2)` in `combinations` order. */
  predicate PosBefore(a: (nat, nat), b: (nat, nat)) {
    a.0 < b.0 || (a.0 == b.0 && a.1 < b.1)
  }

  /**
   `itertools.combinations(range(lo, n), 2)`: every pair of positions
   `lo <= i < j < n`, each once, in lexicographic order.
   */
  function PositionPairs(lo: nat, n: nat): (r: seq<(nat, nat)>)
    ensures forall k :: 0 <= k < |r| ==> lo <= r[k].0 < r[k].1 < n
    ensures forall i, j :: lo <= i < j < n ==> (i, j) in r
    ensures forall a, b :: 0 <= a < b < |r| ==> PosBefore(r[a], r[b])
    decreases n - lo
  {
    if lo >= n then []
    else
      var r := Row(lo, n) + PositionPairs(lo + 1, n);
      RowThenRest(lo, n, PositionPairs(lo + 1, n));
      r
  }

  /** The pairs `(lo, j)` for `lo < j < n`, in order. */
  function Row(lo: nat, n: nat): (r: seq<(nat, nat)>)
    requires lo < n
    ensures |r| == n - lo - 1 && forall k :: 0 <= k < |r| ==> r[k] == (lo, lo + k + 1)
  {
    seq(n - lo - 1, k requires 0 <= k < n - lo - 1 => (lo, lo + k + 1))
  }

  /** The row of `lo` followed by the pairs from `lo + 1` on covers every pair from `lo` on, in order. */
  lemma RowThenRest(lo: nat, n: nat, rest: seq<(nat, nat)>)
    requires lo < n
    requires forall k :: 0 <= k < |rest| ==> lo + 1 <= rest[k].0 < rest[k].1 < n
    requires forall i, j :: lo + 1 <= i < j < n ==> (i, j) in rest
    requires forall a, b :: 0 <= a < b < |rest| ==> PosBefore(rest[a], rest[b])
    ensures var r := Row(lo, n) + rest;
            && (forall k :: 0 <= k < |r| ==> lo <= r[k].0 < r[k].1 < n)
            && (forall i, j :: lo <= i < j < n ==> (i, j) in r)
            && (forall a, b :: 0 <= a < b < |r| ==> PosBefore(r[a], r[b]))
  {
    var head := Row(lo, n);
    var r := head + rest;
    forall k | 0 <= k < |r| ensures lo <= r[k].0 < r[k].1 < n {
      if k >= |head| {
        assert r[k] == rest[k - |head|];
      }
    }
    forall i, j | lo <= i < j < n ensures (i, j) in r {
      if i == lo {
        assert r[j - lo - 1] == (i, j);
      } else {
        assert (i, j) in rest;
      }
    }
    forall a, b | 0 <= a < b < |r| ensures PosBefore(r[a], r[b]) {
      if b >= |head| {
        assert r[b] == rest[b - |head|];
        if a >= |head| {
          assert r[a] == rest[a - |head|];
        }
      }
    }
  }

  /** In a strictly ordered list, the entry before another sits at a lower index. */
  lemma EarlierPairIndex(r: seq<(nat, nat)>, a: nat, b: nat)
    requires forall x, y :: 0 <= x < y < |r| ==> PosBefore(r[x], r[y])
    requires a < |r| && b < |r| && PosBefore(r[a], r[b])
    ensures a < b
  {
  }

  /** `itertools.combinations(ds, 2)`: the entries at every pair of positions, in `combinations` order. */
  function Pairs<T>(ds: seq<T>): (r: seq<(T, T)>)
    ensures |r| == |PositionPairs(0, |ds|)|
    ensures forall k :: 0 <= k < |r| ==> r[k] == (ds[PositionPairs(0, |ds|)[k].0], ds[PositionPairs(0, |ds|)[k].1])
  {
    var ps := PositionPairs(0, |ds|);
    seq(|ps|, k requires 0 <= k < |ps| => (ds[ps[k].0], ds[ps[k].1]))
  }

  /** Every pair of positions `i < j` of the list appears among the pairs. */
  lemma PairsCover<T>(ds: seq<T>, i: nat, j: nat) returns (n: nat)
    requires i < j < |ds|
    ensures n < |Pairs(ds)| && PositionPairs(0, |ds|)[n] == (i, j) && Pairs(ds)[n] == (ds[i], ds[j])
  {
    var ps := PositionPairs(0, |ds|);
    n :| 0 <= n < |ps| && ps[n] == (i, j);
  }

  /** Every pair drawn from `ds` is two entries at positions `i < j`. */
  lemma PairsArePositions<T>(ds: seq<T>, pr: (T, T))
    requires pr in Pairs(ds)
    ensures exists i, j :: 0 <= i < j < |ds| && pr == (ds[i], ds[j])
  {
    var ps := PositionPairs(0, |ds|);
    var n :| 0 <= n < |Pairs(ds)| && Pairs(ds)[n] == pr;
    assert pr == (ds[ps[n].0], ds[ps[n].1]);
  }

  /** Both days are in the day map with exactly four voters each, `p` among them. */
  predicate BothFull(dm: DayMap, p: Player, d1: Day, d2: Day) {
    && d1 in KeyList(dm) && d2 in KeyList(dm)
    && |Lookup(dm, d1)| == 4 && |Lookup(dm, d2)| == 4
    && p in Lookup(dm, d1) && p in Lookup(dm, d2)
  }

  /** The first pair of days, in `combinations` order, that `p` completes both of. */
  function FirstFullPair(dm: DayMap, p: Player, prs: seq<(Day, Day)>): (r: Option<(Day, Day)>)
    ensures r.None? <==> forall k :: 0 <= k < |prs| ==> !BothFull(dm, p, prs[k].0, prs[k].1)
    ensures r.Some? ==> r.value in prs && BothFull(dm, p, r.value.0, r.value.1)
    ensures r.Some? ==> exists n :: FirstFullIndex(dm, p, prs, n) && prs[n] == r.value
  {
    if prs == [] then None
    else if BothFull(dm, p, prs[0].0, prs[0].1) then
      assert FirstFullIndex(dm, p, prs, 0);
      Some(prs[0])
    else
      var r := FirstFullPair(dm, p, prs[1..]);
      assert forall k :: 1 <= k < |prs| ==> prs[k] == prs[1..][k - 1];
      if r.Some? then
        FirstFullLater(dm, p, prs, r.value);
        r
      else r
  }

  /** Index `n` of `prs` holds a pair `p` completes, and no earlier index does. */
  ghost predicate FirstFullIndex(dm: DayMap, p: Player, prs: seq<(Day, Day)>, n: int) {
    && 0 <= n < |prs|
    && BothFull(dm, p, prs[n].0, prs[n].1)
    && forall q :: 0 <= q < n ==> !BothFull(dm, p, prs[q].0, prs[q].1)
  }

  /** Passing over a first pair that is not full moves the first full index up by one. */
  lemma FirstFullLater(dm: DayMap, p: Player, prs: seq<(Day, Day)>, v: (Day, Day))
    requires prs != [] && !BothFull(dm, p, prs[0].0, prs[0].1)
    requires exists n :: FirstFullIndex(dm, p, prs[1..], n) && prs[1..][n] == v
    ensures exists n :: FirstFullIndex(dm, p, prs, n) && prs[n] == v
  {
    var n :| FirstFullIndex(dm, p, prs[1..], n) && prs[1..][n] == v;
    forall q | 0 <= q < n + 1 ensures !BothFull(dm, p, prs[q].0, prs[q].1) {
      if q > 0 {
        assert prs[q] == prs[1..][q - 1];
      }
    }
    assert FirstFullIndex(dm, p, prs, n + 1);
  }

  /**
   Positions `i < j` of `ds` hold the first pair, in `combinations` order,
   both of whose days `p` completes.
   */
  ghost predicate FirstFullAt(dm: DayMap, p: Player, ds: seq<Day>, i: nat, j: nat) {
    && i < j < |ds|
    && BothFull(dm, p, ds[i], ds[j])
    && forall i2, j2 :: 0 <= i2 < j2 < |ds| && PosBefore((i2, j2), (i, j)) ==> !BothFull(dm, p, ds[i2], ds[j2])
  }

  /** The pair found among a list's pairs is its first full pair of positions. */
  lemma FirstFullPairPositions(dm: DayMap, p: Player, ds: seq<Day>) returns (i: nat, j: nat)
    requires FirstFullPair(dm, p, Pairs(ds)).Some?
    ensures FirstFullAt(dm, p, ds, i, j)
    ensures i < j < |ds| && FirstFullPair(dm, p, Pairs(ds)).value == (ds[i], ds[j])
  {
    var prs := Pairs(ds);
    var ps := PositionPairs(0, |ds|);
    var full := (a, b) => BothFull(dm, p, a, b);
    var n :| FirstFullIndex(dm, p, prs, n) && prs[n] == FirstFullPair(dm, p, prs).value;
    assert forall q :: 0 <= q < n ==> !full(ds[ps[q].0], ds[ps[q].1]) by {
      forall q | 0 <= q < n ensures !full(ds[ps[q].0], ds[ps[q].1]) {
        assert prs[q] == (ds[ps[q].0], ds[ps[q].1]);
      }
    }
    FirstPairByPosition(ds, full, n);
    i, j := ps[n].0, ps[n].1;
  }

  /**
   When no pair before index `n` of the position pairs satisfies `full`,
   no pair of positions before `n`'s, in `combinations` order, does.
   */
  lemma FirstPairByPosition<T>(ds: seq<T>, full: (T, T) -> bool, n: nat)
    requires n < |PositionPairs(0, |ds|)|
    requires forall q :: 0 <= q < n ==> !full(ds[PositionPairs(0, |ds|)[q].0], ds[PositionPairs(0, |ds|)[q].1])
    ensures var ij := PositionPairs(0, |ds|)[n];
            forall i2, j2 :: 0 <= i2 < j2 < |ds| && PosBefore((i2, j2), ij) ==> !full(ds[i2], ds[j2])
  {
    var ps := PositionPairs(0, |ds|);
    forall i2, j2 | 0 <= i2 < j2 < |ds| && PosBefore((i2, j2), ps[n]) ensures !full(ds[i2], ds[j2]) {
      var n2 :| 0 <= n2 < |ps| && ps[n2] == (i2, j2);
      EarlierPairIndex(ps, n2, n);
    }
  }

  /** The loop over the players from the `k`-th on. */
  function ScanPlayers(dm: DayMap, avail: Availability, k: nat): (r: Option<Choice>)
    ensures r.Some? ==> r.value.CriticalForBoth?
    decreases |avail| - k
  {
    if k >= |avail| then None
    else
      var p := avail[k].0;
      var ds := avail[k].1;
      var hit := if |ds| > 1 then FirstFullPair(dm, p, Pairs(ds)) else None;
      match hit
      case Some(pr) => Some(CriticalForBoth(p, pr.0, pr.1, Lookup(dm, pr.0), Lookup(dm, pr.1)))
      case None => ScanPlayers(dm, avail, k + 1)
  }

  /** `_detect_choice_scenario`: the first player, in vote order, who is the fourth of two days. */
  function DetectCriticalForBoth(dm: DayMap, avail: Availability): Option<Choice> {
    ScanPlayers(dm, avail, 0)
  }

  /** `p`, whose entry is `avail[k]`, completes two of their days. */
  predicate CriticalAt(dm: DayMap, avail: Availability, k: int) {
    && 0 <= k < |avail|
    && exists i, j :: 0 <= i < j < |avail[k].1| && BothFull(dm, avail[k].0, avail[k].1[i], avail[k].1[j])
  }

  /**
   The scan from entry `k` finds nothing exactly when no later entry
   completes two days; what it reports is the first entry from `k` on that
   does, with its first full pair of days and their two day lists.
   */
  lemma {:induction false} ScanPlayersMeaning(dm: DayMap, avail: Availability, k: nat)
    ensures ScanPlayers(dm, avail, k).None? <==> forall m :: k <= m < |avail| ==> !CriticalAt(dm, avail, m)
    ensures ScanPlayers(dm, avail, k).Some? ==> ScanFound(dm, avail, k, ScanPlayers(dm, avail, k).value)
    decreases |avail| - k
  {
    if k < |avail| {
      var p := avail[k].0;
      var ds := avail[k].1;
      var hit := if |ds| > 1 then FirstFullPair(dm, p, Pairs(ds)) else None;
      if hit.None? {
        ScanMiss(dm, avail, k);
        ScanPlayersMeaning(dm, avail, k + 1);
        MissStep(dm, avail, k);
      } else {
        ScanHit(dm, avail, k);
      }
    }
  }

  /** Passing over a player who is not critical carries both facts back one position. */
  lemma MissStep(dm: DayMap, avail: Availability, k: nat)
    requires k < |avail|
    requires !CriticalAt(dm, avail, k)
    requires ScanPlayers(dm, avail, k) == ScanPlayers(dm, avail, k + 1)
    requires ScanPlayers(dm, avail, k + 1).None? <==> forall m :: k + 1 <= m < |avail| ==> !CriticalAt(dm, avail, m)
    requires ScanPlayers(dm, avail, k + 1).Some? ==> ScanFound(dm, avail, k + 1, ScanPlayers(dm, avail, k + 1).value)
    ensures ScanPlayers(dm, avail, k).None? <==> forall m :: k <= m < |avail| ==> !CriticalAt(dm, avail, m)
    ensures ScanPlayers(dm, avail, k).Some? ==> ScanFound(dm, avail, k, ScanPlayers(dm, avail, k).value)
  {
    if ScanPlayers(dm, avail, k).Some? {
      ScanFoundLater(dm, avail, k, ScanPlayers(dm, avail, k).value);
    }
  }

  /**
   `c` reports a pair of days of the player at position `m`, in the order
   they listed them, both complete with exactly four players including
   that player, with those days' voters as the pods.
   */
  ghost predicate FoundAt(dm: DayMap, avail: Availability, m: nat, c: Choice) {
    && m < |avail|
    && c.CriticalForBoth?
    && c.player == avail[m].0
    && (exists i, j :: ReportsPair(dm, c, avail[m].1, i, j))
    && BothFull(dm, c.player, c.day1, c.day2)
    && c.pod1 == Lookup(dm, c.day1) && c.pod2 == Lookup(dm, c.day2)
  }

  /** `c` names the first full pair of `ds`, at positions `i < j`. */
  ghost predicate ReportsPair(dm: DayMap, c: Choice, ds: seq<Day>, i: nat, j: nat) {
    c.CriticalForBoth? && FirstFullAt(dm, c.player, ds, i, j) && c.day1 == ds[i] && c.day2 == ds[j]
  }

  /** `c` is found at position `m`, the first from `k` on whose player is critical. */
  ghost predicate FirstFoundAt(dm: DayMap, avail: Availability, k: nat, m: nat, c: Choice) {
    k <= m && FoundAt(dm, avail, m, c) && forall m2 :: k <= m2 < m ==> !CriticalAt(dm, avail, m2)
  }

  /** `c` is found at the first position from `k` on whose player is critical. */
  ghost predicate ScanFound(dm: DayMap, avail: Availability, k: nat, c: Choice) {
    exists m :: FirstFoundAt(dm, avail, k, m, c)
  }

  lemma ScanFoundLater(dm: DayMap, avail: Availability, k: nat, c: Choice)
    requires !CriticalAt(dm, avail, k)
    requires ScanFound(dm, avail, k + 1, c)
    ensures ScanFound(dm, avail, k, c)
  {
    var m :| FirstFoundAt(dm, avail, k + 1, m, c);
    assert FirstFoundAt(dm, avail, k, m, c);
  }

  /** A player with no full pair is passed over: the scan goes on to the next. */
  lemma ScanMiss(dm: DayMap, avail: Availability, k: nat)
    requires k < |avail|
    requires (if |avail[k].1| > 1 then FirstFullPair(dm, avail[k].0, Pairs(avail[k].1)) else None).None?
    ensures !CriticalAt(dm, avail, k)
    ensures ScanPlayers(dm, avail, k) == ScanPlayers(dm, avail, k + 1)
  {
    var p := avail[k].0;
    var ds := avail[k].1;
    forall i, j | 0 <= i < j < |ds| ensures !BothFull(dm, p, ds[i], ds[j]) {
      var n := PairsCover(ds, i, j);
    }
  }

  /** The first player with a full pair is the one reported. */
  lemma ScanHit(dm: DayMap, avail: Availability, k: nat)
    requires k < |avail|
    requires (if |avail[k].1| > 1 then FirstFullPair(dm, avail[k].0, Pairs(avail[k].1)) else None).Some?
    ensures CriticalAt(dm, avail, k)
    ensures ScanPlayers(dm, avail, k).Some? && ScanFound(dm, avail, k, ScanPlayers(dm, avail, k).value)
  {
    var ds := avail[k].1;
    var hit := FirstFullPair(dm, avail[k].0, Pairs(ds));
    var i, j := FirstFullPairPositions(dm, avail[k].0, ds);
    assert ReportsPair(dm, ScanPlayers(dm, avail, k).value, ds, i, j);
    assert FoundAt(dm, avail, k, ScanPlayers(dm, avail, k).value);
    assert FirstFoundAt(dm, avail, k, k, ScanPlayers(dm, avail, k).value);
  }

  /**
   On well-formed votes, what `_detect_choice_scenario` reports is a voter
   who is the fourth of two distinct days of theirs that both have exactly
   four voters, and the pods it shows are those days' voters.
   */
  lemma CriticalForBothSound(avail: Availability)
    requires ValidAvailability(avail)
    ensures var dm := DayIndex(avail);
            DetectCriticalForBoth(dm, avail).Some? ==>
              var c := DetectCriticalForBoth(dm, avail).value;
              && c.player in Keys(avail)
              && c.day1 in DaysOf(avail, c.player) && c.day2 in DaysOf(avail, c.player)
              && c.day1 != c.day2
              && c.pod1 == Lookup(dm, c.day1) && |c.pod1| == 4 && c.player in c.pod1
              && c.pod2 == Lookup(dm, c.day2) && |c.pod2| == 4 && c.player in c.pod2
  {
    var dm := DayIndex(avail);
    var c := DetectCriticalForBoth(dm, avail);
    if c.Some? {
      var m, i, j := CriticalForBothIsFirst(dm, avail);
      LookupEntry(avail, m);
      assert c.value.player in Keys(avail);
      assert NoDup(avail[m].1);
    }
  }

  /**
   What `_detect_choice_scenario` reports comes from the first voter, in
   vote order, who completes two of their days, and names the first such
   pair of their days in `combinations` order, with those days' voters as
   the pods.
   */
  lemma CriticalForBothIsFirst(dm: DayMap, avail: Availability) returns (m: nat, i: nat, j: nat)
    requires DetectCriticalForBoth(dm, avail).Some?
    ensures var c := DetectCriticalForBoth(dm, avail).value;
            && m < |avail| && c.CriticalForBoth? && c.player == avail[m].0
            && (forall m2 :: 0 <= m2 < m ==> !CriticalAt(dm, avail, m2))
            && FirstFullAt(dm, c.player, avail[m].1, i, j)
            && c.day1 == avail[m].1[i] && c.day2 == avail[m].1[j]
            && c.pod1 == Lookup(dm, c.day1) && c.pod2 == Lookup(dm, c.day2)
  {
    var c := DetectCriticalForBoth(dm, avail).value;
    ScanPlayersMeaning(dm, avail, 0);
    assert ScanFound(dm, avail, 0, c);
    m :| FirstFoundAt(dm, avail, 0, m, c);
    assert FoundAt(dm, avail, m, c);
    i, j :| ReportsPair(dm, c, avail[m].1, i, j);
  }

  /** `p` voted for the distinct days `d1` and `d2`, each of which has exactly four voters. */
  predicate NeededOnTwoDays(avail: Availability, p: Player, d1: Day, d2: Day) {
    var dm := DayIndex(avail);
    && p in Keys(avail) && d1 in DaysOf(avail, p) && d2 in DaysOf(avail, p) && d1 != d2
    && |Lookup(dm, d1)| == 4 && |Lookup(dm, d2)| == 4
  }

  /**
   On well-formed votes `_detect_choice_scenario` reports nothing exactly
   when no voter is the fourth of two distinct days of theirs that both
   have exactly four voters.
   */
  lemma CriticalForBothComplete(avail: Availability)
    requires ValidAvailability(avail)
    ensures DetectCriticalForBoth(DayIndex(avail), avail).None?
            <==> !exists p, d1, d2 :: NeededOnTwoDays(avail, p, d1, d2)
  {
    var dm := DayIndex(avail);
    ScanPlayersMeaning(dm, avail, 0);
    if exists p, d1, d2 :: NeededOnTwoDays(avail, p, d1, d2) {
      var p, d1, d2 :| NeededOnTwoDays(avail, p, d1, d2);
      var m := NeededIsCritical(avail, p, d1, d2);
    } else {
      CriticalForBothSound(avail);
      var c := DetectCriticalForBoth(dm, avail);
      if c.Some? {
        assert NeededOnTwoDays(avail, c.value.player, c.value.day1, c.value.day2);
      }
    }
  }

  /** A voter needed on two days is found by the scan at their own entry. */
  lemma NeededIsCritical(avail: Availability, p: Player, d1: Day, d2: Day) returns (m: nat)
    requires ValidAvailability(avail)
    requires NeededOnTwoDays(avail, p, d1, d2)
    ensures m < |avail| && CriticalAt(DayIndex(avail), avail, m)
  {
    assert p in KeyList(avail);
    m :| 0 <= m < |avail| && avail[m].0 == p;
    LookupEntry(avail, m);
    var ds := avail[m].1;
    assert d1 in ds && d2 in ds;
    var lo, hi := Positions(ds, d1, d2);
    FullPairAt(avail, m, lo, hi);
  }

  /** Two of a voter's days with four voters each make the voter critical for both. */
  lemma FullPairAt(avail: Availability, m: nat, a: nat, b: nat)
    requires ValidAvailability(avail)
    requires m < |avail| && a < b < |avail[m].1|
    requires |Lookup(DayIndex(avail), avail[m].1[a])| == 4 && |Lookup(DayIndex(avail), avail[m].1[b])| == 4
    ensures CriticalAt(DayIndex(avail), avail, m)
  {
    var dm := DayIndex(avail);
    var p := avail[m].0;
    var ds := avail[m].1;
    LookupEntry(avail, m);
    assert p in Keys(avail);
    DayIndexVoters(avail, ds[a]);
    DayIndexVoters(avail, ds[b]);
    assert BothFull(dm, p, ds[a], ds[b]);
  }

  // ---------------------------------------------------------------------
  // Steps of the two detectors

  /** Without preferences, a candidate is a seated player who voted for more than one day. */
  lemma CandidatesWithoutPrefs(st: FillState, avail: Availability, day: Day, l: seq<Player>)
    ensures Candidates(st, avail, map[], day, l) == Filter(l, p => p in st.placed && |DaysOf(avail, p)| > 1)
  {
    FilterCongruent(l, p => IsCandidate(st, avail, map[], day, p), p => p in st.placed && |DaysOf(avail, p)| > 1);
  }

  /** A day that is not exactly one player short is passed over. */
  lemma PassOver(st: FillState, avail: Availability, prefs: Prefs, days: seq<(Day, seq<Player>)>)
    requires days != [] && |Unassigned(days[0].1, st.placed)| != 3
    ensures DetectDoublePlay(st, avail, prefs, days) == DetectDoublePlay(st, avail, prefs, days[1..])
  {
  }

  /** A day one player short with someone to play twice is the one reported. */
  lemma ReportHere(st: FillState, avail: Availability, prefs: Prefs, days: seq<(Day, seq<Player>)>)
    requires days != [] && |Unassigned(days[0].1, st.placed)| == 3
    requires Candidates(st, avail, prefs, days[0].0, days[0].1) != []
    ensures DetectDoublePlay(st, avail, prefs, days)
         == Some(DoublePlayNeeded(days[0].0, Unassigned(days[0].1, st.placed), Candidates(st, avail, prefs, days[0].0, days[0].1)))
  {
  }

  /** When at most one day has exactly four voters, nobody can be the fourth of two. */
  lemma OneDayOfFour(avail: Availability, x: Day)
    requires ValidAvailability(avail)
    requires forall d :: |Lookup(DayIndex(avail), d)| == 4 ==> d == x
    ensures DetectCriticalForBoth(DayIndex(avail), avail).None?
  {
    CriticalForBothComplete(avail);
  }
}
