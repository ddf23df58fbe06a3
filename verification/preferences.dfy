/**
 Per-player scheduling preferences and the check `_can_assign_to_day`
 that decides whether one more game on a given day respects them.
 */
module Preferences {
  import opened Days
  import opened Availability

  datatype Preference =
    | OneGameOnly    // at most one pod in the whole week
    | NoConsecutive  // never two pods on neighbouring days

  /** Player to preference flags; a player not in the map has none. */
  type Prefs = map<Player, set<Preference>>

  /** `preferences.get(player, set())`. */
  function PrefsOf(prefs: Prefs, p: Player): set<Preference> {
    if p in prefs then prefs[p] else {}
  }

  /** `player_assigned_days.get(player, [])`. */
  function AssignedDaysOf(podDays: map<Player, seq<Day>>, p: Player): seq<Day> {
    if p in podDays then podDays[p] else []
  }

  /** One of `days` neighbours `day`. */
  predicate NextToAny(days: seq<Day>, day: Day) {
    exists i :: 0 <= i < |days| && IsAdjacent(days[i], day)
  }

  /**
   `_can_assign_to_day`: false when the player wants one game only and
   already has one, or wants no consecutive nights and already plays on a
   neighbouring day.
   */
  function CanAssign(p: Player, day: Day, podDays: map<Player, seq<Day>>, prefs: Prefs): (r: bool)
    ensures PrefsOf(prefs, p) == {} ==> r
    ensures AssignedDaysOf(podDays, p) == [] ==> r
    ensures !IsWeekday(day) && OneGameOnly !in PrefsOf(prefs, p) ==> r
  {
    var pp := PrefsOf(prefs, p);
    var held := AssignedDaysOf(podDays, p);
    if OneGameOnly in pp && |held| >= 1 then false
    else if NoConsecutive in pp && NextToAny(held, day) then false
    else true
  }

  /** A list of game days a player with flags `pp` accepts. */
  predicate RespectsPrefs(days: seq<Day>, pp: set<Preference>) {
    && (OneGameOnly in pp ==> |days| <= 1)
    && (NoConsecutive in pp ==>
          forall i, j :: 0 <= i < |days| && 0 <= j < |days| ==> !IsAdjacent(days[i], days[j]))
  }

  /**
   `_can_assign_to_day` is exactly the incremental check of the preferences:
   starting from game days the player accepts, it allows a new day if and
   only if the player accepts the extended list.
   */
  lemma CanAssignExactly(p: Player, day: Day, podDays: map<Player, seq<Day>>, prefs: Prefs)
    requires RespectsPrefs(AssignedDaysOf(podDays, p), PrefsOf(prefs, p))
    ensures CanAssign(p, day, podDays, prefs)
        <==> RespectsPrefs(AssignedDaysOf(podDays, p) + [day], PrefsOf(prefs, p))
  {
    var pp := PrefsOf(prefs, p);
    var ds := AssignedDaysOf(podDays, p);
    var ext := ds + [day];
    if NoConsecutive in pp && NextToAny(ds, day) {
      var i :| 0 <= i < |ds| && IsAdjacent(ds[i], day);
      assert ext[i] == ds[i] && ext[|ds|] == day;
    }
    if CanAssign(p, day, podDays, prefs) && NoConsecutive in pp {
      forall i, j | 0 <= i < |ext| && 0 <= j < |ext| ensures !IsAdjacent(ext[i], ext[j]) {
        AdjacencySymmetric(ext[i], ext[j]);
        if i < |ds| && j < |ds| {
          assert ext[i] == ds[i] && ext[j] == ds[j];
        } else if i < |ds| {
          assert ext[i] == ds[i];
        } else if j < |ds| {
          assert ext[j] == ds[j];
        }
      }
    }
  }
}
