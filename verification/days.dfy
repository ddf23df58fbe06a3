/**
 Days of the week as the optimizer sees them: the seven canonical weekday
 names, their position in the week, and the cyclic adjacency table used by
 the no-consecutive-nights preference. A day name outside the seven is kept
 as `Other(name)`: it sorts last and has no neighbours.
 */
module Days {

  datatype Day =
    | Monday | Tuesday | Wednesday | Thursday | Friday | Saturday | Sunday
    | Other(name: string)

  /** The weekday names, in week order. */
  const CanonicalNames: seq<string> :=
    ["Monday", "Tuesday", "Wednesday", "Thursday", "Friday", "Saturday", "Sunday"]

  /** The string the poll uses for a day. */
  function Name(d: Day): string {
    match d
    case Monday => "Monday"
    case Tuesday => "Tuesday"
    case Wednesday => "Wednesday"
    case Thursday => "Thursday"
    case Friday => "Friday"
    case Saturday => "Saturday"
    case Sunday => "Sunday"
    case Other(n) => n
  }

  /** The day a poll answer names. */
  function Parse(s: string): (d: Day)
    ensures s in CanonicalNames <==> !d.Other?
    ensures Name(d) == s
  {
    if s == "Monday" then Monday
    else if s == "Tuesday" then Tuesday
    else if s == "Wednesday" then Wednesday
    else if s == "Thursday" then Thursday
    else if s == "Friday" then Friday
    else if s == "Saturday" then Saturday
    else if s == "Sunday" then Sunday
    else Other(s)
  }

  /** A day value that some string parses to. */
  predicate WellNamed(d: Day) {
    d.Other? ==> d.name !in CanonicalNames
  }

  /** Parsing and naming are inverse: a day is determined by its name. */
  lemma ParseName(d: Day)
    requires WellNamed(d)
    ensures Parse(Name(d)) == d
  {
  }

  /** Whether a day counts as a canonical weekday. */
  predicate IsWeekday(d: Day) {
    !d.Other?
  }

  /**
   Position in the week used for the earlier-in-week tie-break:
   Monday 0 .. Sunday 6, and 99 for any other name.
   */
  function DayOrder(d: Day): (r: int)
    ensures IsWeekday(d) <==> 0 <= r < 7
    ensures !IsWeekday(d) ==> r == 99
  {
    match d
    case Monday => 0
    case Tuesday => 1
    case Wednesday => 2
    case Thursday => 3
    case Friday => 4
    case Saturday => 5
    case Sunday => 6
    case Other(_) => 99
  }

  /** The neighbours of a day in the week, which wraps from Sunday to Monday. */
  function Adjacent(d: Day): (r: seq<Day>)
    ensures !IsWeekday(d) <==> r == []
  {
    match d
    case Monday => [Sunday, Tuesday]
    case Tuesday => [Monday, Wednesday]
    case Wednesday => [Tuesday, Thursday]
    case Thursday => [Wednesday, Friday]
    case Friday => [Thursday, Saturday]
    case Saturday => [Friday, Sunday]
    case Sunday => [Saturday, Monday]
    case Other(_) => []
  }

  /** `a` is one of the neighbours the table lists for `b`. */
  predicate IsAdjacent(a: Day, b: Day) {
    a in Adjacent(b)
  }

  /**
   Reference definition of adjacency: two weekdays one step apart on the
   seven-day cycle.
   */
  predicate CyclicNeighbours(a: Day, b: Day) {
    IsWeekday(a) && IsWeekday(b) &&
    ((DayOrder(a) - DayOrder(b)) % 7 == 1 || (DayOrder(b) - DayOrder(a)) % 7 == 1)
  }

  /** The adjacency table is exactly the seven-day cycle. */
  lemma AdjacencyIsCyclic(a: Day, b: Day)
    ensures IsAdjacent(a, b) <==> CyclicNeighbours(a, b)
  {
  }

  /** The table is symmetric, irreflexive, and wraps the week around. */
  lemma AdjacencySymmetric(a: Day, b: Day)
    ensures IsAdjacent(a, b) <==> IsAdjacent(b, a)
    ensures !IsAdjacent(a, a)
    ensures IsAdjacent(Sunday, Monday) && IsAdjacent(Monday, Sunday)
  {
  }

  /**
   The empty day name, the only day for which Python's `if required_day:`
   is false.
   */
  predicate IsBlank(d: Day) {
    d == Other("")
  }
}
