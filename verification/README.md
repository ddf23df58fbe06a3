# Pod optimizer model

A Dafny model of the pod-assignment engine of the Commander game-night bot.
The engine takes a poll's answers (each player's list of days) and optional
per-player flags (one game only, no consecutive nights). It groups players
into pods of four, one day per pod. It reports who got a game and who did
not, and at most one situation that a person has to settle. That is either
a player who is the fourth of two days' groups ("critical for both"), or a
day one player short where somebody with a game could play twice ("double
play needed").

The engine runs in five steps:

1. It inverts the votes into a day index: day to players, in vote order.
2. It reserves "critical" flexible players for the one day that needs them,
   unless the reservation would cost another of their days a complete pod.
3. It orders the days by the key (complete, single-day voters, headcount,
   earlier in the week), largest first.
4. It walks the days, cutting the eligible players into groups of four in
   list order, and releases reservations that have become moot.
5. It looks for a day one player short. A player who is critical for both
   overrides that report.

The earlier root-level variant of the optimizer is modelled too. It has no
preferences and no reservations, and it orders days by (single-day voters,
headcount).

Modules, following the program's structure:

- `Days`: day names, week order, the cyclic adjacency table.
- `Multimap`: Python dicts of lists as ordered entry sequences, and their inversion.
- `Availability`: votes, the day index, the single-day-voter count.
- `Preferences`: the flags and `_can_assign_to_day`.
- `Pods`: pods, results, and what a valid result is.
- `Ordering`: Python tuple order and a stable descending sort.
- `Critical`: `_detect_critical_flexible_players`.
- `Assignment`: the fill loop of step 3 and its invariant.
- `Choices`: the double-play pass and `_detect_choice_scenario`.
- `Optimizer`: `_find_best_assignment` and `optimize_pods`.
- `Legacy`: the earlier variant.
- `Scenarios`: polls from the repository's test suite, derived from the general lemmas.
- `DoublePlayPoll`: the double-play regression poll, followed through every step of the engine.
- `Seqs`, `Wrappers`: generic helpers.

The model's choices about the data:

- Python dicts keep insertion order, so every dict is a sequence of
  (key, list) entries.
- A day name outside the seven weekdays is kept as `Other(name)`. As in the
  code, it sorts with rank 99 and has no neighbours.
- Python's `//` by 4 is Dafny's `/` by 4. The divisor is positive, so floor
  and Euclidean division agree.
- Python's `sorted(..., reverse=True)` is stable, and the model proves the
  stability of its own sort.
- All operations are total functions. Lemmas about whole runs assume
  well-formed votes (`ValidAvailability`): each player appears once, which
  holds for any dict, and lists each day once, which holds because the bot
  records one answer per voter and day.

One design observation is proved, not assumed: during the fill the
preferences never exclude anybody (`Assignment.PrefsNeverBlockFill`).
Every player who has a game is already ineligible, so a player being
considered has no game days to clash with. The flags only matter for the
double-play candidates.

## Model

| member | source | states |
|---|---|---|
| Days.Parse | src/lfg_bot/utils/pod_optimizer.py:254-255 | a name parses to one of the seven weekdays exactly when it is one of the seven canonical names, and the parsed day carries that name back |
| Days.ParseName | src/lfg_bot/utils/pod_optimizer.py:254-255 | naming a day and parsing the name gives the same day back |
| Days.DayOrder | src/lfg_bot/utils/pod_optimizer.py:254-263 | weekdays get positions 0 to 6 and any other name gets 99 |
| Days.Adjacent | src/lfg_bot/utils/pod_optimizer.py:16-24 | a day outside the week has no neighbours, and every weekday has some |
| Days.AdjacencyIsCyclic | src/lfg_bot/utils/pod_optimizer.py:16-24 | the table lists exactly the pairs of weekdays one step apart on the seven-day cycle |
| Days.AdjacencySymmetric | src/lfg_bot/utils/pod_optimizer.py:15-24 | adjacency is symmetric and irreflexive, and Sunday and Monday are neighbours |
| Preferences.CanAssign | src/lfg_bot/utils/pod_optimizer.py:46-79 | a player with no flags, or with no game yet, may always be assigned, and a day outside the week is refused only for one game only |
| Preferences.CanAssignExactly | src/lfg_bot/utils/pod_optimizer.py:46-79 | starting from accepted game days, the check allows a day if and only if the extended list still respects one-game-only and no-consecutive-nights |
| Multimap.Append | src/lfg_bot/utils/pod_optimizer.py:107-109 | appending under a key extends that key's list by the value, leaves every other list alone, and adds the key at the end only when it is new |
| Multimap.Invert | src/lfg_bot/utils/pod_optimizer.py:101-109 | the inverted map has each voted value once, in order of first vote, and lists under each value exactly the keys holding it, in key order |
| Multimap.HoldersFilter | src/lfg_bot/utils/pod_optimizer.py:105-109 | the players listed under a day are the availability keys filtered by having voted for it, without repeats |
| Availability.DayIndex | src/lfg_bot/utils/pod_optimizer.py:101-109 | the day index's keys are the voted days, each once, in order of first vote |
| Availability.DayIndexVoters | src/lfg_bot/utils/pod_optimizer.py:105-109 | a player is listed under a day if and only if they are a key who voted for it, each once, in availability order |
| Availability.DayIndexNonEmpty | src/lfg_bot/utils/pod_optimizer.py:106-109 | every day of the index lists at least one voter |
| Availability.CountUniqueMeaning | src/lfg_bot/utils/pod_optimizer.py:123-130 | the unique count of a day is the number of players who voted for that day and no other |
| Availability.Reconstruct | src/lfg_bot/utils/pod_optimizer.py:226-233 | the rebuilt availability map lists each player once |
| Availability.ReconstructRoundTrip | src/lfg_bot/utils/pod_optimizer.py:226-233 | rebuilding votes from the day index gives every player exactly their own days, each once |
| Multimap.InvertTwice | src/lfg_bot/utils/pod_optimizer.py:226-233 | inverting twice gives back every key's values up to order, without repeats |
| Ordering.SortDesc | src/lfg_bot/utils/pod_optimizer.py:266-270 | the sorted list is a permutation of the input with keys never increasing |
| Ordering.SortStable | src/lfg_bot/utils/pod_optimizer.py:266-270 | elements with equal keys keep their input order |
| Ordering.LexTotal | src/lfg_bot/utils/pod_optimizer.py:264 | Python tuple order on integer tuples is total |
| Ordering.LexTransitive | src/lfg_bot/utils/pod_optimizer.py:264 | Python tuple order is transitive |
| Optimizer.Priority | src/lfg_bot/utils/pod_optimizer.py:257-264 | the key's first component says whether the day's list is a positive multiple of four, its second is the day's unique count, its third the day's headcount and its fourth the negated weekday rank |
| Optimizer.CompleteDaysFirst | src/lfg_bot/utils/pod_optimizer.py:248-270 | every complete day is visited before every incomplete one; among days equally complete, more single-day voters come first; then the larger headcount; then the earlier weekday |
| Optimizer.TiesKeepVoteOrder | src/lfg_bot/utils/pod_optimizer.py:266-270 | days with equal keys are visited in order of first vote |
| Optimizer.SoleCompleteDayFirst | src/lfg_bot/utils/pod_optimizer.py:257-270 | when exactly one day is complete it is visited first |
| Critical.NeedingDays | src/lfg_bot/utils/pod_optimizer.py:160-169 | the needing days are exactly the player's days that would fall below four without them, each once |
| Critical.SpareDays | src/lfg_bot/utils/pod_optimizer.py:160-170 | the spare days are exactly the player's days that keep four or more without them, each once |
| Critical.IncrementAll | src/lfg_bot/utils/pod_optimizer.py:195-196 | each listed day's reserved-away count goes up by one and every other count stays |
| Critical.OneMoreKeepsPods | src/lfg_bot/utils/pod_optimizer.py:179-190 | a day that still has its full pod count keeps it after one more reservation if and only if the veto test lets that reservation through |
| Critical.ReservationJustified | src/lfg_bot/utils/pod_optimizer.py:168-174 | a reservation is made only for a player with two or more days, for the one day that needs them, while another of their days does not |
| Critical.ConsiderKeepsInv | src/lfg_bot/utils/pod_optimizer.py:160-196 | one player's step keeps every reservation justified, keeps every day's pods, and keeps the counts equal to the players reserved away |
| Critical.DetectCriticalSound | src/lfg_bot/utils/pod_optimizer.py:133-198 | every reservation is justified, and each day's reserved-away count is the number of its voters held for another day |
| Critical.VetoKeepsEveryDaysPods | src/lfg_bot/utils/pod_optimizer.py:176-196 | after all reservations, every day can still form as many complete pods from the players not reserved away as from its whole headcount |
| Assignment.Record | src/lfg_bot/utils/pod_optimizer.py:300-305 | each pod player's day log gains the pod's day and nobody else's log changes |
| Assignment.FillDay | src/lfg_bot/utils/pod_optimizer.py:293-310 | after a day's loop fewer than four eligible players remain, earlier pods are untouched, and every new pod is four of the day's players on that day |
| Assignment.FillDayLoop | src/lfg_bot/utils/pod_optimizer.py:293-310 | the loop as written, recomputing the eligible list after each pod, ends with fewer than four eligible and agrees with the recursive definition |
| Assignment.EligibleAfterPod | src/lfg_bot/utils/pod_optimizer.py:281-307 | forming a pod makes exactly its players ineligible and changes nobody else's eligibility |
| Assignment.FillDayBlocks | src/lfg_bot/utils/pod_optimizer.py:296-310 | the day's pods are the eligible players cut into consecutive groups of four, in list order |
| Assignment.FillDayLeftover | src/lfg_bot/utils/pod_optimizer.py:296-310 | what stays eligible after the day is the tail of the eligible list, fewer than four |
| Assignment.UntouchedDayPods | src/lfg_bot/utils/pod_optimizer.py:272-310 | a day none of whose players has a game forms a pod for every four players, provided the players held elsewhere do not cost it a group |
| Assignment.ReservedOnlyForTarget | src/lfg_bot/utils/pod_optimizer.py:285-287 | a player still held back is eligible only on the day they are held for |
| Assignment.PrefsNeverBlockFill | src/lfg_bot/utils/pod_optimizer.py:281-291 | in the fill, eligibility is just being unplaced and not held for another day, whatever the preferences |
| Assignment.FillDays | src/lfg_bot/utils/pod_optimizer.py:272-328 | earlier pods stay, every pod has four seats, and after the last day every remaining reservation is for a day that still has four unplaced players, or for an empty day name, which Python's `if required_day:` never releases |
| Assignment.FillDaysSplit | src/lfg_bot/utils/pod_optimizer.py:273 | walking two stretches of days in a row is walking them joined |
| Assignment.AssignPodKeepsInv | src/lfg_bot/utils/pod_optimizer.py:297-307 | adding a pod of four distinct unplaced voters keeps the fill's invariant |
| Assignment.FillDayKeepsInv | src/lfg_bot/utils/pod_optimizer.py:293-310 | one day's fill keeps pods of four voters, nobody seated twice, and the placed set, day log and reservations consistent |
| Assignment.FillDaysKeepsInv | src/lfg_bot/utils/pod_optimizer.py:272-328 | the whole walk, with releases, keeps that invariant |
| Assignment.InvKeepsPrefs | src/lfg_bot/utils/pod_optimizer.py:281-291 | under the invariant a player has at most one game day and it respects their flags |
| Assignment.InvGivesValidResult | src/lfg_bot/utils/pod_optimizer.py:367-373 | a fill state under the invariant, reported with the voters split by it, is a valid result |
| Choices.DetectDoublePlay | src/lfg_bot/utils/pod_optimizer.py:330-365 | the second pass reports nothing but a double-play record |
| Choices.DoublePlayIsFirstOpening | src/lfg_bot/utils/pod_optimizer.py:330-365 | it reports nothing if and only if no day is three short with a candidate, and otherwise the first such day in priority order, its three waiting players and its candidates |
| Choices.CandidatesKeepPrefs | src/lfg_bot/utils/pod_optimizer.py:342-348 | every candidate has exactly one game, voted for more than one day, and could add the day without breaking their flags |
| Choices.Pairs | src/lfg_bot/utils/pod_optimizer.py:400 | pair n holds the list's entries at the n-th pair of positions from `PositionPairs`, so the pairs are the entries at every i < j, in lexicographic order of positions |
| Choices.PositionPairs | src/lfg_bot/utils/pod_optimizer.py:400 | every pair of positions i < j appears, and the pairs run in strictly increasing lexicographic order |
| Choices.PairsCover | src/lfg_bot/utils/pod_optimizer.py:400 | every pair of positions i < j of the list has an index among the pairs holding its two entries |
| Choices.PairsArePositions | src/lfg_bot/utils/pod_optimizer.py:400 | every pair is the entries at two positions i < j |
| Choices.FirstFullPair | src/lfg_bot/utils/pod_optimizer.py:400-425 | it finds nothing if and only if no pair has both days at exactly four voters including the player; what it finds is such a pair with no such pair before it |
| Choices.FirstFullPairPositions | src/lfg_bot/utils/pod_optimizer.py:400-425 | the pair found for a player's day list sits at positions i < j with no full pair at lexicographically earlier positions |
| Choices.ScanPlayersMeaning | src/lfg_bot/utils/pod_optimizer.py:392-427 | the scan finds nothing if and only if no later player completes two days; what it reports is the first later player who does, with their first full pair and its two days' voters as pods |
| Choices.CriticalForBothSound | src/lfg_bot/utils/pod_optimizer.py:382-427 | a reported player voted for two distinct days, each with exactly four voters including them, and the pods shown are those days' voters |
| Choices.CriticalForBothIsFirst | src/lfg_bot/utils/pod_optimizer.py:392-427 | the report comes from the first voter in vote order who completes two days, names their first such pair in combinations order, and shows those days' voters |
| Choices.CriticalForBothComplete | src/lfg_bot/utils/pod_optimizer.py:382-427 | nothing is reported if and only if no voter is the fourth of two distinct days of theirs that both have exactly four voters |
| Optimizer.FindBestAssignment | src/lfg_bot/utils/pod_optimizer.py:367-379 | the players without a game are all players minus those with one, and the only choice it reports is a double play |
| Optimizer.OptimizeIsValid | src/lfg_bot/utils/pod_optimizer.py:82-120 | pods of four who all voted for the pod's day, nobody in two pods, those with games exactly the pod members, and the voters split between the two sets |
| Optimizer.OptimizeKeepsPrefs | src/lfg_bot/utils/pod_optimizer.py:272-310 | every player has at most one game, on a day their flags accept |
| Optimizer.ChoicePrecedence | src/lfg_bot/utils/pod_optimizer.py:111-120 | the result carries a critical-for-both choice if and only if some voter is the fourth of two days, and otherwise whatever the double-play pass found |
| Optimizer.PodsAreFourVoters | src/lfg_bot/utils/pod_optimizer.py:293-298 | every pod is four distinct voters of its day, so its day has at least four voters |
| Optimizer.DayPodsKept | src/lfg_bot/utils/pod_optimizer.py:273-298 | the pods formed up to and including any day stay, in order, at the front of the result |
| Optimizer.UnclaimedDayFillsCompletely | src/lfg_bot/utils/pod_optimizer.py:272-328 | a day reached with none of its voters placed gets a pod for every four voters, all on that day, and they are kept in the result |
| Optimizer.FirstDayFillsCompletely | src/lfg_bot/utils/pod_optimizer.py:266-310 | the result opens with a pod for every four voters of the first day visited |
| Optimizer.OnlyDayWithPods | src/lfg_bot/utils/pod_optimizer.py:293-298 | when only one day has four or more voters, every pod and every seat is on that day |
| Optimizer.FullCount | src/lfg_bot/utils/pod_optimizer.py:367-373 | a valid result seating only players of a duplicate-free multiple of four, with a pod for every four of them, seats exactly them |
| Optimizer.SoleFullDay | src/lfg_bot/utils/pod_optimizer.py:82-120 | when one day's voters are a positive multiple of four and every other day has fewer than four, exactly that day's voters get a game, in a pod for every four |
| Optimizer.OnlyBusyDay | src/lfg_bot/utils/pod_optimizer.py:82-120 | when only one day has four or more voters, it gets a pod for every four of them and no other day gets any: four players per pod have a game, each of them a voter of that day, and every other voter has none |
| Legacy.PlainPriority | pod_optimizer.py:96-100 | the earlier key is the day's unique count followed by its headcount |
| Legacy.PlainOrder | pod_optimizer.py:95-100 | days are visited by descending unique count, then descending headcount |
| Legacy.PlainFillDay | pod_optimizer.py:102-115 | after a day's loop fewer than four of its players are unplaced, and earlier pods are untouched |
| Legacy.PlainFillDayAgrees | pod_optimizer.py:102-115 | the earlier loop forms the same pods and places the same players as the current loop with nothing reserved and no preferences |
| Legacy.PlainFillDaysAgrees | pod_optimizer.py:102-115 | the same holds over any list of days |
| Legacy.PlainFindBestAssignment | pod_optimizer.py:72-123 | it never reports a choice, and the players without a game are all players minus those with one |
| Legacy.PlainOptimizeIsValid | pod_optimizer.py:30-59 | the earlier result is valid too: pods of four voters of their day, nobody twice, the voters split between the two sets |
| Legacy.SameCriticalChoice | pod_optimizer.py:53-57 | when a player is the fourth of two days, both optimizers report the same choice |
| Scenarios.EmptyPoll | tests/test_pod_optimizer.py:133-141 | with no votes there are no pods and both player sets are empty |
| Scenarios.PlainEmptyPoll | test_pod_optimizer.py:127-135 | the same for the earlier optimizer |
| Scenarios.OneFullDay | src/lfg_bot/utils/pod_optimizer.py:82-120 | SoleFullDay stated on the votes: one voted-for day with a positive multiple of four voters, all others under four |
| Scenarios.EightFlexibleFormTwoPods | tests/test_pod_optimizer.py:219-261 | eight players free on Monday and one other day, plus one on Thursday only: two Monday pods, the eight get games, the ninth does not |
| Scenarios.IndexIs | src/lfg_bot/utils/pod_optimizer.py:101-109 | a day index is fixed by the order of first votes and each day's voters |
| Assignment.EligibleUnplaced | src/lfg_bot/utils/pod_optimizer.py:280-293 | with nobody held and no preferences, a day's eligible players are exactly its unplaced voters, in list order |
| Assignment.ShortDaysAddNothing | src/lfg_bot/utils/pod_optimizer.py:295-328 | a run of days with fewer than four players each forms no pod and places nobody |
| Assignment.ShortDayStays | src/lfg_bot/utils/pod_optimizer.py:295-328 | a day with fewer than four eligible players, when nobody is held, leaves the fill state as it was |
| Choices.CandidatesWithoutPrefs | src/lfg_bot/utils/pod_optimizer.py:340-348 | without preferences, the candidates are the day's seated voters who voted for more than one day |
| Choices.OneDayOfFour | src/lfg_bot/utils/pod_optimizer.py:382-427 | when at most one day has exactly four voters, nobody is reported as the fourth of two days |
| DoublePlayPoll.PatrickNotHeld | src/lfg_bot/utils/pod_optimizer.py:160-174 | patrick, whose absence would leave both Monday and Tuesday short, is not reserved |
| DoublePlayPoll.EliHeldForMonday | src/lfg_bot/utils/pod_optimizer.py:160-196 | eli, Monday's fourth, is reserved for Monday, because Wednesday keeps a pod without him; one player is counted away from Wednesday |
| DoublePlayPoll.PairVetoed | src/lfg_bot/utils/pod_optimizer.py:176-196 | reserving chad or matt for Tuesday is vetoed: with eli already counted away, Wednesday would lose its pod |
| DoublePlayPoll.PollReservations | src/lfg_bot/utils/pod_optimizer.py:133-198 | on that poll the reservation pass holds eli alone, for Monday |
| DoublePlayPoll.PollSorted | src/lfg_bot/utils/pod_optimizer.py:248-270 | the days are visited Monday, Wednesday, Tuesday |
| DoublePlayPoll.PollFill | src/lfg_bot/utils/pod_optimizer.py:272-328 | the fill forms Monday's pod and nothing else |
| DoublePlayPoll.DoublePlayOnWednesday | src/lfg_bot/utils/pod_optimizer.py:330-365 | the second pass passes over Monday and reports Wednesday, with chad, matt and trevor waiting and patrick and eli as candidates |
| DoublePlayPoll.NoCriticalForBoth | src/lfg_bot/utils/pod_optimizer.py:382-427 | nobody in the poll is the fourth of two days |
| DoublePlayPoll.DoublePlayPollResult | tests/test_pod_optimizer.py:164-217 | the whole result: one Monday pod of n8, chris, patrick and eli; chad, matt and trevor without a game; and a Wednesday double-play prompt naming those three as waiting and patrick and eli as candidates |

## Left out

- `format_pod_results` in both files: it only renders Discord markup.
- The `message` and `scenario` strings of a choice record: the choice is a datatype whose constructor names the scenario.
- `current_result`, the unused parameter of `_detect_choice_scenario`.
- `availability[player]` raising `KeyError` in `_count_unique_players` for a listed player who is not a key. The day index never lists such a player, and for a given map the model reads a missing player as having no days.
- Calling `_find_best_assignment` with no preferences: that is the empty map.
- Calling `optimize_pods` with preferences `None`: that is `map[]` too.
- Incomplete-pod records and `group_pods_by_day`: neither optimizer produces them.
- An invalid-day error: unknown day names raise none. They get rank 99 (src/lfg_bot/utils/pod_optimizer.py:263) and no neighbours (line 74), and the model follows the code.
- The basic test polls (tests/test_pod_optimizer.py:25-131) are not restated as poll-by-poll lemmas. The one-day polls (lines 25-73 and 117-131) are instances of `Optimizer.OnlyBusyDay`. The two-day poll (lines 75-95) follows from `Optimizer.UnclaimedDayFillsCompletely` applied to both days, whose voters are disjoint, together with `Optimizer.OptimizeIsValid`. The shared-voter poll (lines 97-115) follows from `Optimizer.FirstDayFillsCompletely` and `Optimizer.OptimizeIsValid`.
- I/O, the Discord bot, the database and the scheduler around the optimizer.
- Optimizer.OptimizeIsValid: assumes well-formed votes, meaning each player once and each of their days once. The code accepts any dict, but a repeated day in a player's list would list them twice under that day.
- Legacy.PlainOptimizeIsValid: the same assumption.
- Choices.CriticalForBothSound: the same assumption.
- Critical.DetectCriticalSound: assumes distinct players, which holds for any dict.
- Assignment.FillDayBlocks: assumes the day's list has no repeats, which holds for the day index of well-formed votes.
