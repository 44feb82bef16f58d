# Train disruption explorer: analytics engine in Dafny

This project models the analytics engine of a train-disruption explorer for
the Dutch rail network. The engine does four jobs.

1. It turns a disruption's comma-separated station-code field into an
   ordered code list. From that list it derives every directed route
   `from → to` with `from` listed before `to`. It unions those routes over a
   period, which is every year or one year, and keeps only routes whose two
   endpoints are allowed stations.
2. It handles the user's chosen departure and arrival, as follows:
   - It selects the disruptions in which the departure comes before the
     arrival.
   - It tallies their causes in first-seen order.
   - It counts, for every route of the universe, in how many disruptions
     that route occurs.
   - It merges a synthetic user entry into that ranking, sorts the ranking
     stably by value, highest first, and numbers the ranks by position.
   - It cuts a window of at most 15 entries around the user entry.
3. It groups the matching disruptions by the weekday they started on. Each
   weekday gets a count, the durations, the start times, a peak-hour label
   and an average fix time in minutes.
4. It selects the allowed stations and groups their coordinates by station
   code.

The model has one Dafny module per component.

- **Value-level parts are functions**, with lemmas about them.
- **Source loops are methods.** Each is proved against a specification
  function:
  - the nested pair loop;
  - the route and cause counters;
  - the peak-hour scan;
  - the weekday fold;
  - the coordinate grouping;
  - the in-place stable sort on an `array`;
  - the rank assignment.
- **JS values are modelled as follows:**
  - A JS `Set` or an object used as an ordered dictionary is an
    insertion-ordered `seq` without duplicates (module `OrderedSets`), or a
    `map` next to that `seq`.
  - A missing JS field is `None`.
  - A `TypeError` thrown on a missing field is the `TypeError` value of
    `Thrown`.

Where the code behaves differently from what its comments or a casual
reading suggest, the model follows the code.

- `makeDirectedPairs(["A","B","A"])` yields both `A|B` and `B|A`. This is
  `RouteGraphBuilder.RepeatedCodeGivesBothDirections`.
- The peak hour in a tie is the numerically lowest hour, not the first
  seen. Integer object keys iterate in ascending order, and the comparison
  is a strict `>`.
- A weekday's `averageTime` is `NaN` after its first record. At that point
  the code divides 0 by 0, and its first record's duration and start time
  are never stored. The model writes `NaN` as `None`.
- The ranking the user entry is merged into always covers every year.
  `routeRanking(disruptionsData, year)` binds `year` to the unused
  `stations` parameter, so `period` keeps its default `'all'`. Only the user
  entry is filtered by the selected year.

## Model

| member | source | states |
|---|---|---|
| CodeParser.SplitJoin | modules/route-ranking.mjs:7 | Joining the pieces of `split(',')` with the separator gives back the input, and no piece holds the separator |
| CodeParser.JoinSplit | modules/route-ranking.mjs:7 | Splitting a join of separator-free pieces gives back those pieces |
| CodeParser.SplitAppend | modules/route-ranking.mjs:7 | Splitting `a + sep + b` is splitting `a` followed by splitting `b` |
| CodeParser.Trim | modules/route-ranking.mjs:8 | A trimmed piece has no leading or trailing JS white space and is no longer than the piece |
| CodeParser.TrimSlice | modules/route-ranking.mjs:8 | `trim` returns a contiguous slice of its input, and only white space lies on either side of that slice |
| CodeParser.TrimKeepsTrimmed | modules/route-ranking.mjs:8 | Trimming an already-trimmed string changes nothing |
| CodeParser.TokensWellFormed | modules/route-ranking.mjs:8-9 | After trim and `filter(Boolean)`, every token is non-empty and trimmed |
| CodeParser.TokensAppend | modules/route-ranking.mjs:8-9 | Map/filter works piece by piece, so the tokens of two piece lists are the tokens of each, in order |
| CodeParser.ParseCodesWellFormed | modules/route-ranking.mjs:5-9 | `parseCodes` returns only non-empty, trimmed codes |
| CodeParser.ParseCodesHasNoComma | modules/route-ranking.mjs:5-9 | No parsed code contains the separator |
| CodeParser.ParseCodesBlank | modules/route-ranking.mjs:6-9 | A missing field, an empty string, or a string of only commas and white space parses to `[]` |
| CodeParser.ParseCodesAppend | modules/route-ranking.mjs:5-9 | Parsing `a,b` gives the codes of `a` followed by the codes of `b`, so input order is kept |
| CodeParser.ParseCodesJoin | modules/route-ranking.mjs:5-9 | Any non-empty list of clean codes, joined by commas, parses back to the same list, repeats and order included |
| CodeParser.ParseCodesSingle | modules/route-ranking.mjs:5-9 | A single clean code parses to itself |
| CodeParser.ParseCodesKeepsRepeats | modules/route-ranking.mjs:5-9 | `"ASD,UT,ASD"` parses to three codes; repeats are not removed |
| CodeParser.ParseCodes | modules/route-ranking.mjs:5-9 | Definition: split on commas, trim, drop empty pieces, with a missing field read as `''`; its properties are the `ParseCodes*` lemmas |
| OrderedSets.InsertAllMembers | modules/route-ranking.mjs:16-24 | After a run of `Set.add` calls, the set holds exactly the old members and the added values |
| OrderedSets.InsertAllKeeps | modules/route-ranking.mjs:16-24 | `Set.add` keeps members unique, keeps the old members first and in place, and grows the set by at most the number of adds |
| RouteGraphBuilder.MakeDirectedPairs | modules/route-ranking.mjs:15-25 | The nested loops build the insertion-ordered set of all pairs proposed, row by row |
| RouteGraphBuilder.RowWitness | modules/route-ranking.mjs:18-22 | Every pair proposed in row `i` is `(codes[i], codes[k])` for some later `k`, with both codes non-empty and different |
| RouteGraphBuilder.RowHas | modules/route-ranking.mjs:18-22 | Every later linkable code `codes[k]` gives the pair `(codes[i], codes[k])` in row `i` |
| RouteGraphBuilder.RowsWitness | modules/route-ranking.mjs:17-23 | Every pair proposed by the first `i` rows comes from positions `a < k` with `a < i` |
| RouteGraphBuilder.RowsHas | modules/route-ranking.mjs:17-23 | Every linkable position pair `a < k` with `a < i` is proposed by the first `i` rows |
| RouteGraphBuilder.RowsMembers | modules/route-ranking.mjs:17-23 | A pair is proposed by the first `i` rows if and only if it comes from such a position pair |
| RouteGraphBuilder.DirectedPairsMembers | modules/route-ranking.mjs:15-25 | `a|b` is in the result if and only if `a`, `b` are non-empty and different and some `a` stands before some `b` |
| RouteGraphBuilder.DirectedPairsAreDistinct | modules/route-ranking.mjs:16-24 | No pair appears twice in the result |
| RouteGraphBuilder.RowLength | modules/route-ranking.mjs:18-22 | Row `i` proposes at most one pair per later position |
| RouteGraphBuilder.RowsLength | modules/route-ranking.mjs:17-23 | The first `i` rows propose at most `i(2n-i-1)/2` pairs |
| RouteGraphBuilder.DirectedPairsSize | modules/route-ranking.mjs:15-25 | A list of `n` codes gives at most `n(n-1)/2` pairs |
| RouteGraphBuilder.RepeatedCodeGivesBothDirections | modules/route-ranking.mjs:17-22 | `A,B,A` gives `A|B` and then `B|A` |
| RouteUniverseIndex.FlattenMembers | modules/route-ranking.mjs:30 | A record is in the all-years list if and only if it is in some year's list |
| RouteUniverseIndex.LookupYear | modules/route-ranking.mjs:31 | A year key gives that year's list, or `[]` when the key is absent |
| RouteUniverseIndex.DisruptionsForPeriod | modules/route-ranking.mjs:28-31 | Definition: every year's records in corpus order for `'all'`, else the year's records or `[]`; see `FlattenMembers` and `LookupYear` |
| RouteUniverseIndex.AllRoutes | modules/route-ranking.mjs:37-50 | Definition: the insertion-ordered set of the pairs of the period's records, in record order; see `AllRoutesMembers` and `AllRoutesDistinct` |
| RouteUniverseIndex.GetAllRoutes | modules/route-ranking.mjs:37-50 | The loop adds the pairs of each record's codes to the route set, record by record |
| RouteUniverseIndex.ProposedMembers | modules/route-ranking.mjs:41-48 | A route is proposed if and only if some record of the period yields it |
| RouteUniverseIndex.AllRoutesMembers | modules/route-ranking.mjs:37-50 | A route is in `getAllRoutes` if and only if some record of the period has it as a directed pair |
| RouteUniverseIndex.AllRoutesDistinct | modules/route-ranking.mjs:38-49 | `getAllRoutes` lists each route once |
| RouteUniverseIndex.AllRoutesUnion | modules/route-ranking.mjs:37-50 | The all-years route set is the union of the per-year route sets |
| RouteUniverseIndex.YearToAll | modules/route-ranking.mjs:37-50 | A route of any one year's record is in the all-years route set |
| RouteUniverseIndex.YearRoutes | modules/route-ranking.mjs:37-50 | A year's route set holds exactly the pairs of that year's records |
| RouteUniverseIndex.GetAllRoutesArray | modules/route-ranking.mjs:52-73 | The loop keeps the routes of the set whose endpoints are both allowed, in set order |
| RouteUniverseIndex.AllowedCodesMembers | modules/route-ranking.mjs:57-59 | A code is allowed if and only if it is non-empty and some station of the list carries it; a `null` list allows nothing |
| RouteUniverseIndex.KeepAllowedMembers | modules/route-ranking.mjs:65-71 | A route is kept if and only if it is in the set and both endpoints are allowed codes |
| RouteUniverseIndex.KeepAllowedDistinct | modules/route-ranking.mjs:65-71 | Filtering a duplicate-free route list keeps it duplicate-free |
| RouteUniverseIndex.KeepNothing | modules/route-ranking.mjs:65-71 | With no allowed codes, nothing is kept |
| RouteUniverseIndex.AllRoutesArray | modules/route-ranking.mjs:52-73 | Definition: the routes of `AllRoutes` with both ends allowed, in set order; see `AllRoutesArrayMembers` |
| RouteUniverseIndex.AllRoutesArrayMembers | modules/route-ranking.mjs:57-72 | Every route of `getAllRoutesArray` is in `getAllRoutes` with both endpoints allowed, every such route is listed, and none is listed twice |
| RouteUniverseIndex.AllRoutesArrayEmpty | modules/route-ranking.mjs:57-72 | No allowed stations, a `null` station list, or an empty period gives `[]` |
| RouteMatcher.CodeList | modules/script.mjs:45 | The trimmed list has one entry per piece of `split(',')` |
| RouteMatcher.IndexOf | modules/script.mjs:47-48 | `indexOf` gives -1 exactly when the code is absent, and otherwise its first position |
| RouteMatcher.PrecedesMeaning | modules/script.mjs:47-50 | The filter's test holds if and only if the arrival is listed and the departure occurs before the arrival's first position |
| RouteMatcher.FilterOrThrowThrows | modules/script.mjs:44-45 | The filter throws if and only if some record makes the callback throw |
| RouteMatcher.FilterOrThrowMembers | modules/script.mjs:44-51 | When it returns, the filter keeps exactly the records passing the test and returns no more than it got |
| RouteMatcher.FilterOrThrowAppend | modules/script.mjs:44-51 | Filtering a concatenation is the concatenation of the filtered parts, so order is kept |
| RouteMatcher.RoutesIncludingThrows | modules/script.mjs:45 | `routesIncluding` throws a `TypeError` if and only if some record has no `rdt_station_codes` |
| RouteMatcher.RoutesIncludingMembers | modules/script.mjs:42-52 | A record is kept if and only if it has codes and the departure occurs before the arrival's first position |
| RouteMatcher.RoutesIncludingAppend | modules/script.mjs:44-51 | Kept records stay in input order |
| RouteMatcher.SameStationNeverMatches | modules/script.mjs:47-50 | Departure equal to arrival never keeps a record |
| RouteMatcher.RoutesIncluding | modules/script.mjs:42-52 | Definition: the filter that throws on a record without codes and keeps records whose departure precedes the arrival; see the `RoutesIncluding*` lemmas |
| CauseCounter.GroupOf | modules/script.mjs:77 | A cause group is never empty; a missing or empty one becomes `unknown` |
| CauseCounter.TitleIndex | modules/script.mjs:67-68 | `some`/`find` on the title gives the first entry with that title, or none exactly when no entry has it |
| CauseCounter.AddCause | modules/script.mjs:64-86 | One reduce step adds at most one entry |
| CauseCounter.CauseTally | modules/script.mjs:63-88 | The tally has no more entries than records |
| CauseCounter.CountCauses | modules/script.mjs:63-88 | The reduce builds the cause tally record by record |
| CauseCounter.AddCauseTitles | modules/script.mjs:67-84 | One step adds the cause's title to the titles as a set insertion |
| CauseCounter.TallyTitles | modules/script.mjs:63-88 | Titles are unique and appear in order of their first occurrence |
| CauseCounter.CountCauseAbsent | modules/script.mjs:63-88 | A title carried by no record counts zero |
| CauseCounter.TallyEntry | modules/script.mjs:63-88 | Each entry's value is the number of records with its cause, and its group is that of the first such record |
| CauseCounter.TallyEntryKept | modules/script.mjs:67-69 | A later record keeps each existing entry's count right and its group unchanged |
| CauseCounter.TallyEntryNew | modules/script.mjs:70-83 | A new title gets value 1 and the group of the record that introduced it |
| CauseCounter.SumValuesBump | modules/script.mjs:69 | Incrementing one entry's value raises the total by one |
| CauseCounter.AddCauseSum | modules/script.mjs:64-86 | Each record adds exactly one to the sum of values |
| CauseCounter.TallySum | modules/script.mjs:63-88 | The values sum to the number of input records, which the user entry's value relies on |
| CauseCounter.UntitledTally | modules/script.mjs:65-73 | The tally has an entry with an `undefined` title exactly when some record has no `cause_en` |
| Counting.TallyListsCounts | modules/script.mjs:225-245 | The counts map has a key exactly for pairs seen in some list, with the value equal to the number of lists containing it |
| RouteFrequencyCounter.CountRoutes | modules/script.mjs:223-245 | The counting loop yields the tally over the period's records of their distinct directed pairs |
| RouteFrequencyCounter.CountCodes | modules/script.mjs:227-245 | A record with fewer than two codes adds nothing; otherwise it adds one to each of its distinct pairs |
| RouteFrequencyCounter.CountRecord | modules/script.mjs:230-244 | With a fresh `seen` set, one record adds one per distinct directed pair |
| RouteFrequencyCounter.CountRow | modules/script.mjs:232-243 | The inner loop for `i` adds row `i`'s new pairs to `seen` and bumps each once |
| RouteFrequencyCounter.CountPair | modules/script.mjs:234-243 | One `j` step skips equal endpoints and pairs already seen, and otherwise records and counts the pair |
| RouteFrequencyCounter.TallyCounts | modules/script.mjs:225-245 | A route's count is the number of records containing it as a pair, is present only when positive, and is at most the number of records |
| RouteFrequencyCounter.PairListsAppend | modules/script.mjs:223 | Parsing the codes of two record lists is parsing each, in order |
| RouteFrequencyCounter.OccurrencesAppend | modules/script.mjs:225-245 | Counts over two record lists add up |
| RouteFrequencyCounter.CountedIsUniverse | modules/script.mjs:214-245 | The counted routes are exactly the routes of `getAllRoutes` for the same period |
| RouteFrequencyCounter.FlattenPrefix | modules/script.mjs:219 | Flattening one more year appends its records |
| RouteFrequencyCounter.FlattenAppend | modules/script.mjs:219 | Flattening two year lists is flattening each, in order |
| RouteFrequencyCounter.FlattenStep | modules/script.mjs:219 | One more year adds its own occurrences to the all-years count |
| RouteFrequencyCounter.YearOfEntry | modules/script.mjs:220 | A year key present in the corpus selects that year's records |
| RouteFrequencyCounter.AllIsSumOfYears | modules/script.mjs:217-220 | A route's all-years count is the sum of its per-year counts |
| RouteRanker.RouteRanking | modules/script.mjs:212-253 | One entry per route of the universe, in the same order, with `user:false` and the route's count in the period, which is 0 when absent |
| RouteRanker.RankingEntries | modules/script.mjs:247-250 | One entry per route, none of them the user's and none ranked yet |
| RouteRanker.RankedRoutesOccur | modules/script.mjs:214-249 | Every ranked route of a period occurs in at least one of its records |
| RouteRanker.RouteIndexOf | modules/script.mjs:437-446 | Gives the first entry with the user's route, or -1 exactly when none has it |
| RouteRanker.MergeUserEntry | modules/script.mjs:437-450 | The merged list contains the user entry and is at most one longer |
| RouteRanker.MergePlacesUser | modules/script.mjs:437-450 | The user entry replaces the first entry of its route, or is appended when none exists; nothing else changes and the length grows by at most one |
| RouteRanker.MergeOneUser | modules/script.mjs:428-450 | Merging into a ranking without user entries leaves exactly one user entry |
| RouteRanker.MergeKeepsDistinct | modules/script.mjs:437-450 | Merging keeps every route listed once |
| RouteRanker.AssignRanks | modules/script.mjs:454-463 | Each entry gets `rank = index`; no entry is added, dropped or moved |
| RouteRanker.IndexOfUser | modules/script.mjs:267 | `indexOf(userRank)` is the first user entry, or -1 exactly when there is none |
| RouteRanker.WindowStart | modules/script.mjs:269-275 | The window starts at 0 or later, and never after the user's index |
| RouteRanker.WindowEnd | modules/script.mjs:269-275 | The window ends after the user's index and spans exactly 15 positions |
| RouteRanker.Slice | modules/script.mjs:281 | `slice` never returns more than it was given |
| RouteRanker.DisplayWindow | modules/script.mjs:267-281 | The shown entries are at most 15 and no more than the ranking holds |
| RouteRanker.WindowShowsUser | modules/script.mjs:267-281 | The window holds at most 15 entries and contains the user entry; it is `[0,15)` below index 10 and `[idx-5, idx+10)` from 10 on |
| StableSort.SortByValue | modules/script.mjs:452-453 | The in-place sort leaves the array equal to the stable descending sort of its old contents |
| StableSort.InsertAt | modules/script.mjs:452-453 | One insertion step places element `i` after every earlier element of at least its value, and leaves the rest alone |
| StableSort.InsertDescAt | modules/script.mjs:453 | Inserting goes after the last entry of at least the new value |
| StableSort.InsertDescPermutes | modules/script.mjs:453 | Insertion adds exactly the new entry |
| StableSort.InsertDescSorted | modules/script.mjs:453 | Insertion keeps a descending list descending |
| StableSort.InsertDescAtLeast | modules/script.mjs:453 | Insertion keeps a lower bound on all values |
| StableSort.InsertDescWithValue | modules/script.mjs:453 | Insertion appends the new entry after the entries of equal value |
| StableSort.SortDescOrdered | modules/script.mjs:452-453 | The sort result is non-increasing in value and a permutation of the input |
| StableSort.SortDescStable | modules/script.mjs:452-453 | Entries of equal value keep their relative order |
| Explorer.MatchesFor | modules/script.mjs:413-419 | Definition: `routesIncluding` over every record for `'all'`, else over the year's records, throwing when the year is absent; see `GetCauses` |
| Explorer.FindStation | modules/script.mjs:147-148 | `find` gives the first station with the code, or none exactly when no station has it |
| Explorer.Merged | modules/script.mjs:428-450 | The all-years ranking with the user merged in contains the user entry |
| Explorer.Ranked | modules/script.mjs:452-463 | Sorting and ranking keeps the number of entries |
| Explorer.GetCauses | modules/script.mjs:389-470 | Nothing happens without a departure, arrival and year. It throws before drawing anything for an absent year, a record without codes, or a departure or arrival with no station to draw. Otherwise no match shows nothing. With matches, the cause tally, the merged and ranked list and its window are computed; when some match has no `cause_en` the bubble chart then throws and no weekday buckets exist, otherwise the weekday buckets of the matches are shown |
| Explorer.ShowMatches | modules/script.mjs:425-470 | For a non-empty match list, the causes, ranking and window are exactly the tallies of those matches. The bubble chart (its `title.split` at line 126) throws exactly when some match has no `cause_en`, and only otherwise are the weekday buckets computed, each the bucket of that weekday's matches |
| Explorer.RankWithUser | modules/script.mjs:435-463 | The ranking with the user entry merged is stably sorted and ranked by position |
| Explorer.RankedFacts | modules/script.mjs:452-463 | After sorting and ranking, values are non-increasing, `rank` is the index, and the user entry is found |
| Explorer.ShownRanking | modules/script.mjs:428-465 | The user's value is the number of matches. Exactly one entry is the user's. The ranking is descending and ranked by index. The window shows the user entry within 15 places |
| HourModeFinder.HourOf | modules/day-data.mjs:4 | `Number` of the two-digit hour field is below 100 |
| HourModeFinder.Hours | modules/day-data.mjs:4 | One hour per time string, in order |
| HourModeFinder.CountOfPositive | modules/day-data.mjs:7-10 | An hour has a count if and only if it occurs |
| HourModeFinder.CountOf | modules/day-data.mjs:7-10 | An hour's count is at most the number of times |
| HourModeFinder.ScanFacts | modules/day-data.mjs:13-21 | The scan over ascending hours with a strict `>` ends on the lowest hour of maximal count, or on none when nothing was counted |
| HourModeFinder.PeakHourIsLowestMode | modules/day-data.mjs:12-21 | There is no peak only for an empty list; otherwise the peak occurs, has maximal count, and every lower hour counts strictly less |
| HourModeFinder.LowestModeUnique | modules/day-data.mjs:16-21 | That peak hour is unique |
| HourModeFinder.PeakHour | modules/day-data.mjs:12-21 | Definition: the scan of hours 0..99 with a strict `>`; see `PeakHourIsLowestMode` |
| HourModeFinder.Decimal | modules/day-data.mjs:23 | An hour is printed as decimal digits with no leading zero |
| HourModeFinder.DecimalRoundTrip | modules/day-data.mjs:23 | Reading the printed digits gives back the hour |
| HourModeFinder.HourLabel | modules/day-data.mjs:23 | Definition: `${h}:00–${h}:59`, with `undefined` for no hour; see `LabelOfMorningHour` |
| HourModeFinder.LabelOfMorningHour | modules/day-data.mjs:4-23 | `08:10:00` gives `8:00–8:59` |
| HourModeFinder.CheckFrequency | modules/day-data.mjs:3-24 | The counting loop and the scan return the label of the lowest most frequent hour, or the `undefined` label for no times |
| WeekdayAggregator.DayNamesDistinct | modules/day-data.mjs:28-36 | Different weekdays have different names |
| WeekdayAggregator.RoundHalfUp | modules/day-data.mjs:64 | `Math.round` of a quotient lies within half a unit of it, rounding halves up |
| WeekdayAggregator.AverageMinutes | modules/day-data.mjs:60-64 | The average is missing (`NaN`) exactly when there are no durations |
| WeekdayAggregator.RecordsOn | modules/day-data.mjs:38-44 | Definition: the records of one weekday in input order; see `RecordsOnSnoc` and `BucketsCoverInput` |
| WeekdayAggregator.BucketOf | modules/day-data.mjs:44-64 | Definition: the bucket the fold leaves for one weekday's records; see `BucketShape` and `BucketOfSnoc` |
| WeekdayAggregator.BucketShape | modules/day-data.mjs:44-64 | A bucket counts its weekday's records; it has one fewer duration and time than records; `averageTime` and `highestOccurence` are unset only after a single record |
| WeekdayAggregator.BucketOfSnoc | modules/day-data.mjs:51-64 | A later record increments the count, appends its duration and time, recomputes the peak label from all stored times and the average from all stored durations |
| WeekdayAggregator.RecordsOnSnoc | modules/day-data.mjs:38-67 | The fold visits records in order; each goes to its own weekday only |
| WeekdayAggregator.RecordsOnAppend | modules/day-data.mjs:38-67 | Appending a record extends only its own weekday's record list |
| WeekdayAggregator.DisplayDaysData | modules/day-data.mjs:27-70 | The keys are exactly the names of the weekdays that occur, and each bucket summarises that weekday's records in input order |
| WeekdayAggregator.AddRecord | modules/day-data.mjs:38-67 | One reduce step keeps every bucket equal to the summary of the records seen so far |
| WeekdayAggregator.NextBucket | modules/day-data.mjs:44-64 | A record opens a new bucket for its weekday or updates the existing one |
| WeekdayAggregator.BucketsCoverInput | modules/day-data.mjs:38-67 | The weekday buckets together count every input record once |
| StationRegistry.KeepNL | modules/station-coords.mjs:4-5 | The country filter keeps no more stations than it gets |
| StationRegistry.KeepMajor | modules/station-coords.mjs:6-11 | The type filter keeps no more stations than it gets |
| StationRegistry.StationOptions | modules/station-coords.mjs:4-11 | The selection keeps no more stations than the registry has |
| StationRegistry.KeepNLAppend | modules/station-coords.mjs:4-5 | The country filter works element by element and keeps order |
| StationRegistry.KeepMajorAppend | modules/station-coords.mjs:6-11 | The station-type filter works element by element and keeps order |
| StationRegistry.StationOptionsAppend | modules/station-coords.mjs:4-11 | The selection is order-preserving over concatenation |
| StationRegistry.StationOptionsSingle | modules/station-coords.mjs:4-11 | A single station is kept exactly when it is in NL and is an intercity, knooppunt intercity or mega station |
| StationRegistry.StationOptionsMembers | modules/station-coords.mjs:4-11 | A station is selected if and only if it is in the registry, in NL and of one of the three types |
| StationRegistry.CoordsOf | modules/station-coords.mjs:20-26 | A code's coordinate list has even length, at most two per station |
| StationRegistry.CoordsArePairs | modules/station-coords.mjs:20-26 | A code's coordinate list has two numbers per station with that code, lat then lng, in order |
| StationRegistry.CoordsOfAbsent | modules/station-coords.mjs:20-26 | A code no station carries has no coordinates |
| StationRegistry.StationsCoords | modules/station-coords.mjs:20-28 | The keys are exactly the codes of the selected stations, each holding its stations' coordinates, and the key list is the codes in first-seen order |
| StationRegistry.AddStation | modules/station-coords.mjs:20-26 | One reduce step keeps the map grouping the stations seen so far |
| StationRegistry.SeenSnoc | modules/station-coords.mjs:28 | A new station adds its code to the key list only when the code is new |
| StationRegistry.SeenCodeSnoc | modules/station-coords.mjs:21-24 | A new station adds its code to the keys and its lat and lng to that code's list |

## Left out

- The network fetch (`modules/fetch.mjs`) and the option lists built in
  `modules/render-controls.mjs` are I/O and DOM output. The corpus and the
  station registry are parameters.
- All DOM, D3 and Leaflet work is left out: the bubble chart, the bars and
  bar widths of `displayRankings`, hover effects, `renderDaysData`, the map
  (`MAKE_MAP`) and the line `makeRouteOnMap`/`wavyRoute` draws. Each is
  rendering or floating-point geometry. The model keeps two things that
  throw: the station lookups of `makeRouteOnMap`, which fail when a code
  has no station, and the bubble chart's `title.split`, which fails on an
  `undefined` cause title before the weekday data is computed.
- `getAllRoutesArray` with `allowedStations` omitted or `undefined` uses the
  default `stationOptions`. The model's `None` is a `null` list only, and
  the default is not modelled, since the only caller passes the list
  explicitly.
- Dates are not modelled. `new Date`, `getDay()` in the host time zone and
  `toTimeString()` depend on the environment. Each record carries its
  weekday, its duration in milliseconds and its `HH:MM:SS` start time.
- The string key `from|to` and its split are modelled as a `Route` pair.
  The two agree only for codes without `|`, which the model assumes.
- The `causesColors` lookup is rendering data only. Cause entries carry
  title, value and group.
- Records that are `null` or `undefined` themselves are not modelled. A
  missing `rdt_station_codes` field is: `routesIncluding` throws on it.
- The `__proto__` and `constructor` keys are not modelled. Plain-object
  dictionaries are modelled as maps, so those keys behave like any other.
- StationRegistry.StationsCoords: the key list follows first-seen order. It
  does not model that `Object.keys` lists integer-like codes first, in
  ascending order.
- WeekdayAggregator.DisplayDaysData: the key order of the result object is
  not modelled, only its key set and bucket contents.
- WeekdayAggregator.AverageMinutes: computed on exact rationals with
  round-half-up. The rounding error of floating-point division is not
  modelled.
- HourModeFinder.CheckFrequency: the second loop visits the hours 0 to 99
  in ascending order. That is the order `Object.entries` gives for the
  integer keys the first loop creates.
- The ranking's universe is computed from the corpus passed in. In the
  source this is the module-level `disruptionsData`, which `getCauses`
  receives through `bind`. The `bind` wiring itself is not modelled.
