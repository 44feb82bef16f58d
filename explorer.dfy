/** Explorer: the computation behind the explore button, `getCauses` in
    modules/script.mjs (lines 388-470), without its DOM output. The
    ranking it merges the user's route into always covers every year,
    whatever year is selected. */
module Explorer {
  import opened Wrappers
  import opened Records
  import opened RouteUniverseIndex
  import opened RouteMatcher
  import opened CauseCounter
  import opened RouteRanker
  import opened StableSort
  import opened WeekdayAggregator
  import opened SeqLemmas

  /** What one click produces. */
  datatype Outcome =
    | Unselected       // a select is empty: nothing happens
    | Failed           // a TypeError is thrown: no codes field, no such year, or a code with no station
    | NoMatches        // no disruption on the route: only the map is drawn
    | ChartFailed(causes: seq<CauseEntry>, rankings: seq<RankEntry>, window: seq<RankEntry>)
                       // the rankings are shown, then the bubble chart throws a TypeError
                       // on an `undefined` cause title: the weekday data is never computed
    | Shown(causes: seq<CauseEntry>, rankings: seq<RankEntry>, window: seq<RankEntry>, days: map<string, DayBucket>)

  /** `routesIncluding` over every record for `'all'`, or over
      `disruptions[year]`, which throws when the year is not a key. */
  function MatchesFor(c: Corpus, departure: string, arrival: string, year: string): Thrown<seq<Disruption>> {
    if year == "all" then RoutesIncluding(Flatten(c), departure, arrival)
    else match Lookup(c, year)
      case None => TypeError
      case Some(rs) => RoutesIncluding(rs, departure, arrival)
  }

  /** `stations.find(station => station.code === code)` as an index, or -1
      for `undefined`. */
  function FindStation(stations: seq<Station>, code: string): (k: int)
    ensures -1 <= k < |stations|
    ensures k == -1 <==> forall i :: 0 <= i < |stations| ==> stations[i].code != code
    ensures k >= 0 ==> stations[k].code == code && forall i :: 0 <= i < k ==> stations[i].code != code
    decreases |stations|
  {
    if stations == [] then -1
    else if stations[0].code == code then 0
    else
      var k := FindStation(stations[1..], code);
      if k == -1 then -1 else k + 1
  }

  /** `makeRouteOnMap` reads `geo_lat` of the stations found for both ends,
      which throws a TypeError when either is not found. */
  predicate RouteDrawable(stations: seq<Station>, departure: string, arrival: string) {
    FindStation(stations, departure) >= 0 && FindStation(stations, arrival) >= 0
  }

  /** `userRanking`: the selected route, valued by the sum of the cause values. */
  function UserEntry(departure: string, arrival: string, causes: seq<CauseEntry>): RankEntry {
    RankEntry(departure, arrival, true, SumValues(causes), None)
  }

  /** The all-years ranking with the user's entry merged in. */
  function Merged(c: Corpus, stationOptions: seq<Station>, user: RankEntry): (merged: seq<RankEntry>)
    ensures user in merged
  {
    MergeUserEntry(RankingEntries(AllRoutesArray(c, All, Some(stationOptions)), DisruptionsForPeriod(c, All)), user)
  }

  /** The sorted list with every entry's rank set to its index. */
  function Ranked(s: seq<RankEntry>): (r: seq<RankEntry>)
    ensures |r| == |s|
  {
    var sorted := SortDesc(s);
    SortDescOrdered(s);
    seq(|sorted|, i requires 0 <= i < |sorted| => sorted[i].(rank := Some(i)))
  }

  /** `getCauses` with `this` bound to the corpus and the station options. */
  method GetCauses(c: Corpus, stationOptions: seq<Station>, departure: string, arrival: string, year: string)
    returns (out: Outcome)
    ensures out.Unselected? <==> departure == "" || arrival == "" || year == ""
    ensures !out.Unselected? ==> (out.Failed? <==>
      MatchesFor(c, departure, arrival, year).TypeError? || !RouteDrawable(stationOptions, departure, arrival))
    ensures !out.Unselected? ==> (out.NoMatches? <==>
      MatchesFor(c, departure, arrival, year) == Returned([]) && RouteDrawable(stationOptions, departure, arrival))
    ensures out.Shown? || out.ChartFailed? ==> var m := MatchesFor(c, departure, arrival, year).value;
      && (out.ChartFailed? <==> Untitled(m))
      && out.causes == CauseTally(m)
      && out.rankings == Ranked(Merged(c, stationOptions, UserEntry(departure, arrival, CauseTally(m))))
      && out.window == DisplayWindow(out.rankings)
    ensures out.Shown? ==> var m := MatchesFor(c, departure, arrival, year).value;
      && (forall k :: k in out.days ==> k in DayNames)
      && (forall w: Weekday :: DayName(w) in out.days <==> RecordsOn(m, w) != [])
      && (forall w: Weekday :: DayName(w) in out.days ==> out.days[DayName(w)] == BucketOf(RecordsOn(m, w)))
  {
    if departure == "" || arrival == "" || year == "" {
      return Unselected;
    }
    var source := if year == "all" then Some(Flatten(c)) else Lookup(c, year);
    if source.None? {
      return Failed;
    }
    var matches := RoutesIncluding(source.value, departure, arrival);
    if matches.TypeError? {
      return Failed;
    }
    var allMatches := matches.value;
    if FindStation(stationOptions, departure) < 0 || FindStation(stationOptions, arrival) < 0 {
      return Failed;
    }
    if |allMatches| == 0 {
      return NoMatches;
    }
    out := ShowMatches(c, stationOptions, departure, arrival, allMatches);
  }

  /** The branch for a route with matches: tally the causes, rank the
      user's route among all routes, draw the bubble chart, which throws
      when a cause title is `undefined`, and otherwise aggregate the matches
      by weekday. */
  method ShowMatches(c: Corpus, stationOptions: seq<Station>, departure: string, arrival: string, allMatches: seq<Disruption>)
    returns (out: Outcome)
    ensures out.Shown? || out.ChartFailed?
    ensures out.ChartFailed? <==> Untitled(allMatches)
    ensures out.causes == CauseTally(allMatches)
    ensures out.rankings == Ranked(Merged(c, stationOptions, UserEntry(departure, arrival, CauseTally(allMatches))))
    ensures out.window == DisplayWindow(out.rankings)
    ensures out.Shown? ==> forall k :: k in out.days ==> k in DayNames
    ensures out.Shown? ==> forall w: Weekday :: DayName(w) in out.days <==> RecordsOn(allMatches, w) != []
    ensures out.Shown? ==> forall w: Weekday :: DayName(w) in out.days ==> out.days[DayName(w)] == BucketOf(RecordsOn(allMatches, w))
  {
    var causesData := CountCauses(allMatches);
    var userRanking := RankEntry(departure, arrival, true, SumValues(causesData), None);
    var sortedResults := RankWithUser(c, stationOptions, userRanking);
    var window := DisplayWindow(sortedResults);
    UntitledTally(allMatches);
    if HasUntitledEntry(causesData) {
      return ChartFailed(causesData, sortedResults, window);
    }
    var days := DisplayDaysData(allMatches);
    out := Shown(causesData, sortedResults, window, days);
  }

  /** `routeRanking(disruptionsData, year)` (so over all years), the merge
      of the user's entry, the in-place sort and the rank assignment. */
  method RankWithUser(c: Corpus, stationOptions: seq<Station>, userRanking: RankEntry) returns (sortedResults: seq<RankEntry>)
    ensures sortedResults == Ranked(Merged(c, stationOptions, userRanking))
  {
    var rankings := RouteRanking(c, stationOptions, c, All);
    var merged := MergeUserEntry(rankings, userRanking);
    var a := new RankEntry[|merged|](i requires 0 <= i < |merged| => merged[i]);
    assert a[..] == merged;
    SortByValue(a);
    sortedResults := AssignRanks(a[..]);
    assert |sortedResults| == |Ranked(merged)|;
  }

  /** Ranking a list that holds the user's entry: values never increase,
      ranks are the indices, and the user's entry can be found. */
  lemma RankedFacts(merged: seq<RankEntry>, u: nat)
    requires u < |merged| && merged[u].user
    ensures var ranked := Ranked(merged);
      && (forall i, j :: 0 <= i < j < |ranked| ==> ranked[i].disruptionValue >= ranked[j].disruptionValue)
      && (forall i :: 0 <= i < |ranked| ==> ranked[i].rank == Some(i))
      && IndexOfUser(ranked) >= 0
  {
    SortDescOrdered(merged);
    var sorted := SortDesc(merged);
    assert merged[u] in multiset(merged);
    var v := IndexOfMember(sorted, merged[u]);
    var ranked := Ranked(merged);
    assert ranked[v].user;
  }

  /** What the page shows for a route with matches: the user's value is the
      number of matches, the merged ranking lists the user exactly once,
      the ranked list is in non-increasing order of value with ranks
      0, 1, 2, ..., and the window holds at most 15 entries including the
      user's. */
  lemma ShownRanking(c: Corpus, stationOptions: seq<Station>, departure: string, arrival: string, m: seq<Disruption>)
    requires m != []
    ensures UserEntry(departure, arrival, CauseTally(m)).disruptionValue == |m|
    ensures var merged := Merged(c, stationOptions, UserEntry(departure, arrival, CauseTally(m)));
      exists u :: 0 <= u < |merged| && merged[u].user && forall i :: 0 <= i < |merged| && i != u ==> !merged[i].user
    ensures var ranked := Ranked(Merged(c, stationOptions, UserEntry(departure, arrival, CauseTally(m))));
      && (forall i, j :: 0 <= i < j < |ranked| ==> ranked[i].disruptionValue >= ranked[j].disruptionValue)
      && (forall i :: 0 <= i < |ranked| ==> ranked[i].rank == Some(i))
      && IndexOfUser(ranked) >= 0
      && |DisplayWindow(ranked)| <= 15
      && ranked[IndexOfUser(ranked)] in DisplayWindow(ranked)
  {
    TallySum(m);
    var user := UserEntry(departure, arrival, CauseTally(m));
    var base := RankingEntries(AllRoutesArray(c, All, Some(stationOptions)), DisruptionsForPeriod(c, All));
    MergeOneUser(base, user);
    var merged := MergeUserEntry(base, user);
    assert merged == Merged(c, stationOptions, user);
    var k := RouteIndexOf(base, user.from, user.to);
    var u := if k >= 0 then k else |base|;
    assert merged[u] == user;
    RankedFacts(merged, u);
    WindowShowsUser(Ranked(merged));
  }
}
