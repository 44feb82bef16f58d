/** RouteRanker: the result building of `routeRanking`, the merge of the
    user's entry, the rank assignment of `getCauses` and the window index
    arithmetic of `displayRankings`, all in modules/script.mjs. */
module RouteRanker {
  import opened Wrappers
  import opened Records
  import opened RouteUniverseIndex
  import opened RouteFrequencyCounter

  /** The entries `routeRanking` builds for the universe `routes`, valued by
      the disruptions `list`. */
  function RankingEntries(routes: seq<Route>, list: seq<Disruption>): (entries: seq<RankEntry>)
    ensures |entries| == |routes|
    ensures forall i :: 0 <= i < |entries| ==> !entries[i].user && entries[i].rank.None?
  {
    seq(|routes|, i requires 0 <= i < |routes| =>
      RankEntry(routes[i].from, routes[i].to, false, Occurrences(list, routes[i]), None))
  }

  /** `routeRanking(disruptions, stations, period)`: one entry per route of
      the filtered universe of `disruptionsData` (the module-level corpus,
      not the parameter), in that order, valued by how many disruptions of
      `disruptions` in the period imply it. `stations` is never read. */
  method RouteRanking(disruptionsData: Corpus, stationOptions: seq<Station>, disruptions: Corpus, period: Period)
    returns (results: seq<RankEntry>)
    ensures var routes := AllRoutesArray(disruptionsData, period, Some(stationOptions));
      && |results| == |routes|
      && forall i :: 0 <= i < |routes| ==> results[i] == RankEntry(routes[i].from, routes[i].to, false,
           Occurrences(DisruptionsForPeriod(disruptions, period), routes[i]), None)
    ensures results == RankingEntries(AllRoutesArray(disruptionsData, period, Some(stationOptions)),
      DisruptionsForPeriod(disruptions, period))
  {
    var routesArr := GetAllRoutesArray(disruptionsData, period, Some(stationOptions));
    var list := DisruptionsForPeriod(disruptions, period);
    var counts := CountRoutes(list);
    results := seq(|routesArr|, i requires 0 <= i < |routesArr| =>
      RankEntry(routesArr[i].from, routesArr[i].to, false,
        if routesArr[i] in counts then counts[routesArr[i]] else 0, None));
    forall r | r in routesArr
      ensures (if r in counts then counts[r] else 0) == Occurrences(list, r)
    {
      TallyCounts(list, r);
    }
  }

  /** When the ranking counts the corpus its universe comes from (as the
      page does), every ranked route has at least one disruption. */
  lemma RankedRoutesOccur(c: Corpus, stationOptions: seq<Station>, p: Period, r: Route)
    requires r in AllRoutesArray(c, p, Some(stationOptions))
    ensures Occurrences(DisruptionsForPeriod(c, p), r) >= 1
  {
    AllRoutesArrayMembers(c, p, Some(stationOptions), r);
    CountedIsUniverse(c, p, r);
    TallyCounts(DisruptionsForPeriod(c, p), r);
  }

  /** `list.find(d => d.from === from && d.to === to)` as an index, or -1. */
  function RouteIndexOf(list: seq<RankEntry>, from: string, to: string): (k: int)
    ensures -1 <= k < |list|
    ensures k == -1 <==> forall i :: 0 <= i < |list| ==> !(list[i].from == from && list[i].to == to)
    ensures k >= 0 ==> list[k].from == from && list[k].to == to
    ensures k >= 0 ==> forall i :: 0 <= i < k ==> !(list[i].from == from && list[i].to == to)
    decreases |list|
  {
    if list == [] then -1
    else if list[0].from == from && list[0].to == to then 0
    else
      var k := RouteIndexOf(list[1..], from, to);
      if k == -1 then -1 else k + 1
  }

  /** The merge of lines 437-450: the user's entry overwrites the first
      entry of the same route, or is pushed when there is none. */
  function MergeUserEntry(list: seq<RankEntry>, user: RankEntry): (m: seq<RankEntry>)
    ensures |list| <= |m| <= |list| + 1 && user in m
  {
    var k := RouteIndexOf(list, user.from, user.to);
    if k >= 0 then
      assert list[k := user][k] == user;
      list[k := user]
    else
      assert (list + [user])[|list|] == user;
      list + [user]
  }

  /** The user's entry lands where its route first was, or at the end; the
      list grows only when the route was absent, and nothing else moves. */
  lemma MergePlacesUser(list: seq<RankEntry>, user: RankEntry)
    ensures var m := MergeUserEntry(list, user);
      && |list| <= |m| <= |list| + 1
      && (|m| == |list| <==> exists i :: 0 <= i < |list| && list[i].from == user.from && list[i].to == user.to)
      && (|m| == |list| + 1 ==> m[|list|] == user)
      && (RouteIndexOf(list, user.from, user.to) >= 0 ==> m[RouteIndexOf(list, user.from, user.to)] == user)
      && forall i :: 0 <= i < |list| ==>
           || m[i] == list[i]
           || (&& m[i] == user && list[i].from == user.from && list[i].to == user.to
               && forall j :: 0 <= j < i ==> !(list[j].from == user.from && list[j].to == user.to))
  {
  }

  /** Merging a user entry into a list without one leaves exactly one. */
  lemma MergeOneUser(list: seq<RankEntry>, user: RankEntry)
    requires user.user && forall i :: 0 <= i < |list| ==> !list[i].user
    ensures var m := MergeUserEntry(list, user);
      exists u :: 0 <= u < |m| && m[u] == user && forall i :: 0 <= i < |m| && i != u ==> !m[i].user
  {
    var k := RouteIndexOf(list, user.from, user.to);
    var m := MergeUserEntry(list, user);
    var u := if k >= 0 then k else |list|;
    assert m[u] == user;
  }

  /** The routes of the ranking are pairwise different. */
  ghost predicate DistinctRoutes(list: seq<RankEntry>) {
    forall i, j :: 0 <= i < j < |list| ==> !(list[i].from == list[j].from && list[i].to == list[j].to)
  }

  /** The merge keeps every route listed once. */
  lemma MergeKeepsDistinct(list: seq<RankEntry>, user: RankEntry)
    requires DistinctRoutes(list)
    ensures DistinctRoutes(MergeUserEntry(list, user))
  {
  }

  /** The reduce of lines 454-463: each entry gets `rank = index`; the
      guarded assignment before it writes the same value. */
  method AssignRanks(sorted: seq<RankEntry>) returns (ranked: seq<RankEntry>)
    ensures |ranked| == |sorted|
    ensures forall i :: 0 <= i < |sorted| ==> ranked[i] == sorted[i].(rank := Some(i))
  {
    ranked := [];
    var index := 0;
    while index < |sorted|
      invariant 0 <= index <= |sorted| && |ranked| == index
      invariant forall i :: 0 <= i < index ==> ranked[i] == sorted[i].(rank := Some(i))
    {
      var curr := sorted[index];
      if curr.rank.Some? && curr.rank.value != 0 {
        curr := curr.(rank := Some(index));
      }
      curr := curr.(rank := Some(index));
      ranked := ranked + [curr];
      index := index + 1;
    }
  }

  /** `rankings.indexOf(userRank)`: the position of the user's entry, the
      only one flagged `user`, or -1. */
  function IndexOfUser(ranked: seq<RankEntry>): (k: int)
    ensures -1 <= k < |ranked|
    ensures k == -1 <==> forall i :: 0 <= i < |ranked| ==> !ranked[i].user
    ensures k >= 0 ==> ranked[k].user && forall i :: 0 <= i < k ==> !ranked[i].user
    decreases |ranked|
  {
    if ranked == [] then -1
    else if ranked[0].user then 0
    else
      var k := IndexOfUser(ranked[1..]);
      if k == -1 then -1 else k + 1
  }

  /** `startPostion` and `endPosition` of `displayRankings`. */
  function WindowStart(idx: int): (start: int)
    ensures 0 <= start && (idx >= 0 ==> start <= idx)
  {
    if idx - 5 < 5 then 0 else idx - 5
  }

  function WindowEnd(idx: int): (end: int)
    ensures idx < end && end - WindowStart(idx) == 15
  {
    if idx - 5 < 5 then 15 else idx + 10
  }

  /** `rankings.slice(start, end)` for 0 <= start: the end is clipped to the
      length, and an empty range gives `[]`. */
  function Slice(s: seq<RankEntry>, start: nat, end: int): (r: seq<RankEntry>)
    ensures |r| <= |s|
    ensures start <= end ==> |r| <= end - start
  {
    var e := if end < |s| then end else |s|;
    if e <= start then [] else s[start..e]
  }

  /** The entries `displayRankings` shows. */
  function DisplayWindow(ranked: seq<RankEntry>): (window: seq<RankEntry>)
    ensures |window| <= 15 && |window| <= |ranked|
  {
    var idx := IndexOfUser(ranked);
    Slice(ranked, WindowStart(idx), WindowEnd(idx))
  }

  /** The window holds at most 15 entries and always shows the user's entry:
      the first 15 entries while its index is below 10, otherwise the
      entries from 5 before it up to 10 after it. */
  lemma WindowShowsUser(ranked: seq<RankEntry>)
    requires IndexOfUser(ranked) >= 0
    ensures var idx := IndexOfUser(ranked);
      && |DisplayWindow(ranked)| <= 15
      && WindowStart(idx) <= idx < WindowEnd(idx)
      && (idx < 10 ==> WindowStart(idx) == 0 && WindowEnd(idx) == 15)
      && (idx >= 10 ==> WindowStart(idx) == idx - 5 && WindowEnd(idx) == idx + 10)
      && DisplayWindow(ranked)[idx - WindowStart(idx)] == ranked[idx]
    ensures ranked[IndexOfUser(ranked)] in DisplayWindow(ranked)
  {
    var idx := IndexOfUser(ranked);
    assert DisplayWindow(ranked)[idx - WindowStart(idx)] == ranked[idx];
  }
}
