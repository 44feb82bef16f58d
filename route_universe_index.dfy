/** RouteUniverseIndex: `getDisruptionsForPeriod`, `getAllRoutes` and
    `getAllRoutesArray` of modules/route-ranking.mjs. The universe of a
    period is the insertion-ordered set of every directed pair any of its
    disruptions implies (presence only), and the filtered universe keeps
    the pairs whose two ends are allowed station codes. */
module RouteUniverseIndex {
  import opened Wrappers
  import opened Records
  import opened OrderedSets
  import opened SeqLemmas
  import opened CodeParser
  import opened RouteGraphBuilder

  /** `Object.values(corpus).flat()`. */
  function Flatten(c: Corpus): seq<Disruption>
    decreases |c|
  {
    if c == [] then [] else c[0].records + Flatten(c[1..])
  }

  /** `corpus?.[key]`: the records stored under `key`, if any. */
  function Lookup(c: Corpus, key: string): Option<seq<Disruption>>
    decreases |c|
  {
    if c == [] then None
    else if c[0].year == key then Some(c[0].records)
    else Lookup(c[1..], key)
  }

  /** `getDisruptionsForPeriod(corpus, period)`. */
  function DisruptionsForPeriod(c: Corpus, p: Period): seq<Disruption> {
    match p
    case All => Flatten(c)
    case Year(key) => Lookup(c, key).GetOr([])
  }

  /** For `'all'`, a record is selected exactly when some year holds it. */
  lemma {:induction false} FlattenMembers(c: Corpus, d: Disruption)
    ensures d in Flatten(c) <==> exists k :: 0 <= k < |c| && d in c[k].records
    decreases |c|
  {
    if c != [] {
      FlattenMembers(c[1..], d);
      if d in Flatten(c[1..]) {
        var k :| 0 <= k < |c[1..]| && d in c[1..][k].records;
        assert d in c[k + 1].records;
      }
      if exists k :: 0 <= k < |c| && d in c[k].records {
        var k :| 0 <= k < |c| && d in c[k].records;
        if k > 0 { assert d in c[1..][k - 1].records; }
      }
    }
  }

  /** For a year key, the records of that year, or none when the key is
      absent. */
  lemma {:induction false} LookupYear(c: Corpus, key: string)
    requires UniqueYears(c)
    ensures (forall k :: 0 <= k < |c| ==> c[k].year != key) ==> DisruptionsForPeriod(c, Year(key)) == []
    ensures forall k :: 0 <= k < |c| && c[k].year == key ==> DisruptionsForPeriod(c, Year(key)) == c[k].records
    decreases |c|
  {
    if c != [] {
      LookupYear(c[1..], key);
      assert forall k :: 0 < k < |c| ==> c[k] == c[1..][k - 1];
    }
  }

  /** The ordered, duplicate-free pairs of one disruption. */
  function PairsOf(d: Disruption): seq<Route> {
    DirectedPairs(ParseCodes(d.codes))
  }

  /** The pair list of each disruption, in list order. */
  function PairLists(list: seq<Disruption>): (lists: seq<seq<Route>>)
    ensures |lists| == |list|
  {
    seq(|list|, i requires 0 <= i < |list| => PairsOf(list[i]))
  }

  /** Every pair the loop of `getAllRoutes` adds, in the order it adds them. */
  function ProposedRoutes(list: seq<Disruption>): seq<Route> {
    Concat(PairLists(list))
  }

  /** The insertion-ordered set `getAllRoutes(corpus, period)` returns. */
  function AllRoutes(c: Corpus, p: Period): seq<Route> {
    InsertAll([], ProposedRoutes(DisruptionsForPeriod(c, p)))
  }

  /** `getAllRoutes(corpus, period)`. */
  method GetAllRoutes(c: Corpus, p: Period) returns (routes: seq<Route>)
    ensures routes == AllRoutes(c, p)
  {
    routes := [];
    var list := DisruptionsForPeriod(c, p);
    ghost var lists := PairLists(list);
    var n := 0;
    while n < |list|
      invariant 0 <= n <= |list|
      invariant routes == InsertAll([], Concat(lists[..n]))
    {
      routes := AddRecordRoutes(routes, list[n]);
      assert lists[n] == PairsOf(list[n]);
      ConcatExtend(lists, n);
      InsertAllAppend([], Concat(lists[..n]), lists[n]);
      n := n + 1;
    }
    assert lists[..n] == lists;
  }

  /** The body of `getAllRoutes`'s loop for one record: parse its codes
      and add each of its directed pairs to the set. */
  method AddRecordRoutes(routes0: seq<Route>, d: Disruption) returns (routes: seq<Route>)
    ensures routes == InsertAll(routes0, PairsOf(d))
  {
    routes := routes0;
    var codes := ParseCodes(d.codes);
    if |codes| != 0 {
      var pairs := MakeDirectedPairs(codes);
      var k := 0;
      while k < |pairs|
        invariant 0 <= k <= |pairs|
        invariant routes == InsertAll(routes0, pairs[..k])
      {
        PrefixExtend(pairs, k);
        DropLastOfAppend(pairs[..k], pairs[k]);
        routes := Insert(routes, pairs[k]);
        k := k + 1;
      }
      assert pairs[..k] == pairs;
    } else {
      assert PairsOf(d) == [];
    }
  }

  lemma ProposedMembers(list: seq<Disruption>, r: Route)
    ensures r in ProposedRoutes(list) <==> exists i :: 0 <= i < |list| && r in PairsOf(list[i])
  {
    var lists := PairLists(list);
    ConcatMembers(lists, r);
    if r in Concat(lists) {
      var i :| 0 <= i < |lists| && r in lists[i];
      assert lists[i] == PairsOf(list[i]);
    }
    if exists i :: 0 <= i < |list| && r in PairsOf(list[i]) {
      var i :| 0 <= i < |list| && r in PairsOf(list[i]);
      assert lists[i] == PairsOf(list[i]);
    }
  }

  /** A route is in the universe exactly when some disruption of the
      period implies it. */
  lemma AllRoutesMembers(c: Corpus, p: Period, r: Route)
    ensures r in AllRoutes(c, p) <==>
      exists i :: 0 <= i < |DisruptionsForPeriod(c, p)| && r in PairsOf(DisruptionsForPeriod(c, p)[i])
  {
    InsertAllMembers([], ProposedRoutes(DisruptionsForPeriod(c, p)), r);
    ProposedMembers(DisruptionsForPeriod(c, p), r);
  }

  /** Presence only: every route is recorded once, however often it occurs. */
  lemma AllRoutesDistinct(c: Corpus, p: Period)
    ensures NoDups(AllRoutes(c, p))
  {
    InsertAllKeeps([], ProposedRoutes(DisruptionsForPeriod(c, p)));
  }

  /** The universe of `'all'` is the union of the universes of the years. */
  lemma AllRoutesUnion(c: Corpus, r: Route)
    requires UniqueYears(c)
    ensures r in AllRoutes(c, All) <==> exists k :: 0 <= k < |c| && r in AllRoutes(c, Year(c[k].year))
  {
    AllRoutesMembers(c, All, r);
    var all := Flatten(c);
    if r in AllRoutes(c, All) {
      var i :| 0 <= i < |all| && r in PairsOf(all[i]);
      FlattenMembers(c, all[i]);
      var k :| 0 <= k < |c| && all[i] in c[k].records;
      var j :| 0 <= j < |c[k].records| && c[k].records[j] == all[i];
      YearRoutes(c, k, r);
    }
    if exists k :: 0 <= k < |c| && r in AllRoutes(c, Year(c[k].year)) {
      var k :| 0 <= k < |c| && r in AllRoutes(c, Year(c[k].year));
      YearRoutes(c, k, r);
      var j :| 0 <= j < |c[k].records| && r in PairsOf(c[k].records[j]);
      YearToAll(c, k, j, r);
    }
  }

  lemma YearToAll(c: Corpus, k: nat, j: nat, r: Route)
    requires k < |c| && j < |c[k].records| && r in PairsOf(c[k].records[j])
    ensures r in AllRoutes(c, All)
  {
    FlattenMembers(c, c[k].records[j]);
    var i := IndexOfMember(Flatten(c), c[k].records[j]);
    AllRoutesMembers(c, All, r);
  }

  lemma YearRoutes(c: Corpus, k: nat, r: Route)
    requires UniqueYears(c) && k < |c|
    ensures r in AllRoutes(c, Year(c[k].year)) <==>
      exists j :: 0 <= j < |c[k].records| && r in PairsOf(c[k].records[j])
  {
    LookupYear(c, c[k].year);
    AllRoutesMembers(c, Year(c[k].year), r);
  }

  /** `new Set((allowedStations || []).map(s => s.code).filter(Boolean))`.
      `None` stands for a `null` list; an omitted or `undefined` argument
      would take the default `stationOptions` instead. */
  function AllowedCodes(stations: Option<seq<Station>>): set<string> {
    set s | s in stations.GetOr([]) && s.code != "" :: s.code
  }

  /** The allowed codes are the non-empty codes of the listed stations. */
  lemma AllowedCodesMembers(stations: Option<seq<Station>>, c: string)
    ensures c in AllowedCodes(stations) <==>
      c != "" && stations.Some? && exists s :: s in stations.value && s.code == c
  {
    if c in AllowedCodes(stations) {
      var s :| s in stations.GetOr([]) && s.code != "" && s.code == c;
    }
  }

  /** The routes of `routes`, in order, whose two ends are allowed. */
  function KeepAllowed(routes: seq<Route>, allowed: set<string>): seq<Route>
    decreases |routes|
  {
    if routes == [] then []
    else
      var last := routes[|routes| - 1];
      KeepAllowed(routes[..|routes| - 1], allowed)
      + (if last.from in allowed && last.to in allowed then [last] else [])
  }

  /** The list `getAllRoutesArray(corpus, period, allowedStations)` returns. */
  function AllRoutesArray(c: Corpus, p: Period, stations: Option<seq<Station>>): seq<Route> {
    KeepAllowed(AllRoutes(c, p), AllowedCodes(stations))
  }

  /** `getAllRoutesArray(corpus, period, allowedStations)`. */
  method GetAllRoutesArray(c: Corpus, p: Period, stations: Option<seq<Station>>) returns (routes: seq<Route>)
    ensures routes == AllRoutesArray(c, p, stations)
  {
    var allowed := AllowedCodes(stations);
    var all := GetAllRoutes(c, p);
    routes := [];
    var k := 0;
    while k < |all|
      invariant 0 <= k <= |all|
      invariant routes == KeepAllowed(all[..k], allowed)
    {
      PrefixExtend(all, k);
      DropLastOfAppend(all[..k], all[k]);
      if all[k].from in allowed && all[k].to in allowed {
        routes := routes + [all[k]];
      } else {
        assert routes == routes + [];
      }
      k := k + 1;
    }
    assert all[..k] == all;
  }

  lemma {:induction false} KeepAllowedMembers(routes: seq<Route>, allowed: set<string>, r: Route)
    ensures r in KeepAllowed(routes, allowed) <==> r in routes && r.from in allowed && r.to in allowed
    decreases |routes|
  {
    if routes != [] {
      var init := routes[..|routes| - 1];
      KeepAllowedMembers(init, allowed, r);
      assert routes == init + [routes[|routes| - 1]];
    }
  }

  lemma {:induction false} KeepAllowedDistinct(routes: seq<Route>, allowed: set<string>)
    requires NoDups(routes)
    ensures NoDups(KeepAllowed(routes, allowed))
    decreases |routes|
  {
    if routes != [] {
      var init, last := routes[..|routes| - 1], routes[|routes| - 1];
      KeepAllowedDistinct(init, allowed);
      KeepAllowedMembers(init, allowed, last);
      assert last !in init;
    }
  }

  /** Every route of the filtered universe has both ends allowed and is in
      the universe, and every such route of the universe is listed once. */
  lemma AllRoutesArrayMembers(c: Corpus, p: Period, stations: Option<seq<Station>>, r: Route)
    ensures r in AllRoutesArray(c, p, stations) <==>
      r in AllRoutes(c, p) && r.from in AllowedCodes(stations) && r.to in AllowedCodes(stations)
    ensures NoDups(AllRoutesArray(c, p, stations))
  {
    KeepAllowedMembers(AllRoutes(c, p), AllowedCodes(stations), r);
    AllRoutesDistinct(c, p);
    KeepAllowedDistinct(AllRoutes(c, p), AllowedCodes(stations));
  }

  /** No allowed station, or no disruption in the period, leaves no route. */
  lemma AllRoutesArrayEmpty(c: Corpus, p: Period, stations: Option<seq<Station>>)
    requires AllowedCodes(stations) == {} || DisruptionsForPeriod(c, p) == []
    ensures AllRoutesArray(c, p, stations) == []
  {
    if DisruptionsForPeriod(c, p) == [] {
      assert PairLists([]) == [];
    } else {
      KeepNothing(AllRoutes(c, p), AllowedCodes(stations));
    }
  }

  lemma {:induction false} KeepNothing(routes: seq<Route>, allowed: set<string>)
    requires allowed == {}
    ensures KeepAllowed(routes, allowed) == []
    decreases |routes|
  {
    if routes != [] {
      KeepNothing(routes[..|routes| - 1], allowed);
    }
  }
}
