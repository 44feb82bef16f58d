/** RouteFrequencyCounter: the counting half of `routeRanking` in
    modules/script.mjs. Each disruption adds one to every distinct directed
    pair its codes imply (a per-record `seen` set stops a pair that appears
    twice in one record from counting twice), so a route's count is the
    number of disruptions that imply it. */
module RouteFrequencyCounter {
  import opened Wrappers
  import opened Records
  import opened OrderedSets
  import opened SeqLemmas
  import opened CodeParser
  import opened RouteGraphBuilder
  import opened RouteUniverseIndex
  import opened Counting

  /** The `counts` map after the records of `list` have been visited. */
  function Tally(list: seq<Disruption>): map<Route, nat> {
    TallyLists(PairLists(list))
  }

  /** The number of disruptions of `list` that imply route `r`. */
  function Occurrences(list: seq<Disruption>, r: Route): nat {
    CountIn(PairLists(list), r)
  }

  /** The counting loops of `routeRanking` over `list`. */
  method CountRoutes(list: seq<Disruption>) returns (counts: map<Route, nat>)
    ensures counts == Tally(list)
  {
    counts := map[];
    var stationCodes := seq(|list|, k requires 0 <= k < |list| => ParseCodes(list[k].codes));
    ghost var lists := PairLists(list);
    var n := 0;
    while n < |stationCodes|
      invariant 0 <= n <= |list| && |stationCodes| == |list|
      invariant counts == TallyLists(lists[..n])
    {
      var codes := stationCodes[n];
      ParseCodesWellFormed(list[n].codes);
      assert lists[n] == DirectedPairs(codes);
      counts := CountCodes(codes, counts);
      TallyListsPrefix(lists, n);
      n := n + 1;
    }
    assert lists[..n] == lists;
  }

  /** The body of the outer `for`: a record with fewer than two codes is
      skipped, since it has no pair. */
  method CountCodes(codes: seq<string>, counts0: map<Route, nat>) returns (counts: map<Route, nat>)
    requires forall k :: 0 <= k < |codes| ==> codes[k] != ""
    ensures counts == BumpAll(counts0, DirectedPairs(codes))
  {
    counts := counts0;
    if |codes| < 2 {
      DirectedPairsSize(codes);
      return;
    }
    counts := CountRecord(codes, counts);
  }

  /** One pass of the outer `for` of `routeRanking`: every distinct pair of
      one record's codes is counted once. */
  method CountRecord(codes: seq<string>, counts0: map<Route, nat>) returns (counts: map<Route, nat>)
    requires forall k :: 0 <= k < |codes| ==> codes[k] != ""
    ensures counts == BumpAll(counts0, DirectedPairs(codes))
  {
    counts := counts0;
    var seen: set<Route> := {};
    ghost var order: seq<Route> := [];
    var i := 0;
    assert Rows(codes, i) == [] && InsertAll([], []) == order;
    assert seen == Elems(order);
    while i < |codes|
      invariant 0 <= i <= |codes|
      invariant order == InsertAll([], Rows(codes, i))
      invariant seen == Elems(order)
      invariant counts == BumpAll(counts0, order)
    {
      seen, counts, order := CountRow(codes, i, seen, counts, counts0, order);
      InsertAllAppend([], Rows(codes, i), Row(codes, i, |codes|));
      i := i + 1;
    }
    assert i == |codes|;
  }

  /** The inner `for` of `routeRanking` for index `i`. */
  method CountRow(codes: seq<string>, i: nat, seen0: set<Route>, counts1: map<Route, nat>,
                  ghost counts0: map<Route, nat>, ghost order0: seq<Route>)
    returns (seen: set<Route>, counts: map<Route, nat>, ghost order: seq<Route>)
    requires i < |codes| && forall k :: 0 <= k < |codes| ==> codes[k] != ""
    requires seen0 == Elems(order0)
    requires counts1 == BumpAll(counts0, order0)
    ensures order == InsertAll(order0, Row(codes, i, |codes|))
    ensures seen == Elems(order)
    ensures counts == BumpAll(counts0, order)
  {
    seen, counts, order := seen0, counts1, order0;
    var j := i + 1;
    assert Row(codes, i, j) == [];
    assert InsertAll(order0, []) == order0;
    while j < |codes|
      invariant i + 1 <= j <= |codes|
      invariant order == InsertAll(order0, Row(codes, i, j))
      invariant seen == Elems(order)
      invariant counts == BumpAll(counts0, order)
    {
      seen, counts, order := CountPair(codes, i, j, seen, counts, counts0, order0, order);
      j := j + 1;
    }
    assert j == |codes|;
  }

  /** One step of the inner `for`: `codes[i]|codes[j]` is counted unless
      its ends are equal or it was already seen in this record. */
  method CountPair(codes: seq<string>, i: nat, j: nat, seen0: set<Route>, counts1: map<Route, nat>,
                   ghost counts0: map<Route, nat>, ghost order0: seq<Route>, ghost order1: seq<Route>)
    returns (seen: set<Route>, counts: map<Route, nat>, ghost order: seq<Route>)
    requires i < j < |codes| && codes[i] != "" && codes[j] != ""
    requires order1 == InsertAll(order0, Row(codes, i, j))
    requires seen0 == Elems(order1)
    requires counts1 == BumpAll(counts0, order1)
    ensures order == InsertAll(order0, Row(codes, i, j + 1))
    ensures seen == Elems(order)
    ensures counts == BumpAll(counts0, order)
  {
    seen, counts, order := seen0, counts1, order1;
    var from, to := codes[i], codes[j];
    ghost var proposed := Row(codes, i, j);
    if from != to {
      var key := Route(from, to);
      assert Row(codes, i, j + 1) == proposed + [key];
      DropLastOfAppend(proposed, key);
      ElemsInsert(order, key);
      if key !in seen {
        BumpAllSnoc(counts0, order, key);
        seen := seen + {key};
        counts := Bump(counts, key);
      }
      order := Insert(order, key);
    } else {
      assert Row(codes, i, j + 1) == proposed + [];
      assert proposed + [] == proposed;
    }
  }

  /** A route is counted exactly when some disruption of the list implies
      it, and its count is the number of such disruptions (at most the
      number of records): a route named twice in one record counts once. */
  lemma TallyCounts(list: seq<Disruption>, r: Route)
    ensures r in Tally(list) <==> Occurrences(list, r) > 0
    ensures r in Tally(list) ==> Tally(list)[r] == Occurrences(list, r)
    ensures Occurrences(list, r) <= |list|
  {
    var lists := PairLists(list);
    forall i | 0 <= i < |lists|
      ensures NoDups(lists[i])
    {
      DirectedPairsAreDistinct(ParseCodes(list[i].codes));
    }
    TallyListsCounts(lists, r);
    CountInPositive(lists, r);
  }

  /** Counts add up over consecutive stretches of records. */
  lemma PairListsAppend(a: seq<Disruption>, b: seq<Disruption>)
    ensures PairLists(a + b) == PairLists(a) + PairLists(b)
  {
    var l, r := PairLists(a + b), PairLists(a) + PairLists(b);
    forall i | 0 <= i < |l|
      ensures l[i] == r[i]
    {
      if i < |a| {
        assert (a + b)[i] == a[i];
      } else {
        assert (a + b)[i] == b[i - |a|];
      }
    }
  }

  lemma OccurrencesAppend(a: seq<Disruption>, b: seq<Disruption>, r: Route)
    ensures Occurrences(a + b, r) == Occurrences(a, r) + Occurrences(b, r)
  {
    PairListsAppend(a, b);
    CountInAppend(PairLists(a), PairLists(b), r);
  }

  /** The routes with a count are exactly the routes of the universe of the
      same period. */
  lemma CountedIsUniverse(c: Corpus, p: Period, r: Route)
    ensures r in Tally(DisruptionsForPeriod(c, p)) <==> r in AllRoutes(c, p)
  {
    var list := DisruptionsForPeriod(c, p);
    TallyCounts(list, r);
    CountInPositive(PairLists(list), r);
    ProposedMembers(list, r);
    ConcatMembers(PairLists(list), r);
    AllRoutesMembers(c, p, r);
  }

  /** The count of the first `k` years of the corpus, each year looked up by
      its key. */
  function YearTotal(c: Corpus, k: nat, r: Route): nat
    requires k <= |c|
  {
    if k == 0 then 0
    else YearTotal(c, k - 1, r) + Occurrences(DisruptionsForPeriod(c, Year(c[k - 1].year)), r)
  }

  lemma {:induction false} FlattenPrefix(c: Corpus, k: nat)
    requires k < |c|
    ensures Flatten(c[..k + 1]) == Flatten(c[..k]) + c[k].records
  {
    FlattenAppend(c[..k], [c[k]]);
    PrefixExtend(c, k);
    assert Flatten([c[k]]) == c[k].records + Flatten([]);
  }

  lemma {:induction false} FlattenAppend(a: Corpus, b: Corpus)
    ensures Flatten(a + b) == Flatten(a) + Flatten(b)
    decreases |a|
  {
    if a == [] {
      assert a + b == b;
    } else {
      FlattenAppend(a[1..], b);
      DropFirstOfAppend(a, b);
      Associative(a[0].records, Flatten(a[1..]), Flatten(b));
    }
  }

  lemma FlattenStep(c: Corpus, k: nat, r: Route)
    requires 0 < k <= |c|
    ensures Occurrences(Flatten(c[..k]), r) == Occurrences(Flatten(c[..k - 1]), r) + Occurrences(c[k - 1].records, r)
  {
    FlattenPrefix(c, k - 1);
    OccurrencesAppend(Flatten(c[..k - 1]), c[k - 1].records, r);
  }

  lemma YearOfEntry(c: Corpus, k: nat)
    requires UniqueYears(c) && k < |c|
    ensures DisruptionsForPeriod(c, Year(c[k].year)) == c[k].records
  {
    LookupYear(c, c[k].year);
  }

  /** The count over `'all'` is the sum of the counts of the years. */
  lemma {:induction false} AllIsSumOfYears(c: Corpus, k: nat, r: Route)
    requires UniqueYears(c) && k <= |c|
    ensures Occurrences(Flatten(c[..k]), r) == YearTotal(c, k, r)
    ensures k == |c| ==> Occurrences(DisruptionsForPeriod(c, All), r) == YearTotal(c, |c|, r)
  {
    if k > 0 {
      AllIsSumOfYears(c, k - 1, r);
      FlattenStep(c, k, r);
      YearOfEntry(c, k - 1);
    }
    if k == |c| {
      assert c[..k] == c;
    }
  }
}
