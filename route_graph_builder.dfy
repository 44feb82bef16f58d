/** RouteGraphBuilder: `makeDirectedPairs` of modules/route-ranking.mjs.
    For every index pair i < j of an ordered code list whose codes are
    both non-empty and different, the directed pair (codes[i], codes[j])
    is added to a `Set`, so a pair proposed twice is kept once, at the
    place it was first added. The reverse pair is a different pair. */
module RouteGraphBuilder {
  import opened Records
  import opened OrderedSets
  import opened SeqLemmas

  /** The guard `codes[i] && codes[j] && codes[i] !== codes[j]`. */
  predicate Linkable(a: string, b: string) {
    a != "" && b != "" && a != b
  }

  /** What the inner loop for `i` proposes while its `j` runs from i + 1 up
      to, but not including, `j`, in that order. */
  function Row(codes: seq<string>, i: nat, j: nat): seq<Route>
    requires i < |codes| && j <= |codes|
    decreases j
  {
    if j <= i + 1 then []
    else
      Row(codes, i, j - 1)
      + (if Linkable(codes[i], codes[j - 1]) then [Route(codes[i], codes[j - 1])] else [])
  }

  /** What the outer loop proposes in its first `i` iterations, in order. */
  function Rows(codes: seq<string>, i: nat): seq<Route>
    requires i <= |codes|
  {
    if i == 0 then [] else Rows(codes, i - 1) + Row(codes, i - 1, |codes|)
  }

  /** The insertion-ordered set `makeDirectedPairs(codes)` returns. */
  function DirectedPairs(codes: seq<string>): seq<Route> {
    InsertAll([], Rows(codes, |codes|))
  }

  /** `makeDirectedPairs(codes)`. */
  method MakeDirectedPairs(codes: seq<string>) returns (pairs: seq<Route>)
    ensures pairs == DirectedPairs(codes)
  {
    pairs := [];
    var i := 0;
    while i < |codes|
      invariant 0 <= i <= |codes|
      invariant pairs == InsertAll([], Rows(codes, i))
    {
      ghost var before := pairs;
      var j := i + 1;
      while j < |codes|
        invariant i + 1 <= j <= |codes|
        invariant pairs == InsertAll(before, Row(codes, i, j))
      {
        ghost var proposed := Row(codes, i, j);
        if codes[i] != "" && codes[j] != "" && codes[i] != codes[j] {
          var r := Route(codes[i], codes[j]);
          assert Row(codes, i, j + 1) == proposed + [r];
          DropLastOfAppend(proposed, r);
          pairs := Insert(pairs, r);
        } else {
          assert Row(codes, i, j + 1) == proposed + [];
          assert proposed + [] == proposed;
        }
        j := j + 1;
      }
      InsertAllAppend([], Rows(codes, i), Row(codes, i, |codes|));
      i := i + 1;
    }
  }

  /** Where a pair of one row comes from. */
  lemma {:induction false} RowWitness(codes: seq<string>, i: nat, j: nat, r: Route) returns (k: nat)
    requires i < |codes| && j <= |codes| && r in Row(codes, i, j)
    ensures i < k < j && codes[i] == r.from && codes[k] == r.to && Linkable(r.from, r.to)
    decreases j
  {
    var prev := Row(codes, i, j - 1);
    assert Row(codes, i, j) == prev + (if Linkable(codes[i], codes[j - 1]) then [Route(codes[i], codes[j - 1])] else []);
    if r in prev {
      k := RowWitness(codes, i, j - 1, r);
    } else {
      k := j - 1;
    }
  }

  /** Every linkable later code of row `i` below `j` gives a pair. */
  lemma {:induction false} RowHas(codes: seq<string>, i: nat, j: nat, k: nat, r: Route)
    requires i < k < j <= |codes| && codes[i] == r.from && codes[k] == r.to && Linkable(r.from, r.to)
    ensures r in Row(codes, i, j)
    decreases j
  {
    var prev := Row(codes, i, j - 1);
    assert Row(codes, i, j) == prev + (if Linkable(codes[i], codes[j - 1]) then [Route(codes[i], codes[j - 1])] else []);
    if k < j - 1 {
      RowHas(codes, i, j - 1, k, r);
    }
  }

  /** Where a proposed pair comes from. */
  lemma {:induction false} RowsWitness(codes: seq<string>, i: nat, r: Route) returns (a: nat, k: nat)
    requires i <= |codes| && r in Rows(codes, i)
    ensures a < i && a < k < |codes| && codes[a] == r.from && codes[k] == r.to && Linkable(r.from, r.to)
  {
    if i == 0 {
    } else {
      var p := i - 1;
      var earlier := Rows(codes, p);
      var row := Row(codes, p, |codes|);
      assert Rows(codes, i) == earlier + row;
      if r in earlier {
        a, k := RowsWitness(codes, p, r);
      } else {
        a := p;
        k := RowWitness(codes, p, |codes|, r);
      }
    }
  }

  /** Every linkable pair of positions below `i` is proposed. */
  lemma {:induction false} RowsHas(codes: seq<string>, i: nat, a: nat, k: nat, r: Route)
    requires i <= |codes| && a < i && a < k < |codes|
    requires codes[a] == r.from && codes[k] == r.to && Linkable(r.from, r.to)
    ensures r in Rows(codes, i)
  {
    var p := i - 1;
    var earlier := Rows(codes, p);
    var row := Row(codes, p, |codes|);
    assert Rows(codes, i) == earlier + row;
    if a == p {
      RowHas(codes, p, |codes|, k, r);
      assert r in row;
    } else {
      RowsHas(codes, p, a, k, r);
      assert r in earlier;
    }
  }

  lemma RowsMembers(codes: seq<string>, i: nat, r: Route)
    requires i <= |codes|
    ensures r in Rows(codes, i) <==>
      exists a, k :: 0 <= a < i && a < k < |codes| && codes[a] == r.from && codes[k] == r.to && Linkable(r.from, r.to)
  {
    if r in Rows(codes, i) {
      var a, k := RowsWitness(codes, i, r);
    }
    if exists a, k :: 0 <= a < i && a < k < |codes| && codes[a] == r.from && codes[k] == r.to && Linkable(r.from, r.to) {
      var a, k :| 0 <= a < i && a < k < |codes| && codes[a] == r.from && codes[k] == r.to && Linkable(r.from, r.to);
      RowsHas(codes, i, a, k, r);
    }
  }

  /** `a|b` is made exactly when some `a` comes before some `b`, both
      non-empty and different; so `A,B,A` gives both `A|B` and `B|A`, and
      no pair has equal endpoints. */
  lemma DirectedPairsMembers(codes: seq<string>, r: Route)
    ensures r in DirectedPairs(codes) <==>
      && Linkable(r.from, r.to)
      && exists i, j :: 0 <= i < j < |codes| && codes[i] == r.from && codes[j] == r.to
  {
    InsertAllMembers([], Rows(codes, |codes|), r);
    RowsMembers(codes, |codes|, r);
  }

  /** Every pair is made once. */
  lemma DirectedPairsAreDistinct(codes: seq<string>)
    ensures NoDups(DirectedPairs(codes))
  {
    InsertAllKeeps([], Rows(codes, |codes|));
  }

  lemma {:induction false} RowLength(codes: seq<string>, i: nat, j: nat)
    requires i < |codes| && j <= |codes|
    ensures j <= i + 1 ==> |Row(codes, i, j)| == 0
    ensures j > i + 1 ==> |Row(codes, i, j)| <= j - i - 1
    decreases j
  {
    if j > i + 1 {
      RowLength(codes, i, j - 1);
    }
  }

  lemma {:induction false} RowsLength(codes: seq<string>, i: nat)
    requires i <= |codes|
    ensures 2 * |Rows(codes, i)| <= i * (2 * |codes| - i - 1)
  {
    if i > 0 {
      RowsLength(codes, i - 1);
      RowLength(codes, i - 1, |codes|);
      StepBound(|codes|, i, |Rows(codes, i - 1)|, |Row(codes, i - 1, |codes|)|);
    }
  }

  lemma StepBound(n: nat, i: nat, before: nat, row: nat)
    requires 1 <= i <= n
    requires 2 * before <= (i - 1) * (2 * n - i) && row <= n - i
    ensures 2 * (before + row) <= i * (2 * n - i - 1)
  {
    assert (i - 1) * (2 * n - i) == i * (2 * n - i - 1) - 2 * (n - i);
  }

  /** At most n(n-1)/2 pairs come from n codes. */
  lemma DirectedPairsSize(codes: seq<string>)
    ensures 2 * |DirectedPairs(codes)| <= |codes| * (|codes| - 1)
  {
    RowsLength(codes, |codes|);
    InsertAllKeeps([], Rows(codes, |codes|));
  }

  /** A code that comes back (`A,B,A`) yields the pair in both directions,
      and the repeated `A|B` once. */
  lemma RepeatedCodeGivesBothDirections()
    ensures DirectedPairs(["A", "B", "A"]) == [Route("A", "B"), Route("B", "A")]
  {
    var codes := ["A", "B", "A"];
    assert Row(codes, 0, 3) == [Route("A", "B")];
    assert Row(codes, 1, 3) == [Route("B", "A")];
    assert Rows(codes, 3) == [Route("A", "B"), Route("B", "A")];
    assert "A"[0] != "B"[0];
    InsertTwo(Route("A", "B"), Route("B", "A"));
  }
}
