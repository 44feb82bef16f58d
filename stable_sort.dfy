/** StableSort: `rankings.sort((a, b) => b.disruptionValue - a.disruptionValue)`
    of modules/script.mjs. `Array.prototype.sort` is stable, so the result is
    ordered by value, largest first, and entries of equal value keep their
    relative order. The sort is an insertion sort in place on the array;
    `SortDesc` is its specification. */
module StableSort {
  import opened Records
  import opened SeqLemmas

  /** Inserts `x` into `s` after every entry whose value is at least that of
      `x`, scanning from the right as the insertion sort does. */
  function InsertDesc(s: seq<RankEntry>, x: RankEntry): (r: seq<RankEntry>)
    ensures |r| == |s| + 1
    decreases |s|
  {
    if s == [] || s[|s| - 1].disruptionValue >= x.disruptionValue then s + [x]
    else InsertDesc(s[..|s| - 1], x) + [s[|s| - 1]]
  }

  /** The stable descending sort of `s`. */
  function SortDesc(s: seq<RankEntry>): seq<RankEntry>
    decreases |s|
  {
    if s == [] then [] else InsertDesc(SortDesc(s[..|s| - 1]), s[|s| - 1])
  }

  /** Values never increase along `s`. */
  ghost predicate SortedDesc(s: seq<RankEntry>) {
    forall i, j :: 0 <= i < j < |s| ==> s[i].disruptionValue >= s[j].disruptionValue
  }

  /** The entries of `s` with value `v`, in order. */
  function WithValue(s: seq<RankEntry>, v: nat): seq<RankEntry>
    decreases |s|
  {
    if s == [] then []
    else WithValue(s[..|s| - 1], v) + (if s[|s| - 1].disruptionValue == v then [s[|s| - 1]] else [])
  }

  /** Sorts `a` in place. */
  method SortByValue(a: array<RankEntry>)
    modifies a
    ensures a[..] == SortDesc(old(a[..]))
  {
    ghost var s0 := a[..];
    var i := 0;
    while i < a.Length
      invariant 0 <= i <= a.Length
      invariant a[..i] == SortDesc(s0[..i])
      invariant a[i..] == s0[i..]
    {
      InsertAt(a, i);
      PrefixExtend(s0, i);
      DropLastOfAppend(s0[..i], s0[i]);
      i := i + 1;
    }
    assert a[..] == a[..i] && s0 == s0[..i];
  }

  /** One pass of the insertion sort: `a[i]` moves left past the entries of
      smaller value. */
  method InsertAt(a: array<RankEntry>, i: nat)
    requires i < a.Length
    modifies a
    ensures a[..i + 1] == InsertDesc(old(a[..i]), old(a[i]))
    ensures a[i + 1..] == old(a[i + 1..])
  {
    ghost var s := a[..i];
    var x := a[i];
    var j := i;
    while j > 0 && a[j - 1].disruptionValue < x.disruptionValue
      invariant 0 <= j <= i
      invariant forall k :: 0 <= k < j ==> a[k] == s[k]
      invariant forall k :: j < k <= i ==> a[k] == s[k - 1]
      invariant forall k :: j <= k < i ==> s[k].disruptionValue < x.disruptionValue
      invariant forall k :: i < k < a.Length ==> a[k] == old(a[k])
    {
      a[j] := a[j - 1];
      j := j - 1;
    }
    InsertDescAt(s, x, j);
    a[j] := x;
    assert forall k :: 0 <= k <= i ==> a[k] == (s[..j] + [x] + s[j..])[k];
  }

  /** Where the scan from the right stops, `x` goes. */
  lemma {:induction false} InsertDescAt(s: seq<RankEntry>, x: RankEntry, j: nat)
    requires j <= |s| && (j == 0 || s[j - 1].disruptionValue >= x.disruptionValue)
    requires forall k :: j <= k < |s| ==> s[k].disruptionValue < x.disruptionValue
    ensures InsertDesc(s, x) == s[..j] + [x] + s[j..]
    decreases |s|
  {
    if |s| == j {
      assert s[..j] == s && s[j..] == [];
    } else {
      var n := |s| - 1;
      InsertDescAt(s[..n], x, j);
      assert s[..n][..j] == s[..j];
      Associative(s[..j] + [x], s[..n][j..], [s[n]]);
      assert s[..n][j..] + [s[n]] == s[j..];
    }
  }

  lemma {:induction false} InsertDescPermutes(s: seq<RankEntry>, x: RankEntry)
    ensures multiset(InsertDesc(s, x)) == multiset(s) + multiset{x}
    decreases |s|
  {
    if s != [] && s[|s| - 1].disruptionValue < x.disruptionValue {
      var n := |s| - 1;
      InsertDescPermutes(s[..n], x);
      assert s == s[..n] + [s[n]];
    }
  }

  lemma {:induction false} InsertDescSorted(s: seq<RankEntry>, x: RankEntry)
    requires SortedDesc(s)
    ensures SortedDesc(InsertDesc(s, x))
    decreases |s|
  {
    if s != [] && s[|s| - 1].disruptionValue < x.disruptionValue {
      var n := |s| - 1;
      var init, last := s[..n], s[n];
      InsertDescSorted(init, x);
      InsertDescAtLeast(init, x, last.disruptionValue);
      DropLastOfAppend(InsertDesc(init, x), last);
    }
  }

  lemma {:induction false} InsertDescAtLeast(s: seq<RankEntry>, x: RankEntry, b: nat)
    requires x.disruptionValue >= b && forall k :: 0 <= k < |s| ==> s[k].disruptionValue >= b
    ensures forall k :: 0 <= k < |InsertDesc(s, x)| ==> InsertDesc(s, x)[k].disruptionValue >= b
    decreases |s|
  {
    if s != [] && s[|s| - 1].disruptionValue < x.disruptionValue {
      var n := |s| - 1;
      InsertDescAtLeast(s[..n], x, b);
      DropLastOfAppend(InsertDesc(s[..n], x), s[n]);
    }
  }

  lemma {:induction false} InsertDescWithValue(s: seq<RankEntry>, x: RankEntry, v: nat)
    ensures WithValue(InsertDesc(s, x), v) == WithValue(s, v) + (if x.disruptionValue == v then [x] else [])
    decreases |s|
  {
    if s == [] || s[|s| - 1].disruptionValue >= x.disruptionValue {
      DropLastOfAppend(s, x);
    } else {
      var n := |s| - 1;
      var init, last := s[..n], s[n];
      InsertDescWithValue(init, x, v);
      var p := InsertDesc(init, x);
      DropLastOfAppend(p, last);
      var wl := if last.disruptionValue == v then [last] else [];
      var wx := if x.disruptionValue == v then [x] else [];
      assert wl == [] || wx == [];
      assert WithValue(InsertDesc(s, x), v) == WithValue(p, v) + wl;
      assert WithValue(s, v) == WithValue(init, v) + wl;
      Associative(WithValue(init, v), wx, wl);
      Associative(WithValue(init, v), wl, wx);
    }
  }

  /** The sort is ordered by value, largest first, and is a permutation of
      its input: nothing is lost, duplicated or invented. */
  lemma {:induction false} SortDescOrdered(s: seq<RankEntry>)
    ensures SortedDesc(SortDesc(s))
    ensures multiset(SortDesc(s)) == multiset(s)
    ensures |SortDesc(s)| == |s|
    decreases |s|
  {
    if s != [] {
      var n := |s| - 1;
      SortDescOrdered(s[..n]);
      InsertDescSorted(SortDesc(s[..n]), s[n]);
      InsertDescPermutes(SortDesc(s[..n]), s[n]);
      assert s == s[..n] + [s[n]];
    }
  }

  /** The sort is stable: for every value, the entries with that value come
      out in the order they went in. */
  lemma {:induction false} SortDescStable(s: seq<RankEntry>, v: nat)
    ensures WithValue(SortDesc(s), v) == WithValue(s, v)
    decreases |s|
  {
    if s != [] {
      var n := |s| - 1;
      SortDescStable(s[..n], v);
      InsertDescWithValue(SortDesc(s[..n]), s[n], v);
    }
  }
}
