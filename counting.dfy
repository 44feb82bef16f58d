/** Multiset-style tallies over a sequence of lists: every list adds one to
    each of its (distinct) elements. Stated once for any element type. */
module Counting {
  import opened OrderedSets
  import opened SeqLemmas

  /** `counts.set(key, (counts.get(key) || 0) + 1)`. */
  function Bump<T>(m: map<T, nat>, x: T): map<T, nat> {
    m[x := (if x in m then m[x] else 0) + 1]
  }

  /** Bumps every element of `xs`, in order. */
  function BumpAll<T>(m: map<T, nat>, xs: seq<T>): map<T, nat>
    decreases |xs|
  {
    if xs == [] then m else Bump(BumpAll(m, xs[..|xs| - 1]), xs[|xs| - 1])
  }

  /** The tally after every list of `xss` has been bumped, in order. */
  function TallyLists<T>(xss: seq<seq<T>>): map<T, nat>
    decreases |xss|
  {
    if xss == [] then map[] else BumpAll(TallyLists(xss[..|xss| - 1]), xss[|xss| - 1])
  }

  /** The number of lists of `xss` that contain `x`. */
  function CountIn<T(==)>(xss: seq<seq<T>>, x: T): nat
    decreases |xss|
  {
    if xss == [] then 0
    else CountIn(xss[..|xss| - 1], x) + (if x in xss[|xss| - 1] then 1 else 0)
  }

  lemma BumpAllSnoc<T>(m: map<T, nat>, xs: seq<T>, x: T)
    ensures BumpAll(m, xs + [x]) == Bump(BumpAll(m, xs), x)
  {
    DropLastOfAppend(xs, x);
  }

  lemma {:induction false} BumpAllCounts<T>(m: map<T, nat>, xs: seq<T>, x: T)
    requires NoDups(xs)
    ensures x in BumpAll(m, xs) <==> x in m || x in xs
    ensures x in BumpAll(m, xs) ==>
      BumpAll(m, xs)[x] == (if x in m then m[x] else 0) + (if x in xs then 1 else 0)
    decreases |xs|
  {
    if xs != [] {
      var init, last := xs[..|xs| - 1], xs[|xs| - 1];
      assert xs == init + [last];
      assert NoDups(init);
      BumpAllCounts(m, init, x);
    }
  }

  /** The tally of one more list bumps that list's members. */
  lemma TallyListsPrefix<T>(xss: seq<seq<T>>, n: nat)
    requires n < |xss|
    ensures TallyLists(xss[..n + 1]) == BumpAll(TallyLists(xss[..n]), xss[n])
  {
    assert xss[..n + 1][..n] == xss[..n];
  }

  /** When no list repeats an element, the tally of `x` is the number of
      lists containing it, and `x` is tallied exactly when that is positive. */
  lemma {:induction false} TallyListsCounts<T>(xss: seq<seq<T>>, x: T)
    requires forall i :: 0 <= i < |xss| ==> NoDups(xss[i])
    ensures x in TallyLists(xss) <==> CountIn(xss, x) > 0
    ensures x in TallyLists(xss) ==> TallyLists(xss)[x] == CountIn(xss, x)
    decreases |xss|
  {
    if xss != [] {
      var n := |xss| - 1;
      assert forall i :: 0 <= i < n ==> xss[..n][i] == xss[i];
      TallyListsCounts(xss[..n], x);
      BumpAllCounts(TallyLists(xss[..n]), xss[n], x);
    }
  }

  lemma {:induction false} CountInAppend<T>(a: seq<seq<T>>, b: seq<seq<T>>, x: T)
    ensures CountIn(a + b, x) == CountIn(a, x) + CountIn(b, x)
    decreases |b|
  {
    if b == [] {
      assert a + b == a;
    } else {
      var init := b[..|b| - 1];
      CountInAppend(a, init, x);
      assert (a + b)[..|a + b| - 1] == a + init;
    }
  }

  lemma {:induction false} CountInPositive<T>(xss: seq<seq<T>>, x: T)
    ensures CountIn(xss, x) <= |xss|
    ensures CountIn(xss, x) > 0 <==> exists i :: 0 <= i < |xss| && x in xss[i]
    decreases |xss|
  {
    if xss != [] {
      var n := |xss| - 1;
      CountInPositive(xss[..n], x);
      if CountIn(xss[..n], x) > 0 {
        var i :| 0 <= i < n && x in xss[..n][i];
        assert xss[..n][i] == xss[i];
      }
      if exists i :: 0 <= i < |xss| && x in xss[i] {
        var i :| 0 <= i < |xss| && x in xss[i];
        if i < n {
          assert xss[..n][i] == xss[i];
        }
      }
    }
  }
}
