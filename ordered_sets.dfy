/** JavaScript's `Set` iterates in insertion order and `add` of a member
    that is already present changes nothing. Such a set is modelled as a
    sequence without duplicates: `Insert` is `Set.prototype.add`, and
    `InsertAll(s, xs)` adds the elements of `xs` one after the other. */
module OrderedSets {

  ghost predicate NoDups<T>(s: seq<T>) {
    forall i, j :: 0 <= i < j < |s| ==> s[i] != s[j]
  }

  function Insert<T(==)>(s: seq<T>, x: T): seq<T> {
    if x in s then s else s + [x]
  }

  /** The members of an insertion-ordered set, forgetting the order. */
  ghost function Elems<T>(s: seq<T>): set<T> {
    set x | x in s
  }

  lemma ElemsInsert<T>(s: seq<T>, x: T)
    ensures Elems(Insert(s, x)) == Elems(s) + {x}
    ensures x in Elems(s) <==> x in s
  {
  }

  function InsertAll<T(==)>(s: seq<T>, xs: seq<T>): seq<T>
    decreases |xs|
  {
    if xs == [] then s else Insert(InsertAll(s, xs[..|xs| - 1]), xs[|xs| - 1])
  }

  /** Adding the elements of `a + b` is adding those of `a`, then those of `b`. */
  lemma {:induction false} InsertAllAppend<T>(s: seq<T>, a: seq<T>, b: seq<T>)
    ensures InsertAll(s, a + b) == InsertAll(InsertAll(s, a), b)
    decreases |b|
  {
    if b == [] {
      assert a + b == a;
    } else {
      var b' := b[..|b| - 1];
      assert (a + b)[..|a + b| - 1] == a + b';
      assert (a + b)[|a + b| - 1] == b[|b| - 1];
      InsertAllAppend(s, a, b');
    }
  }

  /** The members after adding are those before plus those added. */
  lemma {:induction false} InsertAllMembers<T>(s: seq<T>, xs: seq<T>, y: T)
    ensures y in InsertAll(s, xs) <==> y in s || y in xs
    decreases |xs|
  {
    if xs != [] {
      var xs' := xs[..|xs| - 1];
      InsertAllMembers(s, xs', y);
      assert xs == xs' + [xs[|xs| - 1]];
    }
  }

  /** Adding keeps a duplicate-free sequence duplicate-free and keeps what
      was there in place. */
  lemma {:induction false} InsertAllKeeps<T>(s: seq<T>, xs: seq<T>)
    requires NoDups(s)
    ensures NoDups(InsertAll(s, xs))
    ensures |s| <= |InsertAll(s, xs)| <= |s| + |xs|
    ensures InsertAll(s, xs)[..|s|] == s
    decreases |xs|
  {
    if xs != [] {
      InsertAllKeeps(s, xs[..|xs| - 1]);
    }
  }

  lemma InsertTwo<T>(x: T, y: T)
    requires x != y
    ensures InsertAll([], [x, y]) == [x, y]
  {
    assert [x, y][..1] == [x];
    assert [x][..0] == [];
    assert InsertAll([], [x]) == Insert([], x) == [x];
    assert y !in [x];
    assert InsertAll([], [x, y]) == Insert([x], y);
  }
}
