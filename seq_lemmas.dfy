/** Small facts about sequence concatenation, stated once for any element
    type so that proofs about sequences of strings do not have to unfold
    them on strings. */
module SeqLemmas {

  lemma Associative<T>(x: seq<T>, y: seq<T>, z: seq<T>)
    ensures x + (y + z) == (x + y) + z
  {
  }

  lemma DropFirstOfAppend<T>(a: seq<T>, b: seq<T>)
    requires a != []
    ensures (a + b)[0] == a[0] && (a + b)[1..] == a[1..] + b
  {
  }

  lemma ConsOfAppend<T>(a: seq<T>, m: seq<T>)
    requires a != []
    ensures a == [a[0]] + a[1..] && a + m == [a[0]] + (a[1..] + m)
  {
  }

  lemma DropLastOfAppend<T>(a: seq<T>, x: T)
    ensures (a + [x])[..|a|] == a && (a + [x])[|a|] == x
  {
  }

  lemma PrefixExtend<T>(s: seq<T>, i: nat)
    requires i < |s|
    ensures s[..i + 1] == s[..i] + [s[i]]
  {
  }

  lemma IndexOfMember<T>(s: seq<T>, x: T) returns (i: nat)
    requires x in s
    ensures i < |s| && s[i] == x
  {
    i :| i < |s| && s[i] == x;
  }

  /** The concatenation of a sequence of sequences, in order. */
  function Concat<T>(xss: seq<seq<T>>): seq<T>
    decreases |xss|
  {
    if xss == [] then [] else Concat(xss[..|xss| - 1]) + xss[|xss| - 1]
  }

  lemma ConcatExtend<T>(xss: seq<seq<T>>, i: nat)
    requires i < |xss|
    ensures Concat(xss[..i + 1]) == Concat(xss[..i]) + xss[i]
  {
    assert xss[..i + 1][..i] == xss[..i];
  }

  lemma {:induction false} ConcatMembers<T>(xss: seq<seq<T>>, x: T)
    ensures x in Concat(xss) <==> exists i :: 0 <= i < |xss| && x in xss[i]
    decreases |xss|
  {
    if xss != [] {
      var n := |xss| - 1;
      ConcatMembers(xss[..n], x);
      if x in Concat(xss[..n]) {
        var i :| 0 <= i < n && x in xss[..n][i];
        assert x in xss[i];
      }
      if exists i :: 0 <= i < |xss| && x in xss[i] {
        var i :| 0 <= i < |xss| && x in xss[i];
        if i < n {
          assert x in xss[..n][i];
        }
      }
    }
  }
}
