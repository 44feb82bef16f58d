/** RouteMatcher: `routesIncluding` of modules/script.mjs. A disruption is
    kept when, in its comma-split and trimmed code list (empty pieces are
    not dropped here), the first occurrence of the departure code comes
    strictly before the first occurrence of the arrival code. A record
    without a code field makes the whole filter throw. */
module RouteMatcher {
  import opened Wrappers
  import opened Records
  import opened SeqLemmas
  import opened CodeParser

  /** `raw.split(',').map(c => c.trim())`. */
  function CodeList(raw: string): (codes: seq<string>)
    ensures |codes| == |Split(raw, ',')|
  {
    var pieces := Split(raw, ',');
    seq(|pieces|, k requires 0 <= k < |pieces| => Trim(pieces[k]))
  }

  /** `xs.indexOf(x)`: the first index holding `x`, or -1. */
  function IndexOf(xs: seq<string>, x: string): (i: int)
    ensures -1 <= i < |xs|
    ensures i == -1 <==> x !in xs
    ensures i >= 0 ==> xs[i] == x && forall k :: 0 <= k < i ==> xs[k] != x
    decreases |xs|
  {
    if xs == [] then -1
    else if xs[0] == x then 0
    else
      var i := IndexOf(xs[1..], x);
      if i == -1 then -1 else i + 1
  }

  /** The test of the filter callback: `i !== -1 && j !== -1 && i < j`. */
  predicate Precedes(codes: seq<string>, from: string, to: string) {
    var i := IndexOf(codes, from);
    var j := IndexOf(codes, to);
    i != -1 && j != -1 && i < j
  }

  /** `xs.filter(keep)` whose callback throws on the elements marked `bad`. */
  function FilterOrThrow<T>(xs: seq<T>, bad: T -> bool, keep: T -> bool): Thrown<seq<T>>
    decreases |xs|
  {
    if xs == [] then Returned([])
    else if bad(xs[0]) then TypeError
    else
      match FilterOrThrow(xs[1..], bad, keep)
      case TypeError => TypeError
      case Returned(rest) => Returned((if keep(xs[0]) then [xs[0]] else []) + rest)
  }

  /** The callback of the filter: `r?.rdt_station_codes.split(',')` throws
      on an absent field, otherwise the codes are compared. */
  predicate Kept(d: Disruption, from: string, to: string) {
    d.codes.Some? && Precedes(CodeList(d.codes.value), from, to)
  }

  /** `routesIncluding(disruptions, fromCode, toCode)`. */
  function RoutesIncluding(ds: seq<Disruption>, from: string, to: string): Thrown<seq<Disruption>> {
    FilterOrThrow(ds, (d: Disruption) => d.codes.None?, (d: Disruption) => Kept(d, from, to))
  }

  /** The departure code occurs, and some occurrence of it lies before the
      first occurrence of the arrival code; a later occurrence of the
      arrival code after an earlier one does not count. */
  lemma PrecedesMeaning(codes: seq<string>, from: string, to: string)
    ensures Precedes(codes, from, to) <==>
      to in codes && exists i :: 0 <= i < IndexOf(codes, to) && codes[i] == from
  {
    var j := IndexOf(codes, to);
    if to in codes && exists i :: 0 <= i < j && codes[i] == from {
      var i :| 0 <= i < j && codes[i] == from;
      assert from in codes;
      assert IndexOf(codes, from) <= i;
    }
  }

  lemma {:induction false} FilterOrThrowThrows<T>(xs: seq<T>, bad: T -> bool, keep: T -> bool)
    ensures FilterOrThrow(xs, bad, keep) == TypeError <==> exists k :: 0 <= k < |xs| && bad(xs[k])
    decreases |xs|
  {
    if xs != [] {
      FilterOrThrowThrows(xs[1..], bad, keep);
      if exists k :: 0 <= k < |xs[1..]| && bad(xs[1..][k]) {
        var k :| 0 <= k < |xs[1..]| && bad(xs[1..][k]);
        assert bad(xs[k + 1]);
      }
      if exists k :: 0 <= k < |xs| && bad(xs[k]) {
        var k :| 0 <= k < |xs| && bad(xs[k]);
        if k > 0 {
          assert bad(xs[1..][k - 1]);
        }
      }
    }
  }

  lemma {:induction false} FilterOrThrowMembers<T>(xs: seq<T>, bad: T -> bool, keep: T -> bool, x: T)
    requires FilterOrThrow(xs, bad, keep).Returned?
    ensures x in FilterOrThrow(xs, bad, keep).value <==> x in xs && keep(x)
    ensures |FilterOrThrow(xs, bad, keep).value| <= |xs|
    decreases |xs|
  {
    if xs != [] {
      FilterOrThrowMembers(xs[1..], bad, keep, x);
      assert xs == [xs[0]] + xs[1..];
    }
  }

  lemma {:induction false} FilterOrThrowAppend<T>(a: seq<T>, b: seq<T>, bad: T -> bool, keep: T -> bool)
    requires FilterOrThrow(a, bad, keep).Returned? && FilterOrThrow(b, bad, keep).Returned?
    ensures FilterOrThrow(a + b, bad, keep)
      == Returned(FilterOrThrow(a, bad, keep).value + FilterOrThrow(b, bad, keep).value)
    decreases |a|
  {
    if a == [] {
      assert a + b == b;
      assert [] + FilterOrThrow(b, bad, keep).value == FilterOrThrow(b, bad, keep).value;
    } else {
      var rest := FilterOrThrow(a[1..], bad, keep);
      assert rest.Returned?;
      FilterOrThrowAppend(a[1..], b, bad, keep);
      DropFirstOfAppend(a, b);
      var head := if keep(a[0]) then [a[0]] else [];
      var tail := FilterOrThrow(b, bad, keep).value;
      assert FilterOrThrow(a[1..] + b, bad, keep) == Returned(rest.value + tail);
      assert FilterOrThrow(a, bad, keep).value == head + rest.value;
      Associative(head, rest.value, tail);
    }
  }

  /** A departure equal to the arrival never matches. */
  lemma {:induction false} SameStationNeverMatches(ds: seq<Disruption>, code: string)
    ensures RoutesIncluding(ds, code, code) == TypeError || RoutesIncluding(ds, code, code) == Returned([])
  {
    if RoutesIncluding(ds, code, code).Returned? {
      var kept := RoutesIncluding(ds, code, code).value;
      if kept != [] {
        FilterOrThrowMembers(ds, (d: Disruption) => d.codes.None?, (d: Disruption) => Kept(d, code, code), kept[0]);
        assert false;
      }
    }
  }

  /** The filter throws exactly when some record lacks its code field. */
  lemma RoutesIncludingThrows(ds: seq<Disruption>, from: string, to: string)
    ensures RoutesIncluding(ds, from, to) == TypeError <==> exists k :: 0 <= k < |ds| && ds[k].codes.None?
  {
    FilterOrThrowThrows(ds, (d: Disruption) => d.codes.None?, (d: Disruption) => Kept(d, from, to));
  }

  /** When it returns, the filter keeps exactly the records whose codes
      put the departure first, and never more records than it was given. */
  lemma RoutesIncludingMembers(ds: seq<Disruption>, from: string, to: string, d: Disruption)
    requires RoutesIncluding(ds, from, to).Returned?
    ensures d in RoutesIncluding(ds, from, to).value <==>
      d in ds && d.codes.Some? && Precedes(CodeList(d.codes.value), from, to)
    ensures |RoutesIncluding(ds, from, to).value| <= |ds|
  {
    FilterOrThrowMembers(ds, (d: Disruption) => d.codes.None?, (d: Disruption) => Kept(d, from, to), d);
  }

  /** Kept records stay in their input order: filtering a concatenation is
      concatenating the filtered parts. */
  lemma RoutesIncludingAppend(a: seq<Disruption>, b: seq<Disruption>, from: string, to: string)
    requires RoutesIncluding(a, from, to).Returned? && RoutesIncluding(b, from, to).Returned?
    ensures RoutesIncluding(a + b, from, to)
      == Returned(RoutesIncluding(a, from, to).value + RoutesIncluding(b, from, to).value)
  {
    FilterOrThrowAppend(a, b, (d: Disruption) => d.codes.None?, (d: Disruption) => Kept(d, from, to));
  }
}
