/** CauseCounter: `countCauses` of modules/script.mjs. One entry per
    distinct cause title, in the order titles are first seen; an entry's
    value is the number of records with that title, and its group is the
    cause group of the first such record, or `'unknown'` when that record
    has none. A missing title (`undefined`) is counted like any other; the
    bubble chart drawn from the tally later throws on it (module Explorer). */
module CauseCounter {
  import opened Wrappers
  import opened Records
  import opened OrderedSets
  import opened SeqLemmas

  /** An element of the accumulator; its `color` is rendering data only. */
  datatype CauseEntry = CauseEntry(title: Option<string>, value: nat, group: string)

  /** `curr?.cause_group || 'unknown'`. */
  function GroupOf(d: Disruption): (g: string)
    ensures g != ""
  {
    if d.causeGroup.Some? && d.causeGroup.value != "" then d.causeGroup.value else "unknown"
  }

  /** The position `acc.find(el => el.title === cause)` finds, or -1 when
      `acc.some(...)` is false. */
  function TitleIndex(acc: seq<CauseEntry>, t: Option<string>): (k: int)
    ensures -1 <= k < |acc|
    ensures k == -1 <==> forall i :: 0 <= i < |acc| ==> acc[i].title != t
    ensures k >= 0 ==> acc[k].title == t
    ensures k >= 0 ==> forall i :: 0 <= i < k ==> acc[i].title != t
    decreases |acc|
  {
    if acc == [] then -1
    else if acc[0].title == t then 0
    else
      var k := TitleIndex(acc[1..], t);
      if k == -1 then -1 else k + 1
  }

  /** One step of the reduce: bump the entry of the record's cause, or push
      a new entry with value 1. */
  function AddCause(acc: seq<CauseEntry>, d: Disruption): (next: seq<CauseEntry>)
    ensures |acc| <= |next| <= |acc| + 1
  {
    var k := TitleIndex(acc, d.cause);
    if k >= 0 then acc[k := acc[k].(value := acc[k].value + 1)]
    else acc + [CauseEntry(d.cause, 1, GroupOf(d))]
  }

  /** The accumulator after the records of `ds` have been folded in. */
  function CauseTally(ds: seq<Disruption>): (acc: seq<CauseEntry>)
    ensures |acc| <= |ds|
    decreases |ds|
  {
    if ds == [] then [] else AddCause(CauseTally(ds[..|ds| - 1]), ds[|ds| - 1])
  }

  /** `countCauses(disruptions)`. */
  method CountCauses(ds: seq<Disruption>) returns (acc: seq<CauseEntry>)
    ensures acc == CauseTally(ds)
  {
    acc := [];
    var n := 0;
    while n < |ds|
      invariant 0 <= n <= |ds|
      invariant acc == CauseTally(ds[..n])
    {
      acc := CountOne(acc, ds[n]);
      ghost var prefix := ds[..n + 1];
      assert prefix[..n] == ds[..n] && prefix[n] == ds[n];
      assert CauseTally(prefix) == AddCause(CauseTally(ds[..n]), ds[n]);
      n := n + 1;
    }
    assert ds[..n] == ds;
  }

  /** Not a separate operation of the source: the loop body of
      `CountCauses`, split off only to keep that loop's proof small. */
  method CountOne(acc0: seq<CauseEntry>, curr: Disruption) returns (acc: seq<CauseEntry>)
    ensures acc == AddCause(acc0, curr)
  {
    var cause := curr.cause;
    var k := TitleIndex(acc0, cause);
    if k >= 0 {
      acc := acc0[k := acc0[k].(value := acc0[k].value + 1)];
    } else {
      acc := acc0 + [CauseEntry(cause, 1, GroupOf(curr))];
    }
  }

  /** Some record has no `cause_en`. */
  predicate Untitled(ds: seq<Disruption>) {
    exists i :: 0 <= i < |ds| && ds[i].cause.None?
  }

  /** Some entry's title is `undefined`, so `title.split` throws on it. */
  predicate HasUntitledEntry(acc: seq<CauseEntry>) {
    exists k :: 0 <= k < |acc| && acc[k].title.None?
  }

  /** The tally has an `undefined` title exactly when some record lacks
      `cause_en`. */
  lemma UntitledTally(ds: seq<Disruption>)
    ensures HasUntitledEntry(CauseTally(ds)) <==> Untitled(ds)
  {
    var acc := CauseTally(ds);
    TallyTitles(ds);
    InsertAllMembers([], Causes(ds), None);
    if HasUntitledEntry(acc) {
      var k :| 0 <= k < |acc| && acc[k].title.None?;
      assert Titles(acc)[k] == None;
    }
    if Untitled(ds) {
      var i :| 0 <= i < |ds| && ds[i].cause.None?;
      assert Causes(ds)[i] == None;
      var k :| 0 <= k < |acc| && Titles(acc)[k] == None;
      assert acc[k].title.None?;
    }
  }

  /** The cause titles of the records, in order. */
  function Causes(ds: seq<Disruption>): (cs: seq<Option<string>>)
    ensures |cs| == |ds| && forall i :: 0 <= i < |ds| ==> cs[i] == ds[i].cause
  {
    seq(|ds|, i requires 0 <= i < |ds| => ds[i].cause)
  }

  /** The titles of the entries, in order. */
  function Titles(acc: seq<CauseEntry>): (ts: seq<Option<string>>)
    ensures |ts| == |acc| && forall i :: 0 <= i < |acc| ==> ts[i] == acc[i].title
  {
    seq(|acc|, i requires 0 <= i < |acc| => acc[i].title)
  }

  /** The number of records whose title is `t`. */
  function CountCause(ds: seq<Disruption>, t: Option<string>): nat
    decreases |ds|
  {
    if ds == [] then 0
    else CountCause(ds[..|ds| - 1], t) + (if ds[|ds| - 1].cause == t then 1 else 0)
  }

  /** The sum of the entries' values. */
  function SumValues(acc: seq<CauseEntry>): nat
    decreases |acc|
  {
    if acc == [] then 0 else SumValues(acc[..|acc| - 1]) + acc[|acc| - 1].value
  }

  lemma AddCauseTitles(acc: seq<CauseEntry>, d: Disruption)
    ensures Titles(AddCause(acc, d)) == Insert(Titles(acc), d.cause)
  {
    var k := TitleIndex(acc, d.cause);
    if k >= 0 {
      assert d.cause == Titles(acc)[k];
    } else {
      assert d.cause !in Titles(acc);
    }
  }

  /** The titles are the distinct causes in first-seen order. */
  lemma {:induction false} TallyTitles(ds: seq<Disruption>)
    ensures Titles(CauseTally(ds)) == InsertAll([], Causes(ds))
    ensures NoDups(Titles(CauseTally(ds)))
    decreases |ds|
  {
    if ds != [] {
      var n := |ds| - 1;
      TallyTitles(ds[..n]);
      AddCauseTitles(CauseTally(ds[..n]), ds[n]);
      assert Causes(ds)[..n] == Causes(ds[..n]);
    }
    InsertAllKeeps([], Causes(ds));
  }

  lemma {:induction false} CountCauseAbsent(ds: seq<Disruption>, t: Option<string>)
    requires forall i :: 0 <= i < |ds| ==> ds[i].cause != t
    ensures CountCause(ds, t) == 0
    decreases |ds|
  {
    if ds != [] {
      CountCauseAbsent(ds[..|ds| - 1], t);
    }
  }

  /** Record `i` is the first record whose title is `t`. */
  predicate FirstWith(ds: seq<Disruption>, t: Option<string>, i: int) {
    0 <= i < |ds| && ds[i].cause == t && forall j :: 0 <= j < i ==> ds[j].cause != t
  }

  /** Every entry counts the records with its title, and carries the group
      of the first record with that title. */
  lemma {:induction false} TallyEntry(ds: seq<Disruption>, k: nat)
    requires k < |CauseTally(ds)|
    ensures CauseTally(ds)[k].value == CountCause(ds, CauseTally(ds)[k].title)
    ensures exists i :: FirstWith(ds, CauseTally(ds)[k].title, i) && GroupOf(ds[i]) == CauseTally(ds)[k].group
    decreases |ds|
  {
    var init := ds[..|ds| - 1];
    var acc := CauseTally(init);
    if k < |acc| {
      TallyEntry(init, k);
      var i :| FirstWith(init, acc[k].title, i) && GroupOf(init[i]) == acc[k].group;
      TallyEntryKept(ds, k, i);
    } else {
      TallyEntryNew(ds);
    }
  }

  /** An entry that existed before the last record keeps its first record
      and gains one if the last record carries its title. */
  lemma TallyEntryKept(ds: seq<Disruption>, k: nat, i: nat)
    requires ds != [] && k < |CauseTally(ds[..|ds| - 1])|
    requires var acc := CauseTally(ds[..|ds| - 1]);
      && acc[k].value == CountCause(ds[..|ds| - 1], acc[k].title)
      && FirstWith(ds[..|ds| - 1], acc[k].title, i) && GroupOf(ds[..|ds| - 1][i]) == acc[k].group
    ensures CauseTally(ds)[k].value == CountCause(ds, CauseTally(ds)[k].title)
    ensures FirstWith(ds, CauseTally(ds)[k].title, i) && GroupOf(ds[i]) == CauseTally(ds)[k].group
  {
    var n := |ds| - 1;
    var init, last := ds[..n], ds[n];
    var acc := CauseTally(init);
    assert CauseTally(ds) == AddCause(acc, last);
    var e := CauseTally(ds)[k];
    var c := TitleIndex(acc, last.cause);
    assert CountCause(ds, e.title) == CountCause(init, e.title) + (if last.cause == e.title then 1 else 0);
    TallyTitles(init);
    assert e.title == acc[k].title && e.group == acc[k].group;
    if last.cause == e.title {
      assert Titles(acc)[c] == Titles(acc)[k];
      assert c == k;
    }
    assert forall j :: 0 <= j <= i ==> ds[j] == init[j];
  }

  /** A title first seen in the last record gets a new entry at the end,
      counted once, with that record's group. */
  lemma TallyEntryNew(ds: seq<Disruption>)
    requires ds != [] && |CauseTally(ds[..|ds| - 1])| < |CauseTally(ds)|
    ensures var e := CauseTally(ds)[|CauseTally(ds[..|ds| - 1])|];
      && e.value == CountCause(ds, e.title)
      && FirstWith(ds, e.title, |ds| - 1) && GroupOf(ds[|ds| - 1]) == e.group
  {
    var n := |ds| - 1;
    var init, last := ds[..n], ds[n];
    var acc := CauseTally(init);
    assert CauseTally(ds) == AddCause(acc, last);
    var e := CauseTally(ds)[|acc|];
    var c := TitleIndex(acc, last.cause);
    assert c == -1 && e == CauseEntry(last.cause, 1, GroupOf(last));
    assert CountCause(ds, e.title) == CountCause(init, e.title) + 1;
    TallyTitles(init);
    InsertAllMembers([], Causes(init), last.cause);
    assert last.cause !in Titles(acc);
    assert forall j :: 0 <= j < n ==> init[j].cause != last.cause;
    CountCauseAbsent(init, last.cause);
    assert forall j :: 0 <= j < n ==> ds[j] == init[j];
  }

  lemma {:induction false} SumValuesBump(acc: seq<CauseEntry>, k: nat)
    requires k < |acc|
    ensures SumValues(acc[k := acc[k].(value := acc[k].value + 1)]) == SumValues(acc) + 1
    decreases |acc|
  {
    var n := |acc| - 1;
    var bumped := acc[k := acc[k].(value := acc[k].value + 1)];
    assert bumped[..n] == if k < n then acc[..n][k := acc[k].(value := acc[k].value + 1)] else acc[..n];
    if k < n {
      SumValuesBump(acc[..n], k);
    }
  }

  /** The values add up to the number of records; the user entry's value
      relies on it. */
  lemma {:induction false} TallySum(ds: seq<Disruption>)
    ensures SumValues(CauseTally(ds)) == |ds|
    decreases |ds|
  {
    if ds != [] {
      var n := |ds| - 1;
      var acc := CauseTally(ds[..n]);
      TallySum(ds[..n]);
      assert CauseTally(ds) == AddCause(acc, ds[n]);
      AddCauseSum(acc, ds[n]);
    }
  }

  lemma AddCauseSum(acc: seq<CauseEntry>, d: Disruption)
    ensures SumValues(AddCause(acc, d)) == SumValues(acc) + 1
  {
    var k := TitleIndex(acc, d.cause);
    if k >= 0 {
      assert AddCause(acc, d) == acc[k := acc[k].(value := acc[k].value + 1)];
      SumValuesBump(acc, k);
    } else {
      var e := CauseEntry(d.cause, 1, GroupOf(d));
      assert AddCause(acc, d) == acc + [e];
      DropLastOfAppend(acc, e);
      assert SumValues(acc + [e]) == SumValues(acc) + e.value;
    }
  }
}
