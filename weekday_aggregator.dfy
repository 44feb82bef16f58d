/** WeekdayAggregator: `displayDaysData` of modules/day-data.mjs, which
    folds disruption records into one bucket per weekday name. */
module WeekdayAggregator {
  import opened Wrappers
  import opened Records
  import opened HourModeFinder

  /** The `days` array of `displayDaysData`, indexed by `getDay()`. */
  const DayNames: seq<string> := ["sunday", "monday", "tuesday", "wednesday", "thursday", "friday", "saturday"]

  function DayName(w: Weekday): string {
    DayNames[w]
  }

  /** Different weekdays have different names, so their buckets never mix. */
  lemma DayNamesDistinct(w: Weekday, v: Weekday)
    requires w != v
    ensures DayName(w) != DayName(v)
  {
    var a, b := DayName(w), DayName(v);
    assert a[0] != b[0] || |a| != |b| by {
      assert w == 0 || w == 1 || w == 2 || w == 3 || w == 4 || w == 5 || w == 6;
      assert v == 0 || v == 1 || v == 2 || v == 3 || v == 4 || v == 5 || v == 6;
    }
  }

  /** The value of one weekday key of the result. `averageTime` is `None`
      where the source computes `Math.round(0 / 0)`, i.e. `NaN`. */
  datatype DayBucket = DayBucket(
    disruptions: nat,
    timePerDelay: seq<int>,
    occurences: seq<Clock>,
    highestOccurence: string,
    averageTime: Option<int>
  )

  /** `Math.round(num / den)` computed exactly: the greatest integer not
      above `num / den + 1/2`. */
  function RoundHalfUp(num: int, den: int): (r: int)
    requires den > 0
    ensures 2 * r * den <= 2 * num + den < 2 * (r + 1) * den
  {
    var q := (2 * num + den) / (2 * den);
    assert q * (2 * den) <= 2 * num + den < (q + 1) * (2 * den);
    q
  }

  function Sum(ds: seq<int>): int {
    if ds == [] then 0 else Sum(ds[..|ds| - 1]) + ds[|ds| - 1]
  }

  /** `Math.round(sum / length / (1000 * 60))`, or `None` for an empty list. */
  function AverageMinutes(ds: seq<int>): (r: Option<int>)
    ensures r == None <==> ds == []
  {
    if ds == [] then None else Some(RoundHalfUp(Sum(ds), |ds| * 60000))
  }

  /** The records that started on weekday `w`, in input order. */
  function RecordsOn(data: seq<Disruption>, w: Weekday): seq<Disruption> {
    if data == [] then []
    else
      var last := data[|data| - 1];
      RecordsOn(data[..|data| - 1], w) + (if last.weekday == w then [last] else [])
  }

  function Durations(rs: seq<Disruption>): (ds: seq<int>)
    ensures |ds| == |rs| && forall i :: 0 <= i < |rs| ==> ds[i] == rs[i].durationMs
  {
    seq(|rs|, i requires 0 <= i < |rs| => rs[i].durationMs)
  }

  function Clocks(rs: seq<Disruption>): (cs: seq<Clock>)
    ensures |cs| == |rs| && forall i :: 0 <= i < |rs| ==> cs[i] == rs[i].startClock
  {
    seq(|rs|, i requires 0 <= i < |rs| => rs[i].startClock)
  }

  /** What the fold leaves for a weekday with records `rs`: the first record
      only opens the bucket, every later one contributes its duration and
      its start time, and the peak hour and the average are those of the
      later records. */
  function BucketOf(rs: seq<Disruption>): DayBucket
    requires rs != []
  {
    var later := rs[1..];
    DayBucket(|rs|, Durations(later), Clocks(later),
      if later == [] then "" else HourLabel(PeakHour(Hours(Clocks(later)))),
      AverageMinutes(Durations(later)))
  }

  /** A bucket holds one duration and one time per record after the first;
      it has no average and no peak hour exactly while it has one record. */
  lemma BucketShape(rs: seq<Disruption>)
    requires rs != []
    ensures var b := BucketOf(rs);
      && b.disruptions == |rs|
      && |b.timePerDelay| == |b.occurences| == b.disruptions - 1
      && (b.averageTime == None <==> b.disruptions == 1)
      && (b.highestOccurence == "" <==> b.disruptions == 1)
  {
  }

  /** One more record for the weekday extends the bucket as the `else`
      branch of the fold does. */
  lemma BucketOfSnoc(rs: seq<Disruption>, d: Disruption)
    requires rs != []
    ensures var b := BucketOf(rs);
      BucketOf(rs + [d]) == DayBucket(b.disruptions + 1, b.timePerDelay + [d.durationMs],
        b.occurences + [d.startClock], HourLabel(PeakHour(Hours(b.occurences + [d.startClock]))),
        AverageMinutes(b.timePerDelay + [d.durationMs]))
  {
    var later := rs[1..];
    assert (rs + [d])[1..] == later + [d];
    assert Durations(later + [d]) == Durations(later) + [d.durationMs];
    assert Clocks(later + [d]) == Clocks(later) + [d.startClock];
  }

  lemma RecordsOnSnoc(data: seq<Disruption>, i: nat, w: Weekday)
    requires i < |data|
    ensures RecordsOn(data[..i + 1], w) == RecordsOn(data[..i], w) + (if data[i].weekday == w then [data[i]] else [])
  {
    assert data[..i + 1][..i] == data[..i];
  }

  /** `days` is what the fold leaves after the records `seen`. */
  ghost predicate Summarizes(days: map<string, DayBucket>, seen: seq<Disruption>) {
    && (forall k :: k in days ==> k in DayNames)
    && (forall w: Weekday :: DayName(w) in days <==> RecordsOn(seen, w) != [])
    && (forall w: Weekday :: DayName(w) in days ==> days[DayName(w)] == BucketOf(RecordsOn(seen, w)))
  }

  /** `displayDaysData(data)`: the keys are the names of the weekdays that
      occur, and each bucket is the one its weekday's records give. */
  method DisplayDaysData(data: seq<Disruption>) returns (days: map<string, DayBucket>)
    ensures forall k :: k in days ==> k in DayNames
    ensures forall w: Weekday :: DayName(w) in days <==> RecordsOn(data, w) != []
    ensures forall w: Weekday :: DayName(w) in days ==> days[DayName(w)] == BucketOf(RecordsOn(data, w))
  {
    days := map[];
    var i := 0;
    while i < |data|
      invariant 0 <= i <= |data|
      invariant Summarizes(days, data[..i])
    {
      assert data[..i + 1] == data[..i] + [data[i]];
      days := AddRecord(days, data[i], data[..i]);
      i := i + 1;
    }
    assert data[..i] == data;
  }

  /** One step of the reduce: open the weekday's bucket, or count the record
      in it, append its duration and start time and recompute the peak
      hour; then recompute the average. */
  method AddRecord(days: map<string, DayBucket>, curr: Disruption, ghost seen: seq<Disruption>)
    returns (days': map<string, DayBucket>)
    requires Summarizes(days, seen)
    ensures Summarizes(days', seen + [curr])
  {
    var dayStarted := DayName(curr.weekday);
    ghost var rs := RecordsOn(seen, curr.weekday);
    var bucket := NextBucket(days, dayStarted, curr, rs);
    days' := days[dayStarted := bucket];
    forall w: Weekday
      ensures DayName(w) in days' <==> RecordsOn(seen + [curr], w) != []
      ensures DayName(w) in days' ==> days'[DayName(w)] == BucketOf(RecordsOn(seen + [curr], w))
    {
      RecordsOnAppend(seen, curr, w);
      if w == curr.weekday {
        assert RecordsOn(seen + [curr], w) == rs + [curr];
        assert days'[DayName(w)] == bucket;
      } else {
        DayNamesDistinct(w, curr.weekday);
        assert RecordsOn(seen + [curr], w) == RecordsOn(seen, w);
        assert DayName(w) in days' <==> DayName(w) in days;
        if DayName(w) in days {
          assert days'[DayName(w)] == days[DayName(w)];
        }
      }
    }
  }

  /** The bucket of `dayStarted` after record `curr`, for a weekday whose
      earlier records are `rs`. */
  method NextBucket(days: map<string, DayBucket>, dayStarted: string, curr: Disruption, ghost rs: seq<Disruption>)
    returns (bucket: DayBucket)
    requires dayStarted in days <==> rs != []
    requires dayStarted in days ==> days[dayStarted] == BucketOf(rs)
    ensures bucket == BucketOf(rs + [curr])
  {
    if dayStarted !in days {
      bucket := DayBucket(1, [], [], "", Some(0));
      assert (rs + [curr])[1..] == [];
    } else {
      var b := days[dayStarted];
      var occurences := b.occurences + [curr.startClock];
      var peak := CheckFrequency(occurences);
      bucket := DayBucket(b.disruptions + 1, b.timePerDelay + [curr.durationMs], occurences, peak, b.averageTime);
      BucketOfSnoc(rs, curr);
    }
    bucket := bucket.(averageTime := AverageMinutes(bucket.timePerDelay));
  }

  lemma RecordsOnAppend(seen: seq<Disruption>, d: Disruption, w: Weekday)
    ensures RecordsOn(seen + [d], w) == RecordsOn(seen, w) + (if d.weekday == w then [d] else [])
  {
    assert (seen + [d])[..|seen|] == seen;
  }

  /** How many records fall on weekdays `0 .. n-1`. */
  function CountUpTo(data: seq<Disruption>, n: nat): nat
    requires n <= 7
  {
    if n == 0 then 0 else CountUpTo(data, n - 1) + |RecordsOn(data, n - 1)|
  }

  lemma {:induction false} CountUpToNone(n: nat)
    requires n <= 7
    ensures CountUpTo([], n) == 0
  {
    if n > 0 {
      CountUpToNone(n - 1);
    }
  }

  lemma {:induction false} CountUpToSnoc(data: seq<Disruption>, d: Disruption, n: nat)
    requires n <= 7
    ensures CountUpTo(data + [d], n) == CountUpTo(data, n) + (if d.weekday < n then 1 else 0)
  {
    assert (data + [d])[..|data|] == data;
    if n > 0 {
      CountUpToSnoc(data, d, n - 1);
    }
  }

  /** The buckets' `disruptions` add up to the number of records: every
      record is counted under exactly one weekday. */
  lemma {:induction false} BucketsCoverInput(data: seq<Disruption>)
    ensures CountUpTo(data, 7) == |data|
  {
    if data == [] {
      CountUpToNone(7);
    } else {
      var init := data[..|data| - 1];
      BucketsCoverInput(init);
      CountUpToSnoc(init, data[|data| - 1], 7);
      assert init + [data[|data| - 1]] == data;
    }
  }
}
