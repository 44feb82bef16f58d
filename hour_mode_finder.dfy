/** HourModeFinder: `checkFrequency` of modules/day-data.mjs, the label of
    the most frequent start hour among "HH:MM:SS" times. */
module HourModeFinder {
  import opened Wrappers
  import opened Records

  function DigitValue(c: char): (v: nat)
    requires IsDigit(c)
    ensures v < 10
  {
    c as int - '0' as int
  }

  /** `Number(t.split(':')[0])`: the hour field read as a decimal number. */
  function HourOf(t: Clock): (h: nat)
    ensures h < 100
  {
    10 * DigitValue(t[0]) + DigitValue(t[1])
  }

  /** The hours of a list of times, in order. */
  function Hours(times: seq<Clock>): (hs: seq<nat>)
    ensures |hs| == |times|
    ensures forall i :: 0 <= i < |times| ==> hs[i] == HourOf(times[i]) && hs[i] < 100
  {
    seq(|times|, i requires 0 <= i < |times| => HourOf(times[i]))
  }

  /** How often hour `h` occurs. */
  function CountOf(hours: seq<nat>, h: nat): (n: nat)
    ensures n <= |hours|
  {
    if hours == [] then 0
    else CountOf(hours[..|hours| - 1], h) + (if hours[|hours| - 1] == h then 1 else 0)
  }

  lemma {:induction false} CountOfPositive(hours: seq<nat>, h: nat)
    ensures CountOf(hours, h) > 0 <==> exists i :: 0 <= i < |hours| && hours[i] == h
  {
    if hours != [] {
      var init := hours[..|hours| - 1];
      CountOfPositive(init, h);
      if exists i :: 0 <= i < |init| && init[i] == h {
        var i :| 0 <= i < |init| && init[i] == h;
        assert hours[i] == h;
      }
      if exists i :: 0 <= i < |hours| && hours[i] == h {
        var i :| 0 <= i < |hours| && hours[i] == h;
        if i < |init| {
          assert init[i] == h;
        }
      }
    }
  }

  /** The loop over `Object.entries(counts)`: integer-like keys are visited in
      ascending order, and only a strictly greater count replaces the best. */
  function ScanFrom(hours: seq<nat>, h: nat, best: Option<nat>, bestCount: nat): Option<nat>
    decreases 100 - h
  {
    if h >= 100 then best
    else
      var c := CountOf(hours, h);
      if c > bestCount then ScanFrom(hours, h + 1, Some(h), c)
      else ScanFrom(hours, h + 1, best, bestCount)
  }

  /** `mostCommonHour` at the end of `checkFrequency`; `None` is `undefined`. */
  function PeakHour(hours: seq<nat>): Option<nat> {
    ScanFrom(hours, 0, None, 0)
  }

  /** `h` occurs, no hour occurs more often, and every smaller hour occurs
      strictly less often. */
  ghost predicate IsLowestMode(hours: seq<nat>, h: nat) {
    && CountOf(hours, h) > 0
    && (forall g: nat :: CountOf(hours, g) <= CountOf(hours, h))
    && (forall g: nat :: g < h ==> CountOf(hours, g) < CountOf(hours, h))
  }

  lemma {:induction false} ScanFacts(hours: seq<nat>, h: nat, best: Option<nat>, bestCount: nat)
    requires h <= 100
    requires best.None? ==> bestCount == 0 && forall g :: 0 <= g < h ==> CountOf(hours, g) == 0
    requires best.Some? ==> && best.value < h && bestCount == CountOf(hours, best.value) > 0
                            && (forall g :: 0 <= g < h ==> CountOf(hours, g) <= bestCount)
                            && (forall g :: 0 <= g < best.value ==> CountOf(hours, g) < bestCount)
    ensures var r := ScanFrom(hours, h, best, bestCount);
      && (r.None? ==> forall g :: 0 <= g < 100 ==> CountOf(hours, g) == 0)
      && (r.Some? ==> && r.value < 100 && CountOf(hours, r.value) > 0
                      && (forall g :: 0 <= g < 100 ==> CountOf(hours, g) <= CountOf(hours, r.value))
                      && (forall g :: 0 <= g < r.value ==> CountOf(hours, g) < CountOf(hours, r.value)))
    decreases 100 - h
  {
    if h < 100 {
      var c := CountOf(hours, h);
      if c > bestCount {
        ScanFacts(hours, h + 1, Some(h), c);
      } else {
        ScanFacts(hours, h + 1, best, bestCount);
      }
    }
  }

  /** The peak hour is missing exactly for an empty list, and otherwise it is
      the lowest of the most frequent hours. */
  lemma PeakHourIsLowestMode(hours: seq<nat>)
    requires forall i :: 0 <= i < |hours| ==> hours[i] < 100
    ensures PeakHour(hours) == None <==> hours == []
    ensures PeakHour(hours).Some? ==> IsLowestMode(hours, PeakHour(hours).value)
  {
    ScanFacts(hours, 0, None, 0);
    var r := PeakHour(hours);
    if hours != [] {
      CountOfPositive(hours, hours[0]);
    }
    if r.Some? {
      forall g: nat | g >= 100
        ensures CountOf(hours, g) == 0
      {
        CountOfPositive(hours, g);
      }
    }
  }

  /** There is only one lowest mode. */
  lemma LowestModeUnique(hours: seq<nat>, a: nat, b: nat)
    requires IsLowestMode(hours, a) && IsLowestMode(hours, b)
    ensures a == b
  {
  }

  /** `${n}` for a natural number: decimal digits, no leading zero. */
  function Decimal(n: nat): (s: string)
    ensures |s| >= 1 && (forall k :: 0 <= k < |s| ==> IsDigit(s[k]))
    ensures |s| > 1 ==> s[0] != '0'
  {
    if n < 10 then ['0' + n as char]
    else Decimal(n / 10) + ['0' + (n % 10) as char]
  }

  /** The value of a string of decimal digits. */
  function DecimalValue(s: string): nat
    requires forall k :: 0 <= k < |s| ==> IsDigit(s[k])
  {
    if s == [] then 0 else 10 * DecimalValue(s[..|s| - 1]) + DigitValue(s[|s| - 1])
  }

  /** `Number` reads back what `${n}` writes. */
  lemma {:induction false} DecimalRoundTrip(n: nat)
    ensures DecimalValue(Decimal(n)) == n
  {
    var s := Decimal(n);
    if n >= 10 {
      DecimalRoundTrip(n / 10);
      assert s[..|s| - 1] == Decimal(n / 10);
    }
  }

  /** `${mostCommonHour}:00–${mostCommonHour}:59`. */
  function HourLabel(h: Option<nat>): string {
    var k := if h.Some? then Decimal(h.value) else "undefined";
    k + ":00\U{2013}" + k + ":59"
  }

  /** The hour is written without a leading zero: "08:10:00" gives "8:00–8:59". */
  lemma LabelOfMorningHour()
    ensures HourLabel(Some(HourOf("08:10:00"))) == "8:00\U{2013}8:59"
  {
  }

  /** `checkFrequency(timeArr)`: counts the hours in an object, then keeps
      the first key in ascending order whose count beats the best so far. */
  method CheckFrequency(timeArr: seq<Clock>) returns (peak: string)
    ensures peak == HourLabel(PeakHour(Hours(timeArr)))
    ensures timeArr == [] ==> peak == HourLabel(None)
  {
    var hours := Hours(timeArr);
    var counts: map<nat, nat> := map[];
    var i := 0;
    while i < |hours|
      invariant 0 <= i <= |hours|
      invariant forall h: nat :: h in counts <==> CountOf(hours[..i], h) > 0
      invariant forall h: nat :: h in counts ==> counts[h] == CountOf(hours[..i], h)
    {
      var h := hours[i];
      assert hours[..i + 1][..i] == hours[..i];
      counts := counts[h := (if h in counts then counts[h] else 0) + 1];
      i := i + 1;
    }
    assert hours[..i] == hours;
    var mostCommonHour: Option<nat> := None;
    var highestCount := 0;
    var hour := 0;
    while hour < 100
      invariant 0 <= hour <= 100
      invariant ScanFrom(hours, hour, mostCommonHour, highestCount) == PeakHour(hours)
    {
      if hour in counts && counts[hour] > highestCount {
        highestCount := counts[hour];
        mostCommonHour := Some(hour);
      }
      hour := hour + 1;
    }
    peak := HourLabel(mostCommonHour);
    if timeArr == [] {
      PeakHourIsLowestMode(hours);
    }
  }
}
