/** The entities the analytics engine reads: disruption records grouped by
    year, the station registry, and the directed routes derived from them.
    All of them are read-only values. */
module Records {
  import opened Wrappers

  /** Day of the week as `Date.prototype.getDay` numbers it: 0 is Sunday. */
  type Weekday = d: nat | d < 7

  predicate IsDigit(c: char) {
    '0' <= c <= '9'
  }

  /** "HH:MM:SS", the first field of `Date.prototype.toTimeString()`. */
  predicate IsClock(s: string) {
    && |s| == 8
    && s[2] == ':' && s[5] == ':'
    && IsDigit(s[0]) && IsDigit(s[1])
    && IsDigit(s[3]) && IsDigit(s[4])
    && IsDigit(s[6]) && IsDigit(s[7])
  }

  type Clock = s: string | IsClock(s) witness "00:00:00"

  /** One disruption. The start and end timestamps enter only through what
      the host's `Date` derives from them: the local weekday of the start,
      the duration in milliseconds and the local time of day of the start. */
  datatype Disruption = Disruption(
    codes: Option<string>,        // rdt_station_codes, comma separated
    cause: Option<string>,        // cause_en
    causeGroup: Option<string>,   // cause_group
    weekday: Weekday,             // new Date(start_time).getDay()
    durationMs: int,              // end_time - start_time in milliseconds
    startClock: Clock             // new Date(start_time).toTimeString() up to the first blank
  )

  /** The records of one year key of the corpus. */
  datatype YearEntry = YearEntry(year: string, records: seq<Disruption>)

  /** The corpus object, listed in the order `Object.values` enumerates it. */
  type Corpus = seq<YearEntry>

  /** An object's keys are distinct. */
  ghost predicate UniqueYears(c: Corpus) {
    forall i, j :: 0 <= i < j < |c| ==> c[i].year != c[j].year
  }

  /** `'all'` or one year key. `Year` never carries `"all"`: the source's
      `period === 'all'` test sends that string to `All`. */
  datatype Period = All | Year(key: string)

  /** An entry of the station registry; coordinates are opaque here. */
  datatype Station = Station(code: string, name: string, country: string, kind: string, lat: real, lng: real)

  /** A directed route `{from, to}`, the key "from|to" of the source. */
  datatype Route = Route(from: string, to: string)

  /** An entry of the ranking: a route, whether it is the user's selection,
      its number of disruptions, and its position once ranked. */
  datatype RankEntry = RankEntry(from: string, to: string, user: bool, disruptionValue: nat, rank: Option<nat>)
}
