/** StationRegistry: the station selection and the coordinate grouping of
    modules/station-coords.mjs. */
module StationRegistry {
  import opened Records
  import opened OrderedSets

  predicate InNL(s: Station) {
    s.country == "NL"
  }

  /** The three station types that count as major stations. */
  predicate IsMajorKind(s: Station) {
    s.kind == "knooppuntIntercitystation" || s.kind == "megastation" || s.kind == "intercitystation"
  }

  /** `.filter(station => station.country === 'NL')`. */
  function KeepNL(stations: seq<Station>): (kept: seq<Station>)
    ensures |kept| <= |stations|
  {
    if stations == [] then []
    else
      var last := stations[|stations| - 1];
      KeepNL(stations[..|stations| - 1]) + (if InNL(last) then [last] else [])
  }

  /** The second `.filter`, on the station type. */
  function KeepMajor(stations: seq<Station>): (kept: seq<Station>)
    ensures |kept| <= |stations|
  {
    if stations == [] then []
    else
      var last := stations[|stations| - 1];
      KeepMajor(stations[..|stations| - 1]) + (if IsMajorKind(last) then [last] else [])
  }

  /** `stationOptions`: the two filters one after the other. */
  function StationOptions(registry: seq<Station>): (options: seq<Station>)
    ensures |options| <= |registry|
  {
    KeepMajor(KeepNL(registry))
  }

  lemma {:induction false} KeepMajorAppend(a: seq<Station>, b: seq<Station>)
    ensures KeepMajor(a + b) == KeepMajor(a) + KeepMajor(b)
    decreases |b|
  {
    if b == [] {
      assert a + b == a;
    } else {
      var b' := b[..|b| - 1];
      assert (a + b)[..|a + b| - 1] == a + b';
      KeepMajorAppend(a, b');
    }
  }

  lemma {:induction false} KeepNLAppend(a: seq<Station>, b: seq<Station>)
    ensures KeepNL(a + b) == KeepNL(a) + KeepNL(b)
    decreases |b|
  {
    if b == [] {
      assert a + b == a;
    } else {
      var b' := b[..|b| - 1];
      assert (a + b)[..|a + b| - 1] == a + b';
      KeepNLAppend(a, b');
    }
  }

  /** The selection distributes over concatenation and keeps a single
      station exactly when it is Dutch and major: it is the
      order-preserving subsequence of the stations meeting both tests. */
  lemma StationOptionsAppend(a: seq<Station>, b: seq<Station>)
    ensures StationOptions(a + b) == StationOptions(a) + StationOptions(b)
  {
    KeepNLAppend(a, b);
    KeepMajorAppend(KeepNL(a), KeepNL(b));
  }

  lemma StationOptionsSingle(s: Station)
    ensures StationOptions([s]) == if InNL(s) && IsMajorKind(s) then [s] else []
  {
    assert [s][..0] == [];
    if InNL(s) {
      assert KeepNL([s]) == [s];
      assert KeepMajor([s]) == if IsMajorKind(s) then [s] else [];
    } else {
      assert KeepNL([s]) == [];
    }
  }

  /** Every selected station is Dutch and major, and every Dutch major
      station of the registry is selected. */
  lemma {:induction false} StationOptionsMembers(registry: seq<Station>, s: Station)
    ensures s in StationOptions(registry) <==> s in registry && InNL(s) && IsMajorKind(s)
    decreases |registry|
  {
    if registry != [] {
      var init, last := registry[..|registry| - 1], registry[|registry| - 1];
      assert registry == init + [last];
      StationOptionsAppend(init, [last]);
      StationOptionsSingle(last);
      StationOptionsMembers(init, s);
    }
  }

  /** The coordinates `stationsCoords[code]` collects: latitude and
      longitude of each station with that code, in order. */
  function CoordsOf(options: seq<Station>, code: string): (coords: seq<real>)
    ensures |coords| % 2 == 0 && |coords| <= 2 * |options|
  {
    if options == [] then []
    else
      var last := options[|options| - 1];
      CoordsOf(options[..|options| - 1], code) + (if last.code == code then [last.lat, last.lng] else [])
  }

  /** The stations carrying `code`, in order. */
  function StationsWith(options: seq<Station>, code: string): seq<Station> {
    if options == [] then []
    else
      var last := options[|options| - 1];
      StationsWith(options[..|options| - 1], code) + (if last.code == code then [last] else [])
  }

  /** `stationsCoords[code]` is `[lat0, lng0, lat1, lng1, ...]` over the
      stations with that code, so twice as long as there are such stations. */
  lemma {:induction false} CoordsArePairs(options: seq<Station>, code: string)
    ensures |CoordsOf(options, code)| == 2 * |StationsWith(options, code)|
    ensures forall k :: 0 <= k < |StationsWith(options, code)| ==>
      CoordsOf(options, code)[2 * k] == StationsWith(options, code)[k].lat
      && CoordsOf(options, code)[2 * k + 1] == StationsWith(options, code)[k].lng
    decreases |options|
  {
    if options != [] {
      CoordsArePairs(options[..|options| - 1], code);
    }
  }

  function Codes(options: seq<Station>): (cs: seq<string>)
    ensures |cs| == |options| && forall i :: 0 <= i < |options| ==> cs[i] == options[i].code
  {
    seq(|options|, i requires 0 <= i < |options| => options[i].code)
  }

  /** A code with no station has no coordinates. */
  lemma {:induction false} CoordsOfAbsent(options: seq<Station>, code: string)
    requires forall k :: 0 <= k < |options| ==> options[k].code != code
    ensures CoordsOf(options, code) == []
    decreases |options|
  {
    if options != [] {
      CoordsOfAbsent(options[..|options| - 1], code);
    }
  }

  /** `coords` and its key list are what the reduce leaves after `seen`. */
  ghost predicate Groups(coords: map<string, seq<real>>, stationCodes: seq<string>, seen: seq<Station>) {
    && (forall code :: code in coords <==> exists k :: 0 <= k < |seen| && seen[k].code == code)
    && (forall code :: code in coords ==> coords[code] == CoordsOf(seen, code))
    && (forall code :: code in coords <==> code in stationCodes)
    && stationCodes == InsertAll([], Codes(seen))
  }

  /** The `stationsCoords` reduce, and `Object.keys` of its result
      (`stationCodes`): keys are listed in the order they were created. */
  method StationsCoords(options: seq<Station>) returns (coords: map<string, seq<real>>, stationCodes: seq<string>)
    ensures forall code :: code in coords <==> exists i :: 0 <= i < |options| && options[i].code == code
    ensures forall code :: code in coords ==> coords[code] == CoordsOf(options, code)
    ensures stationCodes == InsertAll([], Codes(options))
  {
    coords := map[];
    stationCodes := [];
    var i := 0;
    while i < |options|
      invariant 0 <= i <= |options|
      invariant Groups(coords, stationCodes, options[..i])
    {
      assert options[..i + 1] == options[..i] + [options[i]];
      coords, stationCodes := AddStation(coords, stationCodes, options[i], options[..i]);
      i := i + 1;
    }
    assert options[..i] == options;
  }

  /** One step of the reduce: create the code's array when it is missing,
      then push the station's latitude and longitude. */
  method AddStation(coords: map<string, seq<real>>, stationCodes: seq<string>, curr: Station, ghost seen: seq<Station>)
    returns (coords': map<string, seq<real>>, stationCodes': seq<string>)
    requires Groups(coords, stationCodes, seen)
    ensures Groups(coords', stationCodes', seen + [curr])
  {
    var missing := curr.code !in coords;
    coords', stationCodes' := coords, stationCodes;
    if missing {
      coords' := coords'[curr.code := []];
      stationCodes' := stationCodes' + [curr.code];
      CoordsOfAbsent(seen, curr.code);
    }
    coords' := coords'[curr.code := coords'[curr.code] + [curr.lat, curr.lng]];
    assert stationCodes' == Insert(stationCodes, curr.code);
    SeenSnoc(seen, curr);
    forall code
      ensures code in coords' <==> exists k :: 0 <= k < |seen + [curr]| && (seen + [curr])[k].code == code
      ensures code in coords' ==> coords'[code] == CoordsOf(seen + [curr], code)
    {
      SeenCodeSnoc(seen, curr, code);
    }
  }

  lemma SeenSnoc(seen: seq<Station>, curr: Station)
    ensures InsertAll([], Codes(seen + [curr])) == Insert(InsertAll([], Codes(seen)), curr.code)
  {
    assert Codes(seen + [curr]) == Codes(seen) + [curr.code];
  }

  lemma SeenCodeSnoc(seen: seq<Station>, curr: Station, code: string)
    ensures (exists k :: 0 <= k < |seen + [curr]| && (seen + [curr])[k].code == code)
      <==> (exists k :: 0 <= k < |seen| && seen[k].code == code) || curr.code == code
    ensures CoordsOf(seen + [curr], code) == CoordsOf(seen, code) + (if curr.code == code then [curr.lat, curr.lng] else [])
  {
    var seen' := seen + [curr];
    assert seen'[..|seen|] == seen;
    if exists k :: 0 <= k < |seen'| && seen'[k].code == code {
      var k :| 0 <= k < |seen'| && seen'[k].code == code;
      if k < |seen| {
        assert seen[k].code == code;
      }
    }
    if exists k :: 0 <= k < |seen| && seen[k].code == code {
      var k :| 0 <= k < |seen| && seen[k].code == code;
      assert seen'[k].code == code;
    }
    if curr.code == code {
      assert seen'[|seen|].code == code;
    }
  }
}
