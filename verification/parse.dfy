/**
  The decoders of src/parse.rs: the tide-prediction document, the station
  document flattened into `Station` records, the integer-coded enums, the
  positional coordinate pair, and the timezone-less datetime that is cut at
  its last '.' before being parsed as UTC.
 */
module Parse {
  import opened Results
  import opened Wire
  import Civil
  import Types

  // ---------------------------------------------------------------------------
  // Datetimes without a timezone

  /** `str::rfind`: the index of the last occurrence of `c`. */
  function RFind(s: string, c: char): (r: Option<nat>)
    ensures r.None? <==> c !in s
    ensures r.Some? ==> r.value < |s| && s[r.value] == c && c !in s[r.value + 1..]
  {
    if |s| == 0 then None
    else if s[|s| - 1] == c then Some(|s| - 1)
    else
      var r := RFind(s[..|s| - 1], c);
      assert s == s[..|s| - 1] + [s[|s| - 1]];
      if r.Some? then
        assert s[r.value + 1..] == s[..|s| - 1][r.value + 1..] + [s[|s| - 1]];
        r
      else r
  }

  /** The text before the last '.', or all of it when there is none. */
  function TruncateAtLastDot(s: string): (r: string)
    ensures r <= s
    ensures '.' !in s ==> r == s
    ensures '.' in s ==> |r| < |s| && s[|r|] == '.' && '.' !in s[|r| + 1..]
  {
    match RFind(s, '.')
    case None => s
    case Some(idx) => s[..idx]
  }

  /**
    `deserialize_datetime_without_tz`: a JSON string, cut at its last '.',
    read in the fixed format `%Y-%m-%dT%H:%M:%S` as a UTC instant.
   */
  function DatetimeWithoutTz(j: Json): (r: Decoded<Civil.Instant>)
    ensures r.Ok? <==> j.JString? && Civil.Matches(TruncateAtLastDot(j.s))
    ensures r.Ok? ==> r.value == Civil.ToInstant(Civil.Fields(TruncateAtLastDot(j.s)))
  {
    var value :- AsString(j);
    var date := TruncateAtLastDot(value);
    Civil.ParseUtc(date)
  }

  /** A '.' with no '.' after it is the last one: there is only one such place. */
  lemma LastDotUnique(s: string, i: nat, j: nat)
    requires i < |s| && s[i] == '.' && '.' !in s[i + 1..]
    requires j < |s| && s[j] == '.' && '.' !in s[j + 1..]
    ensures i == j
  {
    assert forall k | i < k < |s| :: s[i + 1..][k - i - 1] == s[k];
    assert forall k | j < k < |s| :: s[j + 1..][k - j - 1] == s[k];
  }

  /** Whatever precedes the last '.' is what gets parsed. */
  lemma TruncateAfterLastDot(p: string, q: string)
    requires '.' !in q
    ensures TruncateAtLastDot(p + "." + q) == p
  {
    var s := p + "." + q;
    assert s[|p|] == '.' && s[|p| + 1..] == q;
    LastDotUnique(s, |TruncateAtLastDot(s)|, |p|);
    assert s[..|p|] == p;
  }

  /** A fractional-second suffix never changes the instant. */
  lemma FractionIgnored(d: string, digits: string)
    requires '.' !in d && '.' !in digits
    ensures DatetimeWithoutTz(JString(d + "." + digits)) == DatetimeWithoutTz(JString(d))
  {
    TruncateAfterLastDot(d, digits);
  }

  /** With several dots only the final suffix is dropped, so a second cut removes more. */
  lemma TruncationNotIdempotent(d: string, a: string, b: string)
    requires '.' !in d && '.' !in a && '.' !in b
    ensures TruncateAtLastDot(d + "." + a + "." + b) == d + "." + a
    ensures TruncateAtLastDot(TruncateAtLastDot(d + "." + a + "." + b)) == d
  {
    TruncateAfterLastDot(d + "." + a, b);
    TruncateAfterLastDot(d, a);
  }

  /** The canonical text of a datetime, bare or with a fraction, reads as its instant. */
  lemma DatetimeRoundTrip(dt: Civil.DateTime, digits: string)
    requires Civil.Valid(dt) && '.' !in digits
    ensures DatetimeWithoutTz(JString(Civil.Format(dt))) == Ok(Civil.ToInstant(dt))
    ensures DatetimeWithoutTz(JString(Civil.Format(dt) + "." + digits)) == Ok(Civil.ToInstant(dt))
  {
    Civil.ParseFormat(dt);
    Civil.MatchedHasNoDot(Civil.Format(dt));
    Civil.ParseUtcFormat(dt);
    FractionIgnored(Civil.Format(dt), digits);
  }

  /** Two accepted strings give the same instant exactly when their cut prefixes agree. */
  lemma SameInstantIffSamePrefix(s1: string, s2: string)
    requires Civil.Matches(TruncateAtLastDot(s1)) && Civil.Matches(TruncateAtLastDot(s2))
    ensures (DatetimeWithoutTz(JString(s1)) == DatetimeWithoutTz(JString(s2)))
              == (TruncateAtLastDot(s1) == TruncateAtLastDot(s2))
  {
    Civil.ParseUtcInjective(TruncateAtLastDot(s1), TruncateAtLastDot(s2));
  }

  // ---------------------------------------------------------------------------
  // Integer-coded enums

  /** The `#[repr(u8)]` wire code of a tidal event type: high water 0, low water 1. */
  function TidalEventTypeCode(t: Types.TidalEventType): int
  {
    match t
    case HighWater => 0
    case LowWater => 1
  }

  /** `TidalEventType` via `Deserialize_repr`: a `u8` that must be 0 or 1. */
  function DecodeTidalEventType(j: Json): (r: Decoded<Types.TidalEventType>)
    ensures r.Ok? <==> j == JInt(0) || j == JInt(1)
    ensures r.Ok? ==> j == JInt(TidalEventTypeCode(r.value))
  {
    var code :- AsU8(j);
    if code == 0 then Ok(Types.HighWater)
    else if code == 1 then Ok(Types.LowWater)
    else Err("invalid value, expected one of: `0`, `1`")
  }

  lemma TidalEventTypeCodeRoundTrip(t: Types.TidalEventType)
    ensures DecodeTidalEventType(JInt(TidalEventTypeCode(t))) == Ok(t)
  {
  }

  /** `LunarPhaseType` via `Deserialize_repr`: a `u8` from 1 to 4. */
  function DecodeLunarPhaseType(j: Json): (r: Decoded<Types.LunarPhaseType>)
    ensures r.Ok? <==> j.JInt? && 1 <= j.i <= 4
    ensures r.Ok? ==> j == JInt(Types.Discriminant(r.value))
  {
    var code :- AsU8(j);
    if code == 1 then Ok(Types.NewMoon)
    else if code == 2 then Ok(Types.FirstQuarter)
    else if code == 3 then Ok(Types.FullMoon)
    else if code == 4 then Ok(Types.LastQuarter)
    else Err("invalid value, expected one of: `1`, `2`, `3`, `4`")
  }

  lemma LunarPhaseTypeCodeRoundTrip(p: Types.LunarPhaseType)
    ensures DecodeLunarPhaseType(JInt(Types.Discriminant(p))) == Ok(p)
  {
  }

  // ---------------------------------------------------------------------------
  // Coordinates

  /** Longitude and latitude in decimal degrees; on the wire a two-element array, longitude first. */
  datatype Coordinates = Coordinates(lon: real, lat: real)

  /**
    The derived `Deserialize` of `Coordinates`: a JSON array is read
    positionally and must have exactly two numbers; an object must have
    `lon` and `lat`.
   */
  function DecodeCoordinates(j: Json): (r: Decoded<Coordinates>)
    ensures j.JArray? ==>
              (r.Ok? <==> |j.items| == 2 && AsF64(j.items[0]).Ok? && AsF64(j.items[1]).Ok?)
    ensures j.JArray? && r.Ok? ==>
              AsF64(j.items[0]) == Ok(r.value.lon) && AsF64(j.items[1]) == Ok(r.value.lat)
    ensures j.JObject? ==>
              (r.Ok? <==> Required(j.members, "lon", AsF64).Ok? && Required(j.members, "lat", AsF64).Ok?)
    ensures j.JObject? && r.Ok? ==>
              Required(j.members, "lon", AsF64) == Ok(r.value.lon) && Required(j.members, "lat", AsF64) == Ok(r.value.lat)
    ensures !j.JArray? && !j.JObject? ==> r.Err?
  {
    match j
    case JArray(items) =>
      if |items| == 0 then Err("invalid length 0, expected struct Coordinates with 2 elements")
      else
        var lon :- AsF64(items[0]);
        if |items| == 1 then Err("invalid length 1, expected struct Coordinates with 2 elements")
        else
          var lat :- AsF64(items[1]);
          if |items| > 2 then Err("trailing characters") else Ok(Coordinates(lon, lat))
    case JObject(members) =>
      var lon :- Required(members, "lon", AsF64);
      var lat :- Required(members, "lat", AsF64);
      Ok(Coordinates(lon, lat))
    case _ => Err("invalid type: expected struct Coordinates")
  }

  function EncodeCoordinates(c: Coordinates): Json
  {
    JArray([JReal(c.lon), JReal(c.lat)])
  }

  /** Element 0 is the longitude and element 1 the latitude. */
  lemma CoordinatesPositional(a: real, b: real)
    ensures DecodeCoordinates(JArray([JReal(a), JReal(b)])) == Ok(Coordinates(a, b))
    ensures DecodeCoordinates(JArray([JReal(b), JReal(a)])) == Ok(Coordinates(b, a))
  {
  }

  // ---------------------------------------------------------------------------
  // Stations

  /** A station as parse.rs exposes it: id, name and country kept as the wire strings. */
  datatype Station = Station(
    id: string,
    name: string,
    country: string,
    location: Coordinates,
    continuousHeightsAvailable: bool)

  /** The GeoJSON-style wire shapes, read and then discarded. */
  datatype StationFeatureGeometry = StationFeatureGeometry(typeTag: string, coordinates: Coordinates)

  datatype StationFeatureProperties = StationFeatureProperties(
    id: string,
    name: string,
    country: string,
    continuousHeightsAvailable: bool)

  datatype StationFeature = StationFeature(
    typeTag: string,
    geometry: StationFeatureGeometry,
    properties: StationFeatureProperties)

  /** `StationFeatureGeometry`: a string `type` (read, unused) and the coordinates. */
  function DecodeGeometry(j: Json): (r: Decoded<StationFeatureGeometry>)
    ensures r.Ok? <==> j.JObject? && Required(j.members, "type", AsString).Ok?
                                  && Required(j.members, "coordinates", DecodeCoordinates).Ok?
    ensures r.Ok? ==> j.JObject? && Required(j.members, "coordinates", DecodeCoordinates) == Ok(r.value.coordinates)
  {
    var members :- AsObject(j);
    var typeTag :- Required(members, "type", AsString);
    var coordinates :- Required(members, "coordinates", DecodeCoordinates);
    Ok(StationFeatureGeometry(typeTag, coordinates))
  }

  /** `StationFeatureProperties`: PascalCase keys, strings copied verbatim. */
  function DecodeProperties(j: Json): (r: Decoded<StationFeatureProperties>)
    ensures r.Ok? <==> j.JObject? && Required(j.members, "Id", AsString).Ok?
                                  && Required(j.members, "Name", AsString).Ok?
                                  && Required(j.members, "Country", AsString).Ok?
                                  && Required(j.members, "ContinuousHeightsAvailable", AsBool).Ok?
    ensures r.Ok? ==> j.JObject?
                      && Count(j.members, "Id") == 1 && ValueOf(j.members, "Id") == JString(r.value.id)
                      && Count(j.members, "Name") == 1 && ValueOf(j.members, "Name") == JString(r.value.name)
                      && Count(j.members, "Country") == 1 && ValueOf(j.members, "Country") == JString(r.value.country)
                      && Count(j.members, "ContinuousHeightsAvailable") == 1
                      && ValueOf(j.members, "ContinuousHeightsAvailable") == JBool(r.value.continuousHeightsAvailable)
  {
    var members :- AsObject(j);
    var id :- Required(members, "Id", AsString);
    var name :- Required(members, "Name", AsString);
    var country :- Required(members, "Country", AsString);
    var flag :- Required(members, "ContinuousHeightsAvailable", AsBool);
    Ok(StationFeatureProperties(id, name, country, flag))
  }

  /** `StationFeature`: a string `type` (read, unused), a geometry and properties. */
  function DecodeFeature(j: Json): (r: Decoded<StationFeature>)
    ensures r.Ok? <==> j.JObject? && Required(j.members, "type", AsString).Ok?
                                  && Required(j.members, "geometry", DecodeGeometry).Ok?
                                  && Required(j.members, "properties", DecodeProperties).Ok?
    ensures r.Ok? ==> j.JObject? && Required(j.members, "geometry", DecodeGeometry) == Ok(r.value.geometry)
                                 && Required(j.members, "properties", DecodeProperties) == Ok(r.value.properties)
  {
    var members :- AsObject(j);
    var typeTag :- Required(members, "type", AsString);
    var geometry :- Required(members, "geometry", DecodeGeometry);
    var properties :- Required(members, "properties", DecodeProperties);
    Ok(StationFeature(typeTag, geometry, properties))
  }

  /** The closure of `deserialize_stations`: properties and coordinates, without the type tags. */
  function Flatten(f: StationFeature): (s: Station)
  {
    Station(f.properties.id, f.properties.name, f.properties.country,
            f.geometry.coordinates, f.properties.continuousHeightsAvailable)
  }

  /**
    `deserialize_stations`: every feature is decoded first, all or nothing,
    then each is flattened in place; order and length are kept.
   */
  function DeserializeStations(j: Json): (r: Decoded<seq<Station>>)
    ensures r.Ok? <==> j.JArray? && forall i | 0 <= i < |j.items| :: DecodeFeature(j.items[i]).Ok?
    ensures r.Ok? ==> |r.value| == |j.items|
                      && forall i | 0 <= i < |j.items| :: r.value[i] == Flatten(DecodeFeature(j.items[i]).value)
  {
    var features :- DecodeVec(j, DecodeFeature);
    Ok(seq(|features|, i requires 0 <= i < |features| => Flatten(features[i])))
  }

  /**
    `stations_from_reader`: a `StationsData` object whose `features` member is
    decoded; its top-level `type` is skipped and never read.
   */
  function StationsFromReader(doc: Json): (r: Decoded<seq<Station>>)
    ensures r.Ok? <==> doc.JObject? && Required(doc.members, "features", DeserializeStations).Ok?
    ensures r.Ok? ==> doc.JObject? && Count(doc.members, "features") == 1
                      && DeserializeStations(ValueOf(doc.members, "features")) == r
  {
    var members :- AsObject(doc);
    var features :- Required(members, "features", DeserializeStations);
    Ok(features)
  }

  /**
    The i-th station comes from the i-th feature: id, name, country and flag
    are the strings and boolean of its properties, verbatim, and its location
    is its geometry's coordinates.
   */
  lemma StationsFromWire(doc: Json, i: int)
    requires StationsFromReader(doc).Ok?
    ensures doc.JObject? && Count(doc.members, "features") == 1
    ensures ValueOf(doc.members, "features").JArray?
    ensures |StationsFromReader(doc).value| == |ValueOf(doc.members, "features").items|
    ensures 0 <= i < |StationsFromReader(doc).value| ==>
              var feature := ValueOf(doc.members, "features").items[i];
              var station := StationsFromReader(doc).value[i];
              && feature.JObject?
              && Count(feature.members, "properties") == 1 && Count(feature.members, "geometry") == 1
              && var props := ValueOf(feature.members, "properties");
              && var geometry := ValueOf(feature.members, "geometry");
              && props.JObject? && geometry.JObject?
              && Count(props.members, "Id") == 1 && ValueOf(props.members, "Id") == JString(station.id)
              && Count(props.members, "Name") == 1 && ValueOf(props.members, "Name") == JString(station.name)
              && Count(props.members, "Country") == 1 && ValueOf(props.members, "Country") == JString(station.country)
              && Count(props.members, "ContinuousHeightsAvailable") == 1
              && ValueOf(props.members, "ContinuousHeightsAvailable") == JBool(station.continuousHeightsAvailable)
              && Count(geometry.members, "coordinates") == 1
              && DecodeCoordinates(ValueOf(geometry.members, "coordinates")) == Ok(station.location)
  {
    var features := ValueOf(doc.members, "features");
    if 0 <= i < |StationsFromReader(doc).value| {
      var feature := features.items[i];
      var f := DecodeFeature(feature).value;
      var props := ValueOf(feature.members, "properties");
      var geometry := ValueOf(feature.members, "geometry");
      assert DecodeProperties(props) == Ok(f.properties);
      assert DecodeGeometry(geometry) == Ok(f.geometry);
    }
  }

  /** A single undecodable feature fails the whole document: no partial list. */
  lemma OneBadFeatureFailsAll(doc: Json, k: int)
    requires doc.JObject? && Count(doc.members, "features") == 1
    requires ValueOf(doc.members, "features").JArray?
    requires 0 <= k < |ValueOf(doc.members, "features").items|
    requires DecodeFeature(ValueOf(doc.members, "features").items[k]).Err?
    ensures StationsFromReader(doc).Err?
  {
  }

  /** The top-level `type` member, whatever its value or presence, changes nothing. */
  lemma CollectionTypeIgnored(members: Members, v: Json)
    ensures StationsFromReader(JObject(Retag(members, "type", v))) == StationsFromReader(JObject(members))
    ensures StationsFromReader(JObject(Without(members, "type"))) == StationsFromReader(JObject(members))
  {
    RetagKeepsField(members, "type", v, "features", DeserializeStations);
    WithoutKeepsField(members, "type", "features", DeserializeStations);
  }

  /** Which string a feature's `type` holds never changes the station it yields. */
  lemma FeatureTypeIgnored(members: Members, t1: string, t2: string)
    ensures DecodeFeature(JObject(Retag(members, "type", JString(t1)))).Ok?
            == DecodeFeature(JObject(Retag(members, "type", JString(t2)))).Ok?
    ensures DecodeFeature(JObject(Retag(members, "type", JString(t1)))).Ok? ==>
              Flatten(DecodeFeature(JObject(Retag(members, "type", JString(t1)))).value)
              == Flatten(DecodeFeature(JObject(Retag(members, "type", JString(t2)))).value)
  {
    var m1, m2 := Retag(members, "type", JString(t1)), Retag(members, "type", JString(t2));
    RetagKeepsField(members, "type", JString(t1), "geometry", DecodeGeometry);
    RetagKeepsField(members, "type", JString(t2), "geometry", DecodeGeometry);
    RetagKeepsField(members, "type", JString(t1), "properties", DecodeProperties);
    RetagKeepsField(members, "type", JString(t2), "properties", DecodeProperties);
    RetagCount(members, "type", JString(t1), "type");
    RetagCount(members, "type", JString(t2), "type");
    if Count(members, "type") > 0 {
      RetagValueOfKey(members, "type", JString(t1));
      RetagValueOfKey(members, "type", JString(t2));
    }
  }

  /** Which string a geometry's `type` holds never changes the coordinates. */
  lemma GeometryTypeIgnored(members: Members, t1: string, t2: string)
    ensures DecodeGeometry(JObject(Retag(members, "type", JString(t1)))).Ok?
            == DecodeGeometry(JObject(Retag(members, "type", JString(t2)))).Ok?
    ensures DecodeGeometry(JObject(Retag(members, "type", JString(t1)))).Ok? ==>
              DecodeGeometry(JObject(Retag(members, "type", JString(t1)))).value.coordinates
              == DecodeGeometry(JObject(Retag(members, "type", JString(t2)))).value.coordinates
  {
    RetagKeepsField(members, "type", JString(t1), "coordinates", DecodeCoordinates);
    RetagKeepsField(members, "type", JString(t2), "coordinates", DecodeCoordinates);
    RetagCount(members, "type", JString(t1), "type");
    RetagCount(members, "type", JString(t2), "type");
    if Count(members, "type") > 0 {
      RetagValueOfKey(members, "type", JString(t1));
      RetagValueOfKey(members, "type", JString(t2));
    }
  }

  /** The wire geometry of a location, with an arbitrary type tag. */
  function EncodeGeometry(location: Coordinates, pointTag: string): Json
  {
    JObject([("type", JString(pointTag)), ("coordinates", EncodeCoordinates(location))])
  }

  /** The wire properties of a station. */
  function EncodeProperties(s: Station): Json
  {
    JObject([
      ("Id", JString(s.id)),
      ("Name", JString(s.name)),
      ("Country", JString(s.country)),
      ("ContinuousHeightsAvailable", JBool(s.continuousHeightsAvailable))])
  }

  /** The wire feature the service sends for a station, with arbitrary type tags. */
  function EncodeStation(s: Station, featureTag: string, pointTag: string): Json
  {
    JObject([
      ("type", JString(featureTag)),
      ("geometry", EncodeGeometry(s.location, pointTag)),
      ("properties", EncodeProperties(s))])
  }

  /** The wire features of a list of stations, in order. */
  function EncodeFeatures(ss: seq<Station>, featureTag: string, pointTag: string): (r: seq<Json>)
    ensures |r| == |ss|
  {
    seq(|ss|, i requires 0 <= i < |ss| => EncodeStation(ss[i], featureTag, pointTag))
  }

  /** The wire station document for a list of stations. */
  function EncodeStations(ss: seq<Station>, collectionTag: Json, featureTag: string, pointTag: string): Json
  {
    JObject([("type", collectionTag), ("features", JArray(EncodeFeatures(ss, featureTag, pointTag)))])
  }

  lemma GeometryRoundTrip(location: Coordinates, pointTag: string)
    ensures DecodeGeometry(EncodeGeometry(location, pointTag)) == Ok(StationFeatureGeometry(pointTag, location))
  {
    var members := EncodeGeometry(location, pointTag).members;
    assert DistinctKeys(members);
    MemberAt(members, 0);
    MemberAt(members, 1);
  }

  lemma PropertiesRoundTrip(s: Station)
    ensures DecodeProperties(EncodeProperties(s))
            == Ok(StationFeatureProperties(s.id, s.name, s.country, s.continuousHeightsAvailable))
  {
    var members := EncodeProperties(s).members;
    assert DistinctKeys(members);
    MemberAt(members, 0);
    MemberAt(members, 1);
    MemberAt(members, 2);
    MemberAt(members, 3);
  }

  lemma StationRoundTrip(s: Station, featureTag: string, pointTag: string)
    ensures DecodeFeature(EncodeStation(s, featureTag, pointTag)).Ok?
    ensures Flatten(DecodeFeature(EncodeStation(s, featureTag, pointTag)).value) == s
  {
    var members := EncodeStation(s, featureTag, pointTag).members;
    assert DistinctKeys(members);
    MemberAt(members, 0);
    MemberAt(members, 1);
    MemberAt(members, 2);
    GeometryRoundTrip(s.location, pointTag);
    PropertiesRoundTrip(s);
  }

  /** Decoding the features of any list of stations gives back that very list, in order. */
  lemma FeaturesRoundTrip(ss: seq<Station>, featureTag: string, pointTag: string)
    ensures DeserializeStations(JArray(EncodeFeatures(ss, featureTag, pointTag))) == Ok(ss)
  {
    var items := EncodeFeatures(ss, featureTag, pointTag);
    forall i | 0 <= i < |ss|
      ensures DecodeFeature(items[i]).Ok? && Flatten(DecodeFeature(items[i]).value) == ss[i]
    {
      StationRoundTrip(ss[i], featureTag, pointTag);
    }
    var r := DeserializeStations(JArray(items));
    assert r.Ok?;
    assert r.value == ss;
  }

  /**
    Decoding the station document of any list of stations gives back that very
    list, in order, whatever the three type tags hold.
   */
  lemma StationsRoundTrip(ss: seq<Station>, collectionTag: Json, featureTag: string, pointTag: string)
    ensures StationsFromReader(EncodeStations(ss, collectionTag, featureTag, pointTag)) == Ok(ss)
  {
    var doc := EncodeStations(ss, collectionTag, featureTag, pointTag);
    CountDistinct(doc.members, 1);
    FeaturesRoundTrip(ss, featureTag, pointTag);
  }

  /**
    Two stations of the crate's own test data: an id with a leading zero keeps
    it, an id with a letter suffix keeps the letter, and the first coordinate
    is the longitude.
   */
  lemma TestStationsExample()
    ensures StationsFromReader(EncodeStations(
              [Station("0102", "RAMSGATE", "England", Coordinates(1.416666, 51.333333), true),
               Station("0297A", "Gills Bay", "Scotland", Coordinates(-3.166666, 58.633333), true)],
              JString("FeatureCollection"), "Feature", "Point"))
            == Ok([Station("0102", "RAMSGATE", "England", Coordinates(1.416666, 51.333333), true),
                   Station("0297A", "Gills Bay", "Scotland", Coordinates(-3.166666, 58.633333), true)])
  {
    StationsRoundTrip([Station("0102", "RAMSGATE", "England", Coordinates(1.416666, 51.333333), true),
                       Station("0297A", "Gills Bay", "Scotland", Coordinates(-3.166666, 58.633333), true)],
                      JString("FeatureCollection"), "Feature", "Point");
  }

  // ---------------------------------------------------------------------------
  // Tide predictions

  /** `TidalEvent` of parse.rs: both `date` and `dateTime` are timezone-less datetimes. */
  datatype TidalEvent = TidalEvent(
    date: Civil.Instant,
    dateTime: Civil.Instant,
    eventType: Types.TidalEventType,
    height: real,
    isApproximateHeight: Option<string>,
    isApproximateTime: Option<string>)

  datatype TidalHeightOccurence = TidalHeightOccurence(dateTime: Civil.Instant, height: real)

  datatype LunarPhase = LunarPhase(dateTime: Civil.Instant, lunarPhaseType: Types.LunarPhaseType)

  datatype TidePredictions = TidePredictions(
    footerNote: string,
    lunarPhaseList: seq<LunarPhase>,
    tidalEventList: seq<TidalEvent>,
    tidalHeightOccurrenceList: seq<TidalHeightOccurence>)

  /**
    The derived `Deserialize` of a tidal event, with `datetime` as the decoder
    of its two datetime fields: every required field must be present once and
    decode; the two approximation flags are optional strings.
   */
  function DecodeTidalEventWith(j: Json, datetime: Json -> Decoded<Civil.Instant>): (r: Decoded<TidalEvent>)
    ensures r.Ok? <==> j.JObject? && Required(j.members, "date", datetime).Ok?
                                  && Required(j.members, "dateTime", datetime).Ok?
                                  && Required(j.members, "eventType", DecodeTidalEventType).Ok?
                                  && Required(j.members, "height", AsF64).Ok?
                                  && Optional(j.members, "isApproximateHeight", AsString).Ok?
                                  && Optional(j.members, "isApproximateTime", AsString).Ok?
    ensures r.Ok? ==> j.JObject?
                      && Count(j.members, "date") == 1 && datetime(ValueOf(j.members, "date")) == Ok(r.value.date)
                      && Count(j.members, "dateTime") == 1 && datetime(ValueOf(j.members, "dateTime")) == Ok(r.value.dateTime)
                      && Count(j.members, "eventType") == 1
                      && ValueOf(j.members, "eventType") == JInt(TidalEventTypeCode(r.value.eventType))
                      && Count(j.members, "height") == 1 && AsF64(ValueOf(j.members, "height")) == Ok(r.value.height)
                      && (Count(j.members, "isApproximateHeight") == 0 ==> r.value.isApproximateHeight.None?)
                      && (Count(j.members, "isApproximateTime") == 0 ==> r.value.isApproximateTime.None?)
                      && Optional(j.members, "isApproximateHeight", AsString) == Ok(r.value.isApproximateHeight)
                      && Optional(j.members, "isApproximateTime", AsString) == Ok(r.value.isApproximateTime)
  {
    var members :- AsObject(j);
    var date :- Required(members, "date", datetime);
    var dateTime :- Required(members, "dateTime", datetime);
    var eventType :- Required(members, "eventType", DecodeTidalEventType);
    var height :- Required(members, "height", AsF64);
    var isApproximateHeight :- Optional(members, "isApproximateHeight", AsString);
    var isApproximateTime :- Optional(members, "isApproximateTime", AsString);
    Ok(TidalEvent(date, dateTime, eventType, height, isApproximateHeight, isApproximateTime))
  }

  /** The tidal event of parse.rs: both datetimes are read by the last-dot cut. */
  function DecodeTidalEvent(j: Json): (r: Decoded<TidalEvent>)
    ensures r.Ok? ==> j.JObject?
                      && Count(j.members, "date") == 1 && DatetimeWithoutTz(ValueOf(j.members, "date")) == Ok(r.value.date)
                      && Count(j.members, "dateTime") == 1 && DatetimeWithoutTz(ValueOf(j.members, "dateTime")) == Ok(r.value.dateTime)
  {
    DecodeTidalEventWith(j, DatetimeWithoutTz)
  }

  /** The RFC 3339 datetime of a height sample, read by `rfc3339` (chrono's `FromStr`). */
  function DecodeZuluDatetime(j: Json, rfc3339: string -> Option<Civil.Instant>): (r: Decoded<Civil.Instant>)
    ensures r.Ok? <==> j.JString? && rfc3339(j.s).Some?
    ensures r.Ok? ==> rfc3339(j.s) == Some(r.value)
  {
    var s :- AsString(j);
    match rfc3339(s)
    case Some(t) => Ok(t)
    case None => Err("premature end of input")
  }

  function DecodeTidalHeightOccurence(j: Json, rfc3339: string -> Option<Civil.Instant>): (r: Decoded<TidalHeightOccurence>)
    ensures r.Ok? <==> j.JObject? && Count(j.members, "dateTime") == 1
                                  && DecodeZuluDatetime(ValueOf(j.members, "dateTime"), rfc3339).Ok?
                                  && Required(j.members, "height", AsF64).Ok?
    ensures r.Ok? ==> j.JObject? && DecodeZuluDatetime(ValueOf(j.members, "dateTime"), rfc3339) == Ok(r.value.dateTime)
                                 && Required(j.members, "height", AsF64) == Ok(r.value.height)
  {
    var members :- AsObject(j);
    var v :- Field(members, "dateTime");
    var dateTime :- DecodeZuluDatetime(v, rfc3339);
    var height :- Required(members, "height", AsF64);
    Ok(TidalHeightOccurence(dateTime, height))
  }

  function DecodeLunarPhase(j: Json): (r: Decoded<LunarPhase>)
    ensures r.Ok? <==> j.JObject? && Required(j.members, "dateTime", DatetimeWithoutTz).Ok?
                                  && Required(j.members, "lunarPhaseType", DecodeLunarPhaseType).Ok?
    ensures r.Ok? ==> j.JObject?
                      && Required(j.members, "dateTime", DatetimeWithoutTz) == Ok(r.value.dateTime)
                      && Count(j.members, "lunarPhaseType") == 1
                      && ValueOf(j.members, "lunarPhaseType") == JInt(Types.Discriminant(r.value.lunarPhaseType))
  {
    var members :- AsObject(j);
    var dateTime :- Required(members, "dateTime", DatetimeWithoutTz);
    var lunarPhaseType :- Required(members, "lunarPhaseType", DecodeLunarPhaseType);
    Ok(LunarPhase(dateTime, lunarPhaseType))
  }

  function DecodeHeights(j: Json, rfc3339: string -> Option<Civil.Instant>): Decoded<seq<TidalHeightOccurence>>
  {
    DecodeVec(j, v => DecodeTidalHeightOccurence(v, rfc3339))
  }

  /**
    `tides_from_reader`: the four camelCase members of the prediction document,
    each list decoded element by element; any failure fails the document.
   */
  function TidesFromReader(doc: Json, rfc3339: string -> Option<Civil.Instant>): (r: Decoded<TidePredictions>)
    ensures r.Ok? <==> doc.JObject?
                       && Required(doc.members, "footerNote", AsString).Ok?
                       && Count(doc.members, "lunarPhaseList") == 1
                       && DecodeVec(ValueOf(doc.members, "lunarPhaseList"), DecodeLunarPhase).Ok?
                       && Count(doc.members, "tidalEventList") == 1
                       && DecodeVec(ValueOf(doc.members, "tidalEventList"), DecodeTidalEvent).Ok?
                       && Count(doc.members, "tidalHeightOccurrenceList") == 1
                       && DecodeHeights(ValueOf(doc.members, "tidalHeightOccurrenceList"), rfc3339).Ok?
    ensures r.Ok? ==> doc.JObject?
                      && Required(doc.members, "footerNote", AsString) == Ok(r.value.footerNote)
                      && DecodeVec(ValueOf(doc.members, "lunarPhaseList"), DecodeLunarPhase) == Ok(r.value.lunarPhaseList)
                      && DecodeVec(ValueOf(doc.members, "tidalEventList"), DecodeTidalEvent) == Ok(r.value.tidalEventList)
                      && DecodeHeights(ValueOf(doc.members, "tidalHeightOccurrenceList"), rfc3339)
                         == Ok(r.value.tidalHeightOccurrenceList)
  {
    var members :- AsObject(doc);
    var footerNote :- Required(members, "footerNote", AsString);
    var lunar :- Field(members, "lunarPhaseList");
    var lunarPhaseList :- DecodeVec(lunar, DecodeLunarPhase);
    var events :- Field(members, "tidalEventList");
    var tidalEventList :- DecodeVec(events, DecodeTidalEvent);
    var heights :- Field(members, "tidalHeightOccurrenceList");
    var tidalHeightOccurrenceList :- DecodeHeights(heights, rfc3339);
    Ok(TidePredictions(footerNote, lunarPhaseList, tidalEventList, tidalHeightOccurrenceList))
  }

  /** A tidal event whose `date` or `dateTime` does not parse is an error. */
  lemma EventNeedsBothDatetimes(members: Members)
    requires Count(members, "date") == 1 && Count(members, "dateTime") == 1
    requires DatetimeWithoutTz(ValueOf(members, "date")).Err? || DatetimeWithoutTz(ValueOf(members, "dateTime")).Err?
    ensures DecodeTidalEvent(JObject(members)).Err?
  {
  }

  /** One undecodable tidal event fails the whole prediction document. */
  lemma BadEventFailsDocument(doc: Json, rfc3339: string -> Option<Civil.Instant>, k: int)
    requires doc.JObject? && Count(doc.members, "tidalEventList") == 1
    requires ValueOf(doc.members, "tidalEventList").JArray?
    requires 0 <= k < |ValueOf(doc.members, "tidalEventList").items|
    requires DecodeTidalEvent(ValueOf(doc.members, "tidalEventList").items[k]).Err?
    ensures TidesFromReader(doc, rfc3339).Err?
  {
  }

  /** An empty height list is no error: the document decodes with no samples. */
  lemma EmptyHeightsAccepted(footerNote: string, rfc3339: string -> Option<Civil.Instant>)
    ensures TidesFromReader(JObject([
              ("footerNote", JString(footerNote)),
              ("lunarPhaseList", JArray([])),
              ("tidalEventList", JArray([])),
              ("tidalHeightOccurrenceList", JArray([]))]), rfc3339)
            == Ok(TidePredictions(footerNote, [], [], []))
  {
    var members := [
      ("footerNote", JString(footerNote)),
      ("lunarPhaseList", JArray([])),
      ("tidalEventList", JArray([])),
      ("tidalHeightOccurrenceList", JArray([]))];
    assert DistinctKeys(members);
    MemberAt(members, 0);
    MemberAt(members, 1);
    MemberAt(members, 2);
    MemberAt(members, 3);
  }

  /** A lunar phase as the service sends it reads back as its instant and phase. */
  lemma LunarPhaseRoundTrip(dt: Civil.DateTime, p: Types.LunarPhaseType)
    requires Civil.Valid(dt)
    ensures DecodeLunarPhase(JObject([
              ("dateTime", JString(Civil.Format(dt))),
              ("lunarPhaseType", JInt(Types.Discriminant(p)))]))
            == Ok(LunarPhase(Civil.ToInstant(dt), p))
  {
    var members := [("dateTime", JString(Civil.Format(dt))), ("lunarPhaseType", JInt(Types.Discriminant(p)))];
    assert DistinctKeys(members);
    MemberAt(members, 0);
    MemberAt(members, 1);
    DatetimeRoundTrip(dt, "");
    LunarPhaseTypeCodeRoundTrip(p);
  }

  /**
    A tidal event as the service sends it, with both approximation flags
    `null`, reads back as its two instants, its type and its height.
   */
  lemma TidalEventRoundTrip(date: Civil.DateTime, dateTime: Civil.DateTime, t: Types.TidalEventType, height: real)
    requires Civil.Valid(date) && Civil.Valid(dateTime)
    ensures DecodeTidalEvent(JObject([
              ("date", JString(Civil.Format(date))),
              ("dateTime", JString(Civil.Format(dateTime))),
              ("eventType", JInt(TidalEventTypeCode(t))),
              ("height", JReal(height)),
              ("isApproximateHeight", JNull),
              ("isApproximateTime", JNull)]))
            == Ok(TidalEvent(Civil.ToInstant(date), Civil.ToInstant(dateTime), t, height, None, None))
  {
    var members := [
      ("date", JString(Civil.Format(date))),
      ("dateTime", JString(Civil.Format(dateTime))),
      ("eventType", JInt(TidalEventTypeCode(t))),
      ("height", JReal(height)),
      ("isApproximateHeight", JNull),
      ("isApproximateTime", JNull)];
    assert DistinctKeys(members);
    MemberAt(members, 0);
    MemberAt(members, 1);
    MemberAt(members, 2);
    MemberAt(members, 3);
    MemberAt(members, 4);
    MemberAt(members, 5);
    DatetimeRoundTrip(date, "");
    DatetimeRoundTrip(dateTime, "");
    TidalEventTypeCodeRoundTrip(t);
    assert Required(members, "date", DatetimeWithoutTz) == Ok(Civil.ToInstant(date));
    assert Required(members, "dateTime", DatetimeWithoutTz) == Ok(Civil.ToInstant(dateTime));
    assert Required(members, "eventType", DecodeTidalEventType) == Ok(t);
    assert Optional(members, "isApproximateHeight", AsString) == Ok(None);
  }

  /** A height sample reads back as the instant `rfc3339` gives its text, and its height. */
  lemma HeightRoundTrip(text: string, height: real, rfc3339: string -> Option<Civil.Instant>)
    requires rfc3339(text).Some?
    ensures DecodeTidalHeightOccurence(JObject([("dateTime", JString(text)), ("height", JReal(height))]), rfc3339)
            == Ok(TidalHeightOccurence(rfc3339(text).value, height))
  {
    var members := [("dateTime", JString(text)), ("height", JReal(height))];
    assert DistinctKeys(members);
    MemberAt(members, 0);
    MemberAt(members, 1);
  }
}
