/**
  The older version of the crate, src/lib.rs. Its station document,
  coordinates and enum codes are the same code as src/parse.rs up to names and
  visibility, and are decoded by the `Parse` members; what differs is the timezone-less datetime, cut at the FIRST '.',
  the lunar phase whose datetime stays a raw string, and the `PredictionData`
  document built from them.
 */
module Lib {
  import opened Results
  import opened Wire
  import Civil
  import Types
  import Parse

  // ---------------------------------------------------------------------------
  // Datetimes without a timezone

  /** `str::find`: the index of the first occurrence of `c`. */
  function Find(s: string, c: char): (r: Option<nat>)
    ensures r.None? <==> c !in s
    ensures r.Some? ==> r.value < |s| && s[r.value] == c && c !in s[..r.value]
  {
    if |s| == 0 then None
    else if s[0] == c then Some(0)
    else
      var r := Find(s[1..], c);
      assert s == [s[0]] + s[1..];
      if r.Some? then
        assert s[..r.value + 1] == [s[0]] + s[1..][..r.value];
        Some(r.value + 1)
      else None
  }

  /** The text before the first '.', or all of it when there is none. */
  function TruncateAtFirstDot(s: string): (r: string)
    ensures r <= s
    ensures '.' !in r
    ensures |r| < |s| ==> s[|r|] == '.'
  {
    match Find(s, '.')
    case None => s
    case Some(idx) => s[..idx]
  }

  /**
    `deserialize_datetime_without_tz` of lib.rs: a JSON string, cut at its
    first '.', read in the fixed format `%Y-%m-%dT%H:%M:%S` as a UTC instant.
   */
  function DatetimeWithoutTz(j: Json): (r: Decoded<Civil.Instant>)
    ensures r.Ok? <==> j.JString? && Civil.Matches(TruncateAtFirstDot(j.s))
    ensures r.Ok? ==> r.value == Civil.ToInstant(Civil.Fields(TruncateAtFirstDot(j.s)))
  {
    var value :- AsString(j);
    var date := TruncateAtFirstDot(value);
    Civil.ParseUtc(date)
  }

  /** Whatever follows the first '.' is dropped, dots included. */
  lemma TruncateAfterFirstDot(p: string, q: string)
    requires '.' !in p
    ensures TruncateAtFirstDot(p + "." + q) == p
  {
    var s := p + "." + q;
    var r := TruncateAtFirstDot(s);
    assert s[|p|] == '.';
    assert s[..|p|] == p;
    assert forall k | 0 <= k < |r| :: s[k] == r[k];
    assert |r| == |p|;
  }

  /** Cutting a second time changes nothing. */
  lemma TruncateIdempotent(s: string)
    ensures TruncateAtFirstDot(TruncateAtFirstDot(s)) == TruncateAtFirstDot(s)
  {
  }

  /** Anything after a '.' that follows a dot-free prefix never changes the instant. */
  lemma FractionIgnored(d: string, rest: string)
    requires '.' !in d
    ensures DatetimeWithoutTz(JString(d + "." + rest)) == DatetimeWithoutTz(JString(d))
  {
    TruncateAfterFirstDot(d, rest);
  }

  /** The canonical text of a datetime, with or without any suffix after a '.', reads as its instant. */
  lemma DatetimeRoundTrip(dt: Civil.DateTime, rest: string)
    requires Civil.Valid(dt)
    ensures DatetimeWithoutTz(JString(Civil.Format(dt))) == Ok(Civil.ToInstant(dt))
    ensures DatetimeWithoutTz(JString(Civil.Format(dt) + "." + rest)) == Ok(Civil.ToInstant(dt))
  {
    Civil.ParseFormat(dt);
    Civil.MatchedHasNoDot(Civil.Format(dt));
    Civil.ParseUtcFormat(dt);
    FractionIgnored(Civil.Format(dt), rest);
  }

  /**
    The two versions of the crate disagree on a datetime with two fractional parts: cut at
    the first '.' it is read, cut at the last '.' it is rejected.
   */
  lemma VersionsDisagree(d: string)
    requires Civil.Matches(d)
    ensures DatetimeWithoutTz(JString(d + ".5.5")).Ok?
    ensures Parse.DatetimeWithoutTz(JString(d + ".5.5")).Err?
  {
    Civil.MatchedHasNoDot(d);
    assert d + "." + "5.5" == d + ".5.5";
    assert d + ".5" + "." + "5" == d + ".5.5";
    TruncateAfterFirstDot(d, "5.5");
    Parse.TruncateAfterLastDot(d + ".5", "5");
  }

  // ---------------------------------------------------------------------------
  // Tide predictions

  /** `LunarPhase` of lib.rs: its datetime is kept as the wire string, unchecked. */
  datatype LunarPhase = LunarPhase(dateTime: string, lunarPhaseType: Types.LunarPhaseType)

  datatype PredictionData = PredictionData(
    footerNote: string,
    lunarPhaseList: seq<LunarPhase>,
    tidalEventList: seq<Parse.TidalEvent>,
    tidalHeightOccurrenceList: seq<Parse.TidalHeightOccurence>)

  function DecodeLunarPhase(j: Json): (r: Decoded<LunarPhase>)
    ensures r.Ok? <==> j.JObject? && Required(j.members, "dateTime", AsString).Ok?
                                  && Required(j.members, "lunarPhaseType", Parse.DecodeLunarPhaseType).Ok?
    ensures r.Ok? ==> j.JObject?
                      && Count(j.members, "dateTime") == 1 && ValueOf(j.members, "dateTime") == JString(r.value.dateTime)
                      && Count(j.members, "lunarPhaseType") == 1
                      && ValueOf(j.members, "lunarPhaseType") == JInt(Types.Discriminant(r.value.lunarPhaseType))
  {
    var members :- AsObject(j);
    var dateTime :- Required(members, "dateTime", AsString);
    var lunarPhaseType :- Required(members, "lunarPhaseType", Parse.DecodeLunarPhaseType);
    Ok(LunarPhase(dateTime, lunarPhaseType))
  }

  /** Any string is accepted as a lunar phase datetime, even one that names no date. */
  lemma LunarDateTimeUnchecked(s: string, p: Types.LunarPhaseType)
    ensures DecodeLunarPhase(JObject([("dateTime", JString(s)), ("lunarPhaseType", JInt(Types.Discriminant(p)))]))
            == Ok(LunarPhase(s, p))
  {
    var members := [("dateTime", JString(s)), ("lunarPhaseType", JInt(Types.Discriminant(p)))];
    CountDistinct(members, 0);
    CountDistinct(members, 1);
    Parse.LunarPhaseTypeCodeRoundTrip(p);
  }

  /** The tidal event of lib.rs: the parse.rs shape, with first-dot datetimes. */
  function DecodeTidalEvent(j: Json): (r: Decoded<Parse.TidalEvent>)
    ensures r.Ok? ==> j.JObject?
                      && Count(j.members, "date") == 1 && DatetimeWithoutTz(ValueOf(j.members, "date")) == Ok(r.value.date)
                      && Count(j.members, "dateTime") == 1 && DatetimeWithoutTz(ValueOf(j.members, "dateTime")) == Ok(r.value.dateTime)
  {
    Parse.DecodeTidalEventWith(j, DatetimeWithoutTz)
  }

  /**
    `predictions_from_json`: the four camelCase members of the prediction
    document, each list decoded element by element; any failure fails it.
   */
  function PredictionsFromJson(doc: Json, rfc3339: string -> Option<Civil.Instant>): (r: Decoded<PredictionData>)
    ensures r.Ok? <==> doc.JObject?
                       && Required(doc.members, "footerNote", AsString).Ok?
                       && Count(doc.members, "lunarPhaseList") == 1
                       && DecodeVec(ValueOf(doc.members, "lunarPhaseList"), DecodeLunarPhase).Ok?
                       && Count(doc.members, "tidalEventList") == 1
                       && DecodeVec(ValueOf(doc.members, "tidalEventList"), DecodeTidalEvent).Ok?
                       && Count(doc.members, "tidalHeightOccurrenceList") == 1
                       && Parse.DecodeHeights(ValueOf(doc.members, "tidalHeightOccurrenceList"), rfc3339).Ok?
    ensures r.Ok? ==> doc.JObject?
                      && Required(doc.members, "footerNote", AsString) == Ok(r.value.footerNote)
                      && DecodeVec(ValueOf(doc.members, "lunarPhaseList"), DecodeLunarPhase) == Ok(r.value.lunarPhaseList)
                      && DecodeVec(ValueOf(doc.members, "tidalEventList"), DecodeTidalEvent) == Ok(r.value.tidalEventList)
                      && Parse.DecodeHeights(ValueOf(doc.members, "tidalHeightOccurrenceList"), rfc3339)
                         == Ok(r.value.tidalHeightOccurrenceList)
  {
    var members :- AsObject(doc);
    var footerNote :- Required(members, "footerNote", AsString);
    var lunar :- Field(members, "lunarPhaseList");
    var lunarPhaseList :- DecodeVec(lunar, DecodeLunarPhase);
    var events :- Field(members, "tidalEventList");
    var tidalEventList :- DecodeVec(events, DecodeTidalEvent);
    var heights :- Field(members, "tidalHeightOccurrenceList");
    var tidalHeightOccurrenceList :- Parse.DecodeHeights(heights, rfc3339);
    Ok(PredictionData(footerNote, lunarPhaseList, tidalEventList, tidalHeightOccurrenceList))
  }

  /** `stations_from_json`: the station document, decoded as in parse.rs. */
  function StationsFromJson(doc: Json): (r: Decoded<seq<Parse.Station>>)
    ensures r.Ok? <==> doc.JObject? && Count(doc.members, "features") == 1
                       && Parse.DeserializeStations(ValueOf(doc.members, "features")).Ok?
    ensures r.Ok? ==> var features := ValueOf(doc.members, "features");
                      |r.value| == |features.items|
                      && forall i | 0 <= i < |features.items| ::
                           r.value[i] == Parse.Flatten(Parse.DecodeFeature(features.items[i]).value)
  {
    Parse.StationsFromReader(doc)
  }

  /** A tidal event needs both `date` and `dateTime` to parse, and so does the document. */
  lemma EventNeedsBothDatetimes(doc: Json, rfc3339: string -> Option<Civil.Instant>, k: int)
    requires doc.JObject? && Count(doc.members, "tidalEventList") == 1
    requires ValueOf(doc.members, "tidalEventList").JArray?
    requires 0 <= k < |ValueOf(doc.members, "tidalEventList").items|
    requires var event := ValueOf(doc.members, "tidalEventList").items[k];
             && event.JObject? && Count(event.members, "date") == 1 && Count(event.members, "dateTime") == 1
             && (DatetimeWithoutTz(ValueOf(event.members, "date")).Err?
                 || DatetimeWithoutTz(ValueOf(event.members, "dateTime")).Err?)
    ensures DecodeTidalEvent(ValueOf(doc.members, "tidalEventList").items[k]).Err?
    ensures PredictionsFromJson(doc, rfc3339).Err?
  {
  }
}
