/**
  The domain value types of the crate: countries, station identifiers,
  stations, tidal events and their enums, with the comparison rules the crate
  gives them (stations by id only, tidal events by instant only).
 */
module Types {
  import opened Results
  import Civil

  // ---------------------------------------------------------------------------
  // Orderings

  /** Rust's `std::cmp::Ordering`. */
  datatype Ordering = Less | Equal | Greater

  function Reverse(o: Ordering): Ordering
  {
    match o
    case Less => Greater
    case Equal => Equal
    case Greater => Less
  }

  /**
    `Ord for str`: lexicographic comparison of the characters. Comparing UTF-8
    bytes, as Rust does, orders strings the same way as comparing code points.
   */
  function CompareStrings(a: string, b: string): Ordering
  {
    if |a| == 0 && |b| == 0 then Equal
    else if |a| == 0 then Less
    else if |b| == 0 then Greater
    else if a[0] < b[0] then Less
    else if b[0] < a[0] then Greater
    else CompareStrings(a[1..], b[1..])
  }

  /** Reference definition: `a` is a proper prefix of `b`, or the first difference favours `b`. */
  ghost predicate LexLess(a: string, b: string)
  {
    || (|a| < |b| && a == b[..|a|])
    || exists k | 0 <= k < |a| && k < |b| :: a[..k] == b[..k] && a[k] < b[k]
  }

  lemma {:induction false} CompareEqual(a: string, b: string)
    ensures CompareStrings(a, b) == Equal <==> a == b
  {
    if |a| > 0 && |b| > 0 && a[0] == b[0] {
      CompareEqual(a[1..], b[1..]);
      if a[1..] == b[1..] {
        assert a == [a[0]] + a[1..] && b == [b[0]] + b[1..];
      }
    }
  }

  lemma {:induction false} CompareAntisymmetric(a: string, b: string)
    ensures CompareStrings(b, a) == Reverse(CompareStrings(a, b))
  {
    if |a| > 0 && |b| > 0 && a[0] == b[0] {
      CompareAntisymmetric(a[1..], b[1..]);
    }
  }

  /** `CompareStrings` answers `Less` exactly when the reference order holds. */
  lemma {:induction false} CompareLess(a: string, b: string)
    ensures CompareStrings(a, b) == Less <==> LexLess(a, b)
  {
    if |a| == 0 {
      if |b| > 0 {
        assert a == b[..|a|];
      }
    } else if |b| == 0 {
      assert !LexLess(a, b);
    } else if a[0] < b[0] {
      assert a[..0] == b[..0];
    } else if b[0] < a[0] {
      assert forall k | 0 < k <= |a| && k <= |b| :: a[..k][0] == a[0] && b[..k][0] == b[0];
    } else {
      var a', b' := a[1..], b[1..];
      CompareLess(a', b');
      if LexLess(a', b') {
        if |a'| < |b'| && a' == b'[..|a'|] {
          assert a == [a[0]] + a' && b[..|a|] == [b[0]] + b'[..|a'|];
        } else {
          var k :| 0 <= k < |a'| && k < |b'| && a'[..k] == b'[..k] && a'[k] < b'[k];
          assert a[..k + 1] == [a[0]] + a'[..k] && b[..k + 1] == [b[0]] + b'[..k];
          assert a[k + 1] == a'[k] && b[k + 1] == b'[k];
        }
      }
      if LexLess(a, b) {
        if |a| < |b| && a == b[..|a|] {
          assert a' == b'[..|a'|];
        } else {
          var k :| 0 <= k < |a| && k < |b| && a[..k] == b[..k] && a[k] < b[k];
          assert k > 0;
          assert a'[..k - 1] == a[..k][1..] && b'[..k - 1] == b[..k][1..];
          assert a'[k - 1] == a[k] && b'[k - 1] == b[k];
        }
      }
    }
  }

  lemma {:induction false} CompareTransitive(a: string, b: string, c: string)
    requires CompareStrings(a, b) == Less && CompareStrings(b, c) == Less
    ensures CompareStrings(a, c) == Less
  {
    if |a| > 0 && |b| > 0 && |c| > 0 && a[0] == b[0] && b[0] == c[0] {
      CompareTransitive(a[1..], b[1..], c[1..]);
    }
  }

  // ---------------------------------------------------------------------------
  // Station identifiers

  /** `StationId(String)`: an opaque identifier; leading zeros and letters are significant. */
  datatype StationId = StationId(value: string)

  /** `impl From<String> for StationId`. */
  function StationIdFrom(s: string): (id: StationId)
    ensures StationIdDisplay(id) == s
  {
    StationId(s)
  }

  /** `impl FromStr for StationId`: never fails. */
  function StationIdFromStr(s: string): (r: Result<StationId, ()>)
    ensures r.Ok?
    ensures StationIdDisplay(r.value) == s
  {
    Ok(StationId(s))
  }

  /** `impl Display for StationId`: the wrapped string. */
  function StationIdDisplay(id: StationId): string
  {
    id.value
  }

  /** Printing a station id and parsing it back gives the same id. */
  lemma StationIdRoundTrip(id: StationId)
    ensures StationIdFromStr(StationIdDisplay(id)) == Ok(id)
  {
  }

  /** Distinct strings give distinct ids: "0102" and "102" are different stations. */
  lemma StationIdInjective(s: string, t: string)
    requires s != t
    ensures StationIdFromStr(s) != StationIdFromStr(t)
  {
    assert StationIdDisplay(StationIdFromStr(s).value) != StationIdDisplay(StationIdFromStr(t).value);
  }

  // ---------------------------------------------------------------------------
  // Countries

  datatype Country = ChannelIslands | England | Ireland | IsleOfMan | NorthernIreland | Scotland | Wales

  /** `impl Display for Country`. */
  function CountryDisplay(c: Country): string
  {
    match c
    case ChannelIslands => "Channel Islands"
    case England => "England"
    case Ireland => "Ireland"
    case IsleOfMan => "Isle of Man"
    case NorthernIreland => "Northern Ireland"
    case Scotland => "Scotland"
    case Wales => "Wales"
  }

  /**
    `impl FromStr for Country`: exactly the seven display names are accepted;
    anything else is an error naming the rejected text.
   */
  function CountryFromStr(s: string): (r: Result<Country, string>)
    ensures r.Ok? ==> CountryDisplay(r.value) == s
    ensures r.Err? ==> forall c: Country :: CountryDisplay(c) != s
    ensures r.Err? ==> r.error == "Unexpected country name \"" + s + "\""
  {
    match s
    case "Channel Islands" => Ok(ChannelIslands)
    case "England" => Ok(England)
    case "Ireland" => Ok(Ireland)
    case "Isle of Man" => Ok(IsleOfMan)
    case "Northern Ireland" => Ok(NorthernIreland)
    case "Scotland" => Ok(Scotland)
    case "Wales" => Ok(Wales)
    case _ => Err("Unexpected country name \"" + s + "\"")
  }

  /** Printing a country and parsing it back gives the same country. */
  lemma CountryRoundTrip(c: Country)
    ensures CountryFromStr(CountryDisplay(c)) == Ok(c)
  {
  }

  /** Different countries print differently. */
  lemma CountryDisplayInjective(c: Country, d: Country)
    requires CountryDisplay(c) == CountryDisplay(d)
    ensures c == d
  {
    CountryRoundTrip(c);
    CountryRoundTrip(d);
  }

  /** A county is not a country. */
  lemma CornwallRejected()
    ensures CountryFromStr("Cornwall").Err?
  {
  }

  // ---------------------------------------------------------------------------
  // Stations

  /** `Coordinates` of types.rs: longitude first, as on the wire. */
  datatype Coordinates = Coordinates(longitude: real, latitude: real)

  datatype Station = Station(
    id: StationId,
    name: string,
    country: Country,
    location: Coordinates,
    continuousHeightsAvailable: bool)

  /** `impl PartialEq for Station`. */
  predicate StationEq(a: Station, b: Station)
  {
    a.id == b.id
  }

  /** `impl Ord for Station`. */
  function StationCmp(a: Station, b: Station): Ordering
  {
    CompareStrings(a.id.value, b.id.value)
  }

  /** Stations are equal exactly when their ids are, whatever their name, country, location or flag. */
  lemma StationEqIgnoresDetails(a: Station, b: Station)
    ensures StationEq(a, b) <==> a.id == b.id
  {
  }

  /** `cmp` says `Equal` exactly when `eq` says equal. */
  lemma StationCmpMatchesEq(a: Station, b: Station)
    ensures StationCmp(a, b) == Equal <==> StationEq(a, b)
  {
    CompareEqual(a.id.value, b.id.value);
  }

  /** `cmp` puts `a` first exactly when `a`'s id is lexicographically smaller. */
  lemma StationCmpIsIdOrder(a: Station, b: Station)
    ensures StationCmp(a, b) == Less <==> LexLess(a.id.value, b.id.value)
  {
    CompareLess(a.id.value, b.id.value);
  }

  /** `cmp` is a total order on stations, up to `eq`. */
  lemma StationCmpTotalOrder(a: Station, b: Station, c: Station)
    ensures StationCmp(b, a) == Reverse(StationCmp(a, b))
    ensures StationCmp(a, b) == Less && StationCmp(b, c) == Less ==> StationCmp(a, c) == Less
    ensures StationCmp(a, b) == Equal && StationCmp(b, c) == Equal ==> StationCmp(a, c) == Equal
  {
    CompareAntisymmetric(a.id.value, b.id.value);
    if StationCmp(a, b) == Less && StationCmp(b, c) == Less {
      CompareTransitive(a.id.value, b.id.value, c.id.value);
    }
    CompareEqual(a.id.value, b.id.value);
    CompareEqual(b.id.value, c.id.value);
    CompareEqual(a.id.value, c.id.value);
  }

  // ---------------------------------------------------------------------------
  // Tides

  datatype TidalEventType = HighWater | LowWater

  /** `impl Display for TidalEventType`. */
  function TidalEventTypeDisplay(t: TidalEventType): string
  {
    match t
    case HighWater => "High tide"
    case LowWater => "Low tide"
  }

  /** The two event types print differently. */
  lemma TidalEventTypeDisplayInjective(s: TidalEventType, t: TidalEventType)
    ensures TidalEventTypeDisplay(s) == TidalEventTypeDisplay(t) <==> s == t
  {
    assert "High tide"[0] != "Low tide"[0];
  }

  datatype LunarPhaseType = NewMoon | FirstQuarter | FullMoon | LastQuarter

  /** The `#[repr(u8)]` discriminant of a lunar phase: 1 to 4, in phase order. */
  function Discriminant(p: LunarPhaseType): (n: int)
    ensures 1 <= n <= 4
  {
    match p
    case NewMoon => 1
    case FirstQuarter => 2
    case FullMoon => 3
    case LastQuarter => 4
  }

  /** The discriminants are distinct and follow the lunar cycle. */
  lemma DiscriminantOrder(p: LunarPhaseType, q: LunarPhaseType)
    ensures Discriminant(p) == Discriminant(q) <==> p == q
    ensures Discriminant(NewMoon) < Discriminant(FirstQuarter) < Discriminant(FullMoon) < Discriminant(LastQuarter)
  {
  }

  /** `TidalEvent` of types.rs; the instant stands for its `jiff::Zoned` datetime. */
  datatype TidalEvent = TidalEvent(
    dateTime: Civil.Instant,
    eventType: TidalEventType,
    height: real,
    isApproximateHeight: Option<string>,
    isApproximateTime: Option<string>)

  /** `impl PartialEq for TidalEvent`. */
  predicate TidalEventEq(a: TidalEvent, b: TidalEvent)
  {
    a.dateTime == b.dateTime
  }

  /** `impl Ord for TidalEvent`. */
  function TidalEventCmp(a: TidalEvent, b: TidalEvent): Ordering
  {
    if a.dateTime < b.dateTime then Less
    else if a.dateTime == b.dateTime then Equal
    else Greater
  }

  /** Events at the same instant are equal, and compare `Equal`, whatever their height and type. */
  lemma TidalEventEqIgnoresDetails(a: TidalEvent, b: TidalEvent)
    ensures a.dateTime == b.dateTime ==> TidalEventEq(a, b) && TidalEventCmp(a, b) == Equal
  {
  }

  /** `cmp` is the order of instants, consistent with `eq`, and a total order. */
  lemma TidalEventCmpTotalOrder(a: TidalEvent, b: TidalEvent, c: TidalEvent)
    ensures TidalEventCmp(a, b) == Equal <==> TidalEventEq(a, b)
    ensures TidalEventCmp(a, b) == Less <==> a.dateTime < b.dateTime
    ensures TidalEventCmp(b, a) == Reverse(TidalEventCmp(a, b))
    ensures TidalEventCmp(a, b) == Less && TidalEventCmp(b, c) == Less ==> TidalEventCmp(a, c) == Less
  {
  }
}
