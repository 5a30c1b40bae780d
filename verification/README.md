# uktides decoding core, in Dafny

This project models the decoding core of `rjw-uktides`, a Rust crate that reads
UK Hydrographic Office (Admiralty) tide data. The service sends two JSON
documents:

- a tide-prediction document with a footer note, lunar phases, high/low-water
  events and half-hourly height samples;
- a GeoJSON-like station document, where each feature wraps a station's id,
  name, country, coordinates and a flag.

The crate decodes both with serde derives plus a few hand-written helpers. The
model reproduces those helpers:

- the timezone-less datetime that is cut at a '.' before being read with
  `%Y-%m-%dT%H:%M:%S`;
- the flattening of station features into `Station` records;
- the integer-coded enums;
- the positional coordinate pair.

It also models the value types of `src/types.rs`: station ids, countries,
stations ordered by id, and tidal events ordered by instant.

Modules:

- `Results`: `Option` and `Result`.
- `Wire`: an already-parsed JSON value, and the rules serde's derived
  `Deserialize` applies to it through serde_json:
  - a required field must occur exactly once;
  - an `Option` field may be missing or `null`;
  - unknown keys are ignored;
  - `String`, `bool`, `f64` and `u8` each accept only the JSON values they
    accept in serde_json;
  - a `Vec` decodes element by element, all or nothing, and reports the first
    failing element's error.
- `Civil`: a fixed-width abstraction of chrono's `%Y-%m-%dT%H:%M:%S` parse,
  accepting a subset of what chrono accepts: 19 characters, with real calendar
  and clock ranges. It maps a datetime to Unix seconds in UTC and proves that
  map injective and monotonic.
- `Types`: `src/types.rs`.
- `Parse`: `src/parse.rs`.
- `Lib`: the older `src/lib.rs`. Its station, coordinate and enum code is the
  same code as in `src/parse.rs` up to names and visibility (for example
  `deser_stations` and a public `StationsData` at src/lib.rs:119 and
  src/lib.rs:93, against `deserialize_stations` and a private `StationsData`
  at src/parse.rs:112 and src/parse.rs:245), so `Lib` reuses the `Parse`
  decoders for those. It differs in three places:
  - it cuts datetimes at the first '.';
  - it keeps the lunar-phase datetime as an unchecked string;
  - it names the prediction document `PredictionData`.

Two places need care when the two versions of the crate are compared:

- **Which '.' the datetime is cut at.** `src/parse.rs:95` cuts at the last
  '.' with `rfind`; `src/lib.rs:33`, in the older version of the crate, cuts
  at the first with `find`. The two agree on the service's real inputs
  (`...:18` or `...:18.5`), but they disagree on text with two dots
  (`Lib.VersionsDisagree`). Cutting at the last dot is not idempotent
  (`Parse.TruncationNotIdempotent`); cutting at the first is
  (`Lib.TruncateIdempotent`).
- **Countries.** Both station decoders keep `country: String`
  (`src/parse.rs:274`, `src/lib.rs:106`) and accept any text. Only
  `Country::from_str` (`src/types.rs:87-102`) rejects an unknown country such
  as "Cornwall".

`src/types.rs` refers to `crate::parse::datetime_without_tz` and
`crate::parse::zulu_datetime_to_zoned`, which are not in this `src/parse.rs`.
The `src/types.rs` tidal event is therefore modelled for its equality and
ordering only. Its decoding is not part of this model.

## Model

| member | source | states |
|---|---|---|
| Wire.Required | src/parse.rs:130-148 | A derived struct field decodes only when its key occurs exactly once in the object, and then its value is what the field's decoder makes of that one value; missing and duplicate keys are errors |
| Wire.Optional | src/parse.rs:170-174 | An `Option<String>` field is `None` when the key is missing or `null`, an error when duplicated, and otherwise `Some` of the decoded value exactly when that value decodes |
| Wire.AsU8 | src/parse.rs:185-190 | A `#[repr(u8)]` code is read only from a JSON integer in 0..=255, and the result is that integer |
| Wire.AsF64 | src/parse.rs:177-179 | A `Metres`/`f64` accepts exactly the JSON numbers, integer or not, with their value |
| Wire.DecodeVec | src/parse.rs:116 | A `Vec` decodes exactly when the value is an array whose every element decodes; the result has the array's length and its i-th entry is the i-th element's decoding |
| Wire.DecodeAll | src/parse.rs:116 | On failure the error is that of the first element that fails, all earlier elements having decoded |
| Civil.ParseFields | src/parse.rs:92-97 | The `%Y-%m-%dT%H:%M:%S` parse succeeds exactly on the 19-character strings whose six numeric fields name a real date and time, and the accepted text is the canonical text of the result |
| Civil.ParseFormat | src/parse.rs:92-97 | Every valid datetime's canonical text parses back to it |
| Civil.ParseUtcFormat | src/parse.rs:97 | The canonical text of a valid datetime is read as that datetime's UTC instant |
| Civil.ParseUtcInjective | src/parse.rs:97 | Two accepted strings give the same instant exactly when they are the same string |
| Civil.InstantMonotonic | src/parse.rs:97 | A datetime earlier in calendar order gets a strictly smaller instant |
| Civil.InstantInjective | src/parse.rs:97 | Distinct valid datetimes get distinct instants |
| Civil.MatchedHasNoDot | src/parse.rs:92-97 | No text accepted by the format holds a '.', so cutting it at a dot leaves it whole |
| Parse.RFind | src/parse.rs:94-96 | `rfind` gives nothing exactly when the character is absent, and otherwise a position holding it with no occurrence after it |
| Parse.TruncateAtLastDot | src/parse.rs:94-96 | The cut text is a prefix of the input: all of it when there is no '.', otherwise the text before a '.' that has no '.' after it |
| Parse.DatetimeWithoutTz | src/parse.rs:88-99 | The helper succeeds exactly on a JSON string whose text before its last '.' is in the format, giving the UTC instant of those fields; any other JSON value or text is an error |
| Parse.TruncateAfterLastDot | src/parse.rs:94-96 | For any prefix and a dot-free suffix, cutting `p.q` gives `p` |
| Parse.FractionIgnored | src/parse.rs:76-99 | A fractional-second suffix such as `.5` never changes the decoded instant or whether decoding succeeds |
| Parse.DatetimeRoundTrip | src/parse.rs:88-99 | The canonical text of any valid datetime, bare or followed by a dot-free fraction, decodes to that datetime's instant |
| Parse.TruncationNotIdempotent | src/parse.rs:94-96 | With two dots the cut keeps the middle part, so cutting twice removes more than cutting once |
| Parse.SameInstantIffSamePrefix | src/parse.rs:94-97 | Two datetime strings whose cut prefixes are in the format decode to the same instant exactly when their cut prefixes are equal |
| Parse.DecodeTidalEventType | src/parse.rs:182-190 | A tidal event type decodes exactly from the JSON integers 0 and 1, and the integer is the variant's code (high water 0, low water 1) |
| Parse.TidalEventTypeCodeRoundTrip | src/parse.rs:185-190 | Each variant's code decodes back to that variant |
| Parse.DecodeLunarPhaseType | src/parse.rs:219-234 | A lunar phase type decodes exactly from the JSON integers 1 to 4, and the integer is the variant's discriminant |
| Parse.LunarPhaseTypeCodeRoundTrip | src/parse.rs:227-234 | Each phase's discriminant decodes back to that phase |
| Parse.DecodeCoordinates | src/parse.rs:286-293 | An array decodes exactly when it has two numbers, the first being the longitude and the second the latitude; an object needs `lon` and `lat`; anything else is an error |
| Parse.CoordinatesPositional | src/parse.rs:288-292 | Swapping the two array elements swaps longitude and latitude |
| Parse.DecodeGeometry | src/parse.rs:308-314 | A geometry decodes exactly when it has a string `type` and decodable `coordinates`, and yields those coordinates |
| Parse.DecodeProperties | src/parse.rs:316-324 | Properties decode exactly when `Id`, `Name` and `Country` are strings and `ContinuousHeightsAvailable` is a boolean, each present once; the decoded strings are the JSON strings verbatim |
| Parse.DecodeFeature | src/parse.rs:295-306 | A feature decodes exactly when its string `type`, its geometry and its properties decode, and yields the decoded geometry and properties |
| Parse.DeserializeStations | src/parse.rs:112-128 | The station list is produced exactly when every feature decodes; it has one station per feature, in order, each made from that feature's properties and coordinates |
| Parse.StationsFromReader | src/parse.rs:71-74 | The station document decodes exactly when its `features` member occurs once and its list decodes, and the result is that list |
| Parse.StationsFromWire | src/parse.rs:112-128 | The i-th station's id, name, country and flag are the i-th feature's property values verbatim, and its location is the decoding of that feature's `coordinates` |
| Parse.OneBadFeatureFailsAll | src/parse.rs:112-116 | One undecodable feature makes the whole document an error, with no partial list |
| Parse.CollectionTypeIgnored | src/parse.rs:244-252 | The document's top-level `type` member, whatever its value and whether present or not, never changes the result |
| Parse.FeatureTypeIgnored | src/parse.rs:298-301 | Which string a feature's `type` holds never changes whether it decodes or the station it yields |
| Parse.GeometryTypeIgnored | src/parse.rs:309-313 | Which string a geometry's `type` holds never changes whether it decodes or its coordinates |
| Parse.GeometryRoundTrip | src/parse.rs:309-314 | A geometry written as `type` and `coordinates` decodes back to that type tag and location |
| Parse.PropertiesRoundTrip | src/parse.rs:316-324 | Properties written under the PascalCase keys decode back to the same four values |
| Parse.StationRoundTrip | src/parse.rs:119-125 | The wire feature of any station, with any type tags, decodes and flattens back to that station |
| Parse.FeaturesRoundTrip | src/parse.rs:112-128 | The wire features of any list of stations decode back to that list, in order |
| Parse.StationsRoundTrip | src/parse.rs:71-74 | The station document of any list of stations decodes back to that very list, in order, whatever the three type tags hold |
| Parse.TestStationsExample | tests/parse.rs:32-72 | The test stations "0102" RAMSGATE and "0297A" Gills Bay decode with the leading zero and the letter suffix of their ids kept, and with the first coordinate as the longitude |
| Parse.DecodeTidalEventWith | src/parse.rs:150-175 | A tidal event decodes exactly when `date`, `dateTime`, `eventType` and `height` each occur once and decode and the two optional flags decode; the values come from those members, and each flag is `None` when its key is missing or `null` and otherwise `Some` of its string |
| Parse.DecodeTidalEvent | src/parse.rs:150-175 | A decoded tidal event's `date` and `dateTime` are what the last-dot datetime helper reads from the single `date` and `dateTime` members |
| Parse.TidalEventRoundTrip | src/parse.rs:150-175 | An event as the service sends it, with `null` flags, decodes to its two instants, its type and its height |
| Parse.EventNeedsBothDatetimes | src/parse.rs:157-162 | A tidal event whose `date` or `dateTime` does not parse is an error |
| Parse.DecodeZuluDatetime | src/parse.rs:197 | A height sample's datetime is a JSON string that the RFC 3339 reader accepts, and the result is that reader's instant |
| Parse.DecodeTidalHeightOccurence | src/parse.rs:192-200 | A height sample decodes exactly when its `dateTime` is accepted and its `height` is a number, and it carries those two values |
| Parse.HeightRoundTrip | src/parse.rs:192-200 | A height sample with accepted text decodes to that text's instant and its height |
| Parse.DecodeLunarPhase | src/parse.rs:202-212 | A lunar phase decodes exactly when its `dateTime` decodes as a timezone-less datetime and its `lunarPhaseType` is a code 1 to 4 |
| Parse.LunarPhaseRoundTrip | src/parse.rs:202-212 | A lunar phase as the service sends it decodes to its instant and phase |
| Parse.TidesFromReader | src/parse.rs:35-38 | The prediction document decodes exactly when its footer note is a string and its three lists each occur once and decode; the result holds exactly those decoded values |
| Parse.BadEventFailsDocument | src/parse.rs:130-148 | One undecodable tidal event makes the whole prediction document an error |
| Parse.EmptyHeightsAccepted | src/parse.rs:130-148 | A document with empty lists decodes to empty lists, not to an error |
| Types.StationIdFromStr | src/types.rs:62-68 | Parsing a station id never fails, and the id prints as exactly the parsed text |
| Types.StationIdFrom | src/types.rs:56-60 | An id made from a string prints as that string |
| Types.StationIdRoundTrip | src/types.rs:62-74 | Printing an id and parsing it back gives the same id |
| Types.StationIdInjective | src/types.rs:53-68 | Distinct strings give distinct ids, so "0102" and "102" are different stations |
| Types.CountryFromStr | src/types.rs:87-102 | A successful parse yields a country that prints as the input; a failed parse means no country prints as the input, and the error names the text |
| Types.CountryRoundTrip | src/types.rs:87-117 | Every country's printed name parses back to that country |
| Types.CountryDisplayInjective | src/types.rs:104-117 | Different countries print differently |
| Types.CornwallRejected | src/types.rs:91-100 | "Cornwall" is not a country |
| Types.CompareEqual | src/types.rs:53 | The derived `Ord` on ids answers `Equal` exactly on equal strings |
| Types.CompareLess | src/types.rs:53 | The derived `Ord` on ids answers `Less` exactly when the first is a proper prefix of the second or is smaller at the first difference |
| Types.CompareAntisymmetric | src/types.rs:53 | Swapping the operands reverses the answer |
| Types.CompareTransitive | src/types.rs:53 | `Less` is transitive |
| Types.StationEqIgnoresDetails | src/types.rs:139-143 | Stations are equal exactly when their ids are equal, whatever their name, country, location or flag |
| Types.StationCmpMatchesEq | src/types.rs:139-151 | `cmp` answers `Equal` exactly when `eq` holds |
| Types.StationCmpIsIdOrder | src/types.rs:147-151 | `cmp` puts a station first exactly when its id is lexicographically smaller |
| Types.StationCmpTotalOrder | src/types.rs:147-157 | Station `cmp` is antisymmetric and transitive for both `Less` and `Equal` |
| Types.TidalEventTypeDisplayInjective | src/types.rs:261-269 | "High tide" and "Low tide" are distinct, so the two types print differently |
| Types.Discriminant | src/types.rs:294-304 | Each lunar phase's discriminant lies in 1..=4 |
| Types.DiscriminantOrder | src/types.rs:299-304 | The discriminants are distinct and follow the lunar cycle from new moon to last quarter |
| Types.TidalEventEqIgnoresDetails | src/types.rs:228-232 | Events at the same instant are equal, and compare `Equal`, whatever their height, type and flags |
| Types.TidalEventCmpTotalOrder | src/types.rs:228-246 | Event `cmp` is the order of instants: `Equal` exactly when `eq` holds, `Less` exactly when earlier, antisymmetric and transitive |
| Lib.Find | src/lib.rs:33 | `find` gives nothing exactly when the character is absent, and otherwise its first position |
| Lib.TruncateAtFirstDot | src/lib.rs:33 | The cut text is a dot-free prefix of the input, followed in the input by a '.' whenever it is shorter |
| Lib.DatetimeWithoutTz | src/lib.rs:27-36 | The helper succeeds exactly on a JSON string whose text before its first '.' is in the format, giving the UTC instant of those fields |
| Lib.TruncateAfterFirstDot | src/lib.rs:33 | For a dot-free prefix and any rest, cutting `p.rest` gives `p` |
| Lib.TruncateIdempotent | src/lib.rs:33 | Cutting at the first '.' a second time changes nothing |
| Lib.FractionIgnored | src/lib.rs:27-36 | Anything after the first '.' never changes the decoded instant or whether decoding succeeds |
| Lib.DatetimeRoundTrip | src/lib.rs:27-36 | The canonical text of any valid datetime, bare or followed by '.' and anything, decodes to its instant |
| Lib.VersionsDisagree | src/lib.rs:33 | For any accepted datetime `d`, `d.5.5` decodes under the first-dot cut but is an error under the last-dot cut of src/parse.rs |
| Lib.DecodeLunarPhase | src/lib.rs:72-77 | A lunar phase decodes exactly when `dateTime` is a string and `lunarPhaseType` a code 1 to 4; the datetime is kept as the JSON string |
| Lib.LunarDateTimeUnchecked | src/lib.rs:72-77 | Any string at all is accepted as a lunar phase datetime |
| Lib.PredictionsFromJson | src/lib.rs:8-25 | The prediction document decodes exactly when its footer note is a string and its three lists each occur once and decode; the result holds exactly those decoded values |
| Lib.StationsFromJson | src/lib.rs:13-16 | The station document decodes exactly when `features` occurs once and decodes; the i-th station is the flattening of the i-th feature |
| Lib.DecodeTidalEvent | src/lib.rs:38-51 | A decoded tidal event's `date` and `dateTime` are what the first-dot datetime helper reads from the single `date` and `dateTime` members |
| Lib.EventNeedsBothDatetimes | src/lib.rs:38-51 | An event whose `date` or `dateTime` does not parse fails its own decoding and the whole prediction document |

## Left out

- Reading bytes from a reader or `&str` and parsing JSON text are not modelled. Decoders start from an already-parsed JSON value. Malformed JSON text is a serde_json syntax error, and it is left out together with tokenising.
- The `Europe/London` timezone conversion is not modelled. Instants are UTC Unix seconds, and the `jiff::Zoned` values of `src/types.rs` stand as those instants. Timezone databases are foreign code.
- `TidalEvent::date` (src/types.rs:222-226) is not modelled, because it needs the timezone conversion above.
- Reading the RFC 3339 datetime of a height sample (`DateTime<Utc>` via chrono's `FromStr`) is not modelled. It is a function parameter `rfc3339` of the decoders.
- chrono's leniencies are not modelled:
  - `%Y` with an explicit sign and any number of digits (`+10000-01-01T00:00:00`, `-0001-01-01T00:00:00`);
  - whitespace skipped before each numeric field (`2025-08-17T 6:14:18`);
  - fields with fewer digits (`%m` accepting `8`);
  - a leap second `60`.

  The model accepts exactly the 19-character zero-padded form the service sends. Trailing text, trailing whitespace included, is rejected by chrono and by the model alike.
- Error message texts follow serde's wording loosely. Only success versus failure is specified, and for countries the error names the rejected text.
- Types.CountryFromStr: the error quotes the input without Rust's `{:?}` escaping of `"`, `\` and control characters, because only names made of ordinary characters are in scope.
- `f64` is modelled as `real`. Rounding of JSON numbers to binary floating point is floating point and is not modelled.
- The `Display` impls of `DecimalDegrees` and `Coordinates` (src/types.rs:3-51) are not modelled, because they format floating-point degrees, minutes and seconds.
- Serde also accepts a struct written as a JSON array of its fields. The model implements that form only for `Coordinates`, which the service sends that way. The other records are read from JSON objects only.
- `StationDataSource`, the custom `Debug` of `TidePredictions` (src/types.rs:159-199), the HTTP fetching, the command-line program and the error types are outside the decoding core.
- The `src/types.rs` `TidePredictions`, `TidalHeightOccurence` and `LunarPhase` records are not modelled. Their decoders live in a `parse` module that is not part of this model. Their shapes match the `Parse` records, whose decoding is modelled.
- `partial_cmp` of `Station` and `TidalEvent` is not modelled separately, because it is always `Some(cmp)`.
