/** The dashboard's display record for one city.

    `PrepareCityData` takes the latest stored reading of a city, if any, and returns the record the
    dashboard shows: the reading with a `timestamp` that is a point in local time and with every
    display field present, missing fields taking placeholder values. Without a reading the
    placeholders alone are shown, stamped with the current time.

    Dictionaries are maps from field names to dynamically typed values. Points in time are local
    wall-clock seconds; `datetime.fromtimestamp` adds the host's offset from UTC to epoch seconds,
    and the current time is a parameter. */
module Display {

  /** A field value as the dashboard meets it: text, a number, a point in time (a `datetime`), or
      none. */
  datatype Value = Text(s: string) | Number(x: real) | Instant(t: real) | Null

  type CityRecord = map<string, Value>

  datatype Option<T> = None | Some(value: T)

  /** The record to display, or the failure of `datetime.fromtimestamp` on a `dt` field that is not
      a number. */
  datatype Outcome = Ready(record: CityRecord) | ConversionError(dt: Value)

  /** The display fields, in the order the defaults are filled in. */
  const DefaultKeys: seq<string> := ["city", "temperature", "feels_like", "humidity", "wind_speed", "weather_condition"]

  /** The display fields as a set: the elements of `DefaultKeys` (`DisplayFieldsListed`). */
  const DisplayFields: set<string> := {"city", "temperature", "feels_like", "humidity", "wind_speed", "weather_condition"}

  /** The placeholder of a display field. */
  function DefaultValue(key: string): Value
  {
    if key == "city" then Text("Unknown")
    else if key == "weather_condition" then Text("No Data")
    else Text("N/A")
  }

  /** `datetime.fromtimestamp`: epoch seconds to local wall-clock seconds. A stored `dt` may be any
      number, so this is the real-valued form of `DataProcessing.LocalTime`. */
  function FromTimestamp(epoch: real, utcOffset: real): Value
  {
    Instant(epoch + utcOffset)
  }

  /** Python's truth value of the optional input dictionary: `None` and `{}` are false. */
  predicate IsMissing(cityData: Option<CityRecord>)
  {
    cityData.None? || cityData.value == map[]
  }

  predicate HasInstant(rec: CityRecord, key: string)
  {
    key in rec && rec[key].Instant?
  }

  /** The timestamp the record is given: its own when that is a point in time, otherwise the
      conversion of `dt`, or of the current time when `dt` is absent; `None` when `dt` is present
      but not a number. */
  function Stamp(rec: CityRecord, nowEpoch: real, utcOffset: real): Option<Value>
  {
    if HasInstant(rec, "timestamp") then Some(rec["timestamp"])
    else if "dt" !in rec then Some(FromTimestamp(nowEpoch, utcOffset))
    else if rec["dt"].Number? then Some(FromTimestamp(rec["dt"].x, utcOffset))
    else None
  }

  /** Every key of `rec` and every display field; a present key keeps its value and a missing
      display field takes its placeholder. */
  function WithDefaults(rec: CityRecord): CityRecord
  {
    map k | k in rec.Keys + DisplayFields :: if k in rec then rec[k] else DefaultValue(k)
  }

  /** The display record `PrepareCityData` returns, stated over whole maps. */
  function Prepared(cityData: Option<CityRecord>, nowEpoch: real, utcOffset: real): Outcome
  {
    if IsMissing(cityData) then
      Ready(WithDefaults(map["timestamp" := FromTimestamp(nowEpoch, utcOffset)]))
    else
      match Stamp(cityData.value, nowEpoch, utcOffset)
      case None => ConversionError(cityData.value["dt"])
      case Some(stamp) => Ready(WithDefaults(cityData.value["timestamp" := stamp]))
  }

  /** Copies the input, fixes its timestamp, then fills in the display fields one by one. */
  method PrepareCityData(cityData: Option<CityRecord>, nowEpoch: real, utcOffset: real) returns (outcome: Outcome)
    ensures outcome == Prepared(cityData, nowEpoch, utcOffset)
  {
    if cityData.None? || cityData.value == map[] {
      MissingInputShowsPlaceholders(cityData, nowEpoch, utcOffset);
      return Ready(map["city" := Text("Unknown"), "temperature" := Text("N/A"), "feels_like" := Text("N/A"),
                       "humidity" := Text("N/A"), "wind_speed" := Text("N/A"),
                       "weather_condition" := Text("No Data"),
                       "timestamp" := FromTimestamp(nowEpoch, utcOffset)]);
    }
    var cityRecord := cityData.value;
    if !(("timestamp" in cityRecord) && cityRecord["timestamp"].Instant?) {
      var dt := if "dt" in cityRecord then cityRecord["dt"] else Number(nowEpoch);
      if !dt.Number? {
        return ConversionError(dt);
      }
      cityRecord := cityRecord["timestamp" := FromTimestamp(dt.x, utcOffset)];
    }
    ghost var stamped := cityRecord;
    for i := 0 to |DefaultKeys|
      invariant forall k :: k in cityRecord <==> k in stamped || k in DefaultKeys[..i]
      invariant forall k :: k in cityRecord ==> cityRecord[k] == if k in stamped then stamped[k] else DefaultValue(k)
    {
      var key := DefaultKeys[i];
      cityRecord := cityRecord[key := if key in cityRecord then cityRecord[key] else DefaultValue(key)];
      assert DefaultKeys[..i + 1] == DefaultKeys[..i] + [key];
    }
    assert DefaultKeys[..|DefaultKeys|] == DefaultKeys;
    return Ready(cityRecord);
  }

  // ---------------------------------------------------------------------------
  // Properties of the display record
  // ---------------------------------------------------------------------------

  /** The set of display fields holds exactly the keys listed in `DefaultKeys`. */
  lemma DisplayFieldsListed()
    ensures forall k :: k in DisplayFields <==> k in DefaultKeys
  {
    assert DefaultKeys[0] == "city" && DefaultKeys[5] == "weather_condition";
    assert DefaultKeys[1] == "temperature" && DefaultKeys[2] == "feels_like";
    assert DefaultKeys[3] == "humidity" && DefaultKeys[4] == "wind_speed";
  }

  /** Without a reading the record holds exactly the display fields, each with its placeholder, and
      the current local time. */
  lemma MissingInputShowsPlaceholders(cityData: Option<CityRecord>, nowEpoch: real, utcOffset: real)
    requires IsMissing(cityData)
    ensures Prepared(cityData, nowEpoch, utcOffset).Ready?
    ensures var r := Prepared(cityData, nowEpoch, utcOffset).record;
      && r.Keys == {"city", "temperature", "feels_like", "humidity", "wind_speed", "weather_condition", "timestamp"}
      && r["city"] == Text("Unknown") && r["weather_condition"] == Text("No Data")
      && r["temperature"] == r["feels_like"] == r["humidity"] == r["wind_speed"] == Text("N/A")
      && r["timestamp"] == Instant(nowEpoch + utcOffset)
  {
    var r := Prepared(cityData, nowEpoch, utcOffset).record;
    assert DefaultKeys[0] == "city" && DefaultKeys[5] == "weather_condition";
    assert DefaultKeys[1] == "temperature" && DefaultKeys[2] == "feels_like";
    assert DefaultKeys[3] == "humidity" && DefaultKeys[4] == "wind_speed";
    assert r.Keys == {"city", "temperature", "feels_like", "humidity", "wind_speed", "weather_condition", "timestamp"};
  }

  /** The conversion fails exactly when there is a reading whose timestamp is not a point in time
      and whose `dt` is present but not a number. */
  lemma ConversionFailsIff(cityData: Option<CityRecord>, nowEpoch: real, utcOffset: real)
    ensures Prepared(cityData, nowEpoch, utcOffset).ConversionError? <==>
              && !IsMissing(cityData)
              && !HasInstant(cityData.value, "timestamp")
              && "dt" in cityData.value && !cityData.value["dt"].Number?
  {
  }

  /** A prepared record holds every display field and a timestamp that is a point in time. */
  lemma PreparedHasDisplayFields(cityData: Option<CityRecord>, nowEpoch: real, utcOffset: real)
    requires Prepared(cityData, nowEpoch, utcOffset).Ready?
    ensures var r := Prepared(cityData, nowEpoch, utcOffset).record;
      && (forall i :: 0 <= i < |DefaultKeys| ==> DefaultKeys[i] in r)
      && HasInstant(r, "timestamp")
  {
  }

  /** Fields of a reading other than its timestamp keep their values; missing display fields take
      their placeholders; no other key is added. */
  lemma PreparedKeepsReading(rec: CityRecord, nowEpoch: real, utcOffset: real)
    requires rec != map[]
    requires Prepared(Some(rec), nowEpoch, utcOffset).Ready?
    ensures var r := Prepared(Some(rec), nowEpoch, utcOffset).record;
      && (forall k :: k in rec && k != "timestamp" ==> k in r && r[k] == rec[k])
      && (forall i :: 0 <= i < |DefaultKeys| && DefaultKeys[i] !in rec ==> r[DefaultKeys[i]] == DefaultValue(DefaultKeys[i]))
      && (forall k :: k in r ==> k in rec || k == "timestamp" || k in DefaultKeys)
  {
  }

  /** The timestamp of a prepared reading: its own point in time, else the converted `dt`, else the
      current time. */
  lemma PreparedTimestamp(rec: CityRecord, nowEpoch: real, utcOffset: real)
    requires rec != map[]
    requires Prepared(Some(rec), nowEpoch, utcOffset).Ready?
    ensures var r := Prepared(Some(rec), nowEpoch, utcOffset).record;
      && (HasInstant(rec, "timestamp") ==> r["timestamp"] == rec["timestamp"])
      && (!HasInstant(rec, "timestamp") && "dt" in rec ==> r["timestamp"] == Instant(rec["dt"].x + utcOffset))
      && (!HasInstant(rec, "timestamp") && "dt" !in rec ==> r["timestamp"] == Instant(nowEpoch + utcOffset))
  {
  }

  /** Preparing a prepared record again, at any time, gives the same record. */
  lemma PreparedIsIdempotent(cityData: Option<CityRecord>, nowEpoch: real, utcOffset: real, later: real)
    requires Prepared(cityData, nowEpoch, utcOffset).Ready?
    ensures var r := Prepared(cityData, nowEpoch, utcOffset).record;
      Prepared(Some(r), later, utcOffset) == Ready(r)
  {
    var r := Prepared(cityData, nowEpoch, utcOffset).record;
    PreparedHasDisplayFields(cityData, nowEpoch, utcOffset);
    assert "timestamp" in r;
    assert r != map[];
    assert Stamp(r, later, utcOffset) == Some(r["timestamp"]);
    assert r["timestamp" := r["timestamp"]] == r;
    assert WithDefaults(r) == r;
  }
}
