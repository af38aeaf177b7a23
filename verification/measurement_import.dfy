/** The bulk import of `importMeasurements`: each record of the uploaded
    array has its device id resolved from one of two legacy keys, its
    timestamp wrapped as a date, and is then inserted; the loop stops at the
    first failure and reports the error text instead of raising. File reading
    and `JSON.parse` are outside the model: the parsed array is the input. */
module MeasurementImport {
  import opened Wrappers

  /** A JSON value as it appears in a parsed record. `Structured` stands for
      any array or object; `DateOf(v)` is `new Date(v)`. An absent key plays
      the part of `undefined`. */
  datatype Value =
    | Str(s: string)
    | Num(n: real)
    | Bool(b: bool)
    | Null
    | Structured
    | DateOf(source: Value)

  /** JavaScript truthiness (NaN is not a JSON value, so a number is truthy
      exactly when it is not 0). */
  predicate Truthy(v: Value) {
    match v
    case Str(s) => |s| > 0
    case Num(n) => n != 0.0
    case Bool(b) => b
    case Null => false
    case Structured => true
    case DateOf(_) => true
  }

  type Fields = map<string, Value>

  /** An element of the uploaded array: `null` or an object. */
  datatype Entry = NullEntry | Record(fields: Fields)

  const DeviceIdAlias: string := "id-dispositivo"
  const UidAlias: string := "uid"
  const DeviceIdKey: string := "deviceId"
  const TimestampKey: string := "timestamp"
  const SuccessMessage: string := "Measurements imported successfully"
  /** The TypeError text of `measurement.timestamp` on a null element. */
  const NullEntryMessage: string := "Cannot read properties of null (reading 'timestamp')"

  /** lodash `get(record, key, fallback)`: the value under `key` when the key
      is present (even when that value is null or empty), else `fallback`. */
  function Get(f: Fields, key: string, fallback: Option<Value>): Option<Value> {
    if key in f then Some(f[key]) else fallback
  }

  /** The id `get(m, 'id-dispositivo', get(m, 'uid'))` yields. */
  function ResolveDeviceId(f: Fields): Option<Value> {
    Get(f, DeviceIdAlias, Get(f, UidAlias, None))
  }

  /** The id comes from a truthy `id-dispositivo`. */
  predicate IdFromAlias(f: Fields) {
    DeviceIdAlias in f && Truthy(f[DeviceIdAlias])
  }

  /** There is no `id-dispositivo` at all, and the id comes from a truthy `uid`. */
  predicate IdFromUid(f: Fields) {
    DeviceIdAlias !in f && UidAlias in f && Truthy(f[UidAlias])
  }

  /** Key resolution: when the resolved id is truthy it is stored under
      `deviceId` and the alias it came from is omitted; otherwise the record
      is left as it was. */
  function NormaliseKeys(f: Fields): (r: Fields)
    ensures IdFromAlias(f) ==> r == (f - {DeviceIdAlias})[DeviceIdKey := f[DeviceIdAlias]]
    ensures IdFromUid(f) ==> r == (f - {UidAlias})[DeviceIdKey := f[UidAlias]]
    ensures !IdFromAlias(f) && !IdFromUid(f) ==> r == f
    ensures forall k | k in f && k != DeviceIdAlias && k != UidAlias && k != DeviceIdKey ::
              k in r && r[k] == f[k]
    ensures forall k | k in r && k != DeviceIdKey :: k in f
  {
    var id := ResolveDeviceId(f);
    if id.Some? && Truthy(id.value) then
      var g := f[DeviceIdKey := id.value];
      if DeviceIdAlias in g && Truthy(g[DeviceIdAlias]) then g - {DeviceIdAlias} else g - {UidAlias}
    else f
  }

  /** `if (measurement.timestamp) measurement.timestamp = new Date(...)`. */
  function ConvertTimestamp(f: Fields): (r: Fields)
    ensures r.Keys == f.Keys
    ensures forall k | k in f && k != TimestampKey :: r[k] == f[k]
    ensures TimestampKey in f ==>
              r[TimestampKey] == if Truthy(f[TimestampKey]) then DateOf(f[TimestampKey]) else f[TimestampKey]
  {
    if TimestampKey in f && Truthy(f[TimestampKey]) then f[TimestampKey := DateOf(f[TimestampKey])] else f
  }

  /** The data handed to the insert for one array element, or the error the
      element raises before any insert. */
  function Prepare(e: Entry): (r: Result<Fields, string>)
    ensures e.NullEntry? <==> r.Failure?
    ensures r.Failure? ==> r.error == NullEntryMessage
  {
    match e
    case NullEntry => Failure(NullEntryMessage)
    case Record(f) => Success(ConvertTimestamp(NormaliseKeys(f)))
  }

  /** `importMeasurements`' loop over the parsed array. `create(stored, data)`
      is the store's insert: None when it accepts `data` given the records
      stored so far, Some(error text) when it rejects it. The store keeps
      every record inserted before a failure (no rollback). */
  method ImportMeasurements(store: seq<Fields>, entries: seq<Entry>,
                            create: (seq<Fields>, Fields) -> Option<string>)
    returns (stored: seq<Fields>, message: string)
    ensures |store| <= |stored| && stored[..|store|] == store
    ensures var added := stored[|store|..];
            && |added| <= |entries|
            && (forall i | 0 <= i < |added| ::
                  && Prepare(entries[i]) == Success(added[i])
                  && create(store + added[..i], added[i]).None?)
            && (|added| == |entries| ==> message == SuccessMessage)
            && (|added| < |entries| ==>
                  match Prepare(entries[|added|])
                  case Failure(error) => message == error
                  case Success(data) => create(stored, data) == Some(message))
  {
    var added: seq<Fields> := [];
    var i := 0;
    while i < |entries|
      invariant 0 <= i <= |entries|
      invariant |added| == i
      invariant forall j | 0 <= j < i ::
                  && Prepare(entries[j]) == Success(added[j])
                  && create(store + added[..j], added[j]).None?
    {
      match Prepare(entries[i])
      case Failure(error) =>
        stored, message := store + added, error;
        assert stored[|store|..] == added;
        return;
      case Success(data) =>
        var outcome := create(store + added, data);
        if outcome.Some? {
          stored, message := store + added, outcome.value;
          assert stored[|store|..] == added;
          return;
        }
        var before := added;
        added := added + [data];
        assert added[..i] == before;
        forall j | 0 <= j < i
          ensures added[..j] == before[..j] && added[j] == before[j]
        {
        }
      i := i + 1;
    }
    stored, message := store + added, SuccessMessage;
    assert stored[|store|..] == added;
  }

  /** An `id-dispositivo` key that is present but falsy (null, "", 0, false)
      shadows `uid`: lodash `get` only falls back on an absent key, so no
      `deviceId` is set and both keys stay. */
  lemma FalsyAliasShadowsUid(f: Fields)
    requires DeviceIdAlias in f && !Truthy(f[DeviceIdAlias])
    ensures NormaliseKeys(f) == f
    ensures ResolveDeviceId(f) == Some(f[DeviceIdAlias])
  {
  }

  /** The two records of the import fixture: `id-dispositivo` and `uid` each
      become `deviceId`, the alias is dropped, each timestamp becomes a date. */
  lemma ImportFixture()
    ensures Prepare(Record(map[DeviceIdAlias := Str("device1"), "activeEnergy" := Num(100.0),
                               TimestampKey := Str("2020-01-01T00:00:00Z")]))
         == Success(map[DeviceIdKey := Str("device1"), "activeEnergy" := Num(100.0),
                        TimestampKey := DateOf(Str("2020-01-01T00:00:00Z"))])
    ensures Prepare(Record(map[UidAlias := Str("device2"), "activeEnergy" := Num(200.0),
                               TimestampKey := Str("2020-01-02T00:00:00Z")]))
         == Success(map[DeviceIdKey := Str("device2"), "activeEnergy" := Num(200.0),
                        TimestampKey := DateOf(Str("2020-01-02T00:00:00Z"))])
  {
    FixtureRecord(DeviceIdAlias, "device1", 100.0, "2020-01-01T00:00:00Z");
    FixtureRecord(UidAlias, "device2", 200.0, "2020-01-02T00:00:00Z");
  }

  /** A fixture-shaped record under either alias, for any non-empty id and
      timestamp text and any energy. */
  lemma FixtureRecord(alias: string, id: string, energy: real, ts: string)
    requires alias == DeviceIdAlias || alias == UidAlias
    requires id != "" && ts != ""
    ensures Prepare(Record(map[alias := Str(id), "activeEnergy" := Num(energy), TimestampKey := Str(ts)]))
         == Success(map[DeviceIdKey := Str(id), "activeEnergy" := Num(energy),
                        TimestampKey := DateOf(Str(ts))])
  {
    var f := map[alias := Str(id), "activeEnergy" := Num(energy), TimestampKey := Str(ts)];
    var g := map[DeviceIdKey := Str(id), "activeEnergy" := Num(energy), TimestampKey := Str(ts)];
    if alias == DeviceIdAlias {
      assert IdFromAlias(f);
    } else {
      assert IdFromUid(f);
    }
    assert NormaliseKeys(f) == g by {
      assert (f - {alias})[DeviceIdKey := Str(id)] == g;
    }
    assert ConvertTimestamp(g) == g[TimestampKey := DateOf(Str(ts))]
        == map[DeviceIdKey := Str(id), "activeEnergy" := Num(energy), TimestampKey := DateOf(Str(ts))];
    assert Prepare(Record(f)) == Success(ConvertTimestamp(g));
  }
}
