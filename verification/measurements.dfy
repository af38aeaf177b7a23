/** The measurement aggregation front-end: the resolution switch of
    `getMeasurementsByDevice` and the post-processing of the daily and hourly
    grouped queries. `toISOString` is the parameter `toIso`; the grouped
    queries are the reference `BucketQuery.GroupedSums`. */
module MeasurementsService {
  import BucketQuery
  import IsoText

  /** The resolution selector. Values outside DAY/HOUR/RAW reach the service
      unchecked from the query string; `Unrecognised(name)` stands only for
      such a value, a `name` equal to none of "DAY", "HOUR" and "RAW" (those
      three strings are the other constructors). */
  datatype Resolution = DAY | HOUR | RAW | Unrecognised(name: string)

  /** A daily bucket as returned to the caller (`date` is the rewritten label). */
  datatype MeasurementsByDay = MeasurementsByDay(date: string, accumulatedEnergy: real)

  /** An hourly bucket as returned to the caller (`hour` is the rewritten label). */
  datatype MeasurementsByHour = MeasurementsByHour(hour: string, accumulatedEnergy: real)

  /** The two response shapes: `{measurements: rows}` for the day and hour
      series, the bare record list for RAW. */
  datatype DeviceMeasurements =
    | ByDay(days: seq<MeasurementsByDay>)
    | ByHour(hours: seq<MeasurementsByHour>)
    | RawRecords(records: seq<BucketQuery.Measurement>)

  /** `findOneDevice`: every stored record of the device, in store order. */
  function DeviceHistory(history: seq<BucketQuery.Measurement>, deviceId: string)
    : (r: seq<BucketQuery.Measurement>)
    ensures |r| <= |history|
    ensures forall m :: m in r <==> m in history && m.deviceId == deviceId
    ensures forall m :: multiset(r)[m] == if m.deviceId == deviceId then multiset(history)[m] else 0
  {
    if |history| == 0 then []
    else
      var rest := DeviceHistory(history[1..], deviceId);
      assert history == [history[0]] + history[1..];
      assert forall m :: m in history <==> m == history[0] || m in history[1..];
      if history[0].deviceId == deviceId then [history[0]] + rest else rest
  }

  /** The `result.map` over the day rows: each row keeps its energy and order
      and gets its bucket start rewritten as a label. */
  function LabelDays(rows: seq<BucketQuery.BucketRow>, toIso: int -> string): (r: seq<MeasurementsByDay>)
    ensures |r| == |rows|
    ensures forall i | 0 <= i < |rows| ::
              && r[i].date == IsoText.BucketLabel(toIso(rows[i].bucket))
              && r[i].accumulatedEnergy == rows[i].accumulatedEnergy
  {
    if |rows| == 0 then []
    else
      [MeasurementsByDay(IsoText.BucketLabel(toIso(rows[0].bucket)), rows[0].accumulatedEnergy)]
      + LabelDays(rows[1..], toIso)
  }

  /** The same rewrite over the hour rows. */
  function LabelHours(rows: seq<BucketQuery.BucketRow>, toIso: int -> string): (r: seq<MeasurementsByHour>)
    ensures |r| == |rows|
    ensures forall i | 0 <= i < |rows| ::
              && r[i].hour == IsoText.BucketLabel(toIso(rows[i].bucket))
              && r[i].accumulatedEnergy == rows[i].accumulatedEnergy
  {
    if |rows| == 0 then []
    else
      [MeasurementsByHour(IsoText.BucketLabel(toIso(rows[0].bucket)), rows[0].accumulatedEnergy)]
      + LabelHours(rows[1..], toIso)
  }

  /** `getMeasurementsByDay`: one labelled row per UTC day of the range holding
      samples of the device, each carrying that day's summed energy. */
  function GetMeasurementsByDay(history: seq<BucketQuery.Measurement>, toIso: int -> string,
                                deviceId: string, startDate: int, endDate: int)
    : (r: DeviceMeasurements)
    ensures r.ByDay?
    ensures var rows := BucketQuery.GroupedSums(history, deviceId, startDate, endDate, BucketQuery.DayMillis);
            && |r.days| == |rows|
            && forall i | 0 <= i < |rows| ::
                 && r.days[i].date == IsoText.BucketLabel(toIso(rows[i].bucket))
                 && r.days[i].accumulatedEnergy
                    == BucketQuery.BucketTotal(history, deviceId, startDate, endDate,
                                               BucketQuery.DayMillis, rows[i].bucket)
  {
    var rows := BucketQuery.GroupedSums(history, deviceId, startDate, endDate, BucketQuery.DayMillis);
    BucketQuery.GroupedSumsMeaning(history, deviceId, startDate, endDate, BucketQuery.DayMillis);
    ByDay(LabelDays(rows, toIso))
  }

  /** `getMeasurementsByHour`: the same over UTC hours. */
  function GetMeasurementsByHour(history: seq<BucketQuery.Measurement>, toIso: int -> string,
                                 deviceId: string, startDate: int, endDate: int)
    : (r: DeviceMeasurements)
    ensures r.ByHour?
    ensures var rows := BucketQuery.GroupedSums(history, deviceId, startDate, endDate, BucketQuery.HourMillis);
            && |r.hours| == |rows|
            && forall i | 0 <= i < |rows| ::
                 && r.hours[i].hour == IsoText.BucketLabel(toIso(rows[i].bucket))
                 && r.hours[i].accumulatedEnergy
                    == BucketQuery.BucketTotal(history, deviceId, startDate, endDate,
                                               BucketQuery.HourMillis, rows[i].bucket)
  {
    var rows := BucketQuery.GroupedSums(history, deviceId, startDate, endDate, BucketQuery.HourMillis);
    BucketQuery.GroupedSumsMeaning(history, deviceId, startDate, endDate, BucketQuery.HourMillis);
    ByHour(LabelHours(rows, toIso))
  }

  /** `getMeasurementsByDevice`: the resolution switch, with DAY as default. */
  function GetMeasurementsByDevice(history: seq<BucketQuery.Measurement>, toIso: int -> string,
                                   deviceId: string, resolution: Resolution,
                                   startDate: int, endDate: int): (r: DeviceMeasurements)
    ensures resolution == HOUR ==> r == GetMeasurementsByHour(history, toIso, deviceId, startDate, endDate)
    ensures resolution != HOUR && resolution != RAW ==>
              r == GetMeasurementsByDay(history, toIso, deviceId, startDate, endDate)
    ensures resolution == RAW ==> r == RawRecords(DeviceHistory(history, deviceId))
  {
    match resolution
    case DAY => GetMeasurementsByDay(history, toIso, deviceId, startDate, endDate)
    case HOUR => GetMeasurementsByHour(history, toIso, deviceId, startDate, endDate)
    case RAW => RawRecords(DeviceHistory(history, deviceId))
    case Unrecognised(_) => GetMeasurementsByDay(history, toIso, deviceId, startDate, endDate)
  }

  /** An unrecognised resolution behaves exactly as DAY. */
  lemma UnrecognisedIsDay(history: seq<BucketQuery.Measurement>, toIso: int -> string,
                          deviceId: string, name: string, startDate: int, endDate: int)
    ensures GetMeasurementsByDevice(history, toIso, deviceId, Unrecognised(name), startDate, endDate)
         == GetMeasurementsByDevice(history, toIso, deviceId, DAY, startDate, endDate)
  {
  }

  /** RAW ignores the date range: any two ranges give the same records, even
      samples outside both ranges. */
  lemma RawIgnoresRange(history: seq<BucketQuery.Measurement>, toIso: int -> string, deviceId: string,
                        start1: int, end1: int, start2: int, end2: int)
    ensures GetMeasurementsByDevice(history, toIso, deviceId, RAW, start1, end1)
         == GetMeasurementsByDevice(history, toIso, deviceId, RAW, start2, end2)
  {
  }

  /** The day and hour series are range-bound: a sample outside the range
      never contributes, whereas RAW returns it. */
  lemma {:induction false} OutOfRangeSampleIgnored(history: seq<BucketQuery.Measurement>, deviceId: string,
                                                   startDate: int, endDate: int, width: nat,
                                                   m: BucketQuery.Measurement)
    requires width > 0
    requires m.timestamp < startDate || endDate < m.timestamp
    ensures forall b :: BucketQuery.BucketTotal(history + [m], deviceId, startDate, endDate, width, b)
                        == BucketQuery.BucketTotal(history, deviceId, startDate, endDate, width, b)
    ensures BucketQuery.GroupedSums(history + [m], deviceId, startDate, endDate, width)
         == BucketQuery.GroupedSums(history, deviceId, startDate, endDate, width)
  {
    assert (history + [m])[..|history|] == history;
  }

  /** When `toISOString` yields canonical strings for the buckets that occur
      and gives distinct such buckets distinct strings, every label is `YYYY-MM-DD HH:MM:SS.mmm` (23
      characters, no 'T', no 'Z') and no two rows of a day series share a
      label. */
  lemma DayLabelsWellFormed(history: seq<BucketQuery.Measurement>, toIso: int -> string,
                            deviceId: string, startDate: int, endDate: int)
    requires forall b | b in BucketQuery.SampleBuckets(history, deviceId, startDate, endDate, BucketQuery.DayMillis) ::
               IsoText.IsCanonicalIso(toIso(b))
    requires forall b1, b2 | b1 in BucketQuery.SampleBuckets(history, deviceId, startDate, endDate, BucketQuery.DayMillis)
                          && b2 in BucketQuery.SampleBuckets(history, deviceId, startDate, endDate, BucketQuery.DayMillis) ::
               toIso(b1) == toIso(b2) ==> b1 == b2
    ensures var r := GetMeasurementsByDay(history, toIso, deviceId, startDate, endDate);
            && (forall i | 0 <= i < |r.days| ::
                  |r.days[i].date| == 23 && 'T' !in r.days[i].date && 'Z' !in r.days[i].date)
            && (forall i, j | 0 <= i < j < |r.days| :: r.days[i].date != r.days[j].date)
  {
    var r := GetMeasurementsByDay(history, toIso, deviceId, startDate, endDate);
    var rows := BucketQuery.GroupedSums(history, deviceId, startDate, endDate, BucketQuery.DayMillis);
    forall i | 0 <= i < |r.days|
      ensures |r.days[i].date| == 23 && 'T' !in r.days[i].date && 'Z' !in r.days[i].date
    {
      assert rows[i].bucket in BucketQuery.Buckets(rows);
      IsoText.CanonicalLabel(toIso(rows[i].bucket));
    }
    forall i, j | 0 <= i < j < |r.days| ensures r.days[i].date != r.days[j].date {
      if r.days[i].date == r.days[j].date {
        assert rows[i].bucket in BucketQuery.Buckets(rows);
        assert rows[j].bucket in BucketQuery.Buckets(rows);
        IsoText.CanonicalLabelInjective(toIso(rows[i].bucket), toIso(rows[j].bucket));
        assert false;
      }
    }
  }

  /** The same for the hour series. */
  lemma HourLabelsWellFormed(history: seq<BucketQuery.Measurement>, toIso: int -> string,
                             deviceId: string, startDate: int, endDate: int)
    requires forall b | b in BucketQuery.SampleBuckets(history, deviceId, startDate, endDate, BucketQuery.HourMillis) ::
               IsoText.IsCanonicalIso(toIso(b))
    requires forall b1, b2 | b1 in BucketQuery.SampleBuckets(history, deviceId, startDate, endDate, BucketQuery.HourMillis)
                          && b2 in BucketQuery.SampleBuckets(history, deviceId, startDate, endDate, BucketQuery.HourMillis) ::
               toIso(b1) == toIso(b2) ==> b1 == b2
    ensures var r := GetMeasurementsByHour(history, toIso, deviceId, startDate, endDate);
            && (forall i | 0 <= i < |r.hours| ::
                  |r.hours[i].hour| == 23 && 'T' !in r.hours[i].hour && 'Z' !in r.hours[i].hour)
            && (forall i, j | 0 <= i < j < |r.hours| :: r.hours[i].hour != r.hours[j].hour)
  {
    var r := GetMeasurementsByHour(history, toIso, deviceId, startDate, endDate);
    var rows := BucketQuery.GroupedSums(history, deviceId, startDate, endDate, BucketQuery.HourMillis);
    forall i | 0 <= i < |r.hours|
      ensures |r.hours[i].hour| == 23 && 'T' !in r.hours[i].hour && 'Z' !in r.hours[i].hour
    {
      assert rows[i].bucket in BucketQuery.Buckets(rows);
      IsoText.CanonicalLabel(toIso(rows[i].bucket));
    }
    forall i, j | 0 <= i < j < |r.hours| ensures r.hours[i].hour != r.hours[j].hour {
      if r.hours[i].hour == r.hours[j].hour {
        assert rows[i].bucket in BucketQuery.Buckets(rows);
        assert rows[j].bucket in BucketQuery.Buckets(rows);
        IsoText.CanonicalLabelInjective(toIso(rows[i].bucket), toIso(rows[j].bucket));
        assert false;
      }
    }
  }
}
