/** The report analytics: the post-processing each report applies to the
    rows of its grouped query. A query result that did not arrive is `None`
    (the `if (!result) return null` guard); an empty row list is a result
    like any other, as a JavaScript empty array is truthy. */
module ReportsService {
  import opened Wrappers
  import Collections

  // ---------------------------------------------------------------------
  // Device/month index
  // ---------------------------------------------------------------------

  /** A row of the DISTINCT (deviceId, month) query; `month` is `YYYY-MM`. */
  datatype DeviceMonth = DeviceMonth(deviceId: string, month: string)

  datatype DevicesAndMonths = DevicesAndMonths(devices: seq<string>, months: seq<string>)

  /** The `deviceId` column of the rows, in row order. */
  function DeviceColumn(rows: seq<DeviceMonth>): (r: seq<string>)
    ensures |r| == |rows|
    ensures forall i | 0 <= i < |rows| :: r[i] == rows[i].deviceId
  {
    if |rows| == 0 then [] else [rows[0].deviceId] + DeviceColumn(rows[1..])
  }

  /** The `month` column of the rows, in row order. */
  function MonthColumn(rows: seq<DeviceMonth>): (r: seq<string>)
    ensures |r| == |rows|
    ensures forall i | 0 <= i < |rows| :: r[i] == rows[i].month
  {
    if |rows| == 0 then [] else [rows[0].month] + MonthColumn(rows[1..])
  }

  /** `reportGetAllDevicesAndMonths`: each column de-duplicated, keeping the
      order in which values first appear. */
  function ReportGetAllDevicesAndMonths(result: Option<seq<DeviceMonth>>): (r: Option<DevicesAndMonths>)
    ensures r.None? <==> result.None?
    ensures r.Some? ==>
              var rows := result.value;
              var devices := r.value.devices;
              && Collections.NoDuplicates(devices)
              && (forall d :: d in devices <==> exists i :: 0 <= i < |rows| && rows[i].deviceId == d)
              && (forall i, j | 0 <= i < j < |devices| ::
                    Collections.IndexOf(DeviceColumn(rows), devices[i])
                    < Collections.IndexOf(DeviceColumn(rows), devices[j]))
    ensures r.Some? ==>
              var rows := result.value;
              var months := r.value.months;
              && Collections.NoDuplicates(months)
              && (forall m :: m in months <==> exists i :: 0 <= i < |rows| && rows[i].month == m)
              && (forall i, j | 0 <= i < j < |months| ::
                    Collections.IndexOf(MonthColumn(rows), months[i])
                    < Collections.IndexOf(MonthColumn(rows), months[j]))
  {
    match result
    case None => None
    case Some(rows) =>
      var devices := Collections.Distinct(DeviceColumn(rows));
      var months := Collections.Distinct(MonthColumn(rows));
      assert forall d :: d in devices <==> d in DeviceColumn(rows);
      assert forall m :: m in months <==> m in MonthColumn(rows);
      Some(DevicesAndMonths(devices, months))
  }

  /** Rows (d1,m1), (d1,m1), (d2,m1) index as devices [d1, d2], months [m1]. */
  lemma DeviceMonthExample(d1: string, d2: string, m1: string)
    requires d1 != d2
    ensures ReportGetAllDevicesAndMonths(Some([DeviceMonth(d1, m1), DeviceMonth(d1, m1), DeviceMonth(d2, m1)]))
         == Some(DevicesAndMonths([d1, d2], [m1]))
  {
    var rows := [DeviceMonth(d1, m1), DeviceMonth(d1, m1), DeviceMonth(d2, m1)];
    assert DeviceColumn(rows) == [d1, d1, d2];
    assert MonthColumn(rows) == [m1, m1, m1];
    Collections.DistinctExample(d1, d2);
    Collections.DistinctExample(m1, m1);
  }

  // ---------------------------------------------------------------------
  // Active power
  // ---------------------------------------------------------------------

  /** A row of the hourly AVG(activePower) query as the SQL names it. AVG is
      NULL for a group without any power reading. */
  datatype ActivePowerRow = ActivePowerRow(hour: string, activePowerPerHour: Option<real>, deviceId: string)

  /** `reportActivePower`: the query rows, untouched. */
  function ReportActivePower(result: Option<seq<ActivePowerRow>>): (r: Option<seq<ActivePowerRow>>)
    ensures r.None? <==> result.None?
    ensures r.Some? ==> |r.value| == |result.value|
                        && forall i | 0 <= i < |r.value| :: r.value[i] == result.value[i]
  {
    if result.None? then None else Some(result.value)
  }

  // ---------------------------------------------------------------------
  // Consumption patterns
  // ---------------------------------------------------------------------

  /** A row of the hourly SUM(activeEnergy) query: one device, one hour. */
  datatype EnergyPerHour = EnergyPerHour(deviceId: string, hour: string, energyPerHour: real)

  /** `result.reduce((sum, item) => sum + item.energyPerHour, 0)`. */
  function TotalConsumption(rows: seq<EnergyPerHour>): real {
    if |rows| == 0 then 0.0
    else TotalConsumption(rows[..|rows| - 1]) + rows[|rows| - 1].energyPerHour
  }

  /** The total splits over any cut of the rows. */
  lemma {:induction false} TotalSplit(a: seq<EnergyPerHour>, b: seq<EnergyPerHour>)
    ensures TotalConsumption(a + b) == TotalConsumption(a) + TotalConsumption(b)
  {
    if |b| > 0 {
      assert (a + b)[..|a + b| - 1] == a + b[..|b| - 1];
      TotalSplit(a, b[..|b| - 1]);
    } else {
      assert a + b == a;
    }
  }

  /** `totalConsumption / result.length`, defined only when there are rows
      (on no rows the code divides 0 by 0). */
  function Mean(rows: seq<EnergyPerHour>): (r: Option<real>)
    ensures r.Some? <==> |rows| > 0
    ensures r.Some? ==> r.value * (|rows| as real) == TotalConsumption(rows)
  {
    if |rows| == 0 then None else Some(TotalConsumption(rows) / (|rows| as real))
  }

  /** The rows strictly above `avg`, in order. */
  function Above(rows: seq<EnergyPerHour>, avg: real): seq<EnergyPerHour> {
    if |rows| == 0 then []
    else if rows[0].energyPerHour > avg then [rows[0]] + Above(rows[1..], avg)
    else Above(rows[1..], avg)
  }

  /** The rows strictly below `avg`, in order. */
  function Below(rows: seq<EnergyPerHour>, avg: real): seq<EnergyPerHour> {
    if |rows| == 0 then []
    else if rows[0].energyPerHour < avg then [rows[0]] + Below(rows[1..], avg)
    else Below(rows[1..], avg)
  }

  /** The rows exactly at `avg`, in order. */
  function AtMean(rows: seq<EnergyPerHour>, avg: real): seq<EnergyPerHour> {
    if |rows| == 0 then []
    else if rows[0].energyPerHour == avg then [rows[0]] + AtMean(rows[1..], avg)
    else AtMean(rows[1..], avg)
  }

  /** Membership in the three filters: a row is in exactly the one its
      comparison with `avg` selects. */
  lemma {:induction false} FilterMembership(rows: seq<EnergyPerHour>, avg: real, x: EnergyPerHour)
    ensures x in Above(rows, avg) <==> x in rows && x.energyPerHour > avg
    ensures x in Below(rows, avg) <==> x in rows && x.energyPerHour < avg
    ensures x in AtMean(rows, avg) <==> x in rows && x.energyPerHour == avg
  {
    if |rows| > 0 {
      FilterMembership(rows[1..], avg, x);
      assert x in rows <==> x == rows[0] || x in rows[1..] by {
        assert rows == [rows[0]] + rows[1..];
      }
    }
  }

  /** The three filters split the rows: every row lands in exactly one. */
  lemma {:induction false} ThreeWayPartition(rows: seq<EnergyPerHour>, avg: real)
    ensures multiset(rows) == multiset(Above(rows, avg)) + multiset(Below(rows, avg)) + multiset(AtMean(rows, avg))
  {
    if |rows| > 0 {
      ThreeWayPartition(rows[1..], avg);
      assert rows == [rows[0]] + rows[1..];
    }
  }

  /** The `forEach` that pushes each row onto `peakHours` when above the
      average, else onto `lowestHours` when below it. */
  function Classify(rows: seq<EnergyPerHour>, avg: real): (seq<EnergyPerHour>, seq<EnergyPerHour>) {
    if |rows| == 0 then ([], [])
    else
      var (peak, low) := Classify(rows[..|rows| - 1], avg);
      var row := rows[|rows| - 1];
      if row.energyPerHour > avg then (peak + [row], low)
      else if row.energyPerHour < avg then (peak, low + [row])
      else (peak, low)
  }

  lemma {:induction false} AboveBelowSnoc(rows: seq<EnergyPerHour>, row: EnergyPerHour, avg: real)
    ensures Above(rows + [row], avg) == if row.energyPerHour > avg then Above(rows, avg) + [row] else Above(rows, avg)
    ensures Below(rows + [row], avg) == if row.energyPerHour < avg then Below(rows, avg) + [row] else Below(rows, avg)
  {
    if |rows| == 0 {
      assert rows + [row] == [row];
    } else {
      assert (rows + [row])[1..] == rows[1..] + [row];
      AboveBelowSnoc(rows[1..], row, avg);
    }
  }

  /** The push loop is exactly the pair of order-preserving filters. */
  lemma {:induction false} ClassifyIsFilter(rows: seq<EnergyPerHour>, avg: real)
    ensures Classify(rows, avg) == (Above(rows, avg), Below(rows, avg))
  {
    if |rows| > 0 {
      var init := rows[..|rows| - 1];
      ClassifyIsFilter(init, avg);
      AboveBelowSnoc(init, rows[|rows| - 1], avg);
      assert init + [rows[|rows| - 1]] == rows;
    }
  }

  datatype ConsumptionPatterns = ConsumptionPatterns(
    totalConsumption: real,
    averageConsumption: Option<real>,
    peakHours: seq<EnergyPerHour>,
    lowestHours: seq<EnergyPerHour>)

  /** `reportConsumptionPatterns`. On no rows the average is undefined (NaN in
      JavaScript) and, since every comparison with NaN is false, both lists are
      empty. */
  function ReportConsumptionPatterns(result: Option<seq<EnergyPerHour>>): (r: Option<ConsumptionPatterns>)
    ensures r.None? <==> result.None?
    ensures r.Some? ==>
              var rows := result.value;
              var p := r.value;
              && p.totalConsumption == TotalConsumption(rows)
              && (p.averageConsumption.Some? <==> |rows| > 0)
              && (p.averageConsumption.Some? ==>
                    && p.averageConsumption.value * (|rows| as real) == p.totalConsumption
                    && p.peakHours == Above(rows, p.averageConsumption.value)
                    && p.lowestHours == Below(rows, p.averageConsumption.value))
              && (|rows| == 0 ==> p.totalConsumption == 0.0 && p.peakHours == [] && p.lowestHours == [])
  {
    match result
    case None => None
    case Some(rows) =>
      var total := TotalConsumption(rows);
      var avg := Mean(rows);
      match avg
      case None => Some(ConsumptionPatterns(total, None, [], []))
      case Some(a) =>
        ClassifyIsFilter(rows, a);
        var (peak, low) := Classify(rows, a);
        Some(ConsumptionPatterns(total, avg, peak, low))
  }

  /** If no row exceeds `a`, the total is at most |rows|·a. */
  lemma {:induction false} TotalAtMost(rows: seq<EnergyPerHour>, a: real)
    requires forall i | 0 <= i < |rows| :: rows[i].energyPerHour <= a
    ensures TotalConsumption(rows) <= (|rows| as real) * a
  {
    if |rows| > 0 {
      var init := rows[..|rows| - 1];
      TotalAtMost(init, a);
      assert (|rows| as real) * a == (|init| as real) * a + a;
    }
  }

  /** ... and strictly less when some row is below `a`. */
  lemma {:induction false} TotalBelow(rows: seq<EnergyPerHour>, a: real, k: int)
    requires forall i | 0 <= i < |rows| :: rows[i].energyPerHour <= a
    requires 0 <= k < |rows| && rows[k].energyPerHour < a
    ensures TotalConsumption(rows) < (|rows| as real) * a
  {
    var init := rows[..|rows| - 1];
    assert (|rows| as real) * a == (|init| as real) * a + a;
    if k == |rows| - 1 {
      TotalAtMost(init, a);
    } else {
      TotalBelow(init, a, k);
    }
  }

  /** If no row is below `a`, the total is at least |rows|·a. */
  lemma {:induction false} TotalAtLeast(rows: seq<EnergyPerHour>, a: real)
    requires forall i | 0 <= i < |rows| :: rows[i].energyPerHour >= a
    ensures TotalConsumption(rows) >= (|rows| as real) * a
  {
    if |rows| > 0 {
      var init := rows[..|rows| - 1];
      TotalAtLeast(init, a);
      assert (|rows| as real) * a == (|init| as real) * a + a;
    }
  }

  /** ... and strictly more when some row is above `a`. */
  lemma {:induction false} TotalAbove(rows: seq<EnergyPerHour>, a: real, k: int)
    requires forall i | 0 <= i < |rows| :: rows[i].energyPerHour >= a
    requires 0 <= k < |rows| && rows[k].energyPerHour > a
    ensures TotalConsumption(rows) > (|rows| as real) * a
  {
    var init := rows[..|rows| - 1];
    assert (|rows| as real) * a == (|init| as real) * a + a;
    if k == |rows| - 1 {
      TotalAtLeast(init, a);
    } else {
      TotalAbove(init, a, k);
    }
  }

  predicate AllEqual(rows: seq<EnergyPerHour>) {
    forall i, j | 0 <= i < |rows| && 0 <= j < |rows| :: rows[i].energyPerHour == rows[j].energyPerHour
  }

  /** No row above `avg` means every row is at most `avg`; likewise below. */
  lemma EmptyFilters(rows: seq<EnergyPerHour>, avg: real)
    ensures Above(rows, avg) == [] <==> forall i | 0 <= i < |rows| :: rows[i].energyPerHour <= avg
    ensures Below(rows, avg) == [] <==> forall i | 0 <= i < |rows| :: rows[i].energyPerHour >= avg
  {
    forall i | 0 <= i < |rows| {
      FilterMembership(rows, avg, rows[i]);
    }
    if Above(rows, avg) != [] {
      var x := Above(rows, avg)[0];
      FilterMembership(rows, avg, x);
      var i :| 0 <= i < |rows| && rows[i] == x;
    }
    if Below(rows, avg) != [] {
      var x := Below(rows, avg)[0];
      FilterMembership(rows, avg, x);
      var i :| 0 <= i < |rows| && rows[i] == x;
    }
  }

  /** Every row lies on the mean exactly when no row lies strictly above it,
      and exactly when no row lies strictly below it. */
  lemma MeanSplit(rows: seq<EnergyPerHour>, avg: real)
    requires |rows| > 0
    requires avg * (|rows| as real) == TotalConsumption(rows)
    ensures Above(rows, avg) == [] <==> forall i | 0 <= i < |rows| :: rows[i].energyPerHour == avg
    ensures Below(rows, avg) == [] <==> forall i | 0 <= i < |rows| :: rows[i].energyPerHour == avg
  {
    EmptyFilters(rows, avg);
    if Above(rows, avg) == [] {
      forall k | 0 <= k < |rows| ensures rows[k].energyPerHour == avg {
        if rows[k].energyPerHour < avg { TotalBelow(rows, avg, k); }
      }
    }
    if Below(rows, avg) == [] {
      forall k | 0 <= k < |rows| ensures rows[k].energyPerHour == avg {
        if rows[k].energyPerHour > avg { TotalAbove(rows, avg, k); }
      }
    }
  }

  /** Because the average is the mean of the rows, there is a peak row exactly
      when there is a low row, and neither exactly when every row has the same
      energy (or there are no rows). */
  lemma EmptinessLink(rows: seq<EnergyPerHour>)
    ensures var p := ReportConsumptionPatterns(Some(rows)).value;
            && (p.peakHours == [] <==> p.lowestHours == [])
            && (p.peakHours == [] <==> AllEqual(rows))
  {
    var p := ReportConsumptionPatterns(Some(rows)).value;
    if |rows| > 0 {
      var avg := p.averageConsumption.value;
      MeanSplit(rows, avg);
      if AllEqual(rows) {
        var v := rows[0].energyPerHour;
        TotalAtMost(rows, v);
        TotalAtLeast(rows, v);
        var n := |rows| as real;
        assert avg * n == v * n;
        assert avg == v;
      }
    }
  }

  /** Hours with 100, 200 and 300: average 200, peak [300], low [100]; the
      200 row is in neither. */
  lemma PatternsExample(a: EnergyPerHour, b: EnergyPerHour, c: EnergyPerHour)
    requires a.energyPerHour == 100.0 && b.energyPerHour == 200.0 && c.energyPerHour == 300.0
    ensures ReportConsumptionPatterns(Some([a, b, c]))
         == Some(ConsumptionPatterns(600.0, Some(200.0), [c], [a]))
  {
    var rows := [a, b, c];
    assert rows[..2] == [a, b] && [a, b][..1] == [a] && [a][..0] == [];
    assert TotalConsumption([a]) == 100.0;
    assert TotalConsumption([a, b]) == 300.0;
    assert TotalConsumption(rows) == 600.0;
    assert Mean(rows) == Some(200.0);
    assert rows[1..] == [b, c] && [b, c][1..] == [c] && [c][1..] == [];
    assert Above([c], 200.0) == [c] + Above([], 200.0) == [c];
    assert Above(rows, 200.0) == Above([b, c], 200.0) == Above([c], 200.0);
    assert Below([c], 200.0) == Below([], 200.0) == [];
    assert Below(rows, 200.0) == [a] + Below([b, c], 200.0);
    assert Below([b, c], 200.0) == Below([c], 200.0);
    var p := ReportConsumptionPatterns(Some(rows)).value;
    assert p.averageConsumption.value * 3.0 == 600.0;
    assert p.averageConsumption == Some(200.0);
    assert p == ConsumptionPatterns(600.0, Some(200.0), [c], [a]);
  }

  /** A single hour of 200: total 200, average 200, no peak and no low. */
  lemma SingleRowExample(a: EnergyPerHour)
    requires a.energyPerHour == 200.0
    ensures ReportConsumptionPatterns(Some([a])) == Some(ConsumptionPatterns(200.0, Some(200.0), [], []))
  {
    assert [a][..0] == [] && [a][1..] == [];
    assert TotalConsumption([a]) == 200.0;
    assert Above([a], 200.0) == Above([], 200.0) == [];
    assert Below([a], 200.0) == Below([], 200.0) == [];
  }

  /** An empty row list is not `null`: it reports total 0, no average and two
      empty lists. */
  lemma EmptyRowsReport()
    ensures ReportConsumptionPatterns(Some([])) == Some(ConsumptionPatterns(0.0, None, [], []))
  {
  }

  // ---------------------------------------------------------------------
  // Daily analysis
  // ---------------------------------------------------------------------

  /** A row of the daily query: one device, one day. SUM(activePower) is NULL
      for a group without any power reading. */
  datatype ConsumptionAnalysisRow = ConsumptionAnalysisRow(
    activeEnergyPerDay: real,
    activePowerPerDay: Option<real>,
    deviceId: string,
    date: string)

  datatype AvgPowerPerDay = AvgPowerPerDay(date: string, avgPowerPerDay: real, deviceId: string)

  datatype ActiveEnergyPerDay = ActiveEnergyPerDay(date: string, activeEnergyPerDay: real, deviceId: string)

  datatype ConsumptionAnalysis = ConsumptionAnalysis(
    avgPowerPerDay: seq<AvgPowerPerDay>,
    activeEnergyPerDay: seq<ActiveEnergyPerDay>)

  /** The fixed divisor: one reading per hour is assumed. */
  const HoursPerDay: real := 24.0

  /** `activePowerPerDay / 24`; JavaScript turns a null operand into 0. */
  function DailyAveragePower(activePowerPerDay: Option<real>): (r: real)
    ensures activePowerPerDay.Some? ==> r * HoursPerDay == activePowerPerDay.value
    ensures activePowerPerDay.None? ==> r == 0.0
  {
    match activePowerPerDay
    case None => 0.0
    case Some(p) => p / HoursPerDay
  }

  /** The first `result.map`: date and device kept, power divided by 24. */
  function AvgPowerRows(rows: seq<ConsumptionAnalysisRow>): (r: seq<AvgPowerPerDay>)
    ensures |r| == |rows|
    ensures forall i | 0 <= i < |rows| ::
              && r[i].date == rows[i].date
              && r[i].deviceId == rows[i].deviceId
              && r[i].avgPowerPerDay == DailyAveragePower(rows[i].activePowerPerDay)
  {
    if |rows| == 0 then []
    else
      [AvgPowerPerDay(rows[0].date, DailyAveragePower(rows[0].activePowerPerDay), rows[0].deviceId)]
      + AvgPowerRows(rows[1..])
  }

  /** The second `result.map`: date, device and energy kept. */
  function ActiveEnergyRows(rows: seq<ConsumptionAnalysisRow>): (r: seq<ActiveEnergyPerDay>)
    ensures |r| == |rows|
    ensures forall i | 0 <= i < |rows| ::
              && r[i].date == rows[i].date
              && r[i].deviceId == rows[i].deviceId
              && r[i].activeEnergyPerDay == rows[i].activeEnergyPerDay
  {
    if |rows| == 0 then []
    else
      [ActiveEnergyPerDay(rows[0].date, rows[0].activeEnergyPerDay, rows[0].deviceId)]
      + ActiveEnergyRows(rows[1..])
  }

  /** `reportConsumptionAnalysis`: two parallel lists derived from the rows. */
  function ReportConsumptionAnalysis(result: Option<seq<ConsumptionAnalysisRow>>): (r: Option<ConsumptionAnalysis>)
    ensures r.None? <==> result.None?
    ensures r.Some? ==>
              var rows := result.value;
              && |r.value.avgPowerPerDay| == |rows| == |r.value.activeEnergyPerDay|
              && forall i | 0 <= i < |rows| ::
                   && r.value.avgPowerPerDay[i].date == rows[i].date == r.value.activeEnergyPerDay[i].date
                   && r.value.avgPowerPerDay[i].deviceId == rows[i].deviceId
                   && r.value.activeEnergyPerDay[i].deviceId == rows[i].deviceId
                   && r.value.avgPowerPerDay[i].avgPowerPerDay == DailyAveragePower(rows[i].activePowerPerDay)
                   && r.value.activeEnergyPerDay[i].activeEnergyPerDay == rows[i].activeEnergyPerDay
  {
    match result
    case None => None
    case Some(rows) => Some(ConsumptionAnalysis(AvgPowerRows(rows), ActiveEnergyRows(rows)))
  }

  /** Zips the two lists back into query rows, multiplying the average by 24. */
  function Rejoin(avg: seq<AvgPowerPerDay>, energy: seq<ActiveEnergyPerDay>): (r: seq<ConsumptionAnalysisRow>)
    requires |avg| == |energy|
    ensures |r| == |avg|
  {
    if |avg| == 0 then []
    else
      [ConsumptionAnalysisRow(energy[0].activeEnergyPerDay, Some(avg[0].avgPowerPerDay * HoursPerDay),
                              energy[0].deviceId, energy[0].date)]
      + Rejoin(avg[1..], energy[1..])
  }

  /** Nothing is lost by the daily analysis: when every day has a power
      figure, the two lists rejoin into exactly the query rows. */
  lemma {:induction false} AnalysisRoundTrip(rows: seq<ConsumptionAnalysisRow>)
    requires forall i | 0 <= i < |rows| :: rows[i].activePowerPerDay.Some?
    ensures var a := ReportConsumptionAnalysis(Some(rows)).value;
            Rejoin(a.avgPowerPerDay, a.activeEnergyPerDay) == rows
  {
    if |rows| > 0 {
      AnalysisRoundTrip(rows[1..]);
      assert AvgPowerRows(rows)[1..] == AvgPowerRows(rows[1..]);
      assert ActiveEnergyRows(rows)[1..] == ActiveEnergyRows(rows[1..]);
    }
  }

  /** A day with power 200 and energy 4800 reports average power 200/24 and
      energy 4800; a day with power 4800 reports average power 200. */
  lemma AnalysisExample(date: string, deviceId: string)
    ensures var a := ReportConsumptionAnalysis(Some([ConsumptionAnalysisRow(4800.0, Some(200.0), deviceId, date)])).value;
            a.avgPowerPerDay[0].avgPowerPerDay == 200.0 / 24.0
            && a.activeEnergyPerDay[0].activeEnergyPerDay == 4800.0
    ensures var a := ReportConsumptionAnalysis(Some([ConsumptionAnalysisRow(0.0, Some(4800.0), deviceId, date)])).value;
            a.avgPowerPerDay[0].avgPowerPerDay == 200.0
  {
  }
}
