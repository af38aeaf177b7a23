/** The meaning of the two grouped range queries behind the hourly and daily
    series: keep one device's samples whose timestamp lies in
    `[startDate, endDate]`, group them by the timestamp truncated to the hour or
    the day, sum `activeEnergy` per group, and order the groups ascending.
    The database evaluates these queries; this module is the reference the
    post-processing is stated against. Timestamps are milliseconds since the
    Unix epoch, as JavaScript `Date` values are. */
module BucketQuery {
  import opened Wrappers

  /** One stored sample. */
  datatype Measurement = Measurement(
    deviceId: string,
    timestamp: int,
    activeEnergy: real,
    activePower: Option<real>)

  const HourMillis: nat := 3_600_000
  const DayMillis: nat := 86_400_000

  /** `date_trunc`: the start of the `width`-wide bucket holding `t` (UTC
      buckets; earlier instants truncate downwards). */
  function Truncate(t: int, width: nat): (b: int)
    requires width > 0
    ensures b <= t < b + width
  {
    (t / width) * width
  }

  /** The bucket start is the one multiple of `width` whose bucket holds `t`. */
  lemma TruncateUnique(t: int, width: nat, k: int)
    requires width > 0
    requires k * width <= t < k * width + width
    ensures Truncate(t, width) == k * width
  {
    var q := t / width;
    if q > k {
      assert q * width >= (k + 1) * width;
    } else if q < k {
      assert (q + 1) * width <= k * width;
    }
  }

  /** The query's WHERE clause: the device matches and the timestamp lies in
      the closed range. */
  predicate Selected(m: Measurement, deviceId: string, startDate: int, endDate: int) {
    m.deviceId == deviceId && startDate <= m.timestamp <= endDate
  }

  /** One result row: a bucket start and the energy summed over it. */
  datatype BucketRow = BucketRow(bucket: int, accumulatedEnergy: real)

  predicate StrictlyAscending(rows: seq<BucketRow>) {
    forall i, j :: 0 <= i < j < |rows| ==> rows[i].bucket < rows[j].bucket
  }

  function Buckets(rows: seq<BucketRow>): set<int> {
    set i | 0 <= i < |rows| :: rows[i].bucket
  }

  /** Energy the rows attribute to bucket `b` (0 when there is no such row). */
  function EnergyAt(rows: seq<BucketRow>, b: int): real {
    if |rows| == 0 then 0.0
    else (if rows[0].bucket == b then rows[0].accumulatedEnergy else 0.0) + EnergyAt(rows[1..], b)
  }

  /** The buckets that at least one selected sample falls into. */
  function SampleBuckets(history: seq<Measurement>, deviceId: string, startDate: int, endDate: int,
                         width: nat): set<int>
    requires width > 0
  {
    set m | m in history && Selected(m, deviceId, startDate, endDate) :: Truncate(m.timestamp, width)
  }

  /** `SUM("activeEnergy")` over the selected samples of bucket `b`. */
  function BucketTotal(history: seq<Measurement>, deviceId: string, startDate: int, endDate: int,
                       width: nat, b: int): real
    requires width > 0
  {
    if |history| == 0 then 0.0
    else
      var m := history[|history| - 1];
      BucketTotal(history[..|history| - 1], deviceId, startDate, endDate, width, b)
      + (if Selected(m, deviceId, startDate, endDate) && Truncate(m.timestamp, width) == b
         then m.activeEnergy else 0.0)
  }

  lemma BucketsCons(r: BucketRow, rows: seq<BucketRow>)
    ensures Buckets([r] + rows) == {r.bucket} + Buckets(rows)
  {
    var s := [r] + rows;
    forall b | b in Buckets(s) ensures b in {r.bucket} + Buckets(rows) {
      var i :| 0 <= i < |s| && s[i].bucket == b;
      if i > 0 { assert rows[i - 1].bucket == b; }
    }
    forall b | b in Buckets(rows) ensures b in Buckets(s) {
      var i :| 0 <= i < |rows| && rows[i].bucket == b;
      assert s[i + 1].bucket == b;
    }
    assert s[0].bucket == r.bucket;
  }

  /** Prepending a row below every bucket of an ascending list keeps it
      ascending, and adds that row's energy to its own bucket only. */
  lemma Prepend(r: BucketRow, rows: seq<BucketRow>)
    requires StrictlyAscending(rows)
    requires forall b | b in Buckets(rows) :: r.bucket < b
    ensures StrictlyAscending([r] + rows)
    ensures Buckets([r] + rows) == {r.bucket} + Buckets(rows)
    ensures forall k :: EnergyAt([r] + rows, k)
                        == (if k == r.bucket then r.accumulatedEnergy else 0.0) + EnergyAt(rows, k)
  {
    BucketsCons(r, rows);
    var s := [r] + rows;
    assert s[1..] == rows;
    forall i, j | 0 <= i < j < |s| ensures s[i].bucket < s[j].bucket {
      if i == 0 {
        assert s[j].bucket == rows[j - 1].bucket;
        assert rows[j - 1].bucket in Buckets(rows);
      }
    }
  }

  /** Every later row of an ascending list lies strictly above its head. */
  lemma HeadBelowTail(rows: seq<BucketRow>)
    requires StrictlyAscending(rows)
    requires |rows| > 0
    ensures StrictlyAscending(rows[1..])
    ensures forall b | b in Buckets(rows[1..]) :: rows[0].bucket < b
    ensures rows == [rows[0]] + rows[1..]
  {
    forall b | b in Buckets(rows[1..]) ensures rows[0].bucket < b {
      var i :| 0 <= i < |rows[1..]| && rows[1..][i].bucket == b;
      assert rows[i + 1].bucket == b;
    }
  }

  /** Folds one sample into an ascending bucket list: the row of its bucket
      grows by `e`, or a new row is inserted in order. */
  function AddSample(rows: seq<BucketRow>, b: int, e: real): (r: seq<BucketRow>)
    requires StrictlyAscending(rows)
    ensures StrictlyAscending(r)
    ensures Buckets(r) == Buckets(rows) + {b}
  {
    if |rows| == 0 then
      Prepend(BucketRow(b, e), []);
      [BucketRow(b, e)]
    else
      var head := rows[0];
      HeadBelowTail(rows);
      Prepend(head, rows[1..]);
      if head.bucket == b then
        Prepend(BucketRow(b, head.accumulatedEnergy + e), rows[1..]);
        [BucketRow(b, head.accumulatedEnergy + e)] + rows[1..]
      else if b < head.bucket then
        Prepend(BucketRow(b, e), rows);
        [BucketRow(b, e)] + rows
      else
        var tail := AddSample(rows[1..], b, e);
        Prepend(head, tail);
        [head] + tail
  }

  /** Folding a sample in adds its energy to its own bucket and to no other. */
  lemma {:induction false} AddSampleEnergy(rows: seq<BucketRow>, b: int, e: real, k: int)
    requires StrictlyAscending(rows)
    ensures EnergyAt(AddSample(rows, b, e), k) == EnergyAt(rows, k) + (if k == b then e else 0.0)
  {
    if |rows| == 0 {
      Prepend(BucketRow(b, e), []);
    } else {
      var head := rows[0];
      HeadBelowTail(rows);
      Prepend(head, rows[1..]);
      if head.bucket == b {
        Prepend(BucketRow(b, head.accumulatedEnergy + e), rows[1..]);
      } else if b < head.bucket {
        Prepend(BucketRow(b, e), rows);
      } else {
        var tail := AddSample(rows[1..], b, e);
        AddSampleEnergy(rows[1..], b, e, k);
        Prepend(head, tail);
      }
    }
  }

  /** The grouped query's result, built by folding the samples in order. */
  function GroupedSums(history: seq<Measurement>, deviceId: string, startDate: int, endDate: int,
                       width: nat): (rows: seq<BucketRow>)
    requires width > 0
    ensures StrictlyAscending(rows)
    ensures Buckets(rows) == SampleBuckets(history, deviceId, startDate, endDate, width)
    ensures forall b :: EnergyAt(rows, b) == BucketTotal(history, deviceId, startDate, endDate, width, b)
  {
    if |history| == 0 then []
    else
      var init := history[..|history| - 1];
      var m := history[|history| - 1];
      assert history == init + [m];
      var prev := GroupedSums(init, deviceId, startDate, endDate, width);
      if Selected(m, deviceId, startDate, endDate) then
        assert SampleBuckets(history, deviceId, startDate, endDate, width)
            == SampleBuckets(init, deviceId, startDate, endDate, width) + {Truncate(m.timestamp, width)};
        var b := Truncate(m.timestamp, width);
        forall k ensures EnergyAt(AddSample(prev, b, m.activeEnergy), k)
                         == BucketTotal(history, deviceId, startDate, endDate, width, k)
        {
          AddSampleEnergy(prev, b, m.activeEnergy, k);
        }
        AddSample(prev, b, m.activeEnergy)
      else
        assert SampleBuckets(history, deviceId, startDate, endDate, width)
            == SampleBuckets(init, deviceId, startDate, endDate, width);
        prev
  }

  /** In an ascending list each bucket has one row, so the energy attributed
      to a row's bucket is that row's own figure. */
  lemma {:induction false} EnergyAtRow(rows: seq<BucketRow>, i: int)
    requires StrictlyAscending(rows)
    requires 0 <= i < |rows|
    ensures EnergyAt(rows, rows[i].bucket) == rows[i].accumulatedEnergy
  {
    if i == 0 {
      EnergyAtAbsent(rows[1..], rows[0].bucket);
    } else {
      EnergyAtRow(rows[1..], i - 1);
    }
  }

  lemma {:induction false} EnergyAtAbsent(rows: seq<BucketRow>, b: int)
    requires forall j | 0 <= j < |rows| :: b < rows[j].bucket
    ensures EnergyAt(rows, b) == 0.0
  {
    if |rows| > 0 {
      EnergyAtAbsent(rows[1..], b);
    }
  }

  /** What a row of the grouped query means: its bucket is the truncation of
      some selected sample, the rows are strictly ascending, its figure is the
      sum of that bucket's selected samples, and every bucket holding a
      selected sample has a row (no bucket is dropped, none is zero-filled). */
  lemma GroupedSumsMeaning(history: seq<Measurement>, deviceId: string, startDate: int, endDate: int,
                           width: nat)
    requires width > 0
    ensures var rows := GroupedSums(history, deviceId, startDate, endDate, width);
            && StrictlyAscending(rows)
            && (forall i | 0 <= i < |rows| ::
                  && rows[i].bucket in SampleBuckets(history, deviceId, startDate, endDate, width)
                  && rows[i].accumulatedEnergy
                     == BucketTotal(history, deviceId, startDate, endDate, width, rows[i].bucket))
            && (forall m | m in history && Selected(m, deviceId, startDate, endDate) ::
                  exists i :: 0 <= i < |rows| && rows[i].bucket == Truncate(m.timestamp, width))
  {
    var rows := GroupedSums(history, deviceId, startDate, endDate, width);
    forall i | 0 <= i < |rows|
      ensures rows[i].bucket in SampleBuckets(history, deviceId, startDate, endDate, width)
      ensures rows[i].accumulatedEnergy
              == BucketTotal(history, deviceId, startDate, endDate, width, rows[i].bucket)
    {
      EnergyAtRow(rows, i);
      assert rows[i].bucket in Buckets(rows);
    }
    forall m | m in history && Selected(m, deviceId, startDate, endDate)
      ensures exists i :: 0 <= i < |rows| && rows[i].bucket == Truncate(m.timestamp, width)
    {
      assert Truncate(m.timestamp, width) in SampleBuckets(history, deviceId, startDate, endDate, width);
    }
  }
}
