/** The rows of one flush of the remote-write batcher (proxy/clickhouse/writer.go:97-175).
    The fingerprint is any function of the labels. */
module Flush {
  import opened Types
  import LabelKeys

  datatype Label = Label(name: string, value: string)

  /** A series of a write request. */
  datatype TimeSeries = TimeSeries(labels: seq<Label>, samples: seq<Point>)

  datatype SampleRow = SampleRow(fingerprint: nat, metricName: string, unixMilli: int, value: real)

  datatype SeriesRow = SeriesRow(fingerprint: nat, metricName: string, labels: Labels, unixMilli: int)

  const HOUR_MS: int := 3_600_000

  // ---- Meaning ----

  /** The last label called `__name__`; empty if there is none. */
  function MetricName(ls: seq<Label>): string {
    if ls == [] then ""
    else if ls[|ls| - 1].name == "__name__" then ls[|ls| - 1].value
    else MetricName(ls[..|ls| - 1])
  }

  /** The other labels; the last one of a name counts. */
  function OtherLabels(ls: seq<Label>): Labels {
    if ls == [] then map[]
    else
      var l := ls[|ls| - 1];
      if l.name == "__name__" then OtherLabels(ls[..|ls| - 1]) else OtherLabels(ls[..|ls| - 1])[l.name := l.value]
  }

  /** Integer division of the program, which truncates toward zero. */
  function TruncDiv(a: int, b: int): int
    requires b > 0
  {
    if a >= 0 then a / b else -(-a / b)
  }

  function HourOf(t: int): int { TruncDiv(t, HOUR_MS) * HOUR_MS }

  function BucketOf(ts: TimeSeries, now: int): int {
    HourOf(if ts.samples != [] then ts.samples[0].ts else now)
  }

  function SeriesRowOf(hash: Labels -> nat, ts: TimeSeries, now: int): SeriesRow {
    SeriesRow(hash(OtherLabels(ts.labels)), MetricName(ts.labels), OtherLabels(ts.labels), BucketOf(ts, now))
  }

  /** What tells two rows of the series table apart. */
  function Identity(hash: Labels -> nat, ts: TimeSeries): (nat, string) {
    (hash(OtherLabels(ts.labels)), MetricName(ts.labels))
  }

  function RowIdentity(r: SeriesRow): (nat, string) { (r.fingerprint, r.metricName) }

  function SampleRowsOf(hash: Labels -> nat, ts: TimeSeries): seq<SampleRow> {
    seq(|ts.samples|, i requires 0 <= i < |ts.samples| =>
      SampleRow(hash(OtherLabels(ts.labels)), MetricName(ts.labels), ts.samples[i].ts, ts.samples[i].v))
  }

  /** All samples, in the order they came. */
  function SampleRows(hash: Labels -> nat, series: seq<TimeSeries>): seq<SampleRow> {
    if series == [] then []
    else SampleRows(hash, series[..|series| - 1]) + SampleRowsOf(hash, series[|series| - 1])
  }

  ghost predicate Seen(hash: Labels -> nat, series: seq<TimeSeries>, id: (nat, string)) {
    exists i :: 0 <= i < |series| && Identity(hash, series[i]) == id
  }

  /** One row for the first series of each identity, in the order they came. */
  ghost function SeriesRows(hash: Labels -> nat, series: seq<TimeSeries>, now: int): seq<SeriesRow> {
    if series == [] then []
    else
      var front, last := series[..|series| - 1], series[|series| - 1];
      SeriesRows(hash, front, now)
      + if Seen(hash, front, Identity(hash, last)) then [] else [SeriesRowOf(hash, last, now)]
  }

  // ---- The deduplication key ----

  function Decimal(n: nat): string {
    (if n < 10 then [] else Decimal(n / 10)) + [['0', '1', '2', '3', '4', '5', '6', '7', '8', '9'][n % 10]]
  }

  lemma {:induction false} DecimalDigits(n: nat)
    ensures ':' !in Decimal(n) && |Decimal(n)| > 0
  {
    if n >= 10 {
      DecimalDigits(n / 10);
    }
  }

  lemma {:induction false} DecimalInjective(m: nat, n: nat)
    requires Decimal(m) == Decimal(n)
    ensures m == n
  {
    var d := Decimal(m);
    var front := d[..|d| - 1];
    assert front == (if m < 10 then [] else Decimal(m / 10));
    assert front == (if n < 10 then [] else Decimal(n / 10));
    DecimalDigits(m / 10);
    DecimalDigits(n / 10);
    assert d[|d| - 1] == ['0', '1', '2', '3', '4', '5', '6', '7', '8', '9'][m % 10];
    assert d[|d| - 1] == ['0', '1', '2', '3', '4', '5', '6', '7', '8', '9'][n % 10];
    SameDigit(m % 10, n % 10);
    if m >= 10 && n >= 10 {
      DecimalInjective(m / 10, n / 10);
    }
  }

  lemma SameDigit(i: nat, j: nat)
    requires i < 10 && j < 10
    requires ['0', '1', '2', '3', '4', '5', '6', '7', '8', '9'][i] == ['0', '1', '2', '3', '4', '5', '6', '7', '8', '9'][j]
    ensures i == j
  {
  }

  function DedupKey(fp: nat, metricName: string): string {
    Decimal(fp) + [':'] + metricName
  }

  /** The key stands for the fingerprint and the metric name, whatever the name holds. */
  lemma DedupKeyInjective(fp: nat, name: string, fp': nat, name': string)
    ensures DedupKey(fp, name) == DedupKey(fp', name') <==> fp == fp' && name == name'
  {
    if DedupKey(fp, name) == DedupKey(fp', name') {
      DecimalDigits(fp);
      DecimalDigits(fp');
      LabelKeys.SplitAtTerminator(Decimal(fp), Decimal(fp'), ':', name, name');
      DecimalInjective(fp, fp');
    }
  }

  // ---- The program ----

  method SplitLabels(ls: seq<Label>) returns (metricName: string, labels: Labels)
    ensures metricName == MetricName(ls) && labels == OtherLabels(ls)
  {
    metricName, labels := "", map[];
    for i := 0 to |ls|
      invariant metricName == MetricName(ls[..i]) && labels == OtherLabels(ls[..i])
    {
      assert ls[..i + 1][..i] == ls[..i];
      if ls[i].name == "__name__" {
        metricName := ls[i].value;
      } else {
        labels := labels[ls[i].name := ls[i].value];
      }
    }
    assert ls[..|ls|] == ls;
  }

  /** The keys seen so far are those of the series so far. */
  ghost predicate SeenKeys(hash: Labels -> nat, series: seq<TimeSeries>, seen: set<string>) {
    forall fp: nat, name: string :: DedupKey(fp, name) in seen <==> Seen(hash, series, (fp, name))
  }

  lemma SeenSnoc(hash: Labels -> nat, series: seq<TimeSeries>, ts: TimeSeries, id: (nat, string))
    ensures Seen(hash, series + [ts], id) <==> Seen(hash, series, id) || Identity(hash, ts) == id
  {
    var all := series + [ts];
    assert forall i :: 0 <= i < |series| ==> all[i] == series[i];
    assert all[|series|] == ts;
  }

  lemma SeenKeysSnoc(hash: Labels -> nat, series: seq<TimeSeries>, ts: TimeSeries, seen: set<string>)
    requires SeenKeys(hash, series, seen)
    ensures var id := Identity(hash, ts); SeenKeys(hash, series + [ts], seen + {DedupKey(id.0, id.1)})
  {
    var id := Identity(hash, ts);
    hide Seen;
    hide DedupKey;
    hide Identity;
    forall fp: nat, name: string
      ensures DedupKey(fp, name) in seen + {DedupKey(id.0, id.1)} <==> Seen(hash, series + [ts], (fp, name))
    {
      SeenSnoc(hash, series, ts, (fp, name));
      DedupKeyInjective(fp, name, id.0, id.1);
    }
  }

  lemma SeenAgain(hash: Labels -> nat, series: seq<TimeSeries>, ts: TimeSeries, seen: set<string>)
    requires SeenKeys(hash, series, seen) && Seen(hash, series, Identity(hash, ts))
    ensures SeenKeys(hash, series + [ts], seen)
  {
    hide Seen;
    hide DedupKey;
    forall fp: nat, name: string ensures Seen(hash, series + [ts], (fp, name)) <==> Seen(hash, series, (fp, name)) {
      SeenSnoc(hash, series, ts, (fp, name));
    }
  }

  method AppendSamples(rows: seq<SampleRow>, hash: Labels -> nat, ts: TimeSeries, fp: nat, metricName: string)
    returns (out: seq<SampleRow>)
    requires fp == hash(OtherLabels(ts.labels)) && metricName == MetricName(ts.labels)
    ensures out == rows + SampleRowsOf(hash, ts)
  {
    out := rows;
    for j := 0 to |ts.samples|
      invariant out == rows + SampleRowsOf(hash, ts)[..j]
    {
      out := out + [SampleRow(fp, metricName, ts.samples[j].ts, ts.samples[j].v)];
    }
  }

  /** The loop of flush over the series of a batch. */
  method BuildRows(hash: Labels -> nat, series: seq<TimeSeries>, now: int)
    returns (seriesRows: seq<SeriesRow>, sampleRows: seq<SampleRow>)
    ensures seriesRows == SeriesRows(hash, series, now) && sampleRows == SampleRows(hash, series)
  {
    var seen: set<string> := {};
    seriesRows, sampleRows := [], [];
    hide DedupKey;
    for i := 0 to |series|
      invariant seriesRows == SeriesRows(hash, series[..i], now) && sampleRows == SampleRows(hash, series[..i])
      invariant SeenKeys(hash, series[..i], seen)
    {
      var ts := series[i];
      assert series[..i + 1][..i] == series[..i] && series[..i + 1] == series[..i] + [ts];
      var metricName, labels := SplitLabels(ts.labels);
      var fp := hash(labels);
      var bucketMilli := BucketOf(ts, now);
      var dedup := DedupKey(fp, metricName);
      if dedup !in seen {
        SeenKeysSnoc(hash, series[..i], ts, seen);
        seen := seen + {dedup};
        seriesRows := seriesRows + [SeriesRow(fp, metricName, labels, bucketMilli)];
      } else {
        SeenAgain(hash, series[..i], ts, seen);
      }
      sampleRows := AppendSamples(sampleRows, hash, ts, fp, metricName);
    }
    assert series[..|series|] == series;
  }

  // ---- What the rows guarantee ----

  /** The first series of the batch with its identity. */
  ghost predicate First(hash: Labels -> nat, series: seq<TimeSeries>, i: nat) {
    i < |series| && forall j :: 0 <= j < i ==> Identity(hash, series[j]) != Identity(hash, series[i])
  }

  /** Every series row is that of the first series of its identity. */
  lemma {:induction false} RowsComeFromSeries(hash: Labels -> nat, series: seq<TimeSeries>, now: int)
    ensures forall r :: r in SeriesRows(hash, series, now) ==>
              exists i: nat :: First(hash, series, i) && r == SeriesRowOf(hash, series[i], now)
  {
    if series != [] {
      var n := |series| - 1;
      var front := series[..n];
      RowsComeFromSeries(hash, front, now);
      hide SeriesRowOf;
      hide Identity;
      forall r | r in SeriesRows(hash, series, now)
        ensures exists i: nat :: First(hash, series, i) && r == SeriesRowOf(hash, series[i], now)
      {
        if r in SeriesRows(hash, front, now) {
          var i: nat :| First(hash, front, i) && r == SeriesRowOf(hash, front[i], now);
          assert forall j :: 0 <= j <= i ==> front[j] == series[j];
          assert First(hash, series, i);
        } else {
          assert forall j :: 0 <= j < n ==> front[j] == series[j];
          assert First(hash, series, n);
        }
      }
    }
  }

  /** The start of an hour, and what is left of `t`: less than an hour, counted toward zero. */
  predicate HourHolds(hour: int, t: int) {
    && hour % 3_600_000 == 0
    && (0 <= t ==> hour <= t < hour + 3_600_000)
    && (t < 0 ==> hour - 3_600_000 < t <= hour)
  }

  /** A series row lies at the hour of the first sample of the first series of its identity;
      a series without samples lies at the hour of the clock. */
  lemma RowLiesAtItsHour(hash: Labels -> nat, series: seq<TimeSeries>, now: int, r: SeriesRow) returns (i: nat)
    requires r in SeriesRows(hash, series, now)
    ensures First(hash, series, i)
    ensures r.metricName == MetricName(series[i].labels) && r.labels == OtherLabels(series[i].labels)
    ensures r.fingerprint == hash(r.labels)
    ensures HourHolds(r.unixMilli, if series[i].samples == [] then now else series[i].samples[0].ts)
  {
    RowsComeFromSeries(hash, series, now);
    hide SeriesRows;
    i :| First(hash, series, i) && r == SeriesRowOf(hash, series[i], now);
    hide First;
    hide MetricName;
    hide OtherLabels;
  }

  lemma RowIdentityOfSeries(hash: Labels -> nat, ts: TimeSeries, now: int)
    ensures RowIdentity(SeriesRowOf(hash, ts, now)) == Identity(hash, ts)
  {
  }

  lemma RowsWereSeen(hash: Labels -> nat, series: seq<TimeSeries>, now: int, r: SeriesRow)
    requires r in SeriesRows(hash, series, now)
    ensures Seen(hash, series, RowIdentity(r))
  {
    RowsComeFromSeries(hash, series, now);
    var i: nat :| First(hash, series, i) && r == SeriesRowOf(hash, series[i], now);
    RowIdentityOfSeries(hash, series[i], now);
  }

  /** No two series rows share their identity. */
  lemma {:induction false} RowsAreDistinct(hash: Labels -> nat, series: seq<TimeSeries>, now: int)
    ensures var rows := SeriesRows(hash, series, now);
            forall i, j :: 0 <= i < j < |rows| ==> RowIdentity(rows[i]) != RowIdentity(rows[j])
  {
    if series != [] {
      var n := |series| - 1;
      var before := SeriesRows(hash, series[..n], now);
      RowsAreDistinct(hash, series[..n], now);
      RowIdentityOfSeries(hash, series[n], now);
      hide RowIdentity;
      hide SeriesRowOf;
      forall i | 0 <= i < |before| ensures Seen(hash, series[..n], RowIdentity(before[i])) {
        RowsWereSeen(hash, series[..n], now, before[i]);
      }
    }
  }

  /** Every series of the batch has a series row. */
  lemma {:induction false} RowsAreComplete(hash: Labels -> nat, series: seq<TimeSeries>, now: int, i: nat) returns (k: nat)
    requires i < |series|
    ensures k < |SeriesRows(hash, series, now)|
    ensures RowIdentity(SeriesRows(hash, series, now)[k]) == Identity(hash, series[i])
  {
    var n := |series| - 1;
    RowIdentityOfSeries(hash, series[n], now);
    hide RowIdentity;
    hide Identity;
    if i < n {
      k := RowsAreComplete(hash, series[..n], now, i);
    } else if Seen(hash, series[..n], Identity(hash, series[n])) {
      var j :| 0 <= j < n && Identity(hash, series[..n][j]) == Identity(hash, series[n]);
      k := RowsAreComplete(hash, series[..n], now, j);
    } else {
      k := |SeriesRows(hash, series[..n], now)|;
    }
  }

  lemma {:induction false} SampleRowsMeaning(hash: Labels -> nat, series: seq<TimeSeries>, s: SampleRow)
    ensures s in SampleRows(hash, series) <==>
            exists i :: 0 <= i < |series| && s in SampleRowsOf(hash, series[i])
  {
    if series != [] {
      var front, last := series[..|series| - 1], series[|series| - 1];
      SampleRowsMeaning(hash, front, s);
      assert forall i :: 0 <= i < |front| ==> series[i] == front[i];
    }
  }

  /** Every sample row of a flush has a series row with its fingerprint and its metric name
      in the same flush, and only one. */
  lemma SampleHasSeries(hash: Labels -> nat, series: seq<TimeSeries>, now: int, s: SampleRow) returns (k: nat)
    requires s in SampleRows(hash, series)
    ensures var rows := SeriesRows(hash, series, now);
            && k < |rows| && RowIdentity(rows[k]) == (s.fingerprint, s.metricName)
            && forall j :: 0 <= j < |rows| && j != k ==> RowIdentity(rows[j]) != (s.fingerprint, s.metricName)
  {
    SampleRowsMeaning(hash, series, s);
    var i :| 0 <= i < |series| && s in SampleRowsOf(hash, series[i]);
    k := RowsAreComplete(hash, series, now, i);
    RowsAreDistinct(hash, series, now);
    hide SeriesRows;
    hide RowIdentity;
  }

  /** When the fingerprint tells the label sets of the batch apart, the series row of a
      sample carries the labels that the sample came with. */
  lemma SampleHasItsLabels(hash: Labels -> nat, series: seq<TimeSeries>, now: int, i: nat, r: SeriesRow)
    requires i < |series|
    requires forall j :: 0 <= j < |series| && hash(OtherLabels(series[j].labels)) == hash(OtherLabels(series[i].labels)) ==>
               OtherLabels(series[j].labels) == OtherLabels(series[i].labels)
    requires r in SeriesRows(hash, series, now) && RowIdentity(r) == Identity(hash, series[i])
    ensures r.labels == OtherLabels(series[i].labels)
  {
    RowsComeFromSeries(hash, series, now);
    var j: nat :| First(hash, series, j) && r == SeriesRowOf(hash, series[j], now);
  }
}
