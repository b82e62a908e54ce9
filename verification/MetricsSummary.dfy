/** The dashboard's figures (backend/app/api/v1/metrics.py:27-60, 62-105): the series of one
    server, and for each of three metrics the average and the five greatest of every server's
    latest sample. Values are reals. */
module MetricsSummary {
  import opened Prelude
  import opened Monitor
  import opened Retention
  import DistinctOn

  const SUMMARY_WINDOW := 5 * MINUTE

  /** What a bucket holds for one server. */
  datatype Entry = Entry(server: Option<nat>, value: real)

  datatype Figures = Figures(average: real, top: seq<Entry>)

  datatype Summary = Summary(cpu: Figures, memory: Figures, disk: Figures)

  function NameRank(name: string): int
  {
    if name == "cpu_percent" then 0 else if name == "disk_percent" then 1 else 2
  }

  /** The pair (server_id, metric_name) of a summary row, as one number that orders pairs by
      server and then by name. */
  function PairKey(m: Metric): int { 3 * ServerKey(m) + NameRank(m.name) }

  lemma PairKeyIsPair(m: Metric, n: Metric, org: nat, since: int)
    requires MatchesSummary(m, org, since) && MatchesSummary(n, org, since)
    ensures PairKey(m) == PairKey(n) <==> m.server == n.server && m.name == n.name
  {
  }

  // ---------------------------------------------------------------- figures of one bucket

  /** The entries of one metric, in row order. */
  function Bucket(rows: seq<Metric>, name: string): seq<Entry>
  {
    if rows == [] then []
    else
      var last := rows[|rows| - 1];
      Bucket(rows[..|rows| - 1], name) + (if last.name == name then [Entry(last.server, last.value)] else [])
  }

  function Total(entries: seq<Entry>): real
  {
    if entries == [] then 0.0 else Total(entries[..|entries| - 1]) + entries[|entries| - 1].value
  }

  /** round(x, 1): the nearest tenth, and of two that are equally near the even one. */
  function RoundTenth(x: real): real
  {
    var low := (x * 10.0).Floor;
    var above := x * 10.0 - low as real;
    var up := above > 0.5 || (above == 0.5 && low % 2 == 1);
    (if up then low + 1 else low) as real / 10.0
  }

  /** A rounded figure is a tenth, at most half a tenth away, and even where two are. */
  lemma RoundTenthNear(x: real) returns (n: int)
    ensures RoundTenth(x) == n as real / 10.0
    ensures -0.05 <= RoundTenth(x) - x <= 0.05
    ensures RoundTenth(x) - x == 0.05 || RoundTenth(x) - x == -0.05 ==> n % 2 == 0
  {
    var low := (x * 10.0).Floor;
    n := if RoundTenth(x) == low as real / 10.0 then low else low + 1;
  }

  /** The mean, before it is rounded. */
  function Mean(entries: seq<Entry>): real
    requires entries != []
  {
    Total(entries) / (|entries| as real)
  }

  function Average(entries: seq<Entry>): real
  {
    if entries == [] then 0.0 else RoundTenth(Mean(entries))
  }

  lemma {:induction false} TotalBounds(entries: seq<Entry>, low: real, high: real)
    requires forall e :: e in entries ==> low <= e.value <= high
    ensures low * (|entries| as real) <= Total(entries) <= high * (|entries| as real)
  {
    if entries != [] {
      var last := |entries| - 1;
      TotalBounds(entries[..last], low, high);
      assert entries[last] in entries;
      assert low * (|entries| as real) == low * (last as real) + low;
      assert high * (|entries| as real) == high * (last as real) + high;
    }
  }

  /** The mean times the number of entries is their total, and it lies between any bounds of
      the entries. */
  lemma MeanBounds(entries: seq<Entry>, low: real, high: real)
    requires entries != [] && forall e :: e in entries ==> low <= e.value <= high
    ensures Mean(entries) * (|entries| as real) == Total(entries)
    ensures low <= Mean(entries) <= high
  {
    TotalBounds(entries, low, high);
    QuotientBounds(Total(entries), |entries| as real, low, high);
  }

  lemma QuotientBounds(x: real, n: real, low: real, high: real)
    requires n > 0.0 && low * n <= x <= high * n
    ensures low <= x / n <= high
  {
    var q := x / n;
    assert q * n == x;
    assert (q - low) * n >= 0.0 && (high - q) * n >= 0.0;
  }

  /** The total of one entry is its value, and totals of lists add up. */
  lemma {:induction false} TotalAdds(a: seq<Entry>, b: seq<Entry>)
    ensures Total(a + b) == Total(a) + Total(b)
    ensures |a| == 1 ==> Total(a) == a[0].value
  {
    if b == [] {
      assert a + b == a;
      assert a[..0] == [] && Total([]) == 0.0;
    } else {
      assert (a + b)[..|a + b| - 1] == a + b[..|b| - 1];
      TotalAdds(a, b[..|b| - 1]);
    }
  }

  /** The average of nothing is 0; otherwise it is a tenth, at most half a tenth from the total
      divided by the number, and even where two tenths are as near. */
  lemma AverageIs(entries: seq<Entry>) returns (n: int)
    ensures entries == [] ==> Average(entries) == 0.0
    ensures entries != [] ==>
      var mean := Total(entries) / (|entries| as real);
      && Average(entries) == n as real / 10.0 && -0.05 <= Average(entries) - mean <= 0.05
      && (Average(entries) - mean == 0.05 || Average(entries) - mean == -0.05 ==> n % 2 == 0)
  {
    if entries != [] { n := RoundTenthNear(Mean(entries)); } else { n := 0; }
  }

  ghost predicate Descending(entries: seq<Entry>)
  {
    forall i, j :: 0 <= i < j < |entries| ==> entries[i].value >= entries[j].value
  }

  /** `top` holds the n greatest entries, greatest first: nothing left out is greater. */
  ghost predicate IsTop(entries: seq<Entry>, n: nat, top: seq<Entry>)
  {
    && |top| == (if |entries| < n then |entries| else n)
    && Descending(top)
    && exists rest: seq<Entry> :: multiset(entries) == multiset(top) + multiset(rest) && Above(top, rest)
  }

  ghost predicate Above(top: seq<Entry>, rest: seq<Entry>)
  {
    forall x, y :: x in top && y in rest ==> x.value >= y.value
  }

  /** A new entry goes behind the entries that are not smaller, as in a stable sort. */
  function Place(sorted: seq<Entry>, x: Entry): (r: seq<Entry>)
    ensures multiset(r) == multiset(sorted) + multiset{x} && |r| == |sorted| + 1
  {
    if sorted == [] || sorted[|sorted| - 1].value >= x.value then sorted + [x]
    else
      var last := |sorted| - 1;
      assert sorted == sorted[..last] + [sorted[last]];
      Place(sorted[..last], x) + [sorted[last]]
  }

  function SortedDescending(entries: seq<Entry>): (r: seq<Entry>)
    ensures multiset(r) == multiset(entries) && |r| == |entries|
  {
    if entries == [] then []
    else
      var last := |entries| - 1;
      assert entries == entries[..last] + [entries[last]];
      Place(SortedDescending(entries[..last]), entries[last])
  }

  lemma {:induction false} PlaceAtLeast(sorted: seq<Entry>, x: Entry, low: real)
    requires x.value >= low && forall i :: 0 <= i < |sorted| ==> sorted[i].value >= low
    ensures forall i :: 0 <= i < |sorted| + 1 ==> Place(sorted, x)[i].value >= low
  {
    if sorted != [] && sorted[|sorted| - 1].value < x.value {
      PlaceAtLeast(sorted[..|sorted| - 1], x, low);
    }
  }

  lemma {:induction false} PlaceDescends(sorted: seq<Entry>, x: Entry)
    requires Descending(sorted)
    ensures Descending(Place(sorted, x))
  {
    if sorted != [] && sorted[|sorted| - 1].value < x.value {
      var last := |sorted| - 1;
      PlaceDescends(sorted[..last], x);
      PlaceAtLeast(sorted[..last], x, sorted[last].value);
    }
  }

  lemma {:induction false} SortDescends(entries: seq<Entry>)
    ensures Descending(SortedDescending(entries))
  {
    if entries != [] {
      SortDescends(entries[..|entries| - 1]);
      PlaceDescends(SortedDescending(entries[..|entries| - 1]), entries[|entries| - 1]);
    }
  }

  function Top(entries: seq<Entry>, n: nat): seq<Entry>
  {
    var sorted := SortedDescending(entries);
    if |sorted| < n then sorted else sorted[..n]
  }

  lemma DescendingSplits(sorted: seq<Entry>, k: nat)
    requires Descending(sorted) && k <= |sorted|
    ensures Descending(sorted[..k]) && Above(sorted[..k], sorted[k..])
  {
    forall x, y | x in sorted[..k] && y in sorted[k..] ensures x.value >= y.value {
      var i :| 0 <= i < k && sorted[i] == x;
      var j :| k <= j < |sorted| && sorted[j] == y;
    }
  }

  /** The slice of the sorted list is the n greatest entries. */
  lemma TopIsTop(entries: seq<Entry>, n: nat)
    ensures IsTop(entries, n, Top(entries, n))
  {
    hide Descending, Above, SortedDescending;
    var sorted := SortedDescending(entries);
    SortDescends(entries);
    var k := if |sorted| < n then |sorted| else n;
    DescendingSplits(sorted, k);
    assert Top(entries, n) == sorted[..k];
    assert multiset(entries) == multiset(sorted[..k]) + multiset(sorted[k..]) by {
      assert sorted == sorted[..k] + sorted[k..];
    }
  }

  function FiguresOf(entries: seq<Entry>): Figures { Figures(Average(entries), Top(entries, 5)) }

  /** The figures of a bucket: its rounded average and its five greatest entries. */
  lemma FiguresAre(entries: seq<Entry>)
    ensures FiguresOf(entries).average == Average(entries) && IsTop(entries, 5, FiguresOf(entries).top)
  {
    TopIsTop(entries, 5);
  }

  // ---------------------------------------------------------------- the endpoint

  /** An order in which the database may return the rows of the query. */
  ghost predicate IsSummaryAnswer(metrics: seq<Metric>, org: nat, now: int, answer: seq<Metric>)
  {
    DistinctOn.IsAnswer(SummaryRows(metrics, org, now - SUMMARY_WINDOW), answer, PairKey, SampledAt)
  }

  function LatestPairs(answer: seq<Metric>): seq<Metric> { DistinctOn.FirstOfRuns(answer, PairKey) }

  method Avg(entries: seq<Entry>) returns (r: real)
    ensures r == Average(entries)
  {
    if entries == [] { return 0.0; }
    var sum := 0.0;
    for i := 0 to |entries|
      invariant sum == Total(entries[..i])
    {
      sum := sum + entries[i].value;
      assert entries[..i + 1][..i] == entries[..i];
    }
    assert entries[..|entries|] == entries;
    r := RoundTenth(sum / (|entries| as real));
  }

  method GetMetricsSummary(answer: seq<Metric>) returns (summary: Summary)
    ensures summary.cpu == FiguresOf(Bucket(LatestPairs(answer), "cpu_percent"))
    ensures summary.memory == FiguresOf(Bucket(LatestPairs(answer), "memory_percent"))
    ensures summary.disk == FiguresOf(Bucket(LatestPairs(answer), "disk_percent"))
  {
    var rows := LatestPairs(answer);
    var cpu: seq<Entry>, memory: seq<Entry>, disk: seq<Entry> := [], [], [];
    for i := 0 to |rows|
      invariant cpu == Bucket(rows[..i], "cpu_percent")
      invariant memory == Bucket(rows[..i], "memory_percent")
      invariant disk == Bucket(rows[..i], "disk_percent")
    {
      var entry := Entry(rows[i].server, rows[i].value);
      if rows[i].name == "cpu_percent" {
        cpu := cpu + [entry];
      } else if rows[i].name == "memory_percent" {
        memory := memory + [entry];
      } else if rows[i].name == "disk_percent" {
        disk := disk + [entry];
      }
      assert rows[..i + 1][..i] == rows[..i];
    }
    assert rows[..|rows|] == rows;
    var avgCpu := Avg(cpu);
    var avgMemory := Avg(memory);
    var avgDisk := Avg(disk);
    summary := Summary(Figures(avgCpu, Top(cpu, 5)), Figures(avgMemory, Top(memory, 5)),
                       Figures(avgDisk, Top(disk, 5)));
  }

  // ---------------------------------------------------------------- what a bucket holds

  ghost predicate OnePerServer(entries: seq<Entry>)
  {
    forall i, j :: 0 <= i < j < |entries| ==> entries[i].server != entries[j].server
  }

  /** A sample of the last five minutes. */
  predicate IsRecent(m: Metric, org: nat, now: int, name: string)
  {
    m.org == org && m.name == name && m.timestamp >= now - 5 * 60 * 1_000_000
  }

  /** `m` is a newest sample of its metric from its server (or from no server) within the last
      five minutes. */
  ghost predicate IsNewest(metrics: seq<Metric>, org: nat, now: int, name: string, m: Metric)
  {
    && m in metrics && IsRecent(m, org, now, name)
    && forall n :: n in metrics && IsRecent(n, org, now, name) && n.server == m.server ==> n.timestamp <= m.timestamp
  }

  lemma {:induction false} BucketOfRows(rows: seq<Metric>, name: string)
    ensures forall e :: e in Bucket(rows, name) ==>
      exists m :: m in rows && m.name == name && e == Entry(m.server, m.value)
    ensures forall m :: m in rows && m.name == name ==> Entry(m.server, m.value) in Bucket(rows, name)
  {
    if rows != [] {
      BucketOfRows(rows[..|rows| - 1], name);
    }
  }

  ghost predicate ServersDiffer(rows: seq<Metric>)
  {
    forall i, j :: 0 <= i < j < |rows| ==> rows[i].server != rows[j].server || rows[i].name != rows[j].name
  }

  lemma {:induction false} BucketServers(rows: seq<Metric>, name: string)
    requires ServersDiffer(rows)
    ensures OnePerServer(Bucket(rows, name))
  {
    if rows != [] {
      var last := |rows| - 1;
      BucketServers(rows[..last], name);
      BucketOfRows(rows[..last], name);
      var b := Bucket(rows[..last], name);
      if rows[last].name == name {
        forall i | 0 <= i < |b| ensures b[i].server != rows[last].server {
          assert b[i] in b;
        }
      }
    }
  }

  lemma LatestPairsDiffer(metrics: seq<Metric>, org: nat, now: int, answer: seq<Metric>)
    requires IsSummaryAnswer(metrics, org, now, answer)
    ensures ServersDiffer(LatestPairs(answer))
  {
    var rows := SummaryRows(metrics, org, now - SUMMARY_WINDOW);
    var latest := LatestPairs(answer);
    DistinctOn.RunsPickLatest(rows, answer, PairKey, SampledAt);
    forall i, j | 0 <= i < j < |latest|
      ensures latest[i].server != latest[j].server || latest[i].name != latest[j].name
    {
      assert PairKey(latest[i]) < PairKey(latest[j]);
    }
  }

  lemma LatestPairIsNewest(metrics: seq<Metric>, org: nat, now: int, answer: seq<Metric>, m: Metric)
    requires IsSummaryAnswer(metrics, org, now, answer) && m in LatestPairs(answer)
    ensures IsNewest(metrics, org, now, m.name, m)
  {
    var rows := SummaryRows(metrics, org, now - SUMMARY_WINDOW);
    DistinctOn.RunsPickLatest(rows, answer, PairKey, SampledAt);
    assert DistinctOn.IsLatest(rows, m, PairKey, SampledAt);
    forall n | n in metrics && IsRecent(n, org, now, m.name) && n.server == m.server
      ensures n.timestamp <= m.timestamp
    {
      assert n in rows && PairKey(n) == PairKey(m) && SampledAt(n) == n.timestamp;
    }
  }

  lemma LatestPairsCover(metrics: seq<Metric>, org: nat, now: int, answer: seq<Metric>, m: Metric) returns (p: Metric)
    requires IsSummaryAnswer(metrics, org, now, answer)
    requires m in metrics && MatchesSummary(m, org, now - SUMMARY_WINDOW)
    ensures p in LatestPairs(answer) && p.server == m.server && p.name == m.name
  {
    var rows := SummaryRows(metrics, org, now - SUMMARY_WINDOW);
    var latest := LatestPairs(answer);
    DistinctOn.RunsPickLatest(rows, answer, PairKey, SampledAt);
    assert DistinctOn.Covers(latest, PairKey, PairKey(m));
    var i :| 0 <= i < |latest| && PairKey(latest[i]) == PairKey(m);
    p := latest[i];
    LatestPairIsNewest(metrics, org, now, answer, p);
    PairKeyIsPair(p, m, org, now - SUMMARY_WINDOW);
  }

  /** Whatever order the database delivers the rows in, a bucket holds exactly one entry for
      every server with a sample of the metric in the last five minutes, and no other; its value
      is that of a newest such sample. */
  lemma BucketIsLatest(metrics: seq<Metric>, org: nat, now: int, answer: seq<Metric>, name: string)
    requires IsSummaryAnswer(metrics, org, now, answer) && name in {"cpu_percent", "memory_percent", "disk_percent"}
    ensures var entries := Bucket(LatestPairs(answer), name);
      && OnePerServer(entries)
      && (forall e :: e in entries ==>
            exists m :: IsNewest(metrics, org, now, name, m) && e == Entry(m.server, m.value))
      && (forall m :: m in metrics && IsRecent(m, org, now, name) ==> exists e :: e in entries && e.server == m.server)
  {
    var latest := LatestPairs(answer);
    var entries := Bucket(latest, name);
    hide LatestPairs, Bucket, IsSummaryAnswer, IsNewest;
    LatestPairsDiffer(metrics, org, now, answer);
    BucketServers(latest, name);
    BucketOfRows(latest, name);
    forall e | e in entries ensures exists m :: IsNewest(metrics, org, now, name, m) && e == Entry(m.server, m.value) {
      var m :| m in latest && m.name == name && e == Entry(m.server, m.value);
      LatestPairIsNewest(metrics, org, now, answer, m);
    }
    forall m | m in metrics && IsRecent(m, org, now, name)
      ensures exists e :: e in entries && e.server == m.server
    {
      var p := LatestPairsCover(metrics, org, now, answer, m);
      assert Entry(p.server, p.value) in entries;
    }
  }

  // ---------------------------------------------------------------- the series of one server

  datatype Sample = Sample(timestamp: int, value: real)

  function SeriesOf(rows: seq<Metric>, name: string): seq<Sample>
  {
    if rows == [] then []
    else
      var last := rows[|rows| - 1];
      SeriesOf(rows[..|rows| - 1], name) + (if last.name == name then [Sample(last.timestamp, last.value)] else [])
  }

  lemma {:induction false} SeriesEmpty(rows: seq<Metric>, name: string)
    ensures SeriesOf(rows, name) == [] <==> forall m :: m in rows ==> m.name != name
  {
    if rows != [] {
      SeriesEmpty(rows[..|rows| - 1], name);
      assert rows == rows[..|rows| - 1] + [rows[|rows| - 1]];
    }
  }

  lemma SeriesStep(rows: seq<Metric>, i: nat, name: string)
    requires i < |rows|
    ensures SeriesOf(rows[..i + 1], name)
         == SeriesOf(rows[..i], name) + if rows[i].name == name then [Sample(rows[i].timestamp, rows[i].value)] else []
  {
    assert rows[..i + 1][..i] == rows[..i];
  }

  /** The rows come in time order; one series per name, in the order in which the names first
      appear. */
  method GroupByName(rows: seq<Metric>) returns (names: seq<string>, series: map<string, seq<Sample>>)
    ensures series.Keys == set n | n in names
    ensures forall i, j :: 0 <= i < j < |names| ==> names[i] != names[j]
    ensures forall n :: n in names <==> exists m :: m in rows && m.name == n
    ensures forall n :: n in series ==> series[n] == SeriesOf(rows, n)
  {
    hide SeriesOf;
    forall n { SeriesEmpty(rows[..0], n); }
    names, series := [], map[];
    for i := 0 to |rows|
      invariant series.Keys == set n | n in names
      invariant forall a, b :: 0 <= a < b < |names| ==> names[a] != names[b]
      invariant forall n :: n in series ==> series[n] == SeriesOf(rows[..i], n) != []
      invariant forall n :: n !in series ==> SeriesOf(rows[..i], n) == []
    {
      var m := rows[i];
      forall n { SeriesStep(rows, i, n); }
      if m.name !in series {
        names := names + [m.name];
        series := series[m.name := []];
      }
      series := series[m.name := series[m.name] + [Sample(m.timestamp, m.value)]];
    }
    assert rows[..|rows|] == rows;
    forall n ensures n in names <==> exists m :: m in rows && m.name == n { SeriesEmpty(rows, n); }
  }
}
