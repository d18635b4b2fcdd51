/**
 * The hourly detail modal: the entries of one hour sorted by time in
 * place, their up/down counts and response-time statistics, and the
 * three index-aligned series of the response-time chart.
 */
module Ui {
  import opened Wrappers
  import opened Dates
  import opened Records

  /** Entries in non-decreasing order of their timestamps. */
  predicate SortedByTime(s: seq<Entry>) {
    forall i, j :: 0 <= i < j < |s| ==> s[i].timestamp <= s[j].timestamp
  }

  /**
   * `hourData.sort((a, b) => new Date(a.timestamp) - new Date(b.timestamp))`:
   * the caller's array itself ends up ordered by time, holding the same
   * entries. Only strictly later entries are moved past one another.
   */
  method SortByTimestamp(a: array<Entry>)
    modifies a
    ensures SortedByTime(a[..])
    ensures multiset(a[..]) == multiset(old(a[..]))
  {
    for i := 0 to a.Length
      invariant SortedByTime(a[..i])
      invariant multiset(a[..]) == multiset(old(a[..]))
    {
      SinkInto(a, i);
    }
    assert a[..a.Length] == a[..];
  }

  /**
   * One pass of the sort: `a[i]` moves down past every strictly later
   * entry of the sorted prefix, so that the prefix grows by one.
   */
  method SinkInto(a: array<Entry>, i: nat)
    requires i < a.Length && SortedByTime(a[..i])
    modifies a
    ensures SortedByTime(a[..i + 1])
    ensures multiset(a[..]) == multiset(old(a[..]))
  {
    var j := i;
    while j > 0 && a[j - 1].timestamp > a[j].timestamp
      invariant 0 <= j <= i
      invariant multiset(a[..]) == multiset(old(a[..]))
      invariant forall p, q :: 0 <= p < q <= i && q != j ==> a[p].timestamp <= a[q].timestamp
      invariant 0 < j < i ==> a[j - 1].timestamp <= a[j + 1].timestamp
    {
      Swap(a, j - 1, j);
      j := j - 1;
    }
  }

  method Swap(a: array<Entry>, i: nat, j: nat)
    requires i < j < a.Length
    modifies a
    ensures a[i] == old(a[j]) && a[j] == old(a[i])
    ensures forall k :: 0 <= k < a.Length && k != i && k != j ==> a[k] == old(a[k])
    ensures multiset(a[..]) == multiset(old(a[..]))
  {
    a[i], a[j] := a[j], a[i];
  }

  /** The sum of `f` over the entries. */
  function Total(s: seq<Entry>, f: Entry -> int): int {
    if |s| == 0 then 0 else Total(s[..|s| - 1], f) + f(s[|s| - 1])
  }

  lemma {:induction false} TotalConcat(x: seq<Entry>, y: seq<Entry>, f: Entry -> int)
    ensures Total(x + y, f) == Total(x, f) + Total(y, f)
  {
    if |y| > 0 {
      assert (x + y)[..|x + y| - 1] == x + y[..|y| - 1];
      TotalConcat(x, y[..|y| - 1], f);
    } else {
      assert x + y == x;
    }
  }

  /** Taking one entry out of the sequence takes its share out of the sum. */
  lemma {:induction false} TotalRemove(s: seq<Entry>, k: nat, f: Entry -> int)
    requires k < |s|
    ensures Total(s, f) == Total(s[..k] + s[k + 1..], f) + f(s[k])
  {
    var front, x, back := s[..k], s[k], s[k + 1..];
    assert s == front + [x] + back;
    TotalConcat(front + [x], back, f);
    TotalConcat(front, [x], f);
    TotalConcat(front, back, f);
    assert [x][..0] == [];
  }

  /** A sum over the entries does not depend on their order. */
  lemma {:induction false} TotalPermutation(a: seq<Entry>, b: seq<Entry>, f: Entry -> int)
    requires multiset(a) == multiset(b)
    ensures Total(a, f) == Total(b, f)
  {
    if |a| == 0 {
      assert |multiset(b)| == 0;
    } else {
      var p, x := a[..|a| - 1], a[|a| - 1];
      assert a == p + [x];
      assert x in multiset(b);
      var k :| 0 <= k < |b| && b[k] == x;
      var rest := b[..k] + b[k + 1..];
      assert b == b[..k] + [x] + b[k + 1..];
      assert multiset(rest) == multiset(b) - multiset{x};
      TotalPermutation(p, rest, f);
      TotalRemove(b, k, f);
    }
  }

  function UpWeight(e: Entry): int {
    if IsUp(e.data.status) then 1 else 0
  }

  function DownWeight(e: Entry): int {
    if IsDown(e.data.status) then 1 else 0
  }

  function ResponseWeight(e: Entry): int {
    e.data.responseTimeMs
  }

  /** The up and down counts are sums over the entries. */
  lemma {:induction false} CountsAreTotals(s: seq<Entry>)
    ensures CountUp(s) == Total(s, UpWeight) && CountDown(s) == Total(s, DownWeight)
  {
    if |s| > 0 {
      CountsAreTotals(s[..|s| - 1]);
    }
  }

  /**
   * `hourData.map(entry => entry.data.responseTimeMs)`: the list the
   * minimum, maximum and average are taken over, one value per entry at
   * the entry's own index, so the statistics can be stated per entry.
   */
  function ResponseTimes(s: seq<Entry>): (r: seq<int>)
    ensures |r| == |s| && forall i :: 0 <= i < |s| ==> r[i] == s[i].data.responseTimeMs
  {
    seq(|s|, i requires 0 <= i < |s| => s[i].data.responseTimeMs)
  }

  /** `Math.min(...xs)` of a non-empty list. */
  function Min(xs: seq<int>): (m: int)
    requires |xs| > 0
    ensures m in xs && forall i :: 0 <= i < |xs| ==> m <= xs[i]
  {
    if |xs| == 1 then xs[0]
    else
      var m := Min(xs[..|xs| - 1]);
      assert forall i :: 0 <= i < |xs| - 1 ==> xs[..|xs| - 1][i] == xs[i];
      if xs[|xs| - 1] < m then xs[|xs| - 1] else m
  }

  /** `Math.max(...xs)` of a non-empty list. */
  function Max(xs: seq<int>): (m: int)
    requires |xs| > 0
    ensures m in xs && forall i :: 0 <= i < |xs| ==> xs[i] <= m
  {
    if |xs| == 1 then xs[0]
    else
      var m := Max(xs[..|xs| - 1]);
      assert forall i :: 0 <= i < |xs| - 1 ==> xs[..|xs| - 1][i] == xs[i];
      if xs[|xs| - 1] > m then xs[|xs| - 1] else m
  }

  /**
   * The figures of the modal; None is the 'N/A' shown for an hour with
   * no entries. The average is the exact quotient, before `toFixed(2)`.
   */
  datatype HourStats = HourStats(
    total: nat,
    upCount: nat,
    downCount: nat,
    avgResponse: Option<real>,
    minResponse: Option<int>,
    maxResponse: Option<int>)

  /** The statistics `showHourlyDetail` computes over the hour's entries. */
  function HourStatsOf(hourData: seq<Entry>): (st: HourStats)
    ensures st.total == |hourData|
    ensures st.upCount + st.downCount <= st.total
    ensures st.avgResponse.None? <==> |hourData| == 0
    ensures st.minResponse.None? <==> |hourData| == 0
    ensures st.maxResponse.None? <==> |hourData| == 0
    ensures st.minResponse.Some? ==>
      && (forall i :: 0 <= i < |hourData| ==> st.minResponse.value <= hourData[i].data.responseTimeMs)
      && (exists i :: 0 <= i < |hourData| && hourData[i].data.responseTimeMs == st.minResponse.value)
    ensures st.maxResponse.Some? ==>
      && (forall i :: 0 <= i < |hourData| ==> hourData[i].data.responseTimeMs <= st.maxResponse.value)
      && (exists i :: 0 <= i < |hourData| && hourData[i].data.responseTimeMs == st.maxResponse.value)
  {
    UpDownBounded(hourData);
    var responseTimes := ResponseTimes(hourData);
    if |responseTimes| == 0 then
      HourStats(|hourData|, CountUp(hourData), CountDown(hourData), None, None, None)
    else
      var lo, hi := Min(responseTimes), Max(responseTimes);
      assert exists i :: 0 <= i < |hourData| && responseTimes[i] == lo;
      assert exists i :: 0 <= i < |hourData| && responseTimes[i] == hi;
      HourStats(|hourData|, CountUp(hourData), CountDown(hourData),
        Some(Total(hourData, ResponseWeight) as real / |hourData| as real), Some(lo), Some(hi))
  }

  /** The sum of the response times lies between `n` times their least and greatest. */
  lemma {:induction false} TotalBetween(s: seq<Entry>, lo: int, hi: int)
    requires forall i :: 0 <= i < |s| ==> lo <= s[i].data.responseTimeMs <= hi
    ensures |s| * lo <= Total(s, ResponseWeight) <= |s| * hi
  {
    if |s| > 0 {
      var p, last := s[..|s| - 1], s[|s| - 1];
      assert forall i :: 0 <= i < |p| ==> p[i] == s[i];
      TotalBetween(p, lo, hi);
      assert Total(s, ResponseWeight) == Total(p, ResponseWeight) + last.data.responseTimeMs;
      BoundsStep(|p|, Total(p, ResponseWeight), last.data.responseTimeMs, lo, hi);
    }
  }

  /** One more term between `lo` and `hi` keeps a sum of `k` such terms between `k * lo` and `k * hi`. */
  lemma BoundsStep(k: int, sum: int, w: int, lo: int, hi: int)
    requires k * lo <= sum <= k * hi && lo <= w <= hi
    ensures (k + 1) * lo <= sum + w <= (k + 1) * hi
  {
    assert (k + 1) * lo == k * lo + lo && (k + 1) * hi == k * hi + hi;
  }

  /** The average shown lies between the minimum and the maximum shown. */
  lemma AverageBetweenExtremes(hourData: seq<Entry>)
    requires |hourData| > 0
    ensures var st := HourStatsOf(hourData);
      st.minResponse.value as real <= st.avgResponse.value <= st.maxResponse.value as real
  {
    var st := HourStatsOf(hourData);
    TotalBetween(hourData, st.minResponse.value, st.maxResponse.value);
    MeanBetween(Total(hourData, ResponseWeight), |hourData|, st.minResponse.value, st.maxResponse.value);
  }

  /** An exact mean of integers bounded by `lo` and `hi` is bounded by them too. */
  lemma MeanBetween(sum: int, n: int, lo: int, hi: int)
    requires n > 0 && n * lo <= sum <= n * hi
    ensures lo as real <= sum as real / n as real <= hi as real
  {
    CastProduct(n, lo);
    CastProduct(n, hi);
    QuotientBetween(sum as real, n as real, lo as real, hi as real);
  }

  lemma CastProduct(a: int, b: int)
    ensures (a * b) as real == a as real * b as real
  {
  }

  lemma QuotientBetween(sum: real, n: real, lo: real, hi: real)
    requires n > 0.0 && n * lo <= sum <= n * hi
    ensures lo <= sum / n <= hi
  {
    assert (sum / n) * n == sum;
  }

  /**
   * The figures do not depend on the order of the entries: those of the
   * sorted array are those of the filtered one.
   */
  lemma StatsOrderFree(a: seq<Entry>, b: seq<Entry>)
    requires multiset(a) == multiset(b)
    ensures HourStatsOf(a) == HourStatsOf(b)
  {
    assert |a| == |multiset(a)| == |multiset(b)| == |b|;
    CountsAreTotals(a);
    CountsAreTotals(b);
    TotalPermutation(a, b, UpWeight);
    TotalPermutation(a, b, DownWeight);
    TotalPermutation(a, b, ResponseWeight);
    if |a| > 0 {
      var ra, rb := ResponseTimes(a), ResponseTimes(b);
      SameValues(a, b);
      assert Min(ra) == Min(rb) by {
        assert Min(ra) in rb && Min(rb) in ra;
      }
      assert Max(ra) == Max(rb) by {
        assert Max(ra) in rb && Max(rb) in ra;
      }
    }
  }

  /** Entries that are a permutation of each other have the same response times. */
  lemma SameValues(a: seq<Entry>, b: seq<Entry>)
    requires multiset(a) == multiset(b)
    ensures forall x :: x in ResponseTimes(a) <==> x in ResponseTimes(b)
  {
    forall x | x in ResponseTimes(a)
      ensures x in ResponseTimes(b)
    {
      var i :| 0 <= i < |a| && ResponseTimes(a)[i] == x;
      assert a[i] in multiset(b);
      var j :| 0 <= j < |b| && b[j] == a[i];
      assert ResponseTimes(b)[j] == x;
    }
    forall x | x in ResponseTimes(b)
      ensures x in ResponseTimes(a)
    {
      var j :| 0 <= j < |b| && ResponseTimes(b)[j] == x;
      assert b[j] in multiset(a);
      var i :| 0 <= i < |a| && a[i] == b[j];
      assert ResponseTimes(a)[i] == x;
    }
  }

  const UpPointColour := "rgba(64, 196, 99, 0.8)"
  const DownPointColour := "rgba(220, 53, 69, 0.8)"

  /** The point colour of an entry: green for `status === true`, red otherwise. */
  function PointColour(e: Entry): (c: string)
    ensures c == UpPointColour <==> IsUp(e.data.status)
    ensures c == DownPointColour <==> !IsUp(e.data.status)
  {
    if IsUp(e.data.status) then UpPointColour else DownPointColour
  }

  /** The three series of the response-time chart. */
  datatype Chart = Chart(labels: seq<string>, data: seq<int>, colours: seq<string>)

  /**
   * `createResponseTimeChart`: one label, one value and one point colour
   * per entry, at the entry's own index. `formatTime` is the time formatter,
   * a timezone lookup. Its per-index contract is what lets the detail
   * view state that the chart follows the sorted order.
   */
  function ChartOf(hourData: seq<Entry>, formatTime: Time -> string): (c: Chart)
    ensures |c.labels| == |c.data| == |c.colours| == |hourData|
    ensures forall i :: 0 <= i < |hourData| ==>
      && c.labels[i] == formatTime(hourData[i].timestamp)
      && c.data[i] == hourData[i].data.responseTimeMs
      && (c.colours[i] == UpPointColour <==> IsUp(hourData[i].data.status))
      && (c.colours[i] == DownPointColour <==> !IsUp(hourData[i].data.status))
  {
    Chart(seq(|hourData|, i requires 0 <= i < |hourData| => formatTime(hourData[i].timestamp)),
      ResponseTimes(hourData),
      seq(|hourData|, i requires 0 <= i < |hourData| => PointColour(hourData[i])))
  }

  /**
   * `showHourlyDetail`: the caller's array is sorted in place, then the
   * figures and the chart are taken from it in its new order.
   */
  method ShowHourlyDetail(hourData: array<Entry>, formatTime: Time -> string) returns (stats: HourStats, chart: Chart)
    modifies hourData
    ensures SortedByTime(hourData[..])
    ensures multiset(hourData[..]) == multiset(old(hourData[..]))
    ensures stats == HourStatsOf(hourData[..]) && stats == HourStatsOf(old(hourData[..]))
    ensures chart == ChartOf(hourData[..], formatTime)
  {
    SortByTimestamp(hourData);
    StatsOrderFree(hourData[..], old(hourData[..]));
    stats := HourStatsOf(hourData[..]);
    chart := ChartOf(hourData[..], formatTime);
  }
}
