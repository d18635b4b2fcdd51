/**
 * The browser client's data loading: the timezone configuration, the
 * log fetch with its today-mock insertion, and the mock data it falls
 * back to. Network replies, the clock, local-time construction and
 * `Math.random()` are parameters.
 */
module App {
  import opened Wrappers
  import opened Dates
  import opened Records
  import opened Dict

  const StatusUp := "bg-status-up"
  const StatusDown := "bg-status-down"

  /** `getStatusColor`: the colour class of a status slot, by its truthiness. */
  function GetStatusColor(status: Option<StatusValue>): (c: string)
    ensures c == StatusUp <==> Truthy(status)
    ensures c == StatusDown <==> !Truthy(status)
  {
    if Truthy(status) then StatusUp else StatusDown
  }

  /**
   * What a mock day depends on besides its date: the local hour of the
   * moment it is made, the local-time constructor `new Date(y, m, d,
   * hour, minute, 0)` for that date, and the successive `Math.random()`
   * values.
   */
  datatype MockSource = MockSource(currentHour: Hour, stamp: (int, int) -> Time, rand: nat -> Unit)

  /** Hour and minute of the `k`-th mock entry: four per hour, a quarter apart. */
  function MockSlot(k: nat): (slot: (int, int))
    ensures slot.0 == k / 4
    ensures slot.1 in {0, 15, 30, 45}
    ensures 60 * slot.0 + slot.1 == 15 * k
  {
    (k / 4, 15 * (k % 4))
  }

  /** `Math.floor(r * span) + 50`. */
  function MockResponseTime(r: Unit, span: nat): (ms: int)
    requires span > 0
    ensures 50 <= ms <= span + 49
  {
    var x := r * span as real;
    assert 0.0 <= x < span as real;
    x.Floor + 50
  }

  /**
   * The `k`-th entry of a mock day. The entry on the hour is up when its
   * draw exceeds 0.1 and its latency spans 500 ms; the three follow-ups
   * use 0.05 and 400 ms. Entry `k` consumes draws `2k` and `2k + 1`.
   */
  function MockEntry(src: MockSource, k: nat): (e: Entry)
    ensures e.data.status.Flag?
    ensures e.data.statusCode == Some(200) <==> IsUp(e.data.status)
    ensures !IsUp(e.data.status) ==> e.data.statusCode == Some(503)
    ensures k % 4 == 0 ==> 50 <= e.data.responseTimeMs <= 549
    ensures k % 4 != 0 ==> 50 <= e.data.responseTimeMs <= 449
  {
    var onTheHour := k % 4 == 0;
    var isUp := src.rand(2 * k) > (if onTheHour then 0.1 else 0.05);
    var responseTime := MockResponseTime(src.rand(2 * k + 1), if onTheHour then 500 else 400);
    Entry(src.stamp(MockSlot(k).0, MockSlot(k).1), None,
      Data(Flag(isUp), None, responseTime, Some(if isUp then 200 else 503)))
  }

  /** The mock entries for one date, hour by hour up to the current hour. */
  function MockDay(src: MockSource): (s: seq<Entry>)
    ensures |s| == 4 * (src.currentHour + 1)
    ensures forall k :: 0 <= k < |s| ==> s[k] == MockEntry(src, k)
  {
    seq(4 * (src.currentHour + 1), k requires 0 <= k => MockEntry(src, k))
  }

  /**
   * The mock entries run hour by hour up to the current hour, four to an
   * hour at minutes 0, 15, 30 and 45, each stamped with its own hour and
   * minute of the date, in strictly increasing (hour, minute) order.
   */
  lemma MockDayOrder(src: MockSource, i: nat, j: nat)
    requires i < j < |MockDay(src)|
    ensures MockDay(src)[i].timestamp == src.stamp(i / 4, 15 * (i % 4))
    ensures 0 <= i / 4 <= j / 4 <= src.currentHour
    ensures i / 4 == j / 4 ==> 15 * (i % 4) < 15 * (j % 4)
  {
    assert MockDay(src)[i] == MockEntry(src, i);
  }

  /** `createMockDataForDate`: the nested loops of the mock generator. */
  method CreateMockDataForDate(src: MockSource) returns (mockEntries: seq<Entry>)
    ensures mockEntries == MockDay(src)
  {
    mockEntries := [];
    var draws: nat := 0;
    for i := 0 to 24
      invariant |mockEntries| == 4 * (if i <= src.currentHour then i else src.currentHour + 1)
      invariant draws == 2 * |mockEntries|
      invariant forall k :: 0 <= k < |mockEntries| ==> mockEntries[k] == MockEntry(src, k)
    {
      if i <= src.currentHour {
        var isUp := src.rand(draws) > 0.1;
        var responseTime := MockResponseTime(src.rand(draws + 1), 500);
        draws := draws + 2;
        mockEntries := mockEntries + [Entry(src.stamp(i, 0), None,
          Data(Flag(isUp), None, responseTime, Some(if isUp then 200 else 503)))];
        for j := 1 to 4
          invariant |mockEntries| == 4 * i + j
          invariant draws == 2 * |mockEntries|
          invariant forall k :: 0 <= k < |mockEntries| ==> mockEntries[k] == MockEntry(src, k)
        {
          var minutes := j * 15;
          var isUpFollowup := src.rand(draws) > 0.05;
          var responseTimeFollowup := MockResponseTime(src.rand(draws + 1), 400);
          draws := draws + 2;
          mockEntries := mockEntries + [Entry(src.stamp(i, minutes), None,
            Data(Flag(isUpFollowup), None, responseTimeFollowup, Some(if isUpFollowup then 200 else 503)))];
        }
      }
    }
  }

  /**
   * `createMockData`: today's and yesterday's mock days, keyed by the
   * two date strings; a second write under the same key replaces the first.
   */
  method CreateMockData(todayStr: string, today: MockSource, yesterdayStr: string, yesterday: MockSource)
    returns (data: Dict<seq<Entry>>)
    ensures Keys(data) == if todayStr == yesterdayStr then [todayStr] else [todayStr, yesterdayStr]
    ensures Get(data, yesterdayStr) == Some(MockDay(yesterday))
    ensures todayStr != yesterdayStr ==> Get(data, todayStr) == Some(MockDay(today))
  {
    data := [];
    var todayEntries := CreateMockDataForDate(today);
    data := Put(data, todayStr, todayEntries);
    var yesterdayEntries := CreateMockDataForDate(yesterday);
    data := Put(data, yesterdayStr, yesterdayEntries);
  }

  /**
   * The today-mock rule: when the server's date is a non-empty string
   * and the logs have no entry under it, exactly that key is added.
   */
  function WithTodayMock(logs: Dict<seq<Entry>>, serverDate: Option<string>, mock: seq<Entry>): (r: Dict<seq<Entry>>)
    ensures forall k :: k in Keys(logs) ==> Get(r, k) == Get(logs, k)
    ensures serverDate.Some? && serverDate.value != "" && serverDate.value !in Keys(logs) ==>
      Keys(r) == Keys(logs) + [serverDate.value] && Get(r, serverDate.value) == Some(mock)
    ensures !(serverDate.Some? && serverDate.value != "" && serverDate.value !in Keys(logs)) ==> r == logs
  {
    if serverDate.Some? && serverDate.value != "" && Get(logs, serverDate.value).None? then
      Put(logs, serverDate.value, mock)
    else
      logs
  }

  /** How the timezone request ended. */
  datatype TimezoneReply =
    | TimezoneNotOk(status: int)
    | TimezoneBody(formattedDate: Option<string>, timezone: Option<string>)
    | TimezoneFailed    // the fetch rejected or the body was not JSON

  /** How the log request ended; `logs` is the body's `logs` field, None when it is missing. */
  datatype LogsReply =
    | LogsNotOk(status: int)
    | LogsBody(logs: Option<Dict<seq<Entry>>>)
    | LogsFailed

  /** `data.logs || {}`. */
  function LogsOf(logs: Option<Dict<seq<Entry>>>): Dict<seq<Entry>> {
    if logs.Some? then logs.value else []
  }

  const DefaultTimezone := "UTC"

  /** The client's globals; None stands for `null` or `undefined`. */
  class Client {
    var serverTimezone: Option<string>
    var serverDate: Option<string>

    constructor ()
      ensures serverTimezone == Some(DefaultTimezone) && serverDate == None
    {
      serverTimezone := Some(DefaultTimezone);
      serverDate := None;
    }

    /**
     * `fetchTimezoneConfig`: the server's timezone, or 'UTC' when the
     * request is not ok or throws; the server's date is recorded only
     * from a successful reply.
     */
    method FetchTimezoneConfig(reply: TimezoneReply) returns (timezone: Option<string>)
      modifies this
      ensures serverTimezone == old(serverTimezone)
      ensures reply.TimezoneBody? ==> timezone == reply.timezone && serverDate == reply.formattedDate
      ensures !reply.TimezoneBody? ==> timezone == Some(DefaultTimezone) && serverDate == old(serverDate)
    {
      match reply
      case TimezoneNotOk(_) =>
        return Some(DefaultTimezone);
      case TimezoneFailed =>
        return Some(DefaultTimezone);
      case TimezoneBody(formattedDate, tz) =>
        serverDate := formattedDate;
        return tz;
    }

    /**
     * `loadStatusData`: the timezone first, then the logs with today's
     * mock inserted when missing; any failure of the log request gives
     * the two-day mock data instead. `todayStr` and `yesterdayStr` are
     * the dates the fallback computes in the server's timezone.
     */
    method LoadStatusData(tzReply: TimezoneReply, logsReply: LogsReply, todayMock: MockSource,
                          todayStr: string, fallbackToday: MockSource,
                          yesterdayStr: string, fallbackYesterday: MockSource)
      returns (logs: Dict<seq<Entry>>)
      modifies this
      ensures serverTimezone == if tzReply.TimezoneBody? then tzReply.timezone else Some(DefaultTimezone)
      ensures serverDate == if tzReply.TimezoneBody? then tzReply.formattedDate else old(serverDate)
      ensures logsReply.LogsBody? ==> logs == WithTodayMock(LogsOf(logsReply.logs), serverDate, MockDay(todayMock))
      ensures !logsReply.LogsBody? ==>
        Keys(logs) == (if todayStr == yesterdayStr then [todayStr] else [todayStr, yesterdayStr])
        && Get(logs, yesterdayStr) == Some(MockDay(fallbackYesterday))
        && (todayStr != yesterdayStr ==> Get(logs, todayStr) == Some(MockDay(fallbackToday)))
    {
      serverTimezone := FetchTimezoneConfig(tzReply);
      if !logsReply.LogsBody? {
        logs := CreateMockData(todayStr, fallbackToday, yesterdayStr, fallbackYesterday);
        return;
      }
      logs := LogsOf(logsReply.logs);
      if serverDate.Some? && serverDate.value != "" && Get(logs, serverDate.value).None? {
        var mock := CreateMockDataForDate(todayMock);
        logs := Put(logs, serverDate.value, mock);
      }
    }
  }
}
