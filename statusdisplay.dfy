/**
 * The status page: per day, the up/down/total counters and the 24
 * hourly slots (last status, scan count), the hourly timeline cells with
 * their tooltip and click filters, the container order with today first,
 * and today's summary card.
 */
module StatusDisplay {
  import opened Wrappers
  import opened Dates
  import opened Records
  import opened Dict
  import opened App

  /**
   * The hour of an instant as the page computes it. With a valid
   * timezone name `toLocaleString` succeeds for every entry and gives the
   * zone's wall-clock hour; with an invalid one it throws for every entry
   * and the page falls back to the browser's local hour. Both hours are
   * foreign calls.
   */
  datatype HourLookup = HourLookup(zoneValid: bool, zoneHour: Time -> Hour, localHour: Time -> Hour)

  /** The hour the counting loop files an entry under. */
  function CountingHour(lookup: HourLookup, t: Time): Hour {
    if lookup.zoneValid then lookup.zoneHour(t) else lookup.localHour(t)
  }

  function ScanHour(lookup: HourLookup): Time -> Option<Hour> {
    t => Some(CountingHour(lookup, t))
  }

  /**
   * The hour the tooltip and click filters compute, as written: their
   * fallback shifts the instant by eight hours before taking the local
   * hour; an instant shifted out of range is an invalid date, whose hour
   * matches none.
   */
  function FilterHourAsWritten(lookup: HourLookup, t: Time): Option<Hour> {
    if lookup.zoneValid then Some(lookup.zoneHour(t))
    else if -MaxTime <= t + 8 * MsPerHour <= MaxTime then Some(lookup.localHour(t + 8 * MsPerHour))
    else None
  }

  function TooltipHourAsWritten(lookup: HourLookup): Time -> Option<Hour> {
    t => FilterHourAsWritten(lookup, t)
  }

  /**
   * `dayData.filter(entry => entryHour === hour)`: the entries whose hour
   * is `h`, in their order.
   */
  function InHour(s: seq<Entry>, hourOf: Time -> Option<Hour>, h: Hour): (r: seq<Entry>)
    ensures |r| <= |s|
  {
    if |s| == 0 then []
    else InHour(s[..|s| - 1], hourOf, h) + (if hourOf(s[|s| - 1].timestamp) == Some(h) then [s[|s| - 1]] else [])
  }

  /** The filter appended to: the new entry joins exactly when it is of hour `h`. */
  lemma InHourAppend(s: seq<Entry>, e: Entry, hourOf: Time -> Option<Hour>, h: Hour)
    ensures InHour(s + [e], hourOf, h) == InHour(s, hourOf, h) + (if hourOf(e.timestamp) == Some(h) then [e] else [])
    ensures LastStatusIn(s + [e], hourOf, h) == if hourOf(e.timestamp) == Some(h) then Some(e.data.status) else LastStatusIn(s, hourOf, h)
  {
    assert (s + [e])[..|s|] == s;
  }

  /** The filter keeps exactly the entries of hour `h`. */
  lemma {:induction false} InHourMembers(s: seq<Entry>, hourOf: Time -> Option<Hour>, h: Hour)
    ensures forall e :: e in InHour(s, hourOf, h) <==> e in s && hourOf(e.timestamp) == Some(h)
  {
    if |s| > 0 {
      var p := s[..|s| - 1];
      assert s == p + [s[|s| - 1]];
      InHourMembers(p, hourOf, h);
    }
  }

  /** The status of the last entry of hour `h`, None (`null`) when there is none. */
  function LastStatusIn(s: seq<Entry>, hourOf: Time -> Option<Hour>, h: Hour): Option<StatusValue> {
    if |s| == 0 then None
    else if hourOf(s[|s| - 1].timestamp) == Some(h) then Some(s[|s| - 1].data.status)
    else LastStatusIn(s[..|s| - 1], hourOf, h)
  }

  /**
   * The slot holds the status of the last entry of its hour, in input
   * order, and is empty exactly when the hour has no entries.
   */
  lemma {:induction false} LastStatusIsLast(s: seq<Entry>, hourOf: Time -> Option<Hour>, h: Hour)
    ensures LastStatusIn(s, hourOf, h).None? <==> |InHour(s, hourOf, h)| == 0
    ensures LastStatusIn(s, hourOf, h).Some? ==>
      exists i :: 0 <= i < |s| && hourOf(s[i].timestamp) == Some(h) && s[i].data.status == LastStatusIn(s, hourOf, h).value
        && forall j :: i < j < |s| ==> hourOf(s[j].timestamp) != Some(h)
  {
    if |s| > 0 {
      var p := s[..|s| - 1];
      assert forall i :: 0 <= i < |p| ==> p[i] == s[i];
      LastStatusIsLast(p, hourOf, h);
      if hourOf(s[|s| - 1].timestamp) != Some(h) && LastStatusIn(p, hourOf, h).Some? {
        var i :| 0 <= i < |p| && hourOf(p[i].timestamp) == Some(h) && p[i].data.status == LastStatusIn(p, hourOf, h).value
          && forall j :: i < j < |p| ==> hourOf(p[j].timestamp) != Some(h);
        assert forall j :: i < j < |s| ==> hourOf(s[j].timestamp) != Some(h);
      }
    }
  }

  /** The entries of hours below `n`, as a multiset. */
  function EntriesBelowHour(s: seq<Entry>, hourOf: Time -> Option<Hour>, n: nat): multiset<Entry>
    requires n <= 24
  {
    if n == 0 then multiset{} else EntriesBelowHour(s, hourOf, n - 1) + multiset(InHour(s, hourOf, n - 1))
  }

  /** One more entry adds itself to the hours below `n` exactly when its hour is below `n`. */
  lemma {:induction false} EntriesBelowHourStep(s: seq<Entry>, e: Entry, hourOf: Time -> Option<Hour>, n: nat)
    requires n <= 24
    ensures EntriesBelowHour(s + [e], hourOf, n) ==
      EntriesBelowHour(s, hourOf, n) + (if hourOf(e.timestamp).Some? && hourOf(e.timestamp).value < n then multiset{e} else multiset{})
  {
    if n > 0 {
      EntriesBelowHourStep(s, e, hourOf, n - 1);
      EntriesBelowHourNext(s, e, hourOf, n);
    }
  }

  lemma EntriesBelowHourNext(s: seq<Entry>, e: Entry, hourOf: Time -> Option<Hour>, n: nat)
    requires 0 < n <= 24
    requires EntriesBelowHour(s + [e], hourOf, n - 1) ==
      EntriesBelowHour(s, hourOf, n - 1) + (if hourOf(e.timestamp).Some? && hourOf(e.timestamp).value < n - 1 then multiset{e} else multiset{})
    ensures EntriesBelowHour(s + [e], hourOf, n) ==
      EntriesBelowHour(s, hourOf, n) + (if hourOf(e.timestamp).Some? && hourOf(e.timestamp).value < n then multiset{e} else multiset{})
  {
    var h := hourOf(e.timestamp);
    EntriesBelowHourUnfold(s, hourOf, n);
    EntriesBelowHourUnfold(s + [e], hourOf, n);
    InHourSnocMultiset(s, e, hourOf, n - 1);
    StepShape(EntriesBelowHour(s, hourOf, n), EntriesBelowHour(s + [e], hourOf, n),
              EntriesBelowHour(s, hourOf, n - 1), EntriesBelowHour(s + [e], hourOf, n - 1),
              multiset(InHour(s, hourOf, n - 1)), multiset(InHour(s + [e], hourOf, n - 1)),
              e, h.Some? && h.value < n - 1, h == Some(n - 1), h.Some? && h.value < n);
  }

  lemma EntriesBelowHourUnfold(s: seq<Entry>, hourOf: Time -> Option<Hour>, n: nat)
    requires 0 < n <= 24
    ensures EntriesBelowHour(s, hourOf, n) == EntriesBelowHour(s, hourOf, n - 1) + multiset(InHour(s, hourOf, n - 1))
  {
  }

  lemma InHourSnocMultiset(s: seq<Entry>, e: Entry, hourOf: Time -> Option<Hour>, h: Hour)
    ensures multiset(InHour(s + [e], hourOf, h)) ==
      multiset(InHour(s, hourOf, h)) + if hourOf(e.timestamp) == Some(h) then multiset{e} else multiset{}
  {
    InHourAppend(s, e, hourOf, h);
    MultisetSnocIf(InHour(s, hourOf, h), e, hourOf(e.timestamp) == Some(h));
  }

  /** Adding `x` to one of two disjoint parts exactly when either condition holds. */
  lemma StepShape<T>(total: multiset<T>, total': multiset<T>, a: multiset<T>, a': multiset<T>,
                     b: multiset<T>, b': multiset<T>, x: T, p: bool, q: bool, r: bool)
    requires total == a + b && total' == a' + b'
    requires a' == a + (if p then multiset{x} else multiset{})
    requires b' == b + (if q then multiset{x} else multiset{})
    requires !(p && q) && r == (p || q)
    ensures total' == total + if r then multiset{x} else multiset{}
  {
    AddEither(a, a', b, b', x, p, q);
  }

  lemma MultisetSnocIf<T>(xs: seq<T>, x: T, add: bool)
    ensures multiset(xs + if add then [x] else []) == multiset(xs) + if add then multiset{x} else multiset{}
  {
    if !add {
      assert xs + [] == xs;
    }
  }

  /** Two disjoint conditions each adding `x` to one part add it to the sum when either holds. */
  lemma AddEither<T>(a: multiset<T>, a': multiset<T>, b: multiset<T>, b': multiset<T>, x: T, p: bool, q: bool)
    requires !(p && q)
    requires a' == a + if p then multiset{x} else multiset{}
    requires b' == b + if q then multiset{x} else multiset{}
    ensures a' + b' == a + b + if p || q then multiset{x} else multiset{}
  {
  }

  /**
   * When every entry has an hour, the 24 hourly filters partition the
   * day: together they hold each entry exactly as often as the day does,
   * so the scan counts add up to the number of entries.
   */
  lemma {:induction false} HoursPartition(s: seq<Entry>, hourOf: Time -> Option<Hour>)
    requires forall i :: 0 <= i < |s| ==> hourOf(s[i].timestamp).Some?
    ensures EntriesBelowHour(s, hourOf, 24) == multiset(s)
    ensures ScanTotal(s, hourOf, 24) == |s|
  {
    if |s| > 0 {
      var p := s[..|s| - 1];
      assert s == p + [s[|s| - 1]];
      assert forall i :: 0 <= i < |p| ==> p[i] == s[i];
      HoursPartition(p, hourOf);
      EntriesBelowHourStep(p, s[|s| - 1], hourOf, 24);
      assert hourOf(s[|s| - 1].timestamp).Some?;
      assert multiset(s) == multiset(p) + multiset{s[|s| - 1]};
    } else {
      NoEntriesBelowHour(hourOf, 24);
    }
    ScanTotalIsSize(s, hourOf, 24);
  }

  lemma {:induction false} NoEntriesBelowHour(hourOf: Time -> Option<Hour>, n: nat)
    requires n <= 24
    ensures EntriesBelowHour([], hourOf, n) == multiset{}
  {
    if n > 0 {
      NoEntriesBelowHour(hourOf, n - 1);
    }
  }

  /** The sum of the scan counts of the hours below `n`. */
  function ScanTotal(s: seq<Entry>, hourOf: Time -> Option<Hour>, n: nat): nat
    requires n <= 24
  {
    if n == 0 then 0 else ScanTotal(s, hourOf, n - 1) + |InHour(s, hourOf, n - 1)|
  }

  lemma {:induction false} ScanTotalIsSize(s: seq<Entry>, hourOf: Time -> Option<Hour>, n: nat)
    requires n <= 24
    ensures ScanTotal(s, hourOf, n) == |EntriesBelowHour(s, hourOf, n)|
  {
    if n > 0 {
      ScanTotalIsSize(s, hourOf, n - 1);
    }
  }

  /** The counters and hourly slots of one day. */
  datatype Tally = Tally(
    upCount: nat,
    failedCount: nat,
    totalDataPoints: nat,
    hourlyData: seq<Option<StatusValue>>,
    hourlyScans: seq<nat>)

  /** What the counting loop computes for a day, stated entry-set by entry-set. */
  function TallyOf(dayData: seq<Entry>, lookup: HourLookup): (t: Tally)
    ensures |t.hourlyData| == 24 && |t.hourlyScans| == 24
  {
    Tally(CountUp(dayData), CountDown(dayData), |dayData|,
      seq(24, h requires 0 <= h < 24 => LastStatusIn(dayData, ScanHour(lookup), h)),
      seq(24, h requires 0 <= h < 24 => |InHour(dayData, ScanHour(lookup), h)|))
  }

  /** The `forEach` over a day's entries, filling the counters and the two 24-slot arrays. */
  method CountDay(dayData: seq<Entry>, lookup: HourLookup) returns (t: Tally)
    ensures t == TallyOf(dayData, lookup)
  {
    var upCount, failedCount, totalDataPoints := 0, 0, 0;
    var hourlyData := new Option<StatusValue>[24](_ => None);
    var hourlyScans := new nat[24](_ => 0);
    for i := 0 to |dayData|
      invariant upCount == CountUp(dayData[..i]) && failedCount == CountDown(dayData[..i])
      invariant totalDataPoints == i
      invariant forall h :: 0 <= h < 24 ==> hourlyData[h] == LastStatusIn(dayData[..i], ScanHour(lookup), h)
      invariant forall h :: 0 <= h < 24 ==> hourlyScans[h] == |InHour(dayData[..i], ScanHour(lookup), h)|
    {
      var entry := dayData[i];
      assert dayData[..i + 1] == dayData[..i] + [entry];
      CountStep(dayData[..i], entry, lookup);
      var hour := CountingHour(lookup, entry.timestamp);
      hourlyData[hour] := Some(entry.data.status);
      hourlyScans[hour] := hourlyScans[hour] + 1;
      if entry.data.status == Flag(true) {
        upCount := upCount + 1;
      } else if entry.data.status == Flag(false) {
        failedCount := failedCount + 1;
      }
      totalDataPoints := totalDataPoints + 1;
    }
    assert dayData[..|dayData|] == dayData;
    t := Tally(upCount, failedCount, totalDataPoints, hourlyData[..], hourlyScans[..]);
  }

  /** What one more entry does to the counters and to each hour's slots. */
  lemma CountStep(p: seq<Entry>, e: Entry, lookup: HourLookup)
    ensures CountUp(p + [e]) == CountUp(p) + if IsUp(e.data.status) then 1 else 0
    ensures CountDown(p + [e]) == CountDown(p) + if IsDown(e.data.status) then 1 else 0
    ensures forall h :: 0 <= h < 24 ==>
      LastStatusIn(p + [e], ScanHour(lookup), h)
        == if h == CountingHour(lookup, e.timestamp) then Some(e.data.status) else LastStatusIn(p, ScanHour(lookup), h)
    ensures forall h :: 0 <= h < 24 ==>
      |InHour(p + [e], ScanHour(lookup), h)|
        == |InHour(p, ScanHour(lookup), h)| + if h == CountingHour(lookup, e.timestamp) then 1 else 0
  {
    assert (p + [e])[..|p|] == p;
    forall h | 0 <= h < 24 {
      InHourAppend(p, e, ScanHour(lookup), h);
    }
  }

  /**
   * The counters of a day: down and up never exceed the total, the total
   * is the number of entries and is the sum of the hourly scan counts,
   * and an hour has a status exactly when it has scans.
   */
  lemma TallyFacts(dayData: seq<Entry>, lookup: HourLookup)
    ensures TallyOf(dayData, lookup).totalDataPoints == |dayData|
    ensures TallyOf(dayData, lookup).upCount + TallyOf(dayData, lookup).failedCount <= |dayData|
    ensures ScanTotal(dayData, ScanHour(lookup), 24) == |dayData|
    ensures forall h :: 0 <= h < 24 ==>
      (TallyOf(dayData, lookup).hourlyData[h].Some? <==> TallyOf(dayData, lookup).hourlyScans[h] > 0)
  {
    UpDownBounded(dayData);
    HoursPartition(dayData, ScanHour(lookup));
    forall h | 0 <= h < 24 {
      LastStatusIsLast(dayData, ScanHour(lookup), h);
    }
  }

  const NoDataColour := "bg-gray-200"

  /**
   * One timeline cell: its colour class, scan count and status, the
   * entries its tooltip averages, and whether a click opens the detail.
   */
  datatype Cell = Cell(hour: Hour, colour: string, scans: nat, status: Option<StatusValue>,
                       tooltipEntries: seq<Entry>, opensDetail: bool)

  /** A cell of hour `h` whose tooltip and click filter entries by `filterHour`. */
  function CellWith(t: Tally, dayData: seq<Entry>, filterHour: Time -> Option<Hour>, h: Hour): Cell
    requires |t.hourlyData| == 24 && |t.hourlyScans| == 24
  {
    var scans := t.hourlyScans[h];
    var status := t.hourlyData[h];
    var hourData := InHour(dayData, filterHour, h);
    Cell(h, if scans > 0 then GetStatusColor(status) else NoDataColour, scans, status,
      hourData, scans > 0 && |hourData| > 0)
  }

  /** The cell of hour `h` as the page builds it, with the filters' own fallback hour. */
  function CellOf(t: Tally, dayData: seq<Entry>, lookup: HourLookup, h: Hour): Cell
    requires |t.hourlyData| == 24 && |t.hourlyScans| == 24
  {
    CellWith(t, dayData, TooltipHourAsWritten(lookup), h)
  }

  /**
   * The cell of hour `h` with the fallback the filters' comments describe:
   * the same hour as the counting loop.
   */
  function CorrectedCellOf(t: Tally, dayData: seq<Entry>, lookup: HourLookup, h: Hour): Cell
    requires |t.hourlyData| == 24 && |t.hourlyScans| == 24
  {
    CellWith(t, dayData, ScanHour(lookup), h)
  }

  /** `createHourlyTimeline`: the loop over the 24 hours. */
  method CreateHourlyTimeline(t: Tally, dayData: seq<Entry>, lookup: HourLookup) returns (cells: seq<Cell>)
    requires |t.hourlyData| == 24 && |t.hourlyScans| == 24
    ensures |cells| == 24
    ensures forall h :: 0 <= h < 24 ==> cells[h] == CellOf(t, dayData, lookup, h)
  {
    cells := [];
    for hour := 0 to 24
      invariant |cells| == hour
      invariant forall h :: 0 <= h < hour ==> cells[h] == CellOf(t, dayData, lookup, h)
    {
      var status := t.hourlyData[hour];
      var scans := t.hourlyScans[hour];
      var colour := NoDataColour;
      var hourData := InHour(dayData, TooltipHourAsWritten(lookup), hour);
      var opensDetail := false;
      if scans > 0 {
        colour := GetStatusColor(status);
        opensDetail := |hourData| > 0;
      }
      var cell := Cell(hour, colour, scans, status, hourData, opensDetail);
      assert cell == CellOf(t, dayData, lookup, hour);
      cells := cells + [cell];
    }
  }

  /**
   * With the corrected filter, a day's cells agree with its counters: a
   * cell is grey exactly when its hour has no scans and otherwise takes
   * the status colour, its tooltip covers exactly its scans, and it opens
   * the detail exactly when it has scans.
   */
  lemma CellsAgree(dayData: seq<Entry>, lookup: HourLookup, h: Hour)
    ensures var c := CorrectedCellOf(TallyOf(dayData, lookup), dayData, lookup, h);
      && |c.tooltipEntries| == c.scans
      && (c.opensDetail <==> c.scans > 0)
      && (c.status.Some? <==> c.scans > 0)
      && (c.scans == 0 ==> c.colour == NoDataColour)
      && (c.scans > 0 ==> c.colour == GetStatusColor(c.status))
  {
    TallyFacts(dayData, lookup);
  }

  /**
   * When the timezone name is valid no filter falls back, so the page's
   * cells are the corrected ones and agree with the counters as
   * CellsAgree states.
   */
  lemma ValidZoneCellsAgree(dayData: seq<Entry>, lookup: HourLookup, h: Hour)
    requires lookup.zoneValid
    ensures CellOf(TallyOf(dayData, lookup), dayData, lookup, h) == CorrectedCellOf(TallyOf(dayData, lookup), dayData, lookup, h)
    ensures var c := CellOf(TallyOf(dayData, lookup), dayData, lookup, h);
      && |c.tooltipEntries| == c.scans
      && (c.opensDetail <==> c.scans > 0)
  {
    SameHoursSameFilter(dayData, TooltipHourAsWritten(lookup), ScanHour(lookup), h);
    CellsAgree(dayData, lookup, h);
  }

  /** Two hour functions that agree on a day's entries filter it alike. */
  lemma {:induction false} SameHoursSameFilter(s: seq<Entry>, f: Time -> Option<Hour>, g: Time -> Option<Hour>, h: Hour)
    requires forall i :: 0 <= i < |s| ==> f(s[i].timestamp) == g(s[i].timestamp)
    ensures InHour(s, f, h) == InHour(s, g, h)
  {
    if |s| > 0 {
      var p := s[..|s| - 1];
      assert forall i :: 0 <= i < |p| ==> p[i] == s[i];
      SameHoursSameFilter(p, f, g, h);
    }
  }

  /**
   * As written, the fallback filter and the counting loop disagree: on
   * a browser that keeps UTC, with an invalid timezone name, an entry at
   * 00:30 is counted under hour 0 but the filters look for it under
   * hour 8, so the page's cell of hour 0 is coloured with one scan while
   * its tooltip averages no entries and a click opens nothing.
   */
  lemma FallbackFilterMismatch()
    ensures var lookup := HourLookup(false, t => 0, UtcHour);
      var e := Entry(30 * MsPerMinute, None, Data(Flag(true), None, 10, None));
      var c := CellOf(TallyOf([e], lookup), [e], lookup, 0);
      && c.scans == 1 && c.colour == GetStatusColor(Some(Flag(true)))
      && c.tooltipEntries == [] && !c.opensDetail
  {
    var lookup := HourLookup(false, t => 0, UtcHour);
    var e := Entry(30 * MsPerMinute, None, Data(Flag(true), None, 10, None));
    HalfPastMidnight();
    InHourSingle(e, ScanHour(lookup), 0);
    InHourSingle(e, TooltipHourAsWritten(lookup), 0);
    assert [e][..0] == [];
  }

  /** The local hour of a browser that keeps UTC. */
  function UtcHour(t: Time): Hour {
    TimeWithinDay(t) / MsPerHour
  }

  lemma HalfPastMidnight()
    ensures UtcHour(30 * MsPerMinute) == 0
    ensures UtcHour(30 * MsPerMinute + 8 * MsPerHour) == 8
  {
    assert TimeWithinDay(30 * MsPerMinute) == 30 * MsPerMinute;
    assert TimeWithinDay(30 * MsPerMinute + 8 * MsPerHour) == 30 * MsPerMinute + 8 * MsPerHour;
  }

  lemma InHourSingle(e: Entry, hourOf: Time -> Option<Hour>, h: Hour)
    ensures InHour([e], hourOf, h) == if hourOf(e.timestamp) == Some(h) then [e] else []
  {
    assert [e][..0] == [];
  }

  /** The container of one day. */
  datatype DayPanel = DayPanel(dateStr: string, isToday: bool, upCount: nat, failedCount: nat,
                               totalDataPoints: nat, cells: seq<Cell>)

  /** `dateStr === todayStr`; a missing server date equals no key. */
  predicate IsToday(dateStr: string, todayStr: Option<string>) {
    todayStr == Some(dateStr)
  }

  function PanelOf(dateStr: string, dayData: seq<Entry>, todayStr: Option<string>, lookup: HourLookup): DayPanel {
    var t := TallyOf(dayData, lookup);
    DayPanel(dateStr, IsToday(dateStr, todayStr), t.upCount, t.failedCount, t.totalDataPoints,
      seq(24, h requires 0 <= h < 24 => CellOf(t, dayData, lookup, h)))
  }

  /**
   * The containers of the non-empty days, in iteration order, before
   * they are placed on the page.
   */
  function DayPanels(statusData: Dict<seq<Entry>>, todayStr: Option<string>, lookup: HourLookup): seq<DayPanel> {
    if |statusData| == 0 then []
    else
      var dateStr, dayData := statusData[|statusData| - 1].0, statusData[|statusData| - 1].1;
      DayPanels(statusData[..|statusData| - 1], todayStr, lookup)
        + (if |dayData| > 0 then [PanelOf(dateStr, dayData, todayStr, lookup)] else [])
  }

  /**
   * Each container is of a non-empty day, and is marked as today's
   * exactly when its key is the server's date.
   */
  lemma {:induction false} DayPanelAt(statusData: Dict<seq<Entry>>, todayStr: Option<string>, lookup: HourLookup, i: nat)
    requires i < |DayPanels(statusData, todayStr, lookup)|
    ensures var panel := DayPanels(statusData, todayStr, lookup)[i];
      panel.totalDataPoints > 0 && panel.isToday == IsToday(panel.dateStr, todayStr)
  {
    var p := statusData[..|statusData| - 1];
    if i < |DayPanels(p, todayStr, lookup)| {
      DayPanelAt(p, todayStr, lookup, i);
    }
  }

  /** The insertion rule: a today container goes in front, any other at the end. */
  function TodayFirst(ps: seq<DayPanel>): seq<DayPanel> {
    if |ps| == 0 then []
    else if ps[|ps| - 1].isToday then [ps[|ps| - 1]] + TodayFirst(ps[..|ps| - 1])
    else TodayFirst(ps[..|ps| - 1]) + [ps[|ps| - 1]]
  }

  /** The containers whose today-ness is `today`, in their order. */
  function WhereToday(ps: seq<DayPanel>, today: bool): (r: seq<DayPanel>)
    ensures forall i :: 0 <= i < |r| ==> r[i].isToday == today
  {
    if |ps| == 0 then []
    else WhereToday(ps[..|ps| - 1], today) + (if ps[|ps| - 1].isToday == today then [ps[|ps| - 1]] else [])
  }

  function Reverse<T>(s: seq<T>): (r: seq<T>)
    ensures |r| == |s|
  {
    if |s| == 0 then [] else [s[|s| - 1]] + Reverse(s[..|s| - 1])
  }

  lemma ReverseSnoc<T>(s: seq<T>, x: T)
    ensures Reverse(s + [x]) == [x] + Reverse(s)
  {
    assert (s + [x])[..|s|] == s;
  }

  /**
   * The insertion rule puts the today containers first, each in front of
   * the one before it, then every other container in its own order.
   */
  lemma {:induction false} TodayFirstOrder(ps: seq<DayPanel>)
    ensures TodayFirst(ps) == Reverse(WhereToday(ps, true)) + WhereToday(ps, false)
  {
    if |ps| > 0 {
      var p, last := ps[..|ps| - 1], ps[|ps| - 1];
      assert ps == p + [last];
      TodayFirstOrder(p);
      TodayFirstOrderStep(p, last);
    }
  }

  lemma TodayFirstOrderStep(p: seq<DayPanel>, last: DayPanel)
    requires TodayFirst(p) == Reverse(WhereToday(p, true)) + WhereToday(p, false)
    ensures TodayFirst(p + [last]) == Reverse(WhereToday(p + [last], true)) + WhereToday(p + [last], false)
  {
    var ts, os := WhereToday(p, true), WhereToday(p, false);
    TodayFirstSnoc(p, last);
    WhereTodaySnoc(p, last, true);
    WhereTodaySnoc(p, last, false);
    if last.isToday {
      ReverseSnoc(ts, last);
      assert os + [] == os;
    } else {
      assert ts + [] == ts;
    }
    PlaceOne(TodayFirst(p + [last]), Reverse(ts), Reverse(WhereToday(p + [last], true)),
      os, WhereToday(p + [last], false), last, last.isToday);
  }

  /** The sequence algebra of one insertion: in front of the today part, or after the rest. */
  lemma PlaceOne<T>(placed: seq<T>, front: seq<T>, front': seq<T>, rest: seq<T>, rest': seq<T>, x: T, first: bool)
    requires first ==> placed == [x] + (front + rest) && front' == [x] + front && rest' == rest
    requires !first ==> placed == (front + rest) + [x] && front' == front && rest' == rest + [x]
    ensures placed == front' + rest'
  {
  }

  lemma TodayFirstSnoc(ps: seq<DayPanel>, x: DayPanel)
    ensures TodayFirst(ps + [x]) == if x.isToday then [x] + TodayFirst(ps) else TodayFirst(ps) + [x]
  {
    assert (ps + [x])[..|ps|] == ps;
  }

  lemma WhereTodaySnoc(ps: seq<DayPanel>, x: DayPanel, today: bool)
    ensures WhereToday(ps + [x], today) == WhereToday(ps, today) + if x.isToday == today then [x] else []
  {
    assert (ps + [x])[..|ps|] == ps;
  }

  /**
   * The containers after the `forEach` over `statusData`: an empty day
   * is skipped, today's container goes in front, any other at the end.
   */
  function Arranged(statusData: Dict<seq<Entry>>, todayStr: Option<string>, lookup: HourLookup): seq<DayPanel> {
    TodayFirst(DayPanels(statusData, todayStr, lookup))
  }

  /**
   * The page order: today's container (when today has data) first, then
   * every other non-empty day in iteration order; a day without entries
   * has no container.
   */
  lemma ArrangedOrder(statusData: Dict<seq<Entry>>, todayStr: Option<string>, lookup: HourLookup)
    requires UniqueKeys(statusData)
    ensures var ps := DayPanels(statusData, todayStr, lookup);
      Arranged(statusData, todayStr, lookup) == WhereToday(ps, true) + WhereToday(ps, false)
    ensures |WhereToday(DayPanels(statusData, todayStr, lookup), true)| <= 1
    ensures forall i :: 0 <= i < |WhereToday(DayPanels(statusData, todayStr, lookup), true)| ==>
      todayStr.Some? && WhereToday(DayPanels(statusData, todayStr, lookup), true)[i].dateStr == todayStr.value
  {
    var ps := DayPanels(statusData, todayStr, lookup);
    TodayPanelsUnique(statusData, todayStr, lookup);
    TodayFirstSingle(ps);
    forall i | 0 <= i < |WhereToday(ps, true)| {
      TodayPanelDate(statusData, todayStr, lookup, i);
    }
  }

  /** With at most one today container, the insertion rule puts it first. */
  lemma TodayFirstSingle(ps: seq<DayPanel>)
    requires |WhereToday(ps, true)| <= 1
    ensures TodayFirst(ps) == WhereToday(ps, true) + WhereToday(ps, false)
  {
    TodayFirstOrder(ps);
    var ts := WhereToday(ps, true);
    if |ts| == 1 {
      assert Reverse(ts) == [ts[0]] + Reverse(ts[..0]);
    }
  }

  /** A today container is the container of the server's date. */
  lemma TodayPanelDate(statusData: Dict<seq<Entry>>, todayStr: Option<string>, lookup: HourLookup, i: nat)
    requires i < |WhereToday(DayPanels(statusData, todayStr, lookup), true)|
    ensures todayStr == Some(WhereToday(DayPanels(statusData, todayStr, lookup), true)[i].dateStr)
  {
    var ps := DayPanels(statusData, todayStr, lookup);
    var k := WhereTodaySource(ps, true, i);
    DayPanelAt(statusData, todayStr, lookup, k);
  }

  /** Where the `i`-th selected container sits in the whole sequence. */
  lemma {:induction false} WhereTodaySource(ps: seq<DayPanel>, today: bool, i: nat) returns (k: nat)
    requires i < |WhereToday(ps, today)|
    ensures k < |ps| && ps[k] == WhereToday(ps, today)[i]
  {
    var p, last := ps[..|ps| - 1], ps[|ps| - 1];
    assert ps == p + [last];
    WhereTodaySnoc(p, last, today);
    if i < |WhereToday(p, today)| {
      k := WhereTodaySource(p, today, i);
    } else {
      k := |ps| - 1;
    }
  }

  lemma {:induction false} WhereTodayIn(ps: seq<DayPanel>, today: bool)
    ensures forall x :: x in WhereToday(ps, today) ==> x in ps
  {
    if |ps| > 0 {
      var p := ps[..|ps| - 1];
      WhereTodayIn(p, today);
      assert ps == p + [ps[|ps| - 1]];
      WhereTodaySnoc(p, ps[|ps| - 1], today);
    }
  }

  /** With each key once, at most one non-empty day is today's. */
  lemma {:induction false} TodayPanelsUnique(statusData: Dict<seq<Entry>>, todayStr: Option<string>, lookup: HourLookup)
    requires UniqueKeys(statusData)
    ensures |WhereToday(DayPanels(statusData, todayStr, lookup), true)| <= 1
    ensures |WhereToday(DayPanels(statusData, todayStr, lookup), true)| == 1 ==>
      todayStr.Some? && todayStr.value in Keys(statusData)
  {
    if |statusData| > 0 {
      var p := statusData[..|statusData| - 1];
      var ps, pp := DayPanels(statusData, todayStr, lookup), DayPanels(p, todayStr, lookup);
      assert Keys(statusData) == Keys(p) + [statusData[|statusData| - 1].0];
      assert UniqueKeys(p);
      TodayPanelsUnique(p, todayStr, lookup);
      var dayData := statusData[|statusData| - 1].1;
      if |dayData| > 0 {
        var panel := PanelOf(statusData[|statusData| - 1].0, dayData, todayStr, lookup);
        assert ps == pp + [panel];
        WhereTodaySnoc(pp, panel, true);
      } else {
        assert ps == pp;
      }
    }
  }

  /** Today's summary card. */
  datatype Summary = Summary(upCount: nat, failedCount: nat, totalDataPoints: nat, totalResponseTime: int)

  /**
   * The property name `statusData[todayStr]` looks up. None stands for
   * the `null` the page starts with, looked up as the key "null"; the
   * date is never `undefined` in this model.
   */
  function SummaryKey(todayStr: Option<string>): string {
    if todayStr.Some? then todayStr.value else "null"
  }

  /** The sum of the truthy (non-zero) response times. */
  function ResponseTotal(s: seq<Entry>): int {
    if |s| == 0 then 0
    else ResponseTotal(s[..|s| - 1]) + (if s[|s| - 1].data.responseTimeMs != 0 then s[|s| - 1].data.responseTimeMs else 0)
  }

  /** The card built when today's data is non-empty, None when none is built. */
  function TodaySummary(statusData: Dict<seq<Entry>>, todayStr: Option<string>): (r: Option<Summary>)
    ensures r.Some? <==> Get(statusData, SummaryKey(todayStr)).Some? && |Get(statusData, SummaryKey(todayStr)).value| > 0
    ensures r.Some? ==> r.value.upCount + r.value.failedCount <= r.value.totalDataPoints
    ensures r.Some? ==> r.value.totalDataPoints == |Get(statusData, SummaryKey(todayStr)).value|
  {
    match Get(statusData, SummaryKey(todayStr))
    case Some(todayData) =>
      if |todayData| > 0 then
        UpDownBounded(todayData);
        Some(Summary(CountUp(todayData), CountDown(todayData), |todayData|, ResponseTotal(todayData)))
      else None
    case None => None
  }

  /** `createTodaySummaryCard`: the counting loop over today's entries. */
  method CreateTodaySummaryCard(statusData: Dict<seq<Entry>>, todayStr: Option<string>) returns (card: Option<Summary>)
    ensures card == TodaySummary(statusData, todayStr)
  {
    var todayData := Get(statusData, SummaryKey(todayStr));
    if todayData.None? || |todayData.value| == 0 {
      return None;
    }
    var entries := todayData.value;
    var upCount, failedCount, totalResponseTime := 0, 0, 0;
    for i := 0 to |entries|
      invariant upCount == CountUp(entries[..i]) && failedCount == CountDown(entries[..i])
      invariant totalResponseTime == ResponseTotal(entries[..i])
    {
      var entry := entries[i];
      assert entries[..i + 1][..i] == entries[..i] && entries[..i + 1][i] == entry;
      if entry.data.status == Flag(true) {
        upCount := upCount + 1;
      } else if entry.data.status == Flag(false) {
        failedCount := failedCount + 1;
      }
      if entry.data.responseTimeMs != 0 {
        totalResponseTime := totalResponseTime + entry.data.responseTimeMs;
      }
    }
    assert entries[..|entries|] == entries;
    return Some(Summary(upCount, failedCount, |entries|, totalResponseTime));
  }

  /**
   * `initializeStatusDisplay` after the data has loaded: the day
   * containers in page order, then today's summary card.
   */
  method InitializeStatusDisplay(statusData: Dict<seq<Entry>>, todayStr: Option<string>, lookup: HourLookup)
    returns (containers: seq<DayPanel>, summary: Option<Summary>)
    ensures containers == Arranged(statusData, todayStr, lookup)
    ensures summary == TodaySummary(statusData, todayStr)
  {
    containers := [];
    for i := 0 to |statusData|
      invariant containers == TodayFirst(DayPanels(statusData[..i], todayStr, lookup))
    {
      var (dateStr, dayData) := statusData[i];
      assert statusData[..i + 1][..i] == statusData[..i] && statusData[..i + 1][i] == (dateStr, dayData);
      if |dayData| == 0 {
        assert DayPanels(statusData[..i + 1], todayStr, lookup) == DayPanels(statusData[..i], todayStr, lookup);
        continue;
      }
      var isToday := IsToday(dateStr, todayStr);
      var t := CountDay(dayData, lookup);
      var cells := CreateHourlyTimeline(t, dayData, lookup);
      var dayContainer := DayPanel(dateStr, isToday, t.upCount, t.failedCount, t.totalDataPoints, cells);
      assert dayContainer == PanelOf(dateStr, dayData, todayStr, lookup);
      ghost var before := DayPanels(statusData[..i], todayStr, lookup);
      assert DayPanels(statusData[..i + 1], todayStr, lookup) == before + [dayContainer];
      TodayFirstSnoc(before, dayContainer);
      if isToday {
        containers := [dayContainer] + containers;
      } else {
        containers := containers + [dayContainer];
      }
    }
    assert statusData[..|statusData|] == statusData;
    summary := CreateTodaySummaryCard(statusData, todayStr);
  }
}
