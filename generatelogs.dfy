/**
 * The synthetic log generator: one up entry every 30 seconds of one
 * local day, with a random response time, written over the day file.
 * The process's local timezone is a fixed offset from UTC here; the
 * random draws are a parameter.
 */
module GenerateLogs {
  import opened Wrappers
  import opened Dates
  import opened Records
  import LogStore
  import Strings

  /** The label every generated entry carries. */
  const Timezone := "Asia/Kuala_Lumpur"

  /** The file the generator overwrites. */
  const OutputName := "2025-05-19.json"

  /** How many entries one run produces: 24 hours of 60 minutes of two half-minutes. */
  const EntryCount := 24 * 60 * 2

  const StepMs := 30_000

  /** `new Date('2025-05-19')`: midnight UTC at the start of that date. */
  const GenerationInstant: Time := DaysFromCivil(Civil(2025, 5, 19)) * MsPerDay

  lemma GenerationInstantValue()
    ensures GenerationInstant == 20227 * MsPerDay
  {
  }

  /** A local timezone's offset from UTC, in ms (local = UTC + offset). */
  type Offset = o: int | -14 * MsPerHour <= o <= 14 * MsPerHour

  /** UTC instant of local midnight at the start of the local date of `GenerationInstant`. */
  function LocalMidnight(off: Offset): (t: int)
    ensures GenerationInstant - MsPerDay < t <= GenerationInstant + MsPerDay
    ensures TimeWithinDay(t + off) == 0
  {
    GenerationInstantValue();
    Day(GenerationInstant + off) * MsPerDay - off
  }

  /** `timestamp.setHours(hour, minute, second, 0)` on a copy of the date, for in-range fields. */
  function SetHours(off: Offset, hour: int, minute: int, second: int): int {
    LocalMidnight(off) + hour * MsPerHour + minute * MsPerMinute + second * 1000
  }

  /** `Math.floor(Math.random() * 66) + 4`. */
  function RandomResponseTime(r: Unit): (ms: int)
    ensures 4 <= ms <= 69
  {
    var x := r * 66.0;
    assert 0.0 <= x < 66.0;
    x.Floor + 4
  }

  /** The `k`-th generated entry: `k` half-minutes after local midnight, using draw `k`. */
  function GeneratedEntry(off: Offset, rand: nat -> Unit, k: nat): Entry
    requires k < EntryCount
  {
    GenerationInstantValue();
    var t := LocalMidnight(off) + StepMs * k;
    Entry(t, Some(Timezone), Data(Flag(true), Some(t), RandomResponseTime(rand(k)), None))
  }

  function GeneratedLogs(off: Offset, rand: nat -> Unit): (logs: seq<Entry>)
    ensures |logs| == EntryCount
  {
    seq(EntryCount, k requires 0 <= k < EntryCount => GeneratedEntry(off, rand, k))
  }

  /** The entry the innermost loop pushes for the given hour, minute and second. */
  function LoopEntry(off: Offset, rand: nat -> Unit, draw: nat, hour: int, minute: int, second: int): Entry
    requires 0 <= hour < 24 && 0 <= minute < 60 && second in {0, 30}
  {
    GenerationInstantValue();
    var timestamp := SetHours(off, hour, minute, second);
    Entry(timestamp, Some(Timezone), Data(Flag(true), Some(timestamp), RandomResponseTime(rand(draw)), None))
  }

  /** The (hour, minute, second) of the loops is the half-minute count `120 * hour + 2 * minute + second / 30`. */
  lemma LoopEntryIsGenerated(off: Offset, rand: nat -> Unit, hour: int, minute: int, second: int)
    requires 0 <= hour < 24 && 0 <= minute < 60 && second in {0, 30}
    ensures 120 * hour + 2 * minute + second / 30 < EntryCount
    ensures LoopEntry(off, rand, 120 * hour + 2 * minute + second / 30, hour, minute, second)
         == GeneratedEntry(off, rand, 120 * hour + 2 * minute + second / 30)
  {
    assert second * 1000 == StepMs * (second / 30);
  }

  /** `generateLogs`: the three nested loops over hours, minutes and half-minutes. */
  method Generate(off: Offset, rand: nat -> Unit) returns (logs: seq<Entry>)
    ensures logs == GeneratedLogs(off, rand)
  {
    logs := [];
    for hour := 0 to 24
      invariant |logs| == 120 * hour
      invariant forall k :: 0 <= k < |logs| ==> logs[k] == GeneratedEntry(off, rand, k)
    {
      for minute := 0 to 60
        invariant |logs| == 120 * hour + 2 * minute
        invariant forall k :: 0 <= k < |logs| ==> logs[k] == GeneratedEntry(off, rand, k)
      {
        var second := 0;
        while second < 60
          invariant second in {0, 30, 60}
          invariant |logs| == 120 * hour + 2 * minute + second / 30
          invariant forall k :: 0 <= k < |logs| ==> logs[k] == GeneratedEntry(off, rand, k)
        {
          LoopEntryIsGenerated(off, rand, hour, minute, second);
          var logEntry := LoopEntry(off, rand, |logs|, hour, minute, second);
          logs := logs + [logEntry];
          second := second + 30;
        }
      }
    }
  }

  /**
   * What one run produces: 2880 entries, all up, all labelled with the
   * timezone, each with its data timestamp equal to its own and a
   * response time in 4..69; entry `k` is `30 * k` seconds after local
   * midnight, so the entries strictly increase in time, stay on one
   * local date and are grouped by local hour, 120 to an hour.
   */
  lemma {:induction false} GeneratedFacts(off: Offset, rand: nat -> Unit, k: nat)
    requires k < EntryCount
    ensures var e := GeneratedLogs(off, rand)[k];
      && e.data.status == Flag(true)
      && e.timezone == Some(Timezone)
      && e.data.timestamp == Some(e.timestamp)
      && 4 <= e.data.responseTimeMs <= 69
      && e.timestamp == LocalMidnight(off) + StepMs * k
      && Day(e.timestamp + off) == Day(LocalMidnight(off) + off)
      && TimeWithinDay(e.timestamp + off) == StepMs * k
      && TimeWithinDay(e.timestamp + off) / MsPerHour == k / 120
    ensures k + 1 < EntryCount ==> GeneratedLogs(off, rand)[k].timestamp < GeneratedLogs(off, rand)[k + 1].timestamp
  {
    var e := GeneratedLogs(off, rand)[k];
    var m := LocalMidnight(off) + off;
    assert TimeWithinDay(m) == 0;
    var d := Day(m);
    assert m == d * MsPerDay;
    assert e.timestamp + off == d * MsPerDay + StepMs * k;
    WithinDay(d, StepMs * k);
    HalfMinuteHour(k);
  }

  lemma WithinDay(d: int, ms: int)
    requires 0 <= ms < MsPerDay
    ensures Day(d * MsPerDay + ms) == d && TimeWithinDay(d * MsPerDay + ms) == ms
  {
    var t := d * MsPerDay + ms;
    assert t == Day(t) * MsPerDay + TimeWithinDay(t);
  }

  lemma HalfMinuteHour(k: nat)
    requires k < EntryCount
    ensures (StepMs * k) / MsPerHour == k / 120
  {
    var h, r := k / 120, k % 120;
    assert StepMs * k == h * MsPerHour + StepMs * r;
  }

  /** Kuala Lumpur's offset, eight hours ahead of UTC all year. */
  const KualaLumpurOffset: Offset := 8 * MsPerHour

  /**
   * Generated in Kuala Lumpur, the day starts at 16:00 UTC the previous
   * day, so the first entry of the file named for 2025-05-19 has the UTC
   * date 2025-05-18, the key the log query files the whole file under.
   */
  lemma GeneratedFileKey(rand: nat -> Unit)
    ensures LogStore.GroupKey(LogStore.ArrayDoc(GeneratedLogs(KualaLumpurOffset, rand)), DateKey) == Some("2025-05-18")
  {
    var first := GeneratedLogs(KualaLumpurOffset, rand)[0];
    FirstEntryInstant(rand);
    DayKey(first.timestamp);
  }

  lemma FirstEntryInstant(rand: nat -> Unit)
    ensures Day(GeneratedLogs(KualaLumpurOffset, rand)[0].timestamp) == 20226
  {
    GenerationInstantValue();
    assert Day(GenerationInstant + KualaLumpurOffset) == 20227;
    assert LocalMidnight(KualaLumpurOffset) == 20227 * MsPerDay - KualaLumpurOffset;
  }

  lemma DayKey(t: Time)
    requires Day(t) == 20226
    ensures DateKey(t) == "2025-05-18"
  {
    var c := Civil(2025, 5, 18);
    CivilOfDay(c);
    DateTextOf(c);
  }

  lemma CivilOfDay(c: Civil)
    requires c == Civil(2025, 5, 18)
    ensures CivilFromDay(20226) == c
  {
    assert ValidCivil(c);
    assert DaysFromCivil(c) == 20226;
    CivilRoundTrip(c);
  }

  lemma DateTextOf(c: Civil)
    requires c == Civil(2025, 5, 18)
    ensures ValidCivil(c) && DateText(c) == "2025-05-18"
  {
    PadDigits();
    assert YearText(2025) == "2025";
  }

  lemma PadDigits()
    ensures Strings.Pad(2025, 4) == "2025" && Strings.Pad(5, 2) == "05" && Strings.Pad(18, 2) == "18"
  {
    assert Strings.Pad(2, 1) == "2";
    assert Strings.Pad(20, 2) == "20";
    assert Strings.Pad(202, 3) == "202";
    assert Strings.Pad(0, 1) == "0";
    assert Strings.Pad(1, 1) == "1";
  }

  /** The run ends by writing the entries over the day file, whatever it held. */
  function WriteGenerated(files: LogStore.Files, logs: seq<Entry>): (r: LogStore.Files)
    ensures OutputName in r && r[OutputName] == LogStore.Json(LogStore.ArrayDoc(logs))
    ensures forall n :: n != OutputName ==> LogStore.Lookup(r, n) == LogStore.Lookup(files, n)
  {
    files[OutputName := LogStore.Json(LogStore.ArrayDoc(logs))]
  }
}
