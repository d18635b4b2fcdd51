/**
 * The server's log directory: one JSON file per UTC day, appended to by
 * every health-check tick and read back, a week at a time, by the log
 * query that groups each file under the date of its first entry.
 */
module LogStore {
  import opened Wrappers
  import opened Strings
  import opened Dates
  import opened Records
  import opened Dict
  import opened Listing
  import Scanner

  /**
   * A parsed JSON document: an array of log entries, or some other value.
   * `passesGuard` marks a value that is not an array but is truthy with a
   * positive `length` (a non-empty string, or an object with such a
   * property): the grouping takes it for a day's list, and reading the
   * timestamp of its first element throws.
   */
  datatype Document = ArrayDoc(entries: seq<Entry>) | OtherDoc(passesGuard: bool)

  /** A file's text as `JSON.parse` sees it. */
  datatype FileText = Blank | Unparsable | Json(doc: Document)

  type Files = map<string, FileText>

  function Lookup(files: Files, name: string): Option<FileText> {
    if name in files then Some(files[name]) else None
  }

  /** `${dateStr}.json` with the UTC date of the instant. */
  function LogFileName(t: Time): (name: string)
    ensures EndsWith(name, Extension)
  {
    EndsWithConcat(DateKey(t), Extension);
    DateKey(t) + Extension
  }

  /**
   * The file name and the entry's timestamp come from one instant: the
   * name is the date part of the entry's own ISO string.
   */
  lemma FileNameMatchesTimestamp(t: Time)
    ensures |DateKey(t)| <= |IsoString(t)|
    ensures LogFileName(t) == IsoString(t)[..|DateKey(t)|] + Extension
    ensures IsoString(t)[|DateKey(t)|] == 'T'
  {
    DateKeyPrefix(t);
  }

  /**
   * For four-digit years the descending name order of the query is the
   * newest-day-first order, and two instants share a file exactly when
   * they share a UTC day.
   */
  lemma LogFileNameOrder(t1: Time, t2: Time)
    requires FourDigitYear(t1) && FourDigitYear(t2)
    ensures Below(LogFileName(t1), LogFileName(t2)) <==> Day(t1) < Day(t2)
    ensures LogFileName(t1) == LogFileName(t2) <==> Day(t1) == Day(t2)
  {
    DateKeyLength(t1);
    DateKeyLength(t2);
    DateKeyOrder(t1, t2);
    BelowConcat(DateKey(t1), Extension, DateKey(t2), Extension);
    BelowIrreflexive(Extension);
    SplitEqual(DateKey(t1), Extension, DateKey(t2), Extension);
  }

  /** The record a tick appends: the tick's own instant and the probe's result. */
  function LogEntry(today: Time, result: Data): Entry {
    Entry(today, None, result)
  }

  /**
   * The array the tick pushes onto, read from the current file: empty
   * when the file is missing, blank or not JSON; None when it parses to
   * something that is not an array, where `push` throws. The tick's
   * effect (Appended) and its invariant (AppendKeepsOwnDated) are stated
   * through these three cases.
   */
  function PriorEntries(f: Option<FileText>): (r: Option<seq<Entry>>)
    ensures r.None? <==> f.Some? && f.value.Json? && f.value.doc.OtherDoc?
    ensures f.Some? && f.value.Json? && f.value.doc.ArrayDoc? ==> r == Some(f.value.doc.entries)
    ensures f in {None, Some(Blank), Some(Unparsable)} ==> r == Some([])
  {
    match f
    case None => Some([])
    case Some(Blank) => Some([])
    case Some(Unparsable) => Some([])
    case Some(Json(ArrayDoc(es))) => Some(es)
    case Some(Json(OtherDoc(_))) => None
  }

  /** The directory's files after a tick's read, push and write back of file `name`. */
  function Appended(files: Files, name: string, entry: Entry): (r: Files)
    ensures forall n :: n != name ==> Lookup(r, n) == Lookup(files, n)
    ensures PriorEntries(Lookup(files, name)).None? ==> r == files
    ensures PriorEntries(Lookup(files, name)).Some? ==>
      Lookup(r, name) == Some(Json(ArrayDoc(PriorEntries(Lookup(files, name)).value + [entry])))
    ensures Lookup(files, name) in {None, Some(Blank), Some(Unparsable)} ==>
      Lookup(r, name) == Some(Json(ArrayDoc([entry])))
  {
    match PriorEntries(Lookup(files, name))
    case None => files
    case Some(prior) =>
      var r := files[name := Json(ArrayDoc(prior + [entry]))];
      assert Lookup(r, name) == Some(Json(ArrayDoc(prior + [entry])));
      assert forall n :: n != name ==> Lookup(r, n) == Lookup(files, n);
      assert prior == [] ==> prior + [entry] == [entry];
      r
  }

  /** Every entry of an array file is dated by the file's own name. */
  ghost predicate OwnDated(files: Files) {
    forall n :: n in files && files[n].Json? && files[n].doc.ArrayDoc? ==>
      forall i :: 0 <= i < |files[n].doc.entries| ==> LogFileName(files[n].doc.entries[i].timestamp) == n
  }

  /** Appending keeps every file dated by its name. */
  lemma AppendKeepsOwnDated(files: Files, name: string, entry: Entry)
    requires OwnDated(files) && name == LogFileName(entry.timestamp)
    ensures OwnDated(Appended(files, name, entry))
  {
    var r := Appended(files, name, entry);
    forall n | n in r && r[n].Json? && r[n].doc.ArrayDoc?
      ensures forall i :: 0 <= i < |r[n].doc.entries| ==> LogFileName(r[n].doc.entries[i].timestamp) == n
    {
      var prior := PriorEntries(Lookup(files, name));
      if n == name && prior.Some? {
        PriorOwnDated(files, name);
        PushOwnDated(prior.value, entry, name);
      } else {
        assert Lookup(r, n) == Lookup(files, n);
      }
    }
  }

  /** What a tick reads from a file dated by its name is dated by that name. */
  lemma PriorOwnDated(files: Files, name: string)
    requires OwnDated(files) && PriorEntries(Lookup(files, name)).Some?
    ensures forall i :: 0 <= i < |PriorEntries(Lookup(files, name)).value| ==>
      LogFileName(PriorEntries(Lookup(files, name)).value[i].timestamp) == name
  {
  }

  lemma PushOwnDated(prior: seq<Entry>, entry: Entry, name: string)
    requires forall i :: 0 <= i < |prior| ==> LogFileName(prior[i].timestamp) == name
    requires LogFileName(entry.timestamp) == name
    ensures forall i :: 0 <= i < |prior + [entry]| ==> LogFileName((prior + [entry])[i].timestamp) == name
  {
  }

  /** Why a log query fails. */
  datatype QueryError = NoLogDirectory | ParseFailure(name: string) | GroupFailure

  /**
   * `JSON.parse` of each chosen file, in order; the first file that does
   * not parse fails the whole request.
   */
  function ParseAll(files: Files, names: seq<string>): (r: Result<seq<Document>, QueryError>)
    requires forall i :: 0 <= i < |names| ==> names[i] in files
    ensures r.Ok? <==> forall i :: 0 <= i < |names| ==> files[names[i]].Json?
    ensures r.Ok? ==> |r.value| == |names| && forall i :: 0 <= i < |names| ==> files[names[i]] == Json(r.value[i])
    ensures r.Err? ==>
      exists i :: 0 <= i < |names| && r.error == ParseFailure(names[i]) && !files[names[i]].Json?
        && forall j :: 0 <= j < i ==> files[names[j]].Json?
  {
    if |names| == 0 then Ok([])
    else
      match files[names[0]]
      case Json(doc) =>
        (match ParseAll(files, names[1..])
         case Ok(rest) => Ok([doc] + rest)
         case Err(e) =>
           assert forall i :: 1 <= i < |names| ==> names[i] == names[1..][i - 1];
           Err(e))
      case _ => Err(ParseFailure(names[0]))
  }

  /**
   * The key a parsed file is grouped under, the `dateOf` its first entry;
   * None for a file the grouping skips.
   */
  function GroupKey(doc: Document, dateOf: Time -> string): Option<string> {
    if doc.ArrayDoc? && |doc.entries| > 0 then Some(dateOf(doc.entries[0].timestamp)) else None
  }

  /**
   * The `forEach` throws on a document that passes its guard but is not
   * an array: `new Date(undefined).toISOString()` or reading a property
   * of `undefined` fails.
   */
  predicate GroupThrows(doc: Document) {
    doc.OtherDoc? && doc.passesGuard
  }

  /** Some document of `docs` makes the grouping throw. */
  predicate AnyGroupThrows(docs: seq<Document>) {
    |docs| > 0 && (AnyGroupThrows(docs[..|docs| - 1]) || GroupThrows(docs[|docs| - 1]))
  }

  lemma {:induction false} AnyGroupThrowsWitness(docs: seq<Document>)
    ensures AnyGroupThrows(docs) <==> exists i :: 0 <= i < |docs| && GroupThrows(docs[i])
  {
    if |docs| > 0 {
      var p := docs[..|docs| - 1];
      AnyGroupThrowsWitness(p);
      assert forall i :: 0 <= i < |p| ==> p[i] == docs[i];
    }
  }

  /** `groupedLogs` after the `forEach` has visited `docs`. */
  function Grouped(docs: seq<Document>, dateOf: Time -> string): (g: Dict<seq<Entry>>)
    ensures UniqueKeys(g)
    ensures forall k :: k in Keys(g) <==> exists i :: 0 <= i < |docs| && GroupKey(docs[i], dateOf) == Some(k)
    ensures forall k :: Get(g, k).Some? ==> |Get(g, k).value| > 0 && dateOf(Get(g, k).value[0].timestamp) == k
  {
    if |docs| == 0 then []
    else
      var p := docs[..|docs| - 1];
      var g := Grouped(p, dateOf);
      var d := docs[|docs| - 1];
      assert forall i :: 0 <= i < |p| ==> p[i] == docs[i];
      match GroupKey(d, dateOf)
      case None => g
      case Some(k) =>
        PutKeepsUnique(g, k, d.entries);
        Put(g, k, d.entries)
  }

  /**
   * `v` is what looking `k` up should find after visiting `docs`: the
   * entries of the last file with key `k`, and nothing when none has it.
   */
  ghost predicate LastWithKey(docs: seq<Document>, dateOf: Time -> string, k: string, v: Option<seq<Entry>>) {
    && (v.Some? <==> exists i :: 0 <= i < |docs| && GroupKey(docs[i], dateOf) == Some(k))
    && (v.Some? ==>
         exists i :: 0 <= i < |docs| && GroupKey(docs[i], dateOf) == Some(k) && v.value == docs[i].entries
           && forall j :: i < j < |docs| ==> GroupKey(docs[j], dateOf) != Some(k))
  }

  /**
   * Looking a date up in the grouping finds the last file with that
   * date; a file visited later overwrites an earlier one.
   */
  lemma {:induction false} GroupedLookup(docs: seq<Document>, dateOf: Time -> string, k: string)
    ensures LastWithKey(docs, dateOf, k, Get(Grouped(docs, dateOf), k))
  {
    if |docs| > 0 {
      var p := docs[..|docs| - 1];
      GroupedStep(docs, dateOf, k);
      GroupedLookup(p, dateOf, k);
      LastWithKeyStep(docs, dateOf, k, Get(Grouped(p, dateOf), k), Get(Grouped(docs, dateOf), k));
    }
  }

  /** One visit of the `forEach`: the last file decides its own key and leaves the others. */
  lemma GroupedStep(docs: seq<Document>, dateOf: Time -> string, k: string)
    requires |docs| > 0
    ensures Get(Grouped(docs, dateOf), k) ==
      if GroupKey(docs[|docs| - 1], dateOf) == Some(k) then Some(docs[|docs| - 1].entries)
      else Get(Grouped(docs[..|docs| - 1], dateOf), k)
  {
  }

  lemma LastWithKeyStep(docs: seq<Document>, dateOf: Time -> string, k: string, vp: Option<seq<Entry>>, v: Option<seq<Entry>>)
    requires |docs| > 0 && LastWithKey(docs[..|docs| - 1], dateOf, k, vp)
    requires v == if GroupKey(docs[|docs| - 1], dateOf) == Some(k) then Some(docs[|docs| - 1].entries) else vp
    ensures LastWithKey(docs, dateOf, k, v)
  {
    var p := docs[..|docs| - 1];
    assert forall i :: 0 <= i < |p| ==> p[i] == docs[i];
    if GroupKey(docs[|docs| - 1], dateOf) != Some(k) && vp.Some? {
      var i :| 0 <= i < |p| && GroupKey(p[i], dateOf) == Some(k) && vp.value == p[i].entries
        && forall j :: i < j < |p| ==> GroupKey(p[j], dateOf) != Some(k);
      assert forall j :: i < j < |docs| ==> GroupKey(docs[j], dateOf) != Some(k);
    }
  }

  /** The `forEach` that fills `groupedLogs`; a throw fails the whole request. */
  method GroupByFirstDate(docs: seq<Document>) returns (r: Result<Dict<seq<Entry>>, QueryError>)
    ensures r.Err? <==> AnyGroupThrows(docs)
    ensures r.Err? ==> r.error == GroupFailure
    ensures r.Ok? ==> r.value == Grouped(docs, DateKey)
  {
    var grouped: Dict<seq<Entry>> := [];
    var i := 0;
    while i < |docs|
      invariant 0 <= i <= |docs|
      invariant grouped == Grouped(docs[..i], DateKey)
      invariant !AnyGroupThrows(docs[..i])
    {
      var dailyLog := docs[i];
      GroupedStepValue(docs, i, grouped);
      ThrowsSnoc(docs, i);
      if dailyLog.OtherDoc? && dailyLog.passesGuard {
        return Err(GroupFailure);
      }
      if dailyLog.ArrayDoc? && |dailyLog.entries| > 0 {
        var firstEntry := dailyLog.entries[0];
        var date := BeforeFirstT(IsoString(firstEntry.timestamp));
        SplitIsDateKey(firstEntry.timestamp);
        grouped := Put(grouped, date, dailyLog.entries);
      }
      i := i + 1;
    }
    assert docs[..|docs|] == docs;
    return Ok(grouped);
  }

  /** What one visit of the `forEach` does to the grouping. */
  lemma GroupedStepValue(docs: seq<Document>, i: int, grouped: Dict<seq<Entry>>)
    requires 0 <= i < |docs| && grouped == Grouped(docs[..i], DateKey)
    ensures docs[i].ArrayDoc? && |docs[i].entries| > 0 ==>
      Grouped(docs[..i + 1], DateKey) == Put(grouped, DateKey(docs[i].entries[0].timestamp), docs[i].entries)
    ensures !(docs[i].ArrayDoc? && |docs[i].entries| > 0) ==> Grouped(docs[..i + 1], DateKey) == grouped
  {
    GroupedSnoc(docs, DateKey, i);
  }

  lemma ThrowsSnoc(docs: seq<Document>, i: int)
    requires 0 <= i < |docs|
    ensures AnyGroupThrows(docs[..i + 1]) <==> AnyGroupThrows(docs[..i]) || GroupThrows(docs[i])
    ensures GroupThrows(docs[i]) ==> AnyGroupThrows(docs)
  {
    assert docs[..i + 1][..i] == docs[..i];
    AnyGroupThrowsWitness(docs);
  }

  lemma GroupedSnoc(docs: seq<Document>, dateOf: Time -> string, i: int)
    requires 0 <= i < |docs|
    ensures Grouped(docs[..i + 1], dateOf) ==
      match GroupKey(docs[i], dateOf)
      case None => Grouped(docs[..i], dateOf)
      case Some(k) => Put(Grouped(docs[..i], dateOf), k, docs[i].entries)
  {
    assert docs[..i + 1][..i] == docs[..i];
  }

  /** `listing` is what `readdirSync` may return for these files: each name once. */
  ghost predicate IsListing(listing: seq<string>, files: Files) {
    Distinct(listing) && forall n :: n in listing <==> n in files
  }

  /** The answer of the log query for a directory state and a listing order. */
  function Response(present: bool, files: Files, listing: seq<string>): Result<Dict<seq<Entry>>, QueryError>
    requires forall n :: n in listing ==> n in files
  {
    if !present then Err(NoLogDirectory)
    else
      match ParseAll(files, Select(listing))
      case Err(e) => Err(e)
      case Ok(docs) => if AnyGroupThrows(docs) then Err(GroupFailure) else Ok(Grouped(docs, DateKey))
  }

  /**
   * The query fails exactly when the directory is missing, or a chosen
   * file does not parse, or a chosen file parses to a non-array that
   * passes the grouping's guard.
   */
  lemma ResponseFails(present: bool, files: Files, listing: seq<string>)
    requires forall n :: n in listing ==> n in files
    ensures Response(present, files, listing) == Err(NoLogDirectory) <==> !present
    ensures present ==>
      (Response(present, files, listing).Err? <==>
        exists i :: 0 <= i < |Select(listing)| && Select(listing)[i] in files
          && (!files[Select(listing)[i]].Json? || files[Select(listing)[i]] == Json(OtherDoc(true))))
  {
    var sel := Select(listing);
    assert forall i :: 0 <= i < |sel| ==> sel[i] in files by {
      assert forall i :: 0 <= i < |sel| ==> sel[i] in listing;
    }
    if present && ParseAll(files, sel).Ok? {
      var docs := ParseAll(files, sel).value;
      AnyGroupThrowsWitness(docs);
      assert forall i :: 0 <= i < |sel| ==> (files[sel[i]] == Json(OtherDoc(true)) <==> GroupThrows(docs[i]));
    }
  }

  /** The answer does not depend on the order the directory is listed in. */
  lemma ResponseIndependentOfListing(present: bool, files: Files, l1: seq<string>, l2: seq<string>)
    requires IsListing(l1, files) && IsListing(l2, files)
    ensures Response(present, files, l1) == Response(present, files, l2)
  {
    SelectIndependent(l1, l2);
  }

  /**
   * `es` is the whole array of a chosen file whose key is `k`, and every
   * other chosen file with that key has a greater name.
   */
  ghost predicate SmallestWithKey(files: Files, sel: seq<string>, dateOf: Time -> string, k: string, es: seq<Entry>) {
    exists n :: n in sel && n in files && files[n] == Json(ArrayDoc(es)) && GroupKey(files[n].doc, dateOf) == Some(k)
      && (forall m :: m in sel && m in files && files[m].Json? && GroupKey(files[m].doc, dateOf) == Some(k) ==>
            m == n || Below(n, m))
  }

  /**
   * Each date in the answer holds a whole non-empty chosen file whose
   * first entry has that date; where several chosen files share the
   * date, it is the one with the smallest name, the last one visited.
   */
  lemma ResponseValue(present: bool, files: Files, listing: seq<string>, k: string)
    requires IsListing(listing, files)
    requires Response(present, files, listing).Ok?
    requires Get(Response(present, files, listing).value, k).Some?
    ensures SmallestWithKey(files, Select(listing), DateKey, k, Get(Response(present, files, listing).value, k).value)
  {
    var sel := Select(listing);
    SelectedNames(listing, files);
    ResponseParsed(present, files, listing);
    ChosenValue(files, sel, DateKey, k);
  }

  /** The chosen names are files of the directory, in strictly descending order. */
  lemma SelectedNames(listing: seq<string>, files: Files)
    requires IsListing(listing, files)
    ensures forall i :: 0 <= i < |Select(listing)| ==> Select(listing)[i] in files
    ensures forall i, j :: 0 <= i < j < |Select(listing)| ==> Below(Select(listing)[j], Select(listing)[i])
  {
    StrictlyDescending(Select(listing));
  }

  /** A successful answer is the grouping of the parsed chosen files. */
  lemma ResponseParsed(present: bool, files: Files, listing: seq<string>)
    requires forall n :: n in listing ==> n in files
    requires Response(present, files, listing).Ok?
    ensures ParseAll(files, Select(listing)).Ok?
    ensures Response(present, files, listing).value == Grouped(ParseAll(files, Select(listing)).value, DateKey)
  {
  }

  lemma ChosenValue(files: Files, sel: seq<string>, dateOf: Time -> string, k: string)
    requires forall i :: 0 <= i < |sel| ==> sel[i] in files
    requires forall i, j :: 0 <= i < j < |sel| ==> Below(sel[j], sel[i])
    requires ParseAll(files, sel).Ok?
    requires Get(Grouped(ParseAll(files, sel).value, dateOf), k).Some?
    ensures SmallestWithKey(files, sel, dateOf, k, Get(Grouped(ParseAll(files, sel).value, dateOf), k).value)
  {
    var docs := ParseAll(files, sel).value;
    GroupedLookup(docs, dateOf, k);
    var i :| 0 <= i < |docs| && GroupKey(docs[i], dateOf) == Some(k)
      && Get(Grouped(docs, dateOf), k).value == docs[i].entries
      && forall j :: i < j < |docs| ==> GroupKey(docs[j], dateOf) != Some(k);
    SmallestAt(files, sel, docs, dateOf, k, i);
  }

  /** The chosen file at `i`, the last visited with key `k`, has the smallest name with that key. */
  lemma SmallestAt(files: Files, sel: seq<string>, docs: seq<Document>, dateOf: Time -> string, k: string, i: int)
    requires forall i, j :: 0 <= i < j < |sel| ==> Below(sel[j], sel[i])
    requires |docs| == |sel| && forall j :: 0 <= j < |sel| ==> sel[j] in files && files[sel[j]] == Json(docs[j])
    requires 0 <= i < |docs| && GroupKey(docs[i], dateOf) == Some(k)
    requires forall j :: i < j < |docs| ==> GroupKey(docs[j], dateOf) != Some(k)
    ensures SmallestWithKey(files, sel, dateOf, k, docs[i].entries)
  {
    assert files[sel[i]] == Json(docs[i]);
    forall m | m in sel && m in files && files[m].Json? && GroupKey(files[m].doc, dateOf) == Some(k)
      ensures m == sel[i] || Below(sel[i], m)
    {
      var j :| 0 <= j < |sel| && sel[j] == m;
      LaterHasOtherKey(files, sel, docs, dateOf, k, i, j);
    }
  }

  /** A chosen file with key `k` is the one at `i` or one visited before it, whose name is greater. */
  lemma LaterHasOtherKey(files: Files, sel: seq<string>, docs: seq<Document>, dateOf: Time -> string,
                         k: string, i: int, j: int)
    requires forall i, j :: 0 <= i < j < |sel| ==> Below(sel[j], sel[i])
    requires |docs| == |sel| && 0 <= i < |sel| && 0 <= j < |sel|
    requires forall j :: i < j < |docs| ==> GroupKey(docs[j], dateOf) != Some(k)
    requires sel[j] in files && files[sel[j]] == Json(docs[j]) && GroupKey(files[sel[j]].doc, dateOf) == Some(k)
    ensures sel[j] == sel[i] || Below(sel[i], sel[j])
  {
    assert j <= i;
  }

  /**
   * When every file holds only entries of its own date, as the ticks
   * keep it, each date in the answer is keyed by the file it came from.
   */
  lemma ResponseOwnDated(present: bool, files: Files, listing: seq<string>, k: string)
    requires IsListing(listing, files) && OwnDated(files)
    requires Response(present, files, listing).Ok?
    requires k in Keys(Response(present, files, listing).value)
    ensures k + Extension in Select(listing)
    ensures files[k + Extension] == Json(ArrayDoc(Get(Response(present, files, listing).value, k).value))
  {
    ResponseValue(present, files, listing, k);
    var n :| n in Select(listing) && n in files
      && files[n] == Json(ArrayDoc(Get(Response(present, files, listing).value, k).value))
      && GroupKey(files[n].doc, DateKey) == Some(k);
    assert LogFileName(files[n].doc.entries[0].timestamp) == n;
  }

  /** The `logs` directory and the files in it. */
  class LogDirectory {
    var present: bool
    var files: Files

    /** Files only exist inside an existing directory. */
    ghost predicate Valid()
      reads this
    {
      present || files == map[]
    }

    constructor ()
      ensures Valid() && !present && files == map[]
    {
      present := false;
      files := map[];
    }

    /**
     * One interval tick: the probe, then (unless it threw) the directory
     * created if missing and today's file read, pushed onto and written
     * back. Each tick runs to its end before the next begins.
     */
    method Tick(outcome: Scanner.FetchOutcome, startMs: real, endMs: real, probeNow: Time, today: Time)
      requires Valid()
      modifies this
      ensures Valid()
      ensures Scanner.CheckStatus(outcome, startMs, endMs, probeNow).Err? ==>
        present == old(present) && files == old(files)
      ensures Scanner.CheckStatus(outcome, startMs, endMs, probeNow).Ok? ==>
        present && files == Appended(old(files), LogFileName(today), LogEntry(today, Scanner.CheckStatus(outcome, startMs, endMs, probeNow).value))
      ensures OwnDated(old(files)) ==> OwnDated(files)
    {
      var result := Scanner.CheckStatus(outcome, startMs, endMs, probeNow);
      if result.Err? {
        return;
      }
      if !present {
        present := true;
      }
      var logFile := LogFileName(today);
      var logEntry := LogEntry(today, result.value);
      if OwnDated(files) {
        AppendKeepsOwnDated(files, logFile, logEntry);
      }
      AppendToFile(logFile, logEntry);
    }

    /**
     * The read callback of a tick: the file's array, or an empty one when
     * it is missing, blank or not JSON, with the entry pushed and written
     * back. A parsed value that is not an array makes `push` throw, and
     * nothing is written.
     */
    method AppendToFile(logFile: string, logEntry: Entry)
      modifies this
      ensures present == old(present)
      ensures files == Appended(old(files), logFile, logEntry)
    {
      var logs: seq<Entry> := [];
      if logFile in files {
        match files[logFile]
        case Blank =>
        case Unparsable =>
        case Json(OtherDoc(_)) =>
          return;
        case Json(ArrayDoc(es)) =>
          logs := es;
      }
      logs := logs + [logEntry];
      files := files[logFile := Json(ArrayDoc(logs))];
    }

    /**
     * The log query. `listing` is the order in which the file system
     * lists the directory.
     */
    method QueryLogs(listing: seq<string>) returns (r: Result<Dict<seq<Entry>>, QueryError>)
      requires Valid() && IsListing(listing, files)
      ensures r == Response(present, files, listing)
    {
      if !present {
        return Err(NoLogDirectory);
      }
      var logFiles := Select(listing);
      var parsed := ParseAll(files, logFiles);
      if parsed.Err? {
        return Err(parsed.error);
      }
      r := GroupByFirstDate(parsed.value);
    }
  }
}
