# Health-check uptime monitor, modelled in Dafny

This project models the core of a small uptime monitor. A Node.js server probes one
health-check URL on a fixed interval. It appends each probe result to a JSON file named
for the current UTC day (`logs/YYYY-MM-DD.json`). An `/api/logs` endpoint returns the
newest seven day files, grouped by the UTC date of each file's first entry. A browser
page loads those logs and fills in a mock day when today's data is missing. It then
draws one panel per day: 24 hourly cells, up/down counters, a "today" panel placed
first, a summary card and an hourly detail view with a response-time chart. A stand-alone
script writes a synthetic day of logs.

Modules, one per concern of the program:

- `Records`: the log entry (`timestamp`, optional `timezone`, `data` with `status`,
  `responseTimeMs`, optional `statusCode`), and status values as JavaScript sees them
  (`true`, `false`, missing, something else).
- `Strings`, `Dict`, `Dates`: code-unit string order (which stands for `localeCompare`),
  insertion-ordered JavaScript objects, and the ECMAScript day/year/month arithmetic
  behind `toISOString()` and the `split('T')[0]` date key.
- `Scanner`: `checkStatus`, with the fetch's 5000 ms abort signal.
- `Listing`, `LogStore`: the file selection of `/api/logs`, parsing, grouping, and the
  `logs` directory as a class whose `Tick` appends one entry.
- `App`: the client's timezone and log loading, with its mock-data fallback.
- `StatusDisplay`: the per-day counters, the 24 cells, panel ordering and the summary card.
- `Ui`: the hourly detail: an in-place sort of an array by time, statistics and chart series.
- `GenerateLogs`: the synthetic-log script.

Foreign inputs are parameters: the network reply, the clock, `Math.random()`, the
directory listing order, and the timezone database (`HourLookup`: whether the zone name is
valid, the zone's wall-clock hour, the browser's local hour).

## Model

| member | source | states |
|---|---|---|
| Scanner.Settle | scanner.js:12-20 | a reply at or after 5000 ms rejects with the abort reason; the fetch resolves exactly when an answer came before the timeout, with that answer |
| Scanner.CheckStatus | scanner.js:7-43 | fails exactly when the fetch rejected, with its error; otherwise status is a boolean that is true iff the HTTP status is 200, the timestamp is the current instant, and the latency is the elapsed time rounded to the nearest integer |
| Scanner.Round | scanner.js:23 | `Math.round` lies within half a unit of its argument |
| Scanner.LatencyIndependentOfStatus | scanner.js:22-25 | the latency is taken before the status is examined: same timings give the same latency whatever the HTTP status |
| Scanner.AnsweredLatencyBounded | scanner.js:10-23 | a probe answered before the 5000 ms deadline, timed up to the moment it settles, succeeds with a latency between 0 and 5000 ms |
| Scanner.NonOkIsDown | scanner.js:25-31 | any status other than 200, including other 2xx codes, is reported as down, not thrown |
| Scanner.TimeoutIsThrown | scanner.js:39-42 | a request that times out is rethrown, never recorded as down |
| Dates.TimeWithinDay | server.js:87-88 | an instant splits into a whole day number and a remainder in 0..86399999 ms |
| Dates.YearLength | server.js:88 | consecutive year starts are one year-length apart (366 days in leap years) |
| Dates.Period | server.js:88 | the Gregorian calendar repeats every 400 years (146097 days) |
| Dates.YearFromDay | server.js:88 | the year of a day number is the one whose start is at or before it and whose successor's start is after it |
| Dates.YearFromDayIsLargest | server.js:88 | that year is the largest whose start is at or before the day |
| Dates.MonthIndex | server.js:88 | the month of a day in the year is the one whose cumulative start brackets it |
| Dates.CivilFromDay | server.js:88 | every day number has a valid calendar date that maps back to it |
| Dates.CivilRoundTrip | server.js:88 | the calendar conversion is a bijection: valid date to day number and back gives the same date |
| Dates.CivilOrder | server.js:88 | day numbers order exactly as calendar dates order, and are equal exactly when the dates are |
| Dates.DayOrder | server.js:88 | distinct days have distinct dates, in the same order |
| Dates.SplitIsDateKey | server.js:88 | `toISOString().split('T')[0]` is the zero-padded `YYYY-MM-DD` date of the UTC day |
| Dates.DateKeyPrefix | server.js:88-93 | the date key is the text of the ISO string before its `T` |
| Dates.DateTextOrder | server.js:45 | for four-digit years, string order on date texts is chronological order, and equal texts are equal dates |
| Dates.DateKeyOrder | server.js:45 | for four-digit years, one instant's date key sorts below another's exactly when its UTC day is earlier |
| Dates.DateKeyLength | server.js:88 | for four-digit years a date key has ten characters |
| Strings.BelowTotal | server.js:45 | the string order used for sorting is total |
| Strings.BelowTransitive | server.js:45 | the string order is transitive |
| Strings.BelowIrreflexive | server.js:45 | the string order is strict |
| Strings.BelowConcat | server.js:45 | strings with equal-length prefixes compare by prefix, then by the rest |
| Strings.PadOrder | server.js:88 | zero-padded numbers of one width compare as strings exactly as they compare as numbers |
| Dict.Get | server.js:61 | property lookup finds a value exactly when the key is present |
| Dict.Put | server.js:61 | a property assignment sets that key and leaves the others; a new key is appended to the key order, an existing key keeps its place |
| Dict.PutKeepsUnique | server.js:61 | assignment never duplicates a key |
| Listing.JsonNames | server.js:44 | keeps exactly the listed names ending in `.json` |
| Listing.SortDescending | server.js:45 | the result is in descending order and is a permutation of its input |
| Listing.SortedUnique | server.js:45 | two descending arrangements of the same multiset of names are equal, so the sort's result is determined |
| Listing.Select | server.js:43-46 | at most seven names, descending, all `.json` names from the listing; every `.json` name left out is below all kept names |
| Listing.SelectIndependent | server.js:43-46 | the selection is the same whatever order the directory is listed in |
| Listing.StrictlyDescending | server.js:45-46 | distinct names in the selection are strictly descending |
| LogStore.LogFileName | server.js:86-89 | the file name ends in `.json` |
| LogStore.FileNameMatchesTimestamp | server.js:87-93 | the file name is the date part of the entry's own ISO timestamp, plus `.json` |
| LogStore.LogFileNameOrder | server.js:88-89 | for four-digit years, file-name order is day order, and two instants share a file exactly when they share a UTC day |
| LogStore.PriorEntries | server.js:99-107 | the array the tick pushes onto: empty for a missing, blank or unparsable file, the parsed array for an array file, and none (the push throws) exactly for a parsed non-array |
| LogStore.Appended | server.js:98-118 | the tick changes only its own file; a JSON array gains the entry at its end; a missing, blank or unparsable file becomes a one-entry array; a parsed non-array is left as it was |
| LogStore.AppendKeepsOwnDated | server.js:86-118 | if every array file holds only entries of its own date, it still does after a tick |
| LogStore.ParseAll | server.js:48-51 | succeeds exactly when every chosen file parses, giving the documents in order; otherwise fails naming the first file that does not parse |
| LogStore.Grouped | server.js:53-63 | keys are unique; a date is a key exactly when some non-empty array file's first entry has that date; each value is non-empty and its first entry carries its key |
| LogStore.GroupedLookup | server.js:55-62 | looking a date up finds the last visited file with that date, or nothing |
| LogStore.GroupedStep | server.js:55-62 | visiting one more file sets its own key and leaves the others |
| LogStore.GroupByFirstDate | server.js:53-63 | the `forEach` loop fails exactly when some document passes the guard without being an array; otherwise it computes the grouping |
| LogStore.ResponseFails | server.js:40-66 | the query fails with the missing-directory error exactly when the directory is missing; with the directory present it fails exactly when a chosen file does not parse or parses to a non-array that passes the grouping's guard |
| LogStore.ResponseIndependentOfListing | server.js:40-66 | the answer does not depend on the directory listing order |
| LogStore.ResponseValue | server.js:40-66 | each date in the answer holds a whole chosen non-empty file whose first entry has that date; among chosen files with that date it is the one with the smallest name |
| LogStore.ChosenValue | server.js:45-62 | with names strictly descending, the last file visited for a key is the one with the smallest name |
| LogStore.ResponseOwnDated | server.js:40-66 | when every file holds only its own date's entries, each date in the answer is exactly the contents of the chosen file named for it |
| LogStore.LogDirectory.constructor | server.js:79 | no directory and no files |
| LogStore.LogDirectory.Tick | server.js:73-123 | a probe that throws changes nothing; otherwise the directory exists and today's file is appended to as `Appended` says; files dated by their names stay so |
| LogStore.LogDirectory.AppendToFile | server.js:98-118 | the read callback's new directory state is `Appended` of the old one |
| LogStore.LogDirectory.QueryLogs | server.js:40-66 | the query's result is `Response` for the directory's state and listing order |
| Records.UpDownBounded | public/js/statusDisplay.js:83-88 | up and down counts never exceed the number of entries, and equal it exactly when every status is a boolean |
| App.GetStatusColor | public/js/app.js:151-153 | the up colour exactly for truthy statuses, the down colour exactly for falsy ones |
| App.MockSlot | public/js/app.js:72-94 | entry `k` falls at hour `k/4`, at minute 0, 15, 30 or 45, `15k` minutes after midnight |
| App.MockResponseTime | public/js/app.js:76-91 | `floor(r * span) + 50` lies in 50..span+49 |
| App.MockEntry | public/js/app.js:74-100 | the status is a boolean; the status code is 200 exactly when up and 503 otherwise; latency in 50..549 on the hour and 50..449 for the follow-ups |
| App.MockDay | public/js/app.js:64-106 | four entries for each hour up to the current hour, entry `k` being the `k`-th mock entry |
| App.MockDayOrder | public/js/app.js:72-94 | each entry is stamped with its own hour and quarter, hours never go past the current hour, and entries are in strictly increasing (hour, minute) order |
| App.CreateMockDataForDate | public/js/app.js:64-106 | the nested loops produce exactly the mock day |
| App.CreateMockData | public/js/app.js:109-148 | keys are today then yesterday, a single key when the two date strings are equal; yesterday's key holds yesterday's mock, today's key holds today's when distinct |
| App.WithTodayMock | public/js/app.js:47-51 | existing dates keep their entries; the mock is added under the server's date exactly when that date is a non-empty string with no entry in the logs; otherwise the logs are unchanged |
| App.Client.constructor | public/js/app.js:2-3 | the timezone starts as `UTC` and the server date as null |
| App.Client.FetchTimezoneConfig | public/js/app.js:6-25 | a successful reply gives its timezone and records its date; a failed or non-ok reply gives `UTC` and leaves the date |
| App.Client.LoadStatusData | public/js/app.js:28-61 | the timezone is set from the config request; a successful log reply gives its `logs` (or empty) with today's mock inserted when missing; any failure gives the two-day mock data |
| StatusDisplay.InHour | public/js/statusDisplay.js:162-207 | filtering by hour never adds entries |
| StatusDisplay.InHourAppend | public/js/statusDisplay.js:65-80 | appending an entry extends the filter and the last status of its own hour only |
| StatusDisplay.InHourMembers | public/js/statusDisplay.js:191-207 | an entry is in an hour's filter exactly when it is in the day's data and has that hour |
| StatusDisplay.LastStatusIsLast | public/js/statusDisplay.js:79 | an hour's recorded status is that of the last entry of that hour, and is missing exactly when the hour has no entries |
| StatusDisplay.HoursPartition | public/js/statusDisplay.js:65-89 | when every entry has an hour, the 24 hours together hold exactly the day's entries, so the scan counts add up to the number of entries |
| StatusDisplay.ScanTotalIsSize | public/js/statusDisplay.js:80 | the scan counts of the first n hours equal the number of entries in those hours |
| StatusDisplay.TallyOf | public/js/statusDisplay.js:56-89 | 24 hourly statuses and 24 scan counts |
| StatusDisplay.CountDay | public/js/statusDisplay.js:56-89 | the counting loop computes the tally |
| StatusDisplay.TallyFacts | public/js/statusDisplay.js:56-89 | the total is the number of entries; up plus failed is at most that; each hour's scans count the entries of that hour and its status is the last of them |
| StatusDisplay.CreateHourlyTimeline | public/js/statusDisplay.js:142-224 | 24 cells, cell `h` built from hour `h`'s counters and the entries the tooltip and click filters select with their own (+8 h fallback) hour |
| StatusDisplay.CellsAgree | public/js/statusDisplay.js:151-207 | with the corrected filter (the counting loop's hour), a cell's tooltip covers exactly its scans; it opens the detail and carries a status exactly when it has scans; it is grey without scans and takes the status colour otherwise |
| StatusDisplay.ValidZoneCellsAgree | public/js/statusDisplay.js:162-207 | with a valid timezone name the page's cells are the corrected ones: the tooltip covers exactly the scans and a click opens the detail exactly when there are scans |
| StatusDisplay.FallbackFilterMismatch | public/js/statusDisplay.js:200-204 | as written, with an invalid zone on a UTC browser and one entry at 00:30, the page's cell of hour 0 is coloured with one scan while its tooltip holds no entries and a click opens nothing |
| StatusDisplay.DayPanelAt | public/js/statusDisplay.js:16-33 | each panel comes from a day with data, and is marked today exactly when its date equals the server's date |
| StatusDisplay.WhereToday | public/js/statusDisplay.js:33 | the selection keeps only panels with the requested today flag |
| StatusDisplay.TodayFirstOrder | public/js/statusDisplay.js:126-131 | inserting today panels at the top and appending the others gives the today panels in reverse order, then the others in order |
| StatusDisplay.TodayFirstSnoc | public/js/statusDisplay.js:126-131 | one more panel goes to the front when it is today's, to the end otherwise |
| StatusDisplay.ArrangedOrder | public/js/statusDisplay.js:16-132 | with unique date keys, the page shows at most one today panel, dated with the server's date, first, then the other days in key order |
| StatusDisplay.TodaySummary | public/js/statusDisplay.js:227-300 | a summary exists exactly when the server's date has a non-empty entry list; its total is that list's length and up plus failed is at most the total |
| StatusDisplay.CreateTodaySummaryCard | public/js/statusDisplay.js:227-300 | the loop computes that summary |
| StatusDisplay.InitializeStatusDisplay | public/js/statusDisplay.js:2-139 | the panels shown are the today-first arrangement of the days with data, each with the cells the page builds, and the summary is today's |
| Ui.SortByTimestamp | public/js/ui.js:4 | the array ends sorted by timestamp and is a permutation of what it held |
| Ui.SinkInto | public/js/ui.js:4 | one insertion step extends the sorted prefix by one, permuting the array |
| Ui.Swap | public/js/ui.js:4 | exchanges two elements and leaves the rest |
| Ui.TotalPermutation | public/js/ui.js:27-31 | a sum over entries does not depend on their order |
| Ui.CountsAreTotals | public/js/ui.js:27-28 | the up and down filters count as the summed weights |
| Ui.ResponseTimes | public/js/ui.js:29 | the series holds each entry's response time at the entry's index |
| Ui.Min | public/js/ui.js:33 | the minimum is one of the values and no value is smaller |
| Ui.Max | public/js/ui.js:34 | the maximum is one of the values and no value is larger |
| Ui.HourStatsOf | public/js/ui.js:27-34 | total is the count; up plus down at most the total; average, minimum and maximum are absent exactly for an empty hour; minimum and maximum bound and occur among the response times |
| Ui.AverageBetweenExtremes | public/js/ui.js:30-34 | the average lies between the minimum and the maximum |
| Ui.StatsOrderFree | public/js/ui.js:27-34 | the statistics are the same for any reordering of the entries, so sorting first does not change them |
| Ui.PointColour | public/js/ui.js:79-81 | green exactly for entries whose status is `true`, red for every other |
| Ui.ChartOf | public/js/ui.js:68-81 | labels, values and colours are index-aligned with the entries: the entry's formatted time, response time and colour |
| Ui.ShowHourlyDetail | public/js/ui.js:2-65 | sorts the array in place by time (a permutation), the statistics equal those of the unsorted input, and the chart follows the sorted order |
| GenerateLogs.GenerationInstantValue | generate-logs.js:5 | `new Date('2025-05-19')` is day 20227 since the epoch, at midnight UTC |
| GenerateLogs.LocalMidnight | generate-logs.js:5-14 | local midnight lies within a day of that instant and is at the start of a local day |
| GenerateLogs.RandomResponseTime | generate-logs.js:17 | `floor(r * 66) + 4` lies in 4..69 |
| GenerateLogs.GeneratedLogs | generate-logs.js:10-32 | 2880 entries |
| GenerateLogs.LoopEntryIsGenerated | generate-logs.js:10-29 | the entry for (hour, minute, second) is the entry for half-minute `120h + 2m + s/30` |
| GenerateLogs.Generate | generate-logs.js:4-32 | the three nested loops produce exactly the generated sequence |
| GenerateLogs.GeneratedFacts | generate-logs.js:10-29 | every entry is up, labelled with the zone, has its data timestamp equal to its own and a latency in 4..69; entry `k` is `30k` seconds after local midnight, on one local date, in local hour `k/120`, and timestamps strictly increase |
| GenerateLogs.HalfMinuteHour | generate-logs.js:10-14 | half-minute `k` falls in hour `k/120` |
| GenerateLogs.GeneratedFileKey | generate-logs.js:35-36 | generated in Kuala Lumpur (UTC+8), the file named `2025-05-19.json` is grouped by the query under `2025-05-18` |
| GenerateLogs.WriteGenerated | generate-logs.js:35-36 | the day file becomes the generated array, whatever it held; other files are unchanged |

## Left out

- Express routing, `dotenv`, `PORT`, `app.listen` and the `/api/status` route: HTTP plumbing with no logic beyond what is modelled.
- Console logging, DOM construction, CSS classes other than the status colours, the modal handlers and the Chart.js call: presentation only. A cell is modelled by its colour, status, scans, tooltip entries and whether it opens the detail.
- Concurrency of ticks: `setInterval` may start a tick before the previous one's read and write callbacks finish. The model runs each tick to completion before the next (`LogStore.LogDirectory.Tick`). Lost updates between overlapping ticks are not modelled.
- `CHECK_INTERVAL_MS` and the interval timing itself are not modelled; a tick is one call.
- I/O failures: `readdirSync` on a missing directory is modelled as the query error; write errors of `fs.writeFile` are not modelled (writes succeed).
- `LogStore.LogDirectory.Tick`: a file that parses to a JSON value that is not an array makes `push` throw inside the read callback. The process crash that follows is modelled only as "nothing is written".
- LogStore.GroupThrows: every non-array document that passes the grouping's guard is taken to throw. An object with a positive `length` whose property `"0"` holds a valid `timestamp` would be grouped by the source instead; such objects are not modelled.
- Malformed entries: an entry whose timestamp is not a valid date would make `toISOString()` throw. Entries in the model always carry a valid instant.
- `/api/logs` returns the grouped object itself, while the client reads `data.logs`. The client model (`App.Client.LoadStatusData`) takes the reply's `logs` field as a parameter, so the mismatch is a matter of which reply is given.
- `/api/timezone` is not defined by the server. `App.Client.FetchTimezoneConfig` takes its reply as a parameter, which covers the not-found reply.
- The timezone database, `toLocaleString` and the browser's local time are foreign. They are abstracted by `StatusDisplay.HourLookup`, by the `MockSource` stamp function and by the today/yesterday date strings given to `App.CreateMockData`. Daylight-saving changes are not modelled; `GenerateLogs` uses a fixed UTC offset.
- `localeCompare` is modelled as code-unit order. The two agree on file names made of digits, `-` and `.json`.
- Floating point: averages are exact rationals. `toFixed`, the uptime percentage and its colour thresholds (99.9 and 90) are not modelled.
- `StatusDisplay.TodaySummary`: the summary's up/failed counts and entry total are modelled; the response total skips falsy response times as the source does, but its division and formatting are not stated.
- `Ui.SortByTimestamp`: the sort is stated as sorted and a permutation; whether it is stable, like the engine's `Array.prototype.sort`, is not stated.
- Day names and full date formatting (`toLocaleDateString`, `formatDateInTimezone`) are not modelled.
- `GenerateLogs.GeneratedFacts`: states 24 hours of local time from local midnight; on a day with a daylight-saving change the real script's `setHours` would differ.

## Findings

| source | as written | input that shows it | evidently intended | confidence | as-written member | corrected member |
|---|---|---|---|---|---|---|
| public/js/statusDisplay.js:200-204 (also 171-175) | when `toLocaleString` throws, the tooltip and click filters take the local hour of the instant shifted by eight hours | an invalid timezone name, a browser on UTC, one entry at 00:30Z: the counting loop (lines 74-77) files it under hour 0 and colours that cell, but the filters look for it under hour 8, so the cell's tooltip and detail find nothing | the same hour as the counting loop, as the comment on lines 165 and 194 says | not executed | StatusDisplay.FallbackFilterMismatch | StatusDisplay.CellsAgree |
