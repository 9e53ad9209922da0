# systemd dashboard server: a Dafny model of its core

The server is a small HTTP backend for a systemd dashboard. It answers each
request by running `systemctl` or `journalctl` and turning the text those
commands print into JSON-ready records. This project models what it does with
that text:

- the unit catalogue: both `systemctl` listings are parsed and merged into one
  record per unit, sorted by name (`parse_unit_files`, `parse_units`,
  `list_units`);
- the timer listing, and the next and last run of a unit (`list_timers`,
  `schedule_for_unit`, `usec_to_ms`);
- the unit whose journal holds a unit's runs (`resolve_log_unit`);
- the run history: invocation ids found in the journal, and one run per id
  with its time span, status and CPU use (`list_runs` with `upd_status`);
- the log text of one run (`logs_for_invocation`);
- the units that belong to some targets (`units_for_targets`);
- the argument checks done before any command runs (`UNIT_RE`,
  `INVOCATION_RE` and the limit ranges).

The machine is a value. A `Host.Host` holds what each command would print, or
the message it would fail with. Every entry point is a function that returns
a `Host.Reply`: the answer (`Ok`, or the error the server raises) together with
the commands it ran, in order. That lets the model state two things as
properties of the command trace: no command runs before the arguments are
checked, and every command's arguments passed the checks (`Host.AllSafe`).

Where the source works step by step (the parsers' loops, the merge loop, the
timer loop, invocation discovery, the per-run aggregation, the dependency
loop), the model has a `method` with that loop. Its `ensures` ties the result
to a specification function, and the properties are proved as lemmas about
that function. The modules follow the program: `Validation`, `Numbers`,
`Catalog`, `Timers`, `Schedule`, `Runs`, `Logs`, `Targets`. `Common`, `Text`,
`Sorting` and `Host` hold the JSON values and Python's string, integer and
sorting built-ins they rely on.

### Behaviour of the code worth knowing

The model follows the code in each case.

- `resolve_log_unit` accepts the unit a timer activates when it matches
  `UNIT_RE` (server.py:189). The 200-character bound of the entry points is not
  applied there.
- A catalogue name is the first whitespace-separated field of a listing line,
  and it is never checked against `UNIT_RE` (server.py:51-52, 65-67). So not
  every catalogue name can be passed back to the other entry points
  (`Targets.CatalogueNameUnchecked`, `Targets.SlashedNameRefused`).
- An accepted target is added to `wanted` before its dependencies are read
  (server.py:333). A target whose dependency listing is empty therefore yields
  the catalogue's units named after it, and no others. It does not fall back
  to the full catalogue (`Targets.LoneTargetListsNothing`). A failing
  dependency listing fails the request.
- Some malformed input raises instead of being skipped. The model
  returns `Err(Unexpected)` for each of these:
  - a journal record that is JSON but not an object (`e.get`);
  - an INVOCATION_ID that is truthy but not a string (the regex);
  - a MESSAGE that is truthy but not a string (`.lower()`);
  - a timer document that is neither a list nor empty, or a list item that is
    not an object (`it.get`);
  - a dependency line that `lstrip` leaves holding only other whitespace
    (`split(None, 1)[0]`).
- A timer listing that is not JSON raises `ValueError` from `json.loads`
  (server.py:130). The model keeps it apart as `Err(MalformedOutput)`.
- `usec_to_ms` has no upper bound, but `ms_to_iso` raises for a time in year
  10000 or later (server.py:39). One such next or last time fails the whole
  timer listing (server.py:139, 141), and with it `schedule_for_unit` and the
  log-unit lookup of a timer. One such record timestamp fails `list_runs`
  (server.py:281, 283). The model answers `Err(DateOutOfRange)` in these cases
  (`Timers.ListTimersFarFuture`, `Runs.RunPastYear9999`). The timer items are
  checked one at a time, so whichever bad item comes first decides the error
  (`Timers.FirstRefusalWins`).
- The journal scan asks for the newest 20000 records without `-r`
  (server.py:202-210), so `journalctl` prints them oldest first. Discovery
  therefore keeps the first `limit` distinct invocations of that window in
  printed order, which are its oldest ones. The model takes the records in
  the order printed and proves that discovery yields the first `limit` distinct
  ids in that order.

## Model

| member | source | states |
|---|---|---|
| Numbers.UsecToMs | server.py:26-33 | A time is present exactly when `int()` accepts the value and the integer is positive. It is then the whole milliseconds in that many microseconds: `r*1000 <= n < r*1000 + 1000`. |
| Numbers.ParseIntDecimal | server.py:28 | `int()` reads any integer printed in decimal back as that integer, negative ones included. |
| Numbers.UsecToMsRenders | server.py:26-39 | A positive microsecond count yields a time `ms_to_iso` can render exactly when it falls before year 10000. |
| Numbers.UsecToMsOfPrinted | server.py:26-33 | A positive microsecond count printed in decimal, as the journal prints `__REALTIME_TIMESTAMP`, converts to `n / 1000` milliseconds. |
| Validation.PatternIsToken | server.py:14 | A name matching `UNIT_RE` is non-empty and has no whitespace, so it is one field of a command line or a listing. |
| Catalog.ParseUnitFiles | server.py:42-53 | The loop builds the dict that the line-by-line fold over `UnitFileLine` gives for the listing's lines. |
| Catalog.ParseUnits | server.py:56-74 | The loop builds the dict that the line-by-line fold over `UnitLine` gives for the listing's lines. |
| Catalog.IndexLastWins | server.py:44-52 | A parser's dict holds a unit exactly when some line parses to a record for it. The record stored is the one from the last such line. |
| Catalog.IndexWellKeyed | server.py:52 | Every record a parser stores sits under its own unit name. |
| Catalog.UnitFileLineRoundTrip | server.py:45-52 | A `list-unit-files` line made of a unit and a stripped state reads back as that unit with that unit-file state. |
| Catalog.UnitLineRoundTrip | server.py:59-73 | A `list-units` line of four fields and a stripped description reads back as exactly those fields. An empty description reads back as "". |
| Catalog.MergedFields | server.py:94-101 | A merged record takes its unit-file state from `list-unit-files`, and its load, active and sub states and description from `list-units`. A field the unit's listings do not supply is absent. |
| Catalog.MergeListings | server.py:94-101 | The merge loop maps every name of either listing, and no other name, to its merged record. |
| Catalog.ListValues | server.py:103 | The values of the merged dict hold every stored record and nothing else, and no name occurs twice. |
| Catalog.SortedValuesAreCatalogue | server.py:103-104 | Whatever order the dict yields its values in, sorting by name gives the same list, the catalogue. |
| Catalog.CatalogueShape | server.py:94-104 | The catalogue is strictly ascending by name. It holds exactly one record per name of either listing, and that record is the merged one. |
| Catalog.ListUnits | server.py:77-105 | `list_units` runs the two listings in order; a failing one fails the request. Otherwise the answer is the catalogue of the two parsed listings. |
| Catalog.ListUnitsQueriesSafe | server.py:78-90 | `list_units` runs at most two commands, and neither takes an argument. |
| Timers.TimerEntries | server.py:130-132 | Empty output visits nothing, and output that is not JSON is refused. A JSON array visits its items in order. The document is accepted exactly when it is empty output, an array, an empty object or an empty string. |
| Timers.RecordsOfCharacterised | server.py:132-142 | The loop succeeds exactly when every item is an object whose times render, and then yields one record per item in order. Otherwise it fails with the error of the first item it refuses: `Unexpected` for a non-object and `DateOutOfRange` for a time that cannot be rendered. |
| Timers.RecordsOfFailsEarly | server.py:132-142 | Once a prefix of the items fails, the whole loop fails with that error. |
| Timers.FirstRefusalWins | server.py:132-142 | An unrenderable time ahead of a non-object item raises the date error. In the reverse order, the non-object raises first. |
| Timers.ListTimers | server.py:122-144 | The method runs one listing command, and its loop and sort produce what `Timers.ListTimersReply` specifies. |
| Timers.ListTimersSorted | server.py:131-143 | A successful listing accepted every item. It is ascending by timer name and holds exactly the items' records, each as often as its item occurs. Every time in it renders as an ISO time. |
| Timers.ListTimersFarFuture | server.py:131-142 | When every item is an object, one whose next or last time falls in year 10000 or later fails the whole listing with `DateOutOfRange`, wherever it stands. |
| Timers.ListTimersDocument | server.py:130 | A listing that is not JSON fails the request, and empty output gives an empty listing. |
| Timers.TimerOfPrinted | server.py:133-142 | An entry as systemd prints it gives its name, its activated unit and its times in milliseconds. |
| Timers.TimerOfUnscheduled | server.py:133-134 | An entry whose times are missing or zero has no next or last run. |
| Schedule.LastNamedIndex | server.py:152-155 | `by_timer.get(unit)` finds the last timer in the listing with that name, or none when no timer has it. |
| Schedule.ActivatingAt | server.py:168 | The positions of the timers that activate the unit are ascending, and every such timer's position is among them. |
| Schedule.Activating | server.py:168 | The candidates are exactly the listed timers that activate the unit, kept in listing order: candidate `k` is the timer at the `k`-th such position. |
| Schedule.EarliestIndex | server.py:169-170 | The chosen candidate has the earliest next run, and a time sorts before no time. On a tie it is the first in listing order. It exists exactly when there is a candidate. |
| Schedule.ScheduleOfTimer | server.py:154-165 | A timer's schedule copies the last listed timer of that name. With no such timer, its activated unit and times are null. |
| Schedule.ScheduleOfService | server.py:167-180 | A service's schedule comes from a timer that activates it. No other such timer has an earlier next run. With no such timer, the schedule is empty. |
| Schedule.ScheduleOfOther | server.py:182 | A unit that is neither a timer nor a service has kind "other" and no schedule. |
| Schedule.ScheduleOfServiceFirstEarliest | server.py:167-180 | A service's schedule is that of one listed timer that activates it. Every activating timer listed before it runs strictly later, and none listed after it runs earlier. This is the stable sort's choice. |
| Schedule.ScheduleOfServiceExample | server.py:168-170 | Of two timers of a service, the second is chosen exactly when it runs strictly earlier. On a tie, such as two timers with no next run, the first listed is chosen. |
| Schedule.ScheduleForUnitQueries | server.py:147-151 | No command runs unless the unit is valid. A valid unit of any kind costs exactly one timer listing, and a failing listing fails the request. |
| Schedule.ResolveLogUnitShape | server.py:185-191 | The log unit matches `UNIT_RE`. It is the unit itself, or, for a timer, the unit its schedule activates. Only a timer costs commands. |
| Schedule.ResolveLogUnitOfTimer | server.py:186-190 | A valid timer whose last listing entry activates a unit matching `UNIT_RE` has its runs read under that unit. |
| Runs.FailureIsAbsorbing | server.py:233-236 | Once a run has failed, no message makes it anything else. |
| Runs.VerdictCharacterised | server.py:231-237 | A run failed exactly when one of its messages mentions a failure. It succeeded exactly when no message mentions a failure and some message reports a clean end. Otherwise its status is unknown. |
| Runs.UpdStatusIgnoresCase | server.py:232 | The status update treats a message and its lower-case form alike. |
| Runs.MessageOf | server.py:232-275 | A falsy MESSAGE reads as "" and a string reads as itself. Any other value raises. |
| Runs.Sighting | server.py:215-223 | A line contributes an id only when it is 32 lowercase hex digits. |
| Runs.Scan | server.py:212-229 | Discovery only appends. It appends ids that are valid and new, and it stops once `limit` ids are in hand. |
| Runs.DiscoverInvocations | server.py:212-229 | The discovery loop, with its early exit, computes `Runs.Scan`. |
| Runs.Distinct | server.py:224-227 | Keeping each id's first sighting yields every sighted id exactly once. |
| Runs.DiscoveryTakesFirstDistinct | server.py:212-229 | When no scanned line raises, discovery yields the first `limit` distinct ids, in the order the journal shows them. |
| Runs.DiscoveryExample | server.py:212-229 | A scan printing invocations C, B, A, C, B, read with limit 2, yields C then B. |
| Runs.TallyOfFailsEarly | server.py:255-275 | A record that raises ends the aggregation, so no later record changes the outcome. |
| Runs.Aggregate | server.py:250-275 | The loop over one invocation's records computes `Runs.TallyOf`. |
| Runs.MinOf | server.py:264 | The smallest timestamp is one of them and is at most every other. There is none exactly when the list is empty. |
| Runs.MaxOf | server.py:265-273 | The largest value is one of them and is at least every other. There is none exactly when the list is empty. |
| Runs.TallyCharacterised | server.py:250-275 | A run's start and end are the earliest and latest record timestamps. Its CPU use is the largest reading, and its status is the verdict of its messages, in order. |
| Runs.RunDuration | server.py:277 | A run has a duration exactly when a record has a timestamp. The duration is never negative, and every timestamp lies between start and end. |
| Runs.CpuUsageExample | server.py:267-273 | CPU readings of 100, 50 and 300 ns report 300. |
| Runs.RunsOfShape | server.py:239-287 | On success there is one run per discovered id, in discovery order, and one journal query per id, and every start and end renders as an ISO time. Whatever the outcome, only those ids are queried, in order. |
| Runs.RunPastYear9999 | server.py:277-283 | A record stamped in year 10000 or later gives its run an end that cannot be rendered, and fails that run's aggregation with `DateOutOfRange`. |
| Runs.RunsOfFailsEarly | server.py:240-248 | A failed query or a raising record ends the loop over the ids: no later id is queried. |
| Runs.CollectRuns | server.py:239-287 | The loop over the ids computes `Runs.RunsOf`. |
| Runs.ListRuns | server.py:194-289 | The method checks, resolves, scans and aggregates exactly as `Runs.ListRunsReply` specifies. |
| Runs.ListRunsChecksFirst | server.py:195-198 | No command runs exactly when the unit or the limit is invalid. The error names the first check that failed. |
| Runs.ListRunsQueriesSafe | server.py:194-248 | Every command `list_runs` runs has checked arguments: a log unit matching `UNIT_RE`, the 20000-line window, valid invocation ids. |
| Runs.RunsQueriesSafe | server.py:239-248 | The loop over the ids queries only valid ids, under the log unit. |
| Runs.ListRunsReport | server.py:200-289 | A report names the resolved log unit. It holds at most `limit` runs, one per discovered id, in discovery order, with no id twice, and every start and end renders. When no line raises, these are the first `limit` distinct ids of the journal. |
| Runs.ListRunsOfNonTimer | server.py:185-191 | The runs of a unit that is not a timer are read under the unit itself. |
| Logs.LogsChecksFirst | server.py:293-298 | No command runs exactly when the unit, the invocation id or the limit is invalid. The error names the first check that failed. |
| Logs.LogsQueriesSafe | server.py:292-311 | Every command run has checked arguments, including the line limit of 1 to 5000. |
| Logs.LogsPassThrough | server.py:300-312 | A successful answer is the journal text of the resolved log unit for that invocation and line limit, unchanged. That query is the last command run. |
| Targets.StripTree | server.py:335 | Stripping tree characters leaves a string that does not start with one. |
| Targets.StripTreeSuffix | server.py:335 | Stripping leaves a suffix of the line, and removes tree characters only. |
| Targets.StripTreePrefix | server.py:335 | Stripping removes exactly a leading run of tree characters. |
| Targets.DependencyOf | server.py:335-340 | A dependency line adds a name only when that name matches `UNIT_RE`. |
| Targets.DependencyOfDrawnUnit | server.py:335-340 | A line drawn as tree characters and then a unit name adds that name. |
| Targets.Dependencies | server.py:334-340 | Every name a dependency listing adds matches `UNIT_RE`. |
| Targets.DependenciesFailEarly | server.py:334-340 | A line that raises ends the listing, so no later line changes the outcome. |
| Targets.DependencyNames | server.py:334-340 | The loop over one listing's lines computes `Targets.Dependencies`. |
| Targets.CollectWanted | server.py:319-340 | The loop over the targets computes `Targets.Wanted`. |
| Targets.WantedFailsEarly | server.py:320-332 | A failed dependency listing ends the loop, so no later target is listed. |
| Targets.WantedQueries | server.py:320-332 | Every command has checked arguments. No command runs exactly when no target is accepted, and only a command can fail the loop. |
| Targets.WantedQueriesInOrder | server.py:320-340 | On success the commands are exactly one dependency listing per accepted target, in target order. On failure they are the listings up to and including the accepted target whose listing failed, every earlier target having been read. |
| Targets.WantedNames | server.py:320-340 | Every accepted target is wanted, even one whose listing is empty. Every wanted name matches `UNIT_RE`. |
| Targets.WantedExactly | server.py:320-340 | A name is wanted exactly when it is an accepted target or a name an accepted target's listing adds. A refused target adds nothing. |
| Targets.Filter | server.py:346 | The filter keeps exactly the units whose names are wanted. |
| Targets.FilterNothingWanted | server.py:346 | A filter that wants none of the units keeps nothing. |
| Targets.FilterKeepsOrder | server.py:346 | Filtering keeps the catalogue's ascending order. |
| Targets.UnitsForTargets | server.py:315-346 | The method does exactly what `Targets.UnitsForTargetsReply` specifies. |
| Targets.NoAcceptedTargetListsAll | server.py:316-343 | With no target given or none accepted, the answer and the commands run are those of `list_units`. |
| Targets.TargetUnitsShape | server.py:344-346 | With an accepted target, the answer is exactly the catalogue's wanted units, in catalogue order. |
| Targets.LoneTargetListsNothing | server.py:333-346 | A target whose dependency listing is empty, and which names no catalogue unit, yields an empty list, not the full catalogue. |
| Targets.UnitsForTargetsQueriesSafe | server.py:315-346 | Every command `units_for_targets` runs has checked arguments. |
| Targets.CatalogueNameUnchecked | server.py:51-52 | Any whitespace-free first field of a `list-unit-files` line becomes a catalogue name, unchecked. |
| Targets.SlashedNameRefused | server.py:14 | "a/b" is such a field, yet every entry point refuses it as a unit name. |
| Sorting.SortByKey | server.py:104 | Sorting by a key keeps the same elements, each as often, in ascending key order. |
| Sorting.SortedUnique | server.py:104 | Two strictly ascending lists with the same elements are equal, so the sort's result does not depend on the dict's order. |
| Text.SplitLinesJoinLines | server.py:44 | `splitlines` gives back the lines that were joined, when none of them holds a line break. |

## Left out

- `run` and `subprocess`: a command's output, or its failure message after a non-zero exit or a timeout, is a field of `Host.Host`. The timeouts and the text of the failure message are not modelled.
- `json.loads`: a journal line is given already classified as empty, not JSON, or a decoded value. The timer document is given as empty, not JSON, or decoded. Floating-point JSON numbers are not modelled.
- `ms_to_iso` and the `nextIso`, `lastIso`, `startIso` and `endIso` fields: the rendered ISO strings are not modelled. Only the calendar's range is: a time in year 10000 or later makes the request fail.
- The HTTP handler, routing, static file serving and `main`: these are I/O. The mapping of `ValueError` to status 400 and of other exceptions to 500 is part of this.
- `list_targets` and `unit_detail`: these are outside the modelled core. `list_targets` reuses `parse_units` and the same sort.
- `Numbers.ParseIntDecimal`: Python's `int()` is modelled on ASCII digits, a sign, underscores between digits and surrounding whitespace. Unicode digits and the 4300-digit limit are not modelled.
- `Runs.UpdStatusIgnoresCase`: `str.lower()` is modelled on ASCII letters only. Two other characters lower to ASCII. U+212A lowers to `k`, which no keyword of the status contains. U+0130 lowers to `i` followed by U+0307, and no keyword has U+0307 after an `i` or ends in `i`, so neither changes a match. All other characters stay outside ASCII and cannot match a keyword.
- `Sorting.SortByKey`: Python's sort is stable. The model's insertion sort is stable too, but stability is not stated or proved. It matters only for `list_timers` with repeated names, since catalogue names are distinct.
- `Catalog.ListValues`: the order of a dict's values is not modelled. The method yields some order of the stored records. `Catalog.SortedValuesAreCatalogue` shows that the sorted result does not depend on it.
- `Timers.TimersOf`: a listing that holds a truthy non-string timer name is refused as a whole. Python raises only when its sort compares such a name with another name.
- Concurrency: the threaded server and commands running at the same time are not modelled.
