# Log reader backend: the in-memory log service, in Dafny

The log reader backend accepts uploaded vehicle-diagnostic log files. It keeps
the lines that have the form

    [<timestamp>] [VEHICLE_ID:<digits>] [<level>] [CODE:<code>] [<message>]

as log entries, and answers paginated, filtered and sortable queries over them.
This project models the service class `LogsService` of
`src/logs/logs.service.ts` and proves what it does. The class holds
`logs: seq<LogEntry>`, and its operations are:

- `parseLogLine`
- `addLogsFromFile`
- `findAll`
- `getLogs`
- `getLogCount`
- `getFilteredLogs`

The modules, in dependency order:

- `Wrappers` (`wrappers.dfy`): `Option`.
- `LogLine` (`log_line.dfy`): the `LogEntry` record and the line grammar as
  the regular expression `\[(.+?)\] \[VEHICLE_ID:(\d+)\] \[(\w+)\] \[CODE:(\w+)\] \[(.+)\]`
  defines it. The grammar is stated two ways. `Occurs(line, s, f)` says that
  the pattern matches at `s` with captures `f`. `IsRegexMatch(line, s, f)`
  says that this is the match a backtracking JavaScript engine reports: the
  leftmost start, then the shortest timestamp (lazy `(.+?)`), then the longest
  message (greedy `(.+)`).
- `LineParser` (`line_parser.dfy`): an executable scanner (`Scan`) and
  `ParseLogLine`, proved to return exactly the reported match.
- `Seqs` (`seqs.dfy`): `Array.prototype.filter`, and `String.prototype.split` /
  `Array.prototype.join` with a one-character separator.
- `Paging` (`paging.dfy`): `Array.prototype.slice` with JavaScript's clamping
  of its arguments, and the `offset = (page - 1) * limit` pagination.
- `Ordering` (`ordering.dfy`): JavaScript `<` on strings, and the comparator of
  `getLogs`.
- `Sorting` (`sorting.dfy`): the sort step of `getLogs`. `Array.prototype.sort`
  is stable, so its result is the one stable sort by the comparator. It is
  specified by an insertion sort.
- `Queries` (`queries.dfy`): the five optional filters, the entries that satisfy
  them (`Select`), and `findAll`'s test as written and as corrected.
- `Service` (`service.dfy`): the class `LogsService` with its methods, and the
  filter chain of `getLogs` and `getFilteredLogs` as a method.
- `Scenario` (`scenario.dfy`): a concrete upload followed by a query, through
  the class.

Two external things are parameters:

- `new Date(s).getTime()` is `dateOf: string -> Option<int>`, where `None`
  stands for `NaN`. Every comparison involving `NaN` is false, so an entry or
  bound that does not parse fails the `from`/`to` filters.
- A filter given as `undefined` or `""` is falsy in JavaScript and imposes
  nothing. It is an `Option<string>` that is `None` or `Some("")`.

Two behaviours of the code are modelled exactly as written:

- The regular expression's timestamp group `(.+?)` is lazy but may still hold
  `]`, when that is the only way for the rest of the pattern to match. Its
  message group `(.+)` is greedy and runs to the last `]` that lets the match
  succeed, so a message may hold `]`.
- `page` and `limit` are not validated: `(page - 1) * limit` and the sum with
  `limit` go straight to `slice`, with its clamping and its counting from the
  end for negative arguments.

## Model

| member | source | states |
|---|---|---|
| LineParser.ScanIsRegexMatch | src/logs/logs.service.ts:17-18 | the scanner finds captures `f` at position `s` if and only if that is the match the regular expression engine reports: leftmost start, shortest timestamp, then longest message |
| LineParser.ParseLogLineIsRegexMatch | src/logs/logs.service.ts:16-21 | `parseLogLine` returns `f` exactly when `f` holds the five groups of the reported match, verbatim |
| LineParser.ParseLogLineNone | src/logs/logs.service.ts:18-19 | `parseLogLine` returns null exactly when no substring of the line matches the pattern |
| LineParser.RegexMatchUnique | src/logs/logs.service.ts:17 | the engine reports at most one match per line, so the captures are determined |
| LineParser.ParseEmbedded | src/logs/logs.service.ts:17-21 | round trip: an entry whose fields have the pattern's shapes (every field non-empty; timestamp and message without line breaks, vehicle id of digits, level and code of word characters), written out in the line format, is read back unchanged, whatever `]` its message holds, when no `[` precedes it, its timestamp has no `]` and no `]` follows it |
| Seqs.SplitJoin | src/logs/logs.service.ts:26 | no piece of `split('\n')` holds a line break, and joining the pieces gives back the content |
| Seqs.JoinSplit | src/logs/logs.service.ts:26 | pieces without line breaks, joined and split again, come back unchanged |
| Service.ParseAllCount | src/logs/logs.service.ts:29-35 | the loop adds one entry per line the pattern matches |
| Service.ParseAllConcat | src/logs/logs.service.ts:29-35 | entries are appended in line order: parsing two blocks of lines gives the entries of the first, then those of the second |
| Service.ParseAllRendered | src/logs/logs.service.ts:29-35 | lines holding written-out entries whose fields have the pattern's shapes and whose timestamps hold no `]` parse back to exactly those entries, in order |
| Service.UploadRendered | src/logs/logs.service.ts:25-36 | uploading a file made of written-out entries, one per line, whose fields have the pattern's shapes and whose timestamps hold no `]`, adds exactly those entries |
| Service.LogsService.constructor | src/logs/logs.service.ts:14 | the store starts empty, so the count is 0 |
| Service.LogsService.GetLogCount | src/logs/logs.service.ts:96-98 | the count is the number of stored entries: 0 after the constructor, and growing by the number of matching lines with each `AddLogsFromFile` |
| Service.LogsService.AddLogsFromFile | src/logs/logs.service.ts:25-36 | existing entries stay as they are; the entries of the matching lines are appended in line order, so `getLogCount` grows by the number of matching lines |
| Service.LogsService.FindAll | src/logs/logs.service.ts:38-53 | as written: without a `level` filter it returns the entries satisfying the active filters, in stored order; with one, the entries that pass the other filters, in stored order and as often as they are stored, narrowed to those whose `code` equals the level value |
| Queries.FindAllAsWrittenIsFilter | src/logs/logs.service.ts:45-52 | with a `level` filter, `findAll` is the subsequence of the entries passing the other filters whose code equals the level value |
| Queries.FindAllAsWrittenWithoutLevel | src/logs/logs.service.ts:45-52 | without a `level` filter, `findAll` agrees with the filtering of `getLogs` and `getFilteredLogs` |
| Queries.FindAllAsWrittenMeaning | src/logs/logs.service.ts:48 | with a `level` filter, `findAll` keeps an entry exactly when it passes the other filters and its code equals the level value |
| Queries.FindAllLevelMismatch | src/logs/logs.service.ts:48 | an entry of level `ERROR` and code `E42` is missed by `findAll` with level filter `ERROR`, and found by the corrected version |
| Queries.FindAllCorrectedIsSelect | src/logs/logs.service.ts:45-52 | with its level test corrected, `findAll` selects exactly the entries `getLogs` and `getFilteredLogs` select |
| Service.Narrow | src/logs/logs.service.ts:70-74 | one filter step: an active filter narrows the entries passing the earlier filters to those also passing it; an inactive one keeps them |
| Service.FilterChain | src/logs/logs.service.ts:70-74 | the five successive filters of `getLogs` (and of `getFilteredLogs`, lines 111-115) leave exactly the stored entries satisfying every active filter, in stored order |
| Queries.UpToAllIsHolds | src/logs/logs.service.ts:70-74 | passing the five filters one after another is satisfying all of them at once |
| Queries.SelectMeaning | src/logs/logs.service.ts:70-74 | every stored entry satisfying the active filters is kept, as often as it is stored, and no other entry is |
| Queries.SelectConcat | src/logs/logs.service.ts:70-74 | filtering keeps the stored order |
| Queries.SelectNoFilters | src/logs/logs.service.ts:70-74 | when every filter is absent or empty, every stored entry is selected, in order |
| Queries.SelectUnparseableBound | src/logs/logs.service.ts:73-74 | a `from` or `to` bound that does not parse as a date lets no entry through |
| Sorting.FieldNamed | src/logs/logs.service.ts:77-78 | each of the five property names selects its field; any other name selects none |
| Sorting.SortField | src/logs/logs.service.ts:68 | the sort field defaults to `timestamp` when `sort` is absent |
| Sorting.Ascending | src/logs/logs.service.ts:68 | the order is ascending when `sortOrder` is absent or `asc`, and descending otherwise |
| Ordering.LexLessIff | src/logs/logs.service.ts:79-80 | string `<` holds exactly when the first string is a proper prefix of the second, or is smaller at the first place where they differ |
| Ordering.LexLessIrreflexive | src/logs/logs.service.ts:79-80 | no string is below itself |
| Ordering.LexLessTransitive | src/logs/logs.service.ts:79-80 | string `<` is transitive |
| Ordering.LexLessTotal | src/logs/logs.service.ts:79-80 | two different strings are ordered exactly one way |
| Ordering.CompareMeaning | src/logs/logs.service.ts:76-82 | the comparator is negative exactly when the keys are in the requested direction, and zero exactly when they are equal |
| Ordering.CompareAntisymmetric | src/logs/logs.service.ts:76-82 | swapping the entries negates the comparator |
| Ordering.CompareTransitive | src/logs/logs.service.ts:76-82 | the comparator is transitive, so it is a consistent comparator for `sort` |
| Sorting.SortByPermutation | src/logs/logs.service.ts:76-82 | sorting returns a permutation of the filtered entries |
| Sorting.SortBySorted | src/logs/logs.service.ts:76-82 | no entry of the sorted result compares after a later one |
| Sorting.SortedByKeys | src/logs/logs.service.ts:76-82 | sorted means ordered by the field's values: never descending in ascending order, never ascending in descending order |
| Sorting.SortByStable | src/logs/logs.service.ts:76-82 | entries with equal keys keep their filtered (insertion) order |
| Sorting.SortByUnknownField | src/logs/logs.service.ts:76-82 | a `sort` name that is no field makes every comparison 0, so the order is unchanged |
| Sorting.SortedWindow | src/logs/logs.service.ts:84-85 | every window of a sorted sequence, a page in particular, is sorted |
| Service.DefaultOrderAscendingTimestamp | src/logs/logs.service.ts:68-85 | with `sort` and `sortOrder` absent, every page of `getLogs` is in ascending timestamp order |
| Paging.SliceIndex | src/logs/logs.service.ts:85 | a `slice` argument lands inside the sequence |
| Paging.PaginateWindow | src/logs/logs.service.ts:84-85 | for `page >= 1` and `limit >= 0`, a page holds the entries from `(page - 1) * limit` on, `max(0, min(limit, total - offset))` of them |
| Paging.PagesArePrefix | src/logs/logs.service.ts:84-85 | pages 1 to n, one after the other, are the first `n * limit` entries |
| Paging.PagesCoverAll | src/logs/logs.service.ts:84-85 | with `limit > 0`, concatenating enough pages gives back the whole result, each entry once |
| Paging.PageBeforeFirst | src/logs/logs.service.ts:84-85 | page 0 is empty; a negative page counts back from the end, as `slice` does with negative arguments |
| Service.LogsService.GetLogs | src/logs/logs.service.ts:55-93 | returns the requested page of the filtered entries sorted stably by the chosen field and order; `total` is the number of matching entries; page and limit are echoed; every item is stored and satisfies the active filters; the page is sorted and has the expected size; the store is not modified |
| Service.LogsService.GetFilteredLogs | src/logs/logs.service.ts:100-128 | returns the requested page of the filtered entries in stored order; `total` is the number of matching entries; page and limit are echoed; every item is stored and satisfies the active filters; the page has the expected size; the store is not modified |
| Scenario.UploadThenQuery | src/logs/logs.service.ts:25-93 | uploading two log lines around a line that does not match counts two entries, and a query for vehicle `42` sorted by timestamp descending returns the later entry first, of two in total |

## Left out

- `src/logs/logs.controller.ts` is not part of this model. That covers HTTP routing, the Multer upload, the missing-file `BadRequestException`, and the query-string coercion `+page` / `+limit`, which can produce `NaN` or fractions. Pages and limits are modelled as integers. The upload response's `count` is `getLogCount()`, the size of the whole store, as `AddLogsFromFile`'s contract states.
- `src/main.ts`, `src/app.module.ts` and `src/logs/logs.module.ts` hold Nest bootstrap, CORS, Swagger, dependency injection and TypeORM/SQLite configuration, and no logic of their own.
- `src/logs/dto/filter.dto.ts` holds class-validator decorators (the ISO-8601 check among them). The service never calls them.
- The entity's `id` column and ORM decorators are left out. The in-memory path never assigns `id`, so `LogEntry` has the five string fields.
- The unused `PaginatedResult` interface (`src/logs/logs.service.ts:4-10`) is left out.
- Date parsing is the parameter `dateOf`, as described above. Its calendar rules are not modelled.
- Strings are sequences of Unicode code points. JavaScript compares and matches UTF-16 code units, which differ from code points only for characters outside the Basic Multilingual Plane.
- A `sort` that names an inherited property of the entry object (such as `constructor`) reads the same value from every entry, as any unknown name does. Such a name is modelled as "no field", so every comparison is 0.
- `results.sort(...)` sorts a local copy in place. It is modelled by the value of that copy after sorting (`Sorting.SortBy`), so the in-place update of the copy is not modelled; the stored `logs` are unaffected either way. Which comparisons the engine makes, and in what order, is also not modelled.
- `parseLogLine` is a member of the class but does not touch its state, so it is the module function `LineParser.ParseLogLine`. `addLogsFromFile` repeats the same regular expression literal (`src/logs/logs.service.ts:27`), so its loop calls `ParseLogLine`.
- `findAll` is a single filter expression that does not change the store, so it is the function `LogsService.FindAll`.

## Findings

| source | as written | input that shows it | evidently intended | confidence | as-written member | corrected member |
|---|---|---|---|---|---|---|
| src/logs/logs.service.ts:48 | the `level` filter of `findAll` is compared with the entry's `code` | one stored entry of level `ERROR` and code `E42`, with the filter `level = "ERROR"`: `findAll` returns nothing | compare with the entry's `level`, as `getLogs` and `getFilteredLogs` do (lines 71 and 112) | high; not executed. Latent: the controller calls only `addLogsFromFile`, `getLogCount` and `getLogs`, so nothing reaches `findAll` over HTTP | Queries.FindAllLevelMismatch | Queries.FindAllCorrectedIsSelect |
