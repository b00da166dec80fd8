# hoka: key-press statistics, modelled in Dafny

hoka is a Windows key-press logger. Each captured press is a `KeyPress`
record: the foreground application, the normalised key combination, and a
millisecond timestamp. Presses go to two places:

- `KeyStatistics`, an in-memory engine. It keeps a bounded history of the
  latest presses, oldest first, and recomputes counts, top-N rankings,
  filters and the time range from that history on every query.
- `Database`, a durable store: a SQLite table `key_statistics` with one row
  per (application, key combination) pair and its press count. Upserts,
  ranked per-application reports, the application list, sums and a full
  clear are written as SQL.

This project models the record, the engine and the store, and proves what
they promise.

Modules, one file each:

- `Counting` (counting.dfy): occurrence counting. `Count`, `Tally`
  (a sequence's occurrence map), `Increment` (`map[k]++` on a `std::map`, or
  the upsert on a row), and the sum of a map's values (`MapSum`, with the
  loop `SumValues` proved against it).
- `Decimal` (decimal.dfy): `std::to_string` on unsigned integers, and its
  inverse.
- `StringOrder` (string_order.dfy): SQLite's default BINARY collation on
  text, which is lexicographic order on characters. This is the order of
  `ORDER BY app_name`.
- `Ranking` (ranking.dfy): copying a count map into a vector, sorting it by
  descending count (insertion sort in place on an `array`) and cutting it to
  `limit`. `IsTopN` is the specification.
- `Presses` (key_press.dfy): the `KeyPress` record, its constructors,
  `operator<` and `getFormattedTime`.
- `Statistics` (key_statistics.dfy): the `KeyStatistics` class over a
  `seq<KeyPress>`, with value-level definitions of what each query computes.
- `Storage` (database.dfy): the `Database` class. Its table is a
  `map<(string, string), nat>`, and a flag says whether the handle is open.
  The rendered report text is modelled too.
- `Scenarios` (scenarios.dfy): clients that use only the contracts: the
  repository's three database tests, a repeated upsert that lists its
  application once, a four-press ranking, and a bounded history over three
  presses.

The three-argument `KeyPress` constructor is the datatype constructor
`Presses.KeyPress`, so it stores its three fields as given. Its timestamp
has the corrected 64-bit width (`Presses.Millis`), not the code's 32-bit
`unsigned long` (see "## Findings"). The clock read by the two-argument
constructor is a parameter `nowMs`.

Where the code's words and its behaviour differ, the model follows the
code:

- `getRecentPresses` returns the newest presses oldest first, not newest
  first.
- `getTimeRange` returns the timestamps of the first and last stored
  presses. It does not scan for a minimum and a maximum. The two agree
  exactly when the first press has the least timestamp and the last press
  the greatest, which a chronological history always satisfies
  (`Statistics.TimeRangeSpansChronologicalHistory`).
- "Total key presses" in `getAppStatistics` is the sum of the rows listed
  under `limit`, not the application's total.
- `Testing/Database/DatabaseTests.cpp:36` expects `""` or
  `"No statistics available"` after a clear. The code returns the
  "No key presses recorded" message instead, and `Scenarios.ClearStatistics`
  proves that this message is neither of the two expected strings.

Ties in every ranking are left in an unspecified order. `std::sort` is not
stable, and neither is SQLite's `ORDER BY press_count DESC`. So `IsTopN`
does not fix an order among equal counts. It does fix the set of counts
returned.

## Model

| member | source | states |
|---|---|---|
| Statistics.KeyStatistics.constructor | src/Models/KeyStatistics.h:16 | history starts empty; the bound is `maxSize`, 1000 by default; the size invariant holds |
| Statistics.KeyStatistics.AddKeyPress | src/Models/KeyStatistics.h:19-26 | the press is appended as the last element; if that exceeds the bound, exactly the oldest element goes; the result is the newest `bound` of old history plus the press; the bound and the size invariant are kept |
| Statistics.KeyStatistics.AddKeyPressAt | src/Models/KeyStatistics.h:28-31 | the two-argument overload records a press of `app`/`keys` stamped with the clock reading (kept in 64 bits; see "## Left out") |
| Statistics.KeyStatistics.GetHistory | src/Models/KeyStatistics.h:34 | the whole history, oldest first, never longer than the bound, and the same as the most recent `size` presses |
| Statistics.KeyStatistics.GetRecentPresses | src/Models/KeyStatistics.h:37-43 | the last `min(count, size)` presses, in history order (oldest first), default count 10 |
| Statistics.KeyStatistics.GetAppUsageStats | src/Models/KeyStatistics.h:46-54 | the loop builds exactly the occurrence map of the application names of the history |
| Statistics.KeyStatistics.GetKeyUsageStats | src/Models/KeyStatistics.h:57-65 | the loop builds exactly the occurrence map of the key combinations of the history |
| Statistics.KeyStatistics.GetAppKeyStats | src/Models/KeyStatistics.h:68-78 | the loop builds exactly the occurrence map of the key combinations of the presses of `app` |
| Statistics.UsageStatsAreExactCounts | src/Models/KeyStatistics.h:46-65 | a value is a key of the usage map iff some press carries it, and its count is the number of presses carrying it |
| Statistics.UsageStatsSum | src/Models/KeyStatistics.h:46-65 | the counts of a usage map add up to the number of presses in the history |
| Statistics.AppKeyStatsAreExactCounts | src/Models/KeyStatistics.h:68-78 | each key's count in the per-application map is the number of that application's presses with that key; a key combination is a key of the map iff some press of that application carries it; the counts add up to the application's presses, which is the application's entry in the usage map |
| Statistics.KeyStatistics.GetTopApps | src/Models/KeyStatistics.h:81-95 | a top-`limit` ranking of the application usage map: `min(limit, #apps)` entries, exact counts, no repeated key, non-increasing, no omitted key above the last kept |
| Statistics.KeyStatistics.GetTopKeys | src/Models/KeyStatistics.h:98-112 | the same for the key usage map |
| Statistics.KeyStatistics.GetTopKeysForApp | src/Models/KeyStatistics.h:115-131 | the same for the per-application key map |
| Ranking.TopN | src/Models/KeyStatistics.h:84-92 | copy, sort by descending count, cut to `limit`: the result satisfies `IsTopN` |
| Ranking.SortByCountDescending | src/Models/KeyStatistics.h:87-88 | the array ends non-increasing by count and is a permutation of its old contents |
| Ranking.EntriesOf | src/Models/KeyStatistics.h:84-85 | copying a map into a vector gives one exact (key, count) pair per key, no key twice |
| Ranking.SortedPrefixIsTopN | src/Models/KeyStatistics.h:87-92 | any sorted permutation of the pairs, cut to `limit`, is a top-`limit` ranking |
| Ranking.UnlimitedRankingHasEveryKey | src/Models/KeyStatistics.h:90-92 | when the limit is at least the number of keys, nothing is cut: every key is listed |
| Ranking.UnlimitedRankingSum | src/Models/KeyStatistics.h:90-92 | a ranking that lists every key adds up to the sum of the whole map |
| Statistics.KeyStatistics.FindPressesByApp | src/Models/KeyStatistics.h:134-144 | the loop returns the presses of `app`, in history order |
| Statistics.KeyStatistics.FindPressesByKey | src/Models/KeyStatistics.h:147-158 | the loop returns the presses of `keys`, in history order |
| Statistics.MatchingKeepsExactlyMatches | src/Models/KeyStatistics.h:134-158 | a press is in the filter result iff it is in the history and its field matches |
| Statistics.MatchingDistributes | src/Models/KeyStatistics.h:134-158 | filtering commutes with concatenation, so relative order is kept |
| Statistics.MatchingCount | src/Models/KeyStatistics.h:134-158 | the filter returns as many presses as the usage map counts for that value |
| Statistics.KeyStatistics.GetTimeRange | src/Models/KeyStatistics.h:161-170 | (0, 0) for an empty history; otherwise the first and the last stored timestamps |
| Statistics.TimeRangeSpansChronologicalHistory | src/Models/KeyStatistics.h:161-170 | when timestamps never decrease along the history, the range bounds every stored timestamp |
| Statistics.KeyStatistics.ClearHistory | src/Models/KeyStatistics.h:173 | history becomes empty; the bound is unchanged; the size invariant holds |
| Statistics.KeyStatistics.GetCount | src/Models/KeyStatistics.h:176 | the number of stored presses, never above the bound |
| Statistics.KeyStatistics.IsEmpty | src/Models/KeyStatistics.h:179 | true iff the count is 0 |
| Statistics.KeyStatistics.SetMaxHistorySize | src/Models/KeyStatistics.h:182-191 | sets the bound and keeps exactly the newest `min(size, n)` presses, in their order; the size invariant holds |
| Statistics.RecordAllKeepsNewest | src/Models/KeyStatistics.h:19-26 | after any run of additions, the history is the newest `bound` presses of everything recorded, in capture order |
| Statistics.KeyStatistics.ExportStats | src/Models/KeyStatistics.h:194-219 | the export holds the count, the time range, and top-5 rankings of applications and of keys |
| Presses.KeyPressAt | src/Models/KeyPress.h:15-19 | app and keys stored as given; the timestamp is the clock reading, kept in 64 bits, and its formatted form parses back to it |
| Presses.KeyPressAtAsWritten | src/Models/KeyPress.h:8-19 | the timestamp as the code stores it: the clock reading reduced modulo 2^32 |
| Presses.ClockReadingIsTruncated | src/Models/KeyPress.h:8-19 | the reading 1700000000000 ms (November 2023) is stored as 3487918080 |
| Presses.WrapReversesOrder | src/Models/KeyPress.h:15-19 | the press read at the wrap (2^32 ms, stored as 0) compares as before the press read 1 ms earlier |
| Presses.BeforeIsStrictOrder | src/Models/KeyPress.h:28-30 | `operator<` is irreflexive, asymmetric and transitive |
| Presses.EqualTimestampsAreIncomparable | src/Models/KeyPress.h:28-30 | presses with equal timestamps are incomparable, whatever their app or keys |
| Presses.IncomparabilityIsTransitive | src/Models/KeyPress.h:28-30 | incomparability is transitive, so `operator<` is a strict weak order |
| Presses.FormattedTime | src/Models/KeyPress.h:22-25 | only digits, at least one, no leading zero except "0" itself, and it parses back to the timestamp |
| Presses.FormattedTimeInjective | src/Models/KeyPress.h:22-25 | different timestamps format differently |
| Decimal.DecimalString | src/Models/KeyPress.h:24 | `std::to_string` of an unsigned value: at least one character, only digits, and no leading zero except "0" itself |
| Decimal.ParseDecimalString | src/Models/KeyPress.h:24 | reading the rendered digits back gives the number |
| Storage.Database.constructor | src/Database/Database.cpp:7 | a new store has no handle and no rows |
| Storage.Database.Initialize | src/Database/Database.cpp:15-43 | on success the handle is open over the stored table and true is returned; on failure false is returned and nothing changes |
| Storage.Database.IsConnected | src/Database/Database.h:31 | whether the handle is open; without one there are no rows |
| Storage.Database.UpdateKeyStatistics | src/Database/Database.cpp:45-81 | with a handle, the pair's count becomes old + 1, or 1 if absent, and every other row is unchanged; without a handle nothing changes; counts stay at least 1 |
| Storage.ReplayCountsOccurrences | src/Database/Database.cpp:53-58 | upserting a sequence of pairs into an empty table leaves a row exactly for each pair that occurred, holding its number of occurrences; the counts add up to the sequence length |
| Storage.Database.GetAppStatistics | src/Database/Database.cpp:83-132 | no handle: "Database not initialized!"; no rows to list: the "no key presses" report; otherwise a top-`limit` ranking of the application's rows (negative limit = unbounded), ranked 1, 2, …, with the number of listed rows and the sum of the listed counts as totals |
| Storage.NumberLines | src/Database/Database.cpp:103-119 | the row loop numbers the rows from 1 in order and adds up their counts |
| Storage.NumberedLinesReportRanking | src/Database/Database.cpp:121-128 | numbered lines of a ranking, or no lines, form the report that `getAppStatistics` describes |
| Storage.UnlimitedReportCoversApp | src/Database/Database.cpp:83-132 | with the default limit, the totals are the application's number of key combinations and its total presses |
| Storage.Render | src/Database/Database.cpp:84-128 | the report text is never empty; it starts with 'D' ("Database not initialized!") without a handle, with 'N' for an application without rows, and, in the unpadded text, with a rank digit (or, for no lines, the totals' line break) for a ranking |
| Storage.RenderLines | src/Database/Database.cpp:107-119 | the ranked lines in order: empty exactly when no row was read, otherwise starting with the first rank |
| Storage.RenderLine | src/Database/Database.cpp:115-117 | in the unpadded text, one line starts with its rank's digits and ends with a line break |
| Storage.RenderTotals | src/Database/Database.cpp:125-127 | the totals block starts on a new line, followed by a rule of 40 dashes and a line break |
| Storage.Dashes | src/Database/Database.cpp:125 | `std::string(n, '-')`: exactly n characters, all dashes |
| Storage.RenderMentionsEveryKey | src/Database/Database.cpp:115-127 | every listed key combination occurs in the report text |
| Storage.Database.GetAllApps | src/Database/Database.cpp:134-158 | no handle: an empty list; otherwise exactly the distinct application names of the rows, in strictly ascending order |
| StringOrder.AscendingListingIsUnique | src/Database/Database.cpp:139-140 | two strictly ascending lists of the same names are equal, so the listing is determined by the rows |
| StringOrder.LeastExists | src/Database/Database.cpp:139-140 | every non-empty finite set of names has a least one under the collation |
| StringOrder.LessTransitive | src/Database/Database.cpp:139-140 | the collation order is transitive |
| StringOrder.LessTotal | src/Database/Database.cpp:139-140 | the collation order is total on distinct strings |
| Storage.Database.GetTotalKeyPresses | src/Database/Database.cpp:160-178 | no handle: -1; otherwise the sum of all counts, 0 for an empty table |
| Counting.SumValues | src/Database/Database.cpp:164 | the loop adds up every value of the map |
| Storage.Database.GetAppKeyPressCount | src/Database/Database.cpp:180-201 | no handle: -1; otherwise the sum of the counts of the application's rows, 0 when it has none |
| Storage.Database.ClearStatistics | src/Database/Database.cpp:203-218 | with a handle, every row goes and true is returned; without one, false is returned and nothing changes |
| Storage.UpsertAfterClear | src/Database/Database.cpp:203-218 | after a clear, the next upsert of any pair gives it count 1 |
| Counting.TallyIsExactCount | src/Models/KeyStatistics.h:49-51 | the occurrence map has a key iff the value occurs, mapped to its number of occurrences |
| Counting.TallySum | src/Models/KeyStatistics.h:49-51 | the occurrence counts of a sequence add up to its length |
| Scenarios.UpdateAndGetKeyStatistics | Testing/Database/DatabaseTests.cpp:20-28 | after one upsert, the report text is non-empty and contains the key combination |
| Scenarios.ClearStatistics | Testing/Database/DatabaseTests.cpp:32-37 | after an upsert and a clear, the clear returns true and the report is "No key presses recorded for testApp yet.\n", which is neither "" nor "No statistics available" |
| Scenarios.GetAllApps | Testing/Database/DatabaseTests.cpp:40-46 | after one upsert each for app1 and app2, the listing is exactly ["app1", "app2"], so it has two names and holds both |
| Scenarios.AppListedOnce | src/Database/Database.cpp:139-140 | after upserts for app1, app2 and app1 again, the listing is still exactly ["app1", "app2"] |
| Scenarios.NotepadRanking | src/Database/Database.cpp:83-132 | three Ctrl+S and one Ctrl+C in Notepad give lines 1. Ctrl+S 3 and 2. Ctrl+C 1, 2 combinations and 4 presses |
| Scenarios.BoundedHistory | src/Models/KeyStatistics.h:19-43 | with a bound of 2, three presses leave the last two, oldest first, and the range of their timestamps |

## Left out

- Key capture (src/KeyLogger/KeyLogger.h), the UI (src/UI/) and the startup wiring (src/main.cpp, main.cpp): these are outside the statistics core.
- The SQLite engine: statement preparation, binding and stepping, error messages on stderr, the "Error querying database" and "Failed to prepare statement" paths, and a failing `DELETE`. The model's table operations always succeed once the handle is open.
- Storage.Database.Initialize: in SQLite a failed open, or a failed `CREATE TABLE`, usually still leaves a non-null handle, so `isConnected` can then answer true. The model treats every failed initialisation as "no handle" and leaves the store as it was.
- The `id INTEGER PRIMARY KEY AUTOINCREMENT` column, which `INSERT OR REPLACE` reassigns, and `last_pressed` / `CURRENT_TIMESTAMP`: no query reads them.
- The column padding of `getAppStatistics` (`std::setw`, `std::left`/`std::right`) and the whole text layout of `exportStats`. The model keeps the ranked lines, the totals and their order. `Storage.Render` writes the text without padding.
- Statistics.KeyStatistics.GetHistory: returns a copy of the history, not a live reference; the reference the code returns reflects, or is invalidated by, a later `addKeyPress` or `clearHistory`, which the model does not capture.
- Statistics.KeyStatistics.AddKeyPressAt: the stamp keeps the full 64-bit clock reading, as corrected under "## Findings". The code keeps it modulo 2^32, as `Presses.KeyPressAtAsWritten` shows. The timestamp field of `Presses.KeyPress` has the corrected width as well, so the model's history can hold timestamps of 2^32 and above.
- Storage.Database.Initialize: if the store is already open, the table passed in must be the current one, since reopening the same file reads back what it holds. The file itself is not modelled.
- Statistics.KeyStatistics.ExportStats: returns the four values the text is made of, not the text.
- `getTopKeyPresses` (src/Database/Database.h:18) is declared but has no definition in the sources, so it is not modelled.
- Storage.Database.GetTotalKeyPresses: counts and sums are unbounded; the 32-bit `int` of `sqlite3_column_int`, of `totalPresses` and of the `std::map<std::string, int>` counts is not modelled.
- Storage.Database.GetAppKeyPressCount: the same unbounded-integer simplification.
- Statistics.KeyStatistics.GetCount: `size_t` is modelled as an unbounded `nat`.
- The iteration order of `std::map` before sorting is not modelled. `Ranking.EntriesOf` picks keys in an unspecified order, and every ranking contract allows any order among ties.
- Ranking.SortByCountDescending: the model sorts by insertion sort. `std::sort` may order ties differently; each contract states only what any correct sort guarantees.
- The check at src/Database/Database.cpp:151 (`if (appName)`): `app_name` is `NOT NULL`, so every row yields a name and the model always appends it.
- Concurrency between the capture thread and the consumers: each operation is modelled as one atomic step.

## Findings

| source | as written | input that shows it | evidently intended | confidence | as-written member | corrected member |
|---|---|---|---|---|---|---|
| src/Models/KeyPress.h:8-19 | `timestamp` is `unsigned long`, which is 32 bits on the Windows (LLP64) target. The clock constructor stores milliseconds since the epoch modulo 2^32 | now = 1700000000000 ms (November 2023) is stored as 3487918080. Two presses 1 ms apart across a wrap compare in reverse under `operator<` | a 64-bit timestamp (`uint64_t`) holding the full millisecond count | medium, not executed | Presses.KeyPressAtAsWritten, Presses.ClockReadingIsTruncated, Presses.WrapReversesOrder | Presses.KeyPressAt (with `Presses.Millis`, 64 bits) |
