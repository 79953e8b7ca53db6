# US bikeshare analysis — a Dafny model

`bikeshare.py` loads one city's trip table, filters it by month and by day
of the week, prints four reports (popular times, popular stations, trip
durations, users) and lets the user page through the raw rows five at a
time. This project models that pipeline on plain Dafny sequences of trip
records and proves what it promises.

- `wrappers.dfy` — `Option`.
- `text.dfy` — Python's `str.title()` on ASCII text and Python's string order.
- `orders.dfy` — strict total orders; integer and string order are ones.
- `trips.dfy` — a trip record (start and end station, duration in seconds,
  user type, optional gender, optional birth year, and the month, weekday
  and hour derived from the start time) and a table (rows plus whether the
  city's file has "Gender" and "Birth Year" columns).
- `config.dfy` — `VALID_CITIES`, `VALID_MONTHS`, `VALID_DAYS` and their
  membership predicates.
- `filters.dfy` — `load_data`'s month stage (`months.index(month) + 1`) and
  day stage (`day.title()`), each a stable selection.
- `modes.dfy` — `Series.mode()[0]`: the least of the most frequent values.
- `tally.dfy` — `Series.value_counts()`.
- `stats.dfy` — `time_stats`, `station_stats`, `trip_duration_stats`,
  `user_stats` as pure functions.
- `frame.dfy` — the table object that `station_stats` changes in place by
  adding the "Start and End Station" column.
- `pager.dfy` — the paging loop of `raw_data`, as a method with a loop.

A report is `None` where pandas raises instead of producing it:
`mode()[0]` of an empty column raises, so time and station reports on an
empty table are `None`. The user report is `None` when the table has a
"Birth Year" column whose cells are all missing. A month name outside the
six months is `None` in the month stage, because `months.index` raises.
When several values are equally frequent, pandas' `mode()` sorts them, so
`mode()[0]` is the least of them; the model states this tie-break.

Two operations follow the corrected behaviour listed under "## Findings",
with the code as written modelled beside them: `Pager.RawData` prints only
the rows that remain on a short last page, where the code raises
`KeyError`, and `Stats.TimeStats` names the most common month by its
calendar name, where the code gives "All" for July and raises for later
months.

## Model

| member | source | states |
|---|---|---|
| Text.Title | bikeshare.py:94 | `str.title()`: the length is kept, and a character is upper-cased exactly when the character before it is not a letter; every other letter is lower-cased |
| Text.TitleIdempotent | bikeshare.py:94 | title-casing a title-cased string changes nothing |
| Orders.StrLessIsStrictTotalOrder | bikeshare.py:128 | Python's string comparison, which pandas uses to sort tied modes, is irreflexive, transitive and total |
| Config.IsValidCity | bikeshare.py:35 | the city check `city in VALID_CITIES`; every accepted name is lower-case, so the `.lower()`ed input can match it |
| Config.IsValidMonth | bikeshare.py:44 | the month check `month in VALID_MONTHS`: accepted exactly for "all" and the six month names, each lower-case |
| Config.IsValidDay | bikeshare.py:52 | the day check `day in VALID_DAYS`; every accepted name is lower-case |
| Config.ValidDayTitleIsWeekday | bikeshare.py:13-14 | every accepted day name other than "all", title-cased, is one of the seven weekday names pandas produces |
| Filters.IndexOf | bikeshare.py:86 | `list.index`: a position exactly when the value occurs, and then its first position; otherwise the `ValueError` case |
| Filters.MonthIndex | bikeshare.py:85-86 | a month number exactly for the six month names; the number is in 1..6, and `VALID_MONTHS[k - 1]` gives back the name |
| Filters.MonthIndexRoundTrip | bikeshare.py:85-86 | each of the six names maps back to its own position plus one |
| Filters.Select | bikeshare.py:89 | a boolean-mask selection keeps exactly the matching rows, every copy of each, in their original order, and nothing else |
| Filters.SelectsUnique | bikeshare.py:94 | that description determines the selection: any order-preserving subsequence with those counts equals it |
| Filters.MonthStage | bikeshare.py:83-89 | "all" passes the rows unchanged; a month name keeps exactly the rows of its number, in order; any other name fails |
| Filters.DayStage | bikeshare.py:92-94 | "all" passes the rows unchanged; otherwise exactly the rows whose weekday equals `day.title()` are kept, in order |
| Filters.LoadData | bikeshare.py:82-96 | the day stage runs on the month stage's result; the table's optional columns are kept; failure exactly for a bad month name |
| Filters.LoadDataKeepsExactly | bikeshare.py:82-96 | the loaded rows are an order-preserving subsequence holding exactly the rows that match both criteria |
| Filters.LoadAllIsIdentity | bikeshare.py:83-96 | with month and day both "all" the table comes back unchanged |
| Filters.ValidInputsLoad | bikeshare.py:41-55 | every month and day the prompts accept loads without error |
| Filters.LoadDataIdempotent | bikeshare.py:82-96 | filtering the filtered table again with the same criteria changes nothing |
| Modes.Mode | bikeshare.py:106 | `mode()[0]`: defined exactly on a non-empty column; the value occurs in the column, no value occurs more often, and under a strict total order every equally frequent value is greater |
| Modes.LeastModeUnique | bikeshare.py:106 | that tie-break leaves exactly one admissible value |
| Modes.ModeIgnoresOrder | bikeshare.py:106 | the mode depends only on how often each value occurs, not on row order |
| Tally.ValueCounts | bikeshare.py:166 | `value_counts()`: one bucket per distinct value, none empty; the bucket values are exactly the column's values; each count is the value's number of occurrences; the counts sum to the column length |
| Tally.BumpCounts | bikeshare.py:166 | counting one more row adds one to that value's count and to the total, and nothing else |
| Stats.Present | bikeshare.py:173 | the non-missing cells of an optional column: every present value kept exactly as often as it occurs, and nothing else |
| Stats.MonthNameAsWritten | bikeshare.py:107 | `VALID_MONTHS[k - 1].title()` with Python indexing: a name exactly for k in -6..7, an `IndexError` otherwise |
| Stats.MonthName | bikeshare.py:107 | the title-cased calendar name of month k; for months 1..6 it agrees with the code as written |
| Stats.MonthNameAsWrittenBeyondJune | bikeshare.py:107 | as written, month 7 is named "All" instead of its calendar name, and months 8..12 raise |
| Stats.PairColumn | bikeshare.py:134 | the "Start and End Station" column: one key per row, and key i is row i's start station, " AND ", then its end station |
| Stats.TimeStats | bikeshare.py:105-115 | a report exactly for a non-empty table; month, weekday and hour are each the least most-frequent value of their column, and the month name belongs to the month |
| Stats.StationStats | bikeshare.py:127-135 | a report exactly for a non-empty table; start station, end station and the "start AND end" key are each the least most-frequent value of their own column |
| Stats.PairIsNotJoinedMarginalModes | bikeshare.py:134-135 | the reported pair is counted as one joint key: with starts A,A,A,B,C and ends X,X,Y,Y,Y it is "A AND X", not "A AND Y" |
| Stats.TotalDurationSplits | bikeshare.py:148 | for any mask, the total duration is the total of the kept rows plus the total of the dropped rows |
| Stats.TotalDurationBounds | bikeshare.py:148-152 | if every duration lies in [lo, hi], the total lies in [count * lo, count * hi] |
| Stats.MeanWithinExtremes | bikeshare.py:152 | the mean duration lies between the shortest and the longest trip |
| Stats.DurationStats | bikeshare.py:147-153 | the row count, and the total equal to the sum of the trip durations; 0 on an empty table; count * shortest <= total <= count * longest otherwise |
| Stats.DurationExample | bikeshare.py:148-152 | seven trips of 60..420 seconds total 1680 seconds over 7 trips, a mean of 240 seconds |
| Stats.Min | bikeshare.py:181 | `min()` of a non-empty column: a value in it, no greater than any other |
| Stats.Max | bikeshare.py:182 | `max()` of a non-empty column: a value in it, no smaller than any other |
| Stats.BirthYearStats | bikeshare.py:179-183 | on present years: earliest <= most common <= most recent; earliest and most recent bound every year and occur; most common is the least mode; none when no year is present |
| Stats.UserStats | bikeshare.py:165-183 | user-type counts cover exactly the distinct user types and sum to the row count; a gender section exactly when the column exists, with one non-empty bucket per present gender and each count that gender's number of occurrences; a birth-year section exactly when that column exists; failure exactly when that column has no present year |
| Frame.TripFrame.StationStats | bikeshare.py:121-135 | returns the station report, and adds the pair column (one key per row) to the table object, except on an empty table, where pandas raises first |
| Pager.PageAsWritten | bikeshare.py:199-202 | as written, a page prints `offset..offset+4` and succeeds exactly when five rows remain |
| Pager.ShortLastPageRaises | bikeshare.py:199-201 | as written, when the row count is not a multiple of five, the last page raises on the label one past the end (7 rows: prints 5, 6, fails on 7) |
| Pager.Page | bikeshare.py:199-202 | a clamped page: 1 to 5 consecutive positions from the offset, matching what the code as written prints |
| Pager.LastPageSize | bikeshare.py:198-201 | the last of ceil(n/5) pages starts before the end and holds n mod 5 rows, or 5 |
| Pager.RawData | bikeshare.py:192-210 | no page without a first "yes"; one page more per further "yes", up to ceil(n/5); the positions shown are 0, 1, ... in order with no gap or repeat; the offset grows by 5 per page; the loop stops past the end, with the offset at 5 * pages, or on a "no", with the offset at the start of the last page shown (also when that page was the last one) |
| Pager.AllYesShowsEveryRow | bikeshare.py:198-210 | answering "yes" throughout shows ceil(n/5) pages covering every row |

## Findings

| source | as written | input that shows it | evidently intended | confidence | as-written member | corrected member |
|---|---|---|---|---|---|---|
| bikeshare.py:107 | the most common month is named by `VALID_MONTHS[common_month - 1].title()`, a list that ends in "all" | a table whose most common month is 7 gives "All"; month 8 to 12 raises `IndexError` | the month's calendar name ("July") | low, not executed; the month prompt asks for January to June (bikeshare.py:43) and `months` has six entries (bikeshare.py:85), so only a data file with later trips, loaded with month "all", reaches it | Stats.MonthNameAsWrittenBeyondJune | Stats.MonthName |
| bikeshare.py:199-201 | each page prints labels `df_index` to `df_index + 4` with `.loc`, with no clamp to the table | 7 rows, "yes" twice: the second page prints rows 5 and 6, then `.loc[7]` raises `KeyError` | print the rows that remain and stop | high, not executed | Pager.ShortLastPageRaises | Pager.RawData |

## Left out

- Console I/O: the prompt loops of `get_filters`, the `input()` calls, every `print`, and the `.lower()` applied to input. The pager's answers are a parameter (`true` for "yes"); running out of answers counts as "no".
- `main`'s restart loop only sequences the other functions and asks whether to restart. It is not modelled.
- CSV reading (`pd.read_csv`), the `CITY_DATA` file mapping, and timestamp parsing (`pd.to_datetime`, `.dt.month`, `.dt.weekday_name`, `.dt.hour`). Month, weekday and hour are given record fields. Month and hour are limited to the ranges these accessors return.
- Floating point: the division of the total by 86400 and of the mean by 60, and the `{:0.2f}` / `{:0.0f}` formatting. The model reports the integer total and the trip count. Durations and birth years are integers; files where they are floats are not modelled.
- Timing: `time.time()` and the elapsed-time lines.
- Text.Title: handles ASCII letters only; Python's Unicode casing rules are not modelled.
- Tally.ValueCounts: lists buckets in order of first appearance; pandas lists them by descending count, with ties in unspecified order. Only the printed order depends on this.
- Stats.UserStats: treats "User Type" as always present; missing user-type cells are not modelled.
- Frame.TripFrame.StationStats: the other reports read the rows but not the added column. The pager names rows by position, so it does not show that the added column appears in the raw rows it prints.
