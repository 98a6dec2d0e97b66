# URL-hit report: a Dafny model of `Report.java`

`Report.java` reads a log file. Each line has the form `<epoch seconds>|<url>`.
The program prints, for every UTC day that appears in the log, the URLs hit on
that day with their hit counts, most-hit first. Days are printed in ascending
order. This project models the three steps of that pipeline as pure Dafny
functions and methods and proves what each step guarantees:

1. **Accumulation** (`processUrlHits`).
   - Modules: `JavaStrings`, `JavaNumbers`, `DayTables`, `UrlHits`.
   - Each line is split the way `String.split("\\|")` splits it. That split
     drops trailing empty strings, so `5` followed by one bar gives one token.
   - A line that does not give exactly two tokens raises the unexpected-line
     tally, which is a 32-bit `int`.
   - Otherwise the first token goes through `Long.parseLong`. A failure there
     throws an uncaught `NumberFormatException`. The run then stops: the line is
     *not* counted as unexpected and nothing else is printed.
   - A parsed timestamp `t` is rounded to its day key `(t / 86400) * 86400`.
     Java's `/` rounds toward zero, so a negative `t` rounds up.
   - The URL's count in that day's table goes up by one, in `int` arithmetic.
   - The loop is `UrlHits.Process`, a fold over the lines. Its result is
     compared with `DayTables.Tabulate`, an independent description of the
     tables a list of hits determines: a multiset count per (day, URL) pair.
2. **Ranking** (`sortAllUrlHits`, module `Ranking`).
   - Every day's entries are listed, sorted by count, largest first, and copied
     into a `LinkedHashMap`.
   - The sort is modelled as an insertion sort on sequences.
   - `HashMap` iteration order is left open: `EntryList` picks any order.
   - The `LinkedHashMap` is modelled as its insertion-ordered entry list.
3. **Output order** (`generateReport` without formatting, modules `TreeOrder`
   and `Report`).
   - The `TreeMap` of days is visited from its least key upwards.
   - Each day is shown with its ranked entries.
   - `Report.RunReport` chains the three steps, as `main` does.

Day order comes from the `TreeMap` (Report.java:19) and entry order from
`List.sort` with a comparator (Report.java:70).

## Model

| member | source | states |
|---|---|---|
| JavaStrings.TwoTokensShape | Report.java:35 | a line that splits into exactly two tokens `a`, `b` is `a`, a bar, `b`, then zero or more bars, and `b` is not empty |
| JavaStrings.TwoTokensOf | Report.java:35 | conversely, `a`, a bar, `b`, then any number of bars, with bar-free `a` and non-empty bar-free `b`, splits into exactly `[a, b]`; trailing empty tokens are dropped |
| JavaStrings.Split | Report.java:35 | `split` never yields a token containing a bar; with `TwoTokensShape` and `TwoTokensOf` this fixes exactly which lines give two tokens and what those tokens are |
| JavaStrings.JoinFields | Report.java:35 | cutting at every bar loses nothing: gluing the pieces back with bars gives the original line |
| JavaStrings.FieldsJoin | Report.java:35 | cutting bar-free pieces glued with bars gives back the pieces |
| JavaStrings.DropTrailingEmpty | Report.java:35 | keeps a prefix of the pieces, drops only empty strings, and the last piece kept is non-empty |
| JavaNumbers.Inc32 | Report.java:53-54 | `count + 1` on a Java `int`: always in the 32-bit range, congruent to `x + 1` modulo 2^32, and exactly `x + 1` below the maximum |
| JavaNumbers.JavaDiv | Report.java:41 | Java's `/` by a positive divisor rounds toward zero: the quotient times the divisor is within one divisor of the dividend, on the dividend's side of zero |
| JavaNumbers.ParseLong | Report.java:41 | `Long.parseLong` succeeds exactly on an optional sign followed by at least one decimal digit, with a value in the `long` range; its value is that of the digits, negated after a leading `-`; a negative result comes from a leading `-` |
| JavaNumbers.ParseLongRoundTrip | Report.java:41 | parsing the decimal text of any `long` gives that `long` back |
| UrlHits.DayKey | Report.java:41 | the day key is a multiple of 86400; for `t >= 0` it is the start of `t`'s day (`key <= t < key + 86400`); for negative `t` it is the least multiple of 86400 at or above `t`; it is 0 exactly for `-86400 < t < 86400` |
| UrlHits.DayKeyIdempotent | Report.java:41 | a day key is its own day key |
| UrlHits.Classify | Report.java:35-41 | a line is unexpected exactly when it does not give two tokens; it makes `parseLong` fail exactly when it gives two tokens and the first is not a `long`; otherwise it is one hit for its second token, a non-empty bar-free URL, on the day key of its parsed first token, a multiple of 86400 |
| UrlHits.ClassifyRecord | Report.java:35-41 | a line written as the decimal text of `t`, a bar and `url`, with any number of bars after it, is read back as a hit for `url` on `t`'s day |
| UrlHits.TrailingBarIsUnexpected | Report.java:35-36 | the line made of `5` and one trailing bar is an unexpected line, not a hit with an empty URL |
| DayTables.SetCount | Report.java:43-54 | storing a count adds the day if it is missing and the URL if it is missing, sets that one count, and leaves every other day's table and every other URL's count as it was |
| DayTables.Accumulate | Report.java:43-54 | one valid line adds its day and URL if missing, raises its (day, URL) count by one from its old value or 0 in `int` arithmetic, changes no other count, and leaves every other day's table exactly as it was |
| DayTables.SetCountTotal | Report.java:53-54 | changing one count changes the sum over all days by exactly the difference |
| DayTables.TabulateCount | Report.java:43-54 | in the reference tables, the count of a (day, URL) pair is its number of hits |
| DayTables.TabulateSnoc | Report.java:43-54 | one more hit changes the reference tables exactly as the loop body does: one count goes from its old value or 0 to one more |
| DayTables.AccumulateTabulate | Report.java:53-54 | below 2^31 - 1 hits, the loop body applied to the reference tables gives the reference tables with the new hit |
| DayTables.TabulateCountsBounded | Report.java:53-54 | every stored count lies between 1 and the number of hits |
| DayTables.TabulateDaySums | Report.java:33-55 | each day's counts add up to the number of hits on that day |
| DayTables.TabulateTotal | Report.java:33-55 | all counts of all days add up to the number of hits |
| UrlHits.Records | Report.java:41-52 | the hit lines give at most one record each; every record has a day that is a multiple of 86400 and a non-empty URL |
| UrlHits.UnexpectedLineStep | Report.java:35-39 | a line without exactly two tokens raises the tally by one and leaves the tables unchanged |
| UrlHits.HitLineStep | Report.java:43-54 | a valid line leaves the tally alone, adds its day if missing, adds its URL to that day's table if missing and no other URL, raises that count by one from its old value or 0, changes no other count, and leaves every other day's table exactly as it was |
| UrlHits.Feed | Report.java:34-54 | one pass of the loop body stops the run exactly when the line's timestamp does not parse, and then names that line |
| UrlHits.Process | Report.java:33-55 | the loop over the lines, starting from an empty `TreeMap` and a zero tally; if it stops, it stops on a line whose timestamp does not parse. `UrlHits.ProcessOutcome` and `UrlHits.ProcessTally` state the rest of its meaning |
| UrlHits.ProcessOutcome | Report.java:33-41 | the loop completes exactly when no line has two tokens and an unparsable timestamp; otherwise it stops at the first such line |
| UrlHits.ProcessTally | Report.java:33-55 | a completed run over at most 2^31 - 1 lines holds exactly the reference tables of its hit lines and the number of unexpected lines, and every line is one or the other |
| UrlHits.ProcessDays | Report.java:43-49 | a completed run of any length has a table for exactly the days its hit lines fall on |
| UrlHits.CompletedRun | Report.java:33-55 | after a completed run: every stored count is at least 1, every day key is a multiple of 86400, each day's counts sum to the hits on that day, the counts of all days plus the tally equal the number of lines, and the tally is positive exactly when some line does not give two tokens |
| UrlHits.UnexpectedCountPositive | Report.java:58-59 | the unexpected-line count is positive exactly when some line does not split into two tokens |
| Ranking.Insert | Report.java:70 | inserting into a list sorted by count, largest first, keeps it sorted and adds exactly that entry |
| Ranking.SortByCount | Report.java:70 | the result is sorted by count, largest first, and is a permutation of the input |
| Ranking.SortKeepsOrderedList | Report.java:70 | a list already sorted by count is left unchanged |
| Ranking.SortIdempotent | Report.java:70 | sorting twice is the same as sorting once |
| Ranking.EntryList | Report.java:68 | the entry list holds every (URL, count) pair of the day's table exactly once, in some order |
| Ranking.ListsTable | Report.java:68 | a list with the same entries as a table names every URL once, with its own count, and nothing else |
| Ranking.LinkedPut | Report.java:75 | `LinkedHashMap.put` keeps every existing key in its place and every entry with another key unchanged; it appends `(key, value)` exactly when the key is absent, and otherwise sets the value of the key's entry |
| Ranking.LinkedFromDistinct | Report.java:73-76 | putting entries with distinct URLs into a `LinkedHashMap` in turn keeps exactly the sorted order |
| Ranking.RankDay | Report.java:66-77 | a day's ranking is sorted by count, largest first, and is a permutation of the day's entries |
| Ranking.SortAllUrlHits | Report.java:64-78 | the set of days is kept, and each day's table is replaced by a ranking of exactly its entries: no URL is added, dropped or duplicated, and no count is altered |
| TreeOrder.LeastExists | Report.java:19 | a non-empty key set has a least key, the first key a `TreeMap` visits |
| TreeOrder.AscendingUnique | Report.java:83 | two strictly ascending listings of the same keys are equal |
| Report.GenerateReport | Report.java:81-93 | the report visits every day exactly once, in strictly ascending order, with the ranked entries stored for that day |
| Report.ListsUnique | Report.java:83-90 | the report order is fully determined by the rankings, whatever order the key set is enumerated in |
| Report.RunReport | Report.java:110-112 | a run stops at the first line with an unparsable timestamp exactly when there is one; otherwise, for every input, the report's days are strictly ascending and are exactly the days of the hits, and each day's entries are sorted by count, largest first; for at most 2^31 - 1 lines, the notice is printed exactly when some line does not give two tokens, with the count of such lines, and each day's entries are exactly that day's reference table and sum to that day's number of hits |
| Report.ReportDays | Report.java:81-93 | for a completed run of any length, the report has exactly the days of the hits, and each day's entries are sorted by count, largest first |
| Report.ReportOfTally | Report.java:110-112 | for a completed run of at most 2^31 - 1 lines, each day of the report is a permutation of that day's reference table, and its counts sum to the day's hits |

## Left out

- File opening, the `FileNotFoundException` path, `Scanner` reading and `in.close()` (Report.java:21-30, 33-34, 56). The model takes the sequence of lines the scanner delivers. `Scanner.hasNext()` stops once only whitespace remains, so trailing blank lines are never read; that boundary is not modelled.
- The argument check in `main` (Report.java:105-108). It is I/O plumbing.
- The `printf` texts and the `DateTimeFormatter` / `LocalDateTime.ofEpochSecond` conversion of a day key to `MM/dd/yyyy` (Report.java:82-86, 91). The model stops at the day key and the notice's count.
- The stack trace the JVM prints when `parseLong` throws. The model records only which line stopped the run.
- JavaNumbers.ParseLong: accepts ASCII digits only. `Long.parseLong` also accepts other Unicode decimal digits, which a URL log does not contain.
- Ranking.SortAllUrlHits: states non-increasing counts and a permutation, not a tie order. Ties are ordered by `HashMap` iteration order, which Java does not specify. The insertion sort is stable like `List.sort`, but that is not claimed.
- UrlHits.ProcessTally: requires at most 2^31 - 1 lines. Beyond that the `int` counters can wrap. `Inc32` models the wrap, but the conservation laws are not claimed past it.
- UrlHits.CompletedRun: requires at most 2^31 - 1 lines, for the same reason.
- Report.RunReport: does not model the `DateTimeException` that `LocalDateTime.ofEpochSecond` (Report.java:84) throws for a day key whose date falls outside years -999,999,999 to 999,999,999 (keys beyond about 3.16e16 seconds either side of 1970, such as the line `99999999999999999` followed by a bar and `a`). Java prints the earlier days and then stops in `generateReport`; the model returns `Finished` with every day.
- Report.RunReport: the notice (present exactly when some line does not give two tokens, holding their count) and the per-day contents (each day's entries are that day's reference table and sum to its hits) are stated only for at most 2^31 - 1 lines, for the same reason. The crash condition, the day order, the set of days and each day's count order are stated for every input.
- Report.ReportOfTally: requires at most 2^31 - 1 lines, for the same reason. Past that, a count can wrap through `count+1` (Report.java:53-54), and the day's entries then differ from the reference table. `Report.ReportDays` states the day set and the count order without a bound.
- The complexity remarks (Report.java:96-102). They are not behaviour.
- The internal structure of `TreeMap`, `HashMap` and `LinkedHashMap`. They are modelled by their iteration order only.
