# Presence analyzer — a Dafny model of its data core

The presence analyzer reads a CSV log of office presence: one row per user per day, giving the user
id, the date, and the start and end clock times. It groups the log by user and by weekday and serves
a few JSON views: the list of users, the mean and the total presence per weekday, and the mean start
and end time per weekday.

This project models the data core of `src/presence_analyzer/utils.py` and the result shaping of
`src/presence_analyzer/views.py`. It proves properties of that model.

- `wrappers.dfy`
  - `Wrappers`: the `Option` and `Result` types.
  - `Collections`: `Enumerates(order, keys)`, which says that a sequence lists every key of a
    dictionary exactly once. The model uses it for Python's dict iteration order, which is taken as a
    parameter.
- `timemath.dfy` (`TimeMath`): `seconds_since_midnight`, `interval`, `mean` and `str_to_time`.
  - A time of day is `Time(hour, minute, second)`.
  - A Python number is `Int` or `Float`, so that `mean([]) == 0` (an int) stays apart from float means.
  - `str_to_time` renders through `gmtime`, specified by a parser `ParseClock` of the `HH:MM:SS` form.
- `grouping.dfy` (`Grouping`): `group_by_weekday`, `start_end_group_by_weekday` and
  `mean_start_end_by_weekday`.
  - The two grouping loops are methods proved against the functions `Grouped` and `GroupedStartEnd`.
  - A date is its proleptic ordinal, and `Weekday(d) == (ordinal + 6) % 7`, Monday being 0.
- `store.dfy` (`Store`): `get_data`'s loop over the CSV rows.
  - Each row arrives already split. Each cell is either parsed or `Malformed` (the `int()` or
    `strptime` call raised).
  - The loop keeps Python's function-level locals `user_id`, `date`, `start` and `end`, which survive
    from one iteration to the next. An unassigned local read at line 101 is the `UnboundLocalError`
    failure.
- `cache.dfy` (`Cache`): the `cache(cache_time)` decorator as a class `Memoizer`.
  - Its fields are the `memo` and `valid` deques (at most one element each) and an evaluation counter.
  - The clock is a parameter counted in microseconds.
  - The wrapped function is a parameter `func(k)`: the outcome of its k-th evaluation, `None` when it
    raises.
- `directory.dfy` (`Directory`): `_get_server_url`, with a splitter proving that the URL keeps its
  three parts apart.
- `views.dfy` (`Views`): `users_view` and the three per-weekday views, including the 404 for an
  unknown user.

Where the code and its documentation differ, the model follows the code:

- Rows with a malformed field are not skipped. The line is logged and the assignment at line 101
  still runs (see Findings).
- No view sorts dates. Every grouping visits the dates in dictionary order.
- `mean` of an empty list is the int `0`, not `0.0`.

## Model

| member | source | states |
|---|---|---|
| Collections.EnumerationLength | src/presence_analyzer/utils.py:156 | a sequence that lists each key of a dictionary exactly once has as many elements as there are keys, so a loop over it visits every record once |
| TimeMath.SecondsSinceMidnight | src/presence_analyzer/utils.py:202-206 | the seconds since midnight of a valid time lie in [0, 86400) |
| TimeMath.ClockTimeOfSeconds | src/presence_analyzer/utils.py:202-206 | a time is recovered from its seconds since midnight, so the count loses nothing |
| TimeMath.SecondsSinceMidnightOrder | src/presence_analyzer/utils.py:202-206 | the count is strictly increasing in clock order and equal exactly for equal times |
| TimeMath.ClockTime | src/presence_analyzer/utils.py:185 | the hour, minute and second that gmtime gives for a number of seconds have that number modulo 86400 as their seconds since midnight |
| TimeMath.Interval | src/presence_analyzer/utils.py:209-213 | the interval between two times of day lies strictly between -86400 and 86400 |
| TimeMath.IntervalSign | src/presence_analyzer/utils.py:209-213 | the interval is antisymmetric; it is 0 iff the times are equal, positive iff start is before end, and negative iff end is before start |
| TimeMath.SumAppend | src/presence_analyzer/utils.py:220 | sum distributes over concatenation |
| TimeMath.SumWithin | src/presence_analyzer/utils.py:220 | a sum of n values between lo and hi lies between n*lo and n*hi |
| TimeMath.Mean | src/presence_analyzer/utils.py:216-220 | an empty list gives the int 0; otherwise the result is a float that, times the length, gives the sum |
| TimeMath.MeanWithin | src/presence_analyzer/utils.py:216-220 | the mean of a non-empty list lies between any lower and upper bound of its elements |
| TimeMath.MeanExamples | src/presence_analyzer/utils.py:216-220 | mean([]) is the int 0, mean([a]) is float(a), and mean([2, 4]) is 3.0 |
| TimeMath.Truncate | src/presence_analyzer/utils.py:185 | gmtime's truncation of a float toward zero: the result lies within 1 of x, on the side of 0 |
| TimeMath.TwoDigits | src/presence_analyzer/utils.py:185 | a %H/%M/%S field is two decimal digits whose value is the number |
| TimeMath.Format | src/presence_analyzer/utils.py:185 | the %H:%M:%S rendering has 8 characters with ':' at positions 2 and 5 |
| TimeMath.FormatRoundTrip | src/presence_analyzer/utils.py:185 | parsing the rendering of a time gives back that time |
| TimeMath.ClockString | src/presence_analyzer/utils.py:185 | strftime of gmtime(n) is an 8-character string that parses to the time of day n mod 86400 |
| TimeMath.StrToTime | src/presence_analyzer/utils.py:180-185 | str_to_time of an int or float parses to the time of day of the value truncated toward zero, modulo 86400 |
| TimeMath.ClockStringOfTime | src/presence_analyzer/utils.py:185 | rendering the seconds of a time gives the time's own HH:MM:SS |
| TimeMath.StrToTimeZero | src/presence_analyzer/utils.py:180-185 | str_to_time(0) is "00:00:00" |
| Grouping.Weekday | src/presence_analyzer/utils.py:159 | date.weekday() lies in 0..6 |
| Grouping.DatesOn | src/presence_analyzer/utils.py:156-159 | the dates appended to a weekday's list are exactly the visited dates falling on that weekday |
| Grouping.DatesOnDistinct | src/presence_analyzer/utils.py:156-159 | a weekday's dates are distinct when the visit order is |
| Grouping.Grouped | src/presence_analyzer/utils.py:155 | group_by_weekday returns exactly seven lists |
| Grouping.GroupByWeekday | src/presence_analyzer/utils.py:151-160 | the loop's result equals, for each weekday, the intervals of that weekday's dates in visit order |
| Grouping.GroupedStartEnd | src/presence_analyzer/utils.py:170 | the result has exactly the keys 0..6 |
| Grouping.StartEndGroupByWeekday | src/presence_analyzer/utils.py:163-177 | the loop's result equals, for each weekday, the start and end seconds of that weekday's dates in visit order |
| Grouping.GroupedStartEndStep | src/presence_analyzer/utils.py:171-176 | one iteration appends the date's start and end seconds to its own weekday's bucket and changes no other bucket |
| Grouping.StartEndMatchesDurations | src/presence_analyzer/utils.py:151-177 | the start and end lists have equal length, and end[i] - start[i] is the i-th entry of group_by_weekday for the same weekday |
| Grouping.GroupedEmpty | src/presence_analyzer/utils.py:151-160 | a weekday's list is empty iff no date of the log falls on that weekday |
| Grouping.GroupedMembers | src/presence_analyzer/utils.py:151-160 | a value is in a weekday's list iff it is the duration of some record dated on that weekday |
| Grouping.WeekdayCountsAddUp | src/presence_analyzer/utils.py:155-159 | the counts of dates over the seven weekdays add up to the number of dates |
| Grouping.GroupedTotal | src/presence_analyzer/utils.py:151-160 | the seven lists hold one entry per record of the log, none lost or duplicated |
| Grouping.IntervalsReordered | src/presence_analyzer/utils.py:156 | visiting the same dates in another order gives a list of the same length and the same sum |
| Grouping.GroupedOrderIndependent | src/presence_analyzer/utils.py:151-160 | the total and the mean of each weekday do not depend on dictionary iteration order |
| Grouping.MeanClock | src/presence_analyzer/utils.py:194-195 | str_to_time(mean(xs)) parses to the time of day of the truncated mean, and is "00:00:00" for an empty list |
| Grouping.MeanStartEndByWeekday | src/presence_analyzer/utils.py:188-199 | seven pairs, in key order 0..6; each string parses to the time of day of the truncated mean start (and end) of its weekday |
| Grouping.MeanStartWithinDay | src/presence_analyzer/utils.py:188-199 | the mean start and mean end lie in [0, 86400), so str_to_time never wraps a mean |
| Store.ParseRow | src/presence_analyzer/utils.py:93-99 | a well-formed row binds all four locals to its fields; otherwise the cells before the first malformed one are assigned and every other local keeps its previous value (one clause per case: malformed user id, date, start or end); once bound, the locals stay bound |
| Store.Upsert | src/presence_analyzer/utils.py:101 | setdefault(...)[date] = ... stores the record under that user and date, adds the user if new, changes no other (user, date), and keeps every user's dictionary non-empty |
| Store.UpsertStored | src/presence_analyzer/utils.py:101 | storing the record that is already there changes nothing |
| Store.StepRow | src/presence_analyzer/utils.py:89-101 | a line without four fields is skipped; a four-field row whose fields all parse stores its record under its user and date; once the locals are bound a step never fails; no user is ever removed |
| Store.LoadPrefix | src/presence_analyzer/utils.py:85-101 | after any successful prefix no user is stored without records, and a prefix of header and footer lines leaves the dictionary empty and the locals unassigned |
| Store.Load | src/presence_analyzer/utils.py:85-103 | get_data's dictionary never holds a user without records, and a file of header and footer lines only gives the empty dictionary |
| Store.FailureSticks | src/presence_analyzer/utils.py:88-101 | once the loop has raised UnboundLocalError, get_data fails with it |
| Store.GetData | src/presence_analyzer/utils.py:85-103 | the loop returns what the row-by-row definition Load gives |
| Store.FirstWideRow | src/presence_analyzer/utils.py:89-91 | a result is a row of the input that has four fields with no four-field row before it; none only when every row is a header or footer of another width |
| Store.LoadLocals | src/presence_analyzer/utils.py:88-101 | after any successful prefix the locals are all bound if a four-field row was seen, and all unassigned otherwise |
| Store.LoadFailsIff | src/presence_analyzer/utils.py:88-101 | get_data raises UnboundLocalError iff the first four-field row has a malformed field |
| Store.LocalsAreStored | src/presence_analyzer/utils.py:101 | after each row the current locals' record is stored under their user and date |
| Store.UnparsedUserIdChangesNothing | src/presence_analyzer/utils.py:94-101 | after the first good row, a row whose user id fails to parse leaves the result unchanged |
| Store.LoadClean | src/presence_analyzer/utils.py:85-103 | the evidently intended store keeps no user without records |
| Store.LoadCleanLastWins | src/presence_analyzer/utils.py:101 | in the intended store, each (user, date) holds the last well-formed row for it |
| Store.LoadOfCleanRows | src/presence_analyzer/utils.py:85-103 | when every four-field row is well-formed, get_data gives the intended store |
| Store.LoadLastWins | src/presence_analyzer/utils.py:85-103 | with well-formed rows, get_data succeeds, a later row for the same user and date overwrites an earlier one, and no user is stored without records |
| Store.UnparsedDateCopiesPreviousRecord | src/presence_analyzer/utils.py:93-101 | as written, for every log and row: after the first good row, a four-field row whose user id parses and whose date does not stores, under its own user id, the previous row's date, start and end |
| Store.PartialRowCopiesPreviousRecord | src/presence_analyzer/utils.py:93-101 | as written: a row whose user id parses and whose date does not makes a record for that user copied from the previous row |
| Cache.Memoizer.constructor | src/presence_analyzer/utils.py:45-49 | a new slot has an empty memo, no expiry and no evaluations |
| Cache.Memoizer.Stale | src/presence_analyzer/utils.py:57-58 | a slot that is not stale holds exactly one value and its expiry is not yet past |
| Cache.Memoizer.StaleLater | src/presence_analyzer/utils.py:57-58 | between calls, a stale slot stays stale at every later time |
| Cache.Memoizer.Call | src/presence_analyzer/utils.py:53-61 | a fresh slot returns the memo and changes nothing; a stale slot stores the new expiry, evaluates once, keeps the old memo when the evaluation raises and stores the result otherwise |
| Cache.Memoizer.CallFixed | src/presence_analyzer/utils.py:53-61 | intended: as Call, but a raising refresh leaves memo and expiry untouched, so every later call refreshes again |
| Cache.CallTwiceWithinWindow | src/presence_analyzer/utils.py:53-61 | two calls within cache_time give the same value and evaluate the function once |
| Cache.CallAfterExpiry | src/presence_analyzer/utils.py:53-61 | a call after the window evaluates once more and returns the new value |
| Cache.TimeoutScenario | src/presence_analyzer/tests.py:287-302 | with a 2 s window and a stub returning 201, 202, ...: 201, then 202 after 3 s, then 202 again |
| Cache.StaleAfterFailedRefresh | src/presence_analyzer/utils.py:57-60 | as written: after a refresh that raises, the next call inside the new window serves the value from before without evaluating |
| Cache.RetryAfterFailedRefresh | src/presence_analyzer/utils.py:57-60 | intended: the same calls retry and return the fresh value, evaluating three times |
| Directory.ServerUrl | src/presence_analyzer/utils.py:106-113 | the URL is the protocol, then "://", then the host, then ":", then the port, each at its own position and nothing else |
| Directory.ServerUrlSeparators | src/presence_analyzer/utils.py:113 | when protocol and port hold no ':', the first ':' ends the protocol and the last ':' starts the port |
| Directory.ServerUrlRoundTrip | src/presence_analyzer/utils.py:106-113 | when protocol and port hold no ':', the URL splits back into its protocol, host and port |
| Views.MeanTimeWeekdayView | src/presence_analyzer/views.py:48-63 | NotFound iff the user is unknown; otherwise seven rows (day abbreviation, mean of that weekday's durations) |
| Views.PresenceWeekdayView | src/presence_analyzer/views.py:71-87 | NotFound iff the user is unknown; otherwise the header row followed by seven rows (day abbreviation, total of that weekday's durations) |
| Views.PresenceStartEndPerWeekdayView | src/presence_analyzer/views.py:96-112 | NotFound iff the user is unknown; otherwise seven rows, row k labelled with weekday k's abbreviation, whose (start, end) columns are exactly the pairs of mean_start_end_by_weekday |
| Views.Labelled | src/presence_analyzer/views.py:108-111 | every row carries the abbreviation of its weekday, and dropping the labels gives back the (start, end) pairs |
| Views.MeanRowZeroIff | src/presence_analyzer/views.py:57-61 | a weekday's mean row is the int 0 iff the user has no record on that weekday |
| Views.EmptyWeekdayRows | src/presence_analyzer/views.py:80-112 | a weekday without records shows a total of 0 and 00:00:00 as both mean start and mean end |
| Views.NatToString | src/presence_analyzer/views.py:38 | str(n) is a non-empty string of decimal digits with no leading zero except for 0 itself |
| Views.NatToStringRoundTrip | src/presence_analyzer/views.py:38 | the decimal digits of str(n) have the value n |
| Views.IntToString | src/presence_analyzer/views.py:38 | str(i) is non-empty and starts with '-' iff i is negative |
| Views.IntToStringInjective | src/presence_analyzer/views.py:38 | different ids print differently |
| Views.UsersView | src/presence_analyzer/views.py:32-40 | one entry per user of the store, each named 'User ' and its id, and every user listed |
| Views.UsersViewDistinct | src/presence_analyzer/views.py:32-40 | no two entries share an id or a name |
| Views.ThursdayExample | src/presence_analyzer/tests.py:221-233 | two Thursday records of 10:18:36–16:41:25 and 09:28:08–15:51:27 give the Thursday list [22969, 22999], totalling 45968 |

## Left out

- Flask routing, `jsonify`, `render_page` and the templates are left out. They are I/O and framework glue.
- CSV and XML reading are left out. The rows arrive already split into fields, and each cell is
  already parsed or marked `Malformed`. `int()` and `strptime` are not modelled character by
  character.
- `get_users` is not part of this model. Only its `_get_server_url` helper is.
- Logging is left out. It has no effect on results.
- The lock in `cache` is left out. The model is single-threaded, so concurrent callers are not modelled.
- `datetime.now()` is a parameter, and so is the wrapped function's outcome on each evaluation.
- Python's dict iteration order is a parameter. It is constrained only to list each key once. For the
  integer keys 0..6 of `start_end_group_by_weekday`, the model fixes key order, as CPython gives for
  small ints.
- `calendar.day_abbr` is fixed to the C locale's English abbreviations.
- Floating-point rounding is left out. `mean` is exact rational division, so a float sum that rounds
  is not modelled.
- `TimeMath.StrToTime`: the model does not capture `gmtime`'s range errors for huge values. Every
  mean passed to it in this program lies in [0, 86400) (see `Grouping.MeanStartWithinDay`).
- The sub-second part of `datetime.time` is left out, because `strptime` with `%H:%M:%S` never sets it.
- `Cache.Memoizer.Call`: the model does not capture the separate cache of each decorated function.
  Each `Memoizer` object stands for one decorated function.
- `Directory.ServerUrl`: the model takes the XML elements' text as given strings. A missing element
  (the `AttributeError` on `.text`) is not modelled. An empty element, whose `.text` is `None` and
  which `format` renders as the text "None", is not modelled either.

## Findings

| source | as written | input that shows it | evidently intended | confidence | as-written member | corrected member |
|---|---|---|---|---|---|---|
| src/presence_analyzer/utils.py:93-101 | after a parse error the `except` branch only logs, and line 101 still stores whatever the locals hold from the previous row | rows `10,<date>,<start>,<end>` then `11,<bad date>,<bad>,<bad>`: user 11 appears with a copy of user 10's record; if the first four-field row is malformed, `UnboundLocalError` is raised | skip the malformed row (a `continue` in the `except` branch) | not executed | Store.UnparsedDateCopiesPreviousRecord | Store.LoadClean |
| src/presence_analyzer/utils.py:57-60 | the new expiry is appended to `valid` before `func()` runs | a cached value at 0 s with `cache_time` 600, a refresh at 601 s that raises, then a call at 602 s: the old value is served again until 1201 s | store the expiry only after `func()` returns | not executed | Cache.StaleAfterFailedRefresh | Cache.RetryAfterFailedRefresh |
