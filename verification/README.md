# hourly_report: the report state machine, in Dafny

`report.py` reads a plain-text log of work sessions and prints a transcript with the time
worked per day, or, in summary mode, the total over the whole file. A log looks like

    date: Mon
    start: 09h00
    fixed the parser
    stop: 12h00

A `date` line opens a day, `start` and `stop` lines (times `HHhMM`) open and close a session, and
every other line is free text. In the default mode only the lines after the latest `last:`
checkpoint are reported, and the user is offered to append a new checkpoint afterwards.

The model follows the script's structure, one module per concern:

- `Text` — Python's `str.strip` (the full Unicode white-space set of `str.isspace`) and
  `str.split` on one character, with `Split` and `Join` proved inverse.
- `Clock` — `hours_to_datetime`: `time.strptime(s, "%Hh%M")` as a partial parse to minutes since
  midnight, and the session length of `_stop` as `Duration`.
- `Lines` — `get_line_prefix_and_suffix` and the keyword lookup of `_consume`: a raw line
  becomes a `Token` (keyword, suffix, stripped text).
- `Formater` — the `Formater` class. The mutual recursion `_consume` → `_date`/`_start`/`_stop`
  → `_consume` is a left fold (`Feed`) of one-line `Step`s over the tokens. Prints become
  `Event`s, `sys.exit(1)` after `_parse_error` becomes a `ParseError` fault, and the exception
  `strptime` raises on a bad or missing time becomes a `BadTime` fault.
- `Accounting` — an independent, declarative reading of a log prefix: the state after it, the
  latest start time, the closed sessions, the day in progress, what each line prints and
  which line is the first faulty one. `RunFollowsHistory` proves the machine computes exactly
  these.
- `Watermark` — `get_last` (as written, and as evidently intended) and the effect of
  `store_last` on the file's lines.
- `Report` — the decision skeleton of `format_input`: which lines, then nothing to report,
  invalid format, the total, or the checkpoint prompt.
- `Example` — the one-day log of two sessions, read end to end.

Times are minutes since midnight (`Minute`, 0..1439). Every duration is a whole number of
minutes because both ends come from `HHhMM` on the same day.

Three behaviours of `report.py` that the model reproduces as written:

- With no `last:` line anywhere, `get_last` does not return every line with offset 0. It drops the
  first line and returns offset 1 (see Findings).
- The transcript (date echoes, indented content, daily totals) is printed in summary mode
  too, not only in the default mode. `Decide` emits the same events in both modes.
- The daily accumulator is reset to zero by every `date`, so it is non-decreasing only between
  two `date` lines. The total never decreases.

## Model

| member | source | states |
|---|---|---|
| Text.Strip | report.py:81 | the stripped line has no white space at either end and is no longer than the line |
| Text.StripBounds | report.py:81 | `strip` removes only white space, and only from the two ends: the result is a contiguous slice of the line, and everything outside that slice is white space |
| Text.StripIdempotent | report.py:81-86 | stripping a stripped string changes nothing, so stripping the prefix and suffix again does not alter text that is already trimmed |
| Text.Split | report.py:82 | `split(':')` yields at least one piece, no piece contains a colon, the pieces joined with colons give back the line, and there are at least two pieces exactly when the line has a colon |
| Text.SplitJoin | report.py:82 | splitting a join of colon-free pieces returns those pieces |
| Text.SplitFirstTwo | report.py:82-86 | the first two pieces of a split are the text before the first colon and the text between the first and the second colon (or the end) |
| Clock.ParseClock | report.py:27-30 | a time `strptime` accepts is 3 to 5 characters long and begins and ends with a digit |
| Clock.ParseClockAccepts | report.py:27-30 | every hour below 24 and minute below 60, written with one or two digits on each side of `h` or `H`, parses to `hours * 60 + minutes` |
| Clock.ParseClockSpelling | report.py:27-30 | conversely, any accepted string is exactly such a spelling of the minute count it parses to: the hour digits then `h`/`H` then the minute digits |
| Clock.PadNumber | report.py:29 | a digit string is the zero-padded spelling of its own value at its own width |
| Clock.MidnightConstants | report.py:137-138 | the two constants `_stop` parses are 23:59 and 00:00 |
| Clock.Duration | report.py:134-140 | a session lasts less than a day, is `(stop - start) mod 1440`, and added to the start time lands on the stop time modulo a day; this holds for both branches, including the overnight one that goes through 23:59 and adds one minute |
| Clock.DurationZero | report.py:134-140 | a session lasts zero minutes exactly when it stops at its start time |
| Clock.DurationComplement | report.py:134-140 | for distinct times the session from a to b and the session from b to a make one full day |
| Clock.OvernightExample | report.py:134-140 | from 23h30 to 00h15 is 45 minutes |
| Lines.KeywordOf | report.py:51-54 | a prefix names a keyword exactly when it is the keyword's spelling in the transitions table |
| Lines.SplitLine | report.py:79-89 | the line is the stripped raw line; the prefix is trimmed and colon-free; there is a suffix exactly when the line has a colon, and it is then trimmed and colon-free; with no colon the prefix is the whole line |
| Lines.SplitLineFields | report.py:81-86 | the prefix is the stripped text before the first colon and the suffix the stripped text between the first and second colons |
| Lines.Classify | report.py:79-98 | a token carries the stripped line, a keyword exactly when the prefix spells one, and the suffix of the split |
| Lines.BareKeyword | report.py:82-98 | a bare `start` (no colon) is still the `start` keyword, with no suffix |
| Lines.KeywordLine | report.py:79-89 | a written line `keyword: value` reads back as that keyword, that value and the line without its newline |
| Lines.Tokens | report.py:81-88 | each line is read into exactly one token, in order |
| Formater.Transition | report.py:110-132 | `date` is legal only from INIT or CONTENT, `start` only from DATE or CONTENT, `stop` only from START, and a legal keyword leads to DATE, START or CONTENT respectively |
| Formater.Step | report.py:91-146 | one line keeps the machine well formed (an open session has a start time; content is echoed exactly in START or CONTENT); the total never decreases; the daily time never decreases except at a `date`, which resets it to zero; a content line is echoed indented only in START or CONTENT; a fault names the keyword, the line and its absolute number |
| Formater.Feed | report.py:91-146 | the machine stays well formed, and a fault records one of the lines consumed so far, by its number and its text (a parse error prints both; see Left out for a bad time) |
| Formater.Run | report.py:91-105 | a finished pass ends with the report of the day in progress; an aborted pass records one of its lines, by its number and its text (printed for a parse error only) |
| Formater.Format | report.py:40-58 | constructing a `Formater` on lines numbered from `start_line + 1` either ends with the report of the day in progress, or stops with a fault recording one of those lines by its number and its stripped text, which `_parse_error` prints for a parse error |
| Formater.TimeOf | report.py:125-134 | `hours_to_datetime(suffix)`: a bare keyword (no suffix) never yields a time, so it fails like an unreadable time; a time is read exactly when `strptime` accepts the suffix, and it is then the parsed minute count |
| Formater.StateName | report.py:46-50 | the `_states` table gives each of the four states its own name, so a parse error identifies the state unambiguously |
| Accounting.LastLineOf | report.py:110-146 | the latest line of a given keyword in a prefix, and no later line has that keyword |
| Accounting.FirstFault | report.py:110-134 | the first line at which the machine stops, with no fault on the lines before it |
| Accounting.FaultLocates | report.py:63-69 | a pass that stops does so at the first faulty line: the fault records that line's keyword, its stripped text and its number `start_line + lines consumed` (what `_parse_error` prints; a bad time is reported only by `strptime`'s exception); it is a parse error exactly when the keyword is illegal in the state the earlier lines lead to, and then names that state; otherwise the line's time could not be read |
| Accounting.DailyAfterStop | report.py:142 | a stop line adds its session to the day in progress |
| Accounting.DaysOnlyAtDate | report.py:117 | only a `date` line starts a new day, and the day in progress is then zero |
| Accounting.StepFollowsHistory | report.py:91-146 | a step from a context that agrees with the summaries of a prefix either faults exactly where the summaries place a fault, or prints what they say the line prints and agrees with the summaries of the longer prefix |
| Accounting.FeedFollowsHistory | report.py:91-146 | after any number of lines the machine is either running and agrees with the summaries, having printed what those lines print, or stopped at the first faulty line with its fault |
| Accounting.RunFollowsHistory | report.py:40-146 | a pass finishes exactly when no line is faulty; it then prints every line's output followed by the day in progress, its total is the sum of all closed sessions, and it is valid exactly when some line is a `start`; otherwise it stops at the first faulty line, having printed what the earlier lines print |
| Accounting.StartSeen | report.py:121-127 | `_start_datetime` is set exactly when some `start` line has been read |
| Accounting.StopsCloseSessions | report.py:129-143 | in a fault-free prefix, each `stop` closes exactly one session |
| Accounting.OpenSessionUncounted | report.py:142-143 | a session opened by a `start` that no `stop` follows adds nothing to the sessions counted |
| Accounting.TotalNeverDecreases | report.py:143 | along a pass, the total at an earlier line is at most the total at a later line |
| Accounting.SessionsGrow | report.py:142-143 | the sessions closed by a prefix are a prefix of those closed by a longer one |
| Accounting.EmittedPrefix | report.py:91-146 | what a prefix of the lines prints is a prefix of what a longer prefix prints |
| Accounting.KeywordLegality | report.py:110-132 | whether a keyword is legal depends only on the latest keyword before it: `date` first or after a `stop`, `start` after a `date` or a `stop`, `stop` after a `start` |
| Accounting.LatestKeywordIsLatestOfItsKind | report.py:110-146 | the latest keyword line is also the latest line with that keyword |
| Accounting.NoStopNoSessions | report.py:129-143 | lines with no `stop` among them close no session |
| Accounting.IdleDayReportsZero | report.py:110-124 | in INIT or DATE the day in progress has no closed session, so its time is zero |
| Accounting.IdleRunReportsZero | report.py:91-105 | a pass that finishes in INIT or DATE still ends by reporting the day in progress, with zero minutes |
| Watermark.Reverse | report.py:151-158 | the reversed list has the same length and holds the elements in opposite order |
| Watermark.ReverseReverse | report.py:151-158 | reversing twice gives back the list |
| Watermark.ScanBack | report.py:153-156 | the loop stops at the first marker from the end, or at the last index when there is none |
| Watermark.ScanFindsLatest | report.py:151-156 | the reverse index the loop stops at is that of the latest marker, or `length - 1` when there is no marker |
| Watermark.GetLast | report.py:148-159 | an empty list makes `get_last` fail; otherwise the offset is between 1 and the length and the result is exactly the lines after the offset |
| Watermark.LastMarker | report.py:155 | the latest line whose stripped text is `last:`, with none after it |
| Watermark.GetLastResolves | report.py:148-159 | with a marker, `get_last` returns the lines after the latest one and their offset; without one, all lines but the first and offset 1 |
| Watermark.LatestMarkerWins | report.py:153-159 | only the latest marker matters: whatever precedes it, the lines after it are returned with offset its position plus one |
| Watermark.GetLastDropsFirstLine | report.py:153-159 | as written, a file without marker loses its first line (offset 1), where the intended resolver keeps every line (offset 0) |
| Watermark.GetLastIntended | report.py:148-159 | the intended resolver returns a suffix of the lines with its offset |
| Watermark.GetLastIntendedKeepsNoMarker | report.py:148-159 | the intended resolver returns no marker line |
| Watermark.GetLastIntendedSkipsReported | report.py:148-159 | the intended offset is zero exactly when there is no marker, and otherwise the line before the result is a marker |
| Watermark.GetLastAgreesWithMarker | report.py:148-159 | when a marker exists, the script and the intended resolver agree |
| Watermark.Checkpoint | report.py:168-169 | appending `"\nlast:\n"` only adds to the file: every earlier line is kept, the last line gains a newline exactly when it had none, an empty line `"\n"` follows it exactly when it already had one, and the file ends with the line `last:\n` |
| Watermark.Close | report.py:168-169 | the leading `"\n"` of the append ends the last line exactly when it was unterminated, and otherwise becomes an empty line of its own; nothing else changes |
| Watermark.CheckpointAppends | report.py:168-169 | the file's text after a checkpoint is its text before followed by exactly `"\nlast:\n"` |
| Watermark.CheckpointLeavesNothing | report.py:148-169 | right after a checkpoint, `get_last` returns no line and an offset equal to the file's length |
| Watermark.FinalMarkerLeavesNothing | report.py:148-159 | a file ending with a marker has nothing left to report |
| Report.Conclude | report.py:186-195 | after the `Formater`, the script never says "nothing to report" and never reaches the `get_last` crash (a fault of the pass is a `Stopped` verdict, carrying that fault unchanged); the total is printed only in summary mode, and the checkpoint prompt only in the default mode |
| Report.Decide | report.py:182-195 | nothing to report exactly when no line is left; a fault records one of the lines left, by its absolute number and its stripped text, as a parse error prints it |
| Report.ConcludeFollowsHistory | report.py:186-195 | the outcome is a stop exactly at a faulty line, "invalid file format" exactly when no line is faulty and none is a `start`, otherwise the total (summary mode) or the checkpoint prompt; the total is the sum of all closed sessions |
| Report.FormatInput | report.py:172-195 | as written, `get_last` raises only on an empty file in the default mode; in summary mode there is nothing to report exactly when the file is empty (an unreadable time is a `Stopped` verdict, not this crash) |
| Report.FormatInputIntended | report.py:172-195 | the intended `format_input` never raises in `get_last` |
| Report.SummaryTotal | report.py:179-193 | summary mode prints a total exactly when the file is not empty, no line is faulty and some line is a `start`, and the total is the sum of all sessions of the file |
| Report.DecideErrorLines | report.py:63-69 | reporting the lines after an offset, a fault records the faulty line by its number in the whole file and its stripped text, which is what a parse error prints |
| Report.ErrorLinesAreAbsolute | report.py:175-186 | as written, in either mode, a fault records a line of the whole file by its number and text, as a parse error prints it |
| Report.ErrorLinesAreAbsoluteIntended | report.py:175-186 | the same holds for the intended resolver |
| Report.RerunAfterCheckpoint | report.py:168-184 | running again in the default mode right after a checkpoint has nothing to report |
| Report.OnlyLatestCheckpoint | report.py:153-186 | in the default mode, the report covers exactly the lines after the latest checkpoint, numbered from there |
| Report.FreshLogRejected | report.py:153-159 | as written, a log without checkpoint that opens with `date` then `start` stops with "Error while parsing start while state is init" on line 2 |
| Report.FreshLogAccepted | report.py:153-159 | with the intended resolver, the same log echoes its date line first and reads past line 2 |
| Report.EmptyLogCrashes | report.py:152-184 | as written, an empty file crashes in the default mode and has nothing to report in summary mode |
| Report.EmptyLogNothingToReport | report.py:182-184 | the intended `format_input` has nothing to report on an empty file in either mode |
| Report.IntendedMatchesSummary | report.py:179-195 | with no checkpoint, the intended default mode reads the same lines as summary mode: same stops, same invalid files, and the checkpoint prompt exactly where the total is printed, after the same transcript |
| Report.ConcludeModes | report.py:188-195 | the two modes differ only in the last action |
| Example.SummaryOfOneDay | report.py:172-193 | the log `date: Mon`, 09h00-12h00, 13h00-17h30 in summary mode echoes the date, reports 450 minutes for the day, and totals 450 minutes |

## Left out

- File reading, `main`, option parsing and the `store_last` prompt are I/O. The prompt's answer is
  left out, and appending the checkpoint is modelled only as its effect on the lines
  (`Watermark.Checkpoint`).
- The text of the banners (`str(timedelta)`, "Time worked: ...") is left out: `Elapsed` carries
  the minute count, and the total is a number.
- `time.mktime` and `datetime.fromtimestamp` anchor both times on the same date. The model
  leaves out local-time effects such as a daylight-saving change on that date.
- Clock.ParseClock: accepts only ASCII digits, whereas Python's `strptime` regular expression
  also matches other Unicode decimal digits.
- Python's recursion limit is left out. Each keyword line adds two stack frames (`_consume` and
  its handler), so with the default limit of 1000 frames the script raises `RecursionError` after
  roughly 500 keyword lines, about 100 days of a typical log. Summary mode always reads the whole
  file, so it meets this limit first. The model has no such bound.
- The in-place mutation of the caller's list by `pop(0)` and `reverse()` is left out: the model
  works on immutable sequences.
- A `BadTime` fault's line number and text are the model's own bookkeeping. On a bad or missing
  time the script prints neither: it dies with the traceback of the exception `strptime` raises
  (`ValueError` for an unreadable time, `TypeError` for a bare keyword) at report.py:29.
- `print` and `sys.exit` are not performed. They become events and faults, and a fault
  ends the pass as `sys.exit(1)` ends the process.

## Findings

| source | as written | input that shows it | evidently intended | confidence | as-written member | corrected member |
|---|---|---|---|---|---|---|
| report.py:153-159 | when no line is `last:`, the loop variable ends at `length - 1`, so `lines[:i]` drops the first line of the file and the offset is 1 | a log without checkpoint, `date: Mon` / `start: 09h00` / `stop: 12h00`, in the default mode: line 1 is skipped and line 2 stops with "Error while parsing start while state is init" | no checkpoint means nothing was reported yet: every line, offset 0 | high, not executed | Report.FreshLogRejected | Report.FreshLogAccepted |
| report.py:152-180 | on an empty file the loop body never runs, so `i` is unbound and `lines[:i]` raises `UnboundLocalError` in the default mode | an empty file, default mode | "Nothing to report.", as in summary mode | high, not executed | Report.EmptyLogCrashes | Report.EmptyLogNothingToReport |
