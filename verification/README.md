# ChatSHHS NEIS query core in Dafny

ChatSHHS is a chatbot for one high school. It answers questions about
lunch menus, timetables, school information and the school calendar by
querying the NEIS open-data service of the Korean education ministry. The
language model decides which query to make and with which arguments.
Around that decision sits a small amount of deterministic code, and this
project models it and proves its properties:

- **Ymd** and **Calendar**: Python's `datetime.date` for the proleptic
  Gregorian calendar. This covers day ordinals (0001-01-01 is day 1, a
  Monday), adding days, the weekday, and `strptime`/`strftime` with the
  format `%Y%m%d`. The parser follows the regular expression CPython
  compiles for that format, so "first match wins" is part of the model.
- **DateTokens**: `normalize_date_token`. It accepts `YYYYMMDD`,
  `YYYY-MM-DD` and `M-D`/`MM-DD` (in the anchor's year) and returns the
  canonical 8-digit date or nothing. Two versions are modelled: the
  source as written, and a corrected one (see Findings).
- **RelativeDates**: `convert_relative_date_in_text`. It replaces 내일,
  모레, 어제, 이번주/다음주 + weekday by `YYYY년 MM월 DD일`. Weeks start
  on Sunday. The seventeen patterns are applied in table order, and each
  pattern is a literal with an optional `\s*` between its two words.
- **ToolArgs**: `validate_and_prepare_args` (whitelist, dates that fail
  closed, `int()` coercion), and the function-call step of the chat that
  runs it and then `get_school_info`.
- **Query**: `call_school_api` in both versions. This covers the
  missing-key guard of schoolapi.py, the per-kind parameter table, the
  "not supported" answer, and the fan-out over a list of dates. The HTTP
  request is a function parameter `fetch: Request -> Fetched`.
- **Extract** and **SchoolInfo**: `extract_school_api_result` in both
  versions. It reads the NEIS envelope `{service: [head, {"row": [...]}]}`
  defensively, with placeholders. `get_school_info` is also modelled: the
  refactored version returns the lines, and the schoolapi.py version folds
  them into a key/value dictionary.
- **Json**, **Dicts**, **Text**, **Wrappers**: the JSON values the service
  returns, Python dictionaries as association lists where the last binding
  wins, the string operations the code uses (`strip`, `split`, `zfill`,
  `str(int)`), and `Option`/`Result`. A Python exception becomes `Err`
  with the same `str(e)` text.

The anchor date ("today in Korea") and the service key are parameters.
Nothing in the model reads a clock, the environment or the network.

## Model

| member | source | states |
|---|---|---|
| Calendar.AddDays | chatshhs_refactored.py:224-245 | adding a `timedelta` succeeds exactly when the resulting day ordinal lies in 1..3652059, and the result is the date with that ordinal |
| Calendar.AddDaysCompose | chatshhs_refactored.py:225 | adding `a` days and then `b` days equals adding `a + b` days, so `next_week_start + k` is `this_week_start + 7 + k` |
| Calendar.ToOrdinalInjective | chatshhs_refactored.py:223-224 | two valid dates with the same ordinal are the same date, so day arithmetic is well defined |
| Calendar.ChristmasEve2025IsWednesday | chatshhs_refactored.py:223 | the weekday convention matches Python's: 2025-12-24 has `weekday()` 2 (Wednesday) |
| Ymd.Parse | chatshhs_refactored.py:371-376 | whenever `strptime(s, "%Y%m%d")` succeeds, the date it returns is a real calendar date with year >= 1 |
| Ymd.ParseEightDigits | chatshhs_refactored.py:371-376 | on an 8-digit string, strptime succeeds exactly when the digits name a real date (no month 13, no day 32, no Feb 29 in a common year, no year 0000) and then returns that date |
| Ymd.ParseFormat | chatshhs_refactored.py:394-395 | strptime reads back exactly the date that `%Y%m%d` formatting wrote |
| Ymd.FormatDecode | chatshhs_refactored.py:373-374 | an 8-digit real date is its own canonical form: re-formatting its decoded fields gives the same string |
| DateTokens.NormalizeDateToken | chatshhs_refactored.py:366-399 | every non-empty answer is an 8-digit real calendar date, and the trimmed token had one of the three accepted shapes; every other shape gives no answer |
| DateTokens.NormalizeEightDigits | chatshhs_refactored.py:371-376 | an 8-digit token is returned unchanged when it is a real date and rejected otherwise |
| DateTokens.NormalizeIsoExtended | chatshhs_refactored.py:379-385 | a `YYYY-MM-DD` token maps to its three digit groups concatenated when they form a real date, and is rejected otherwise |
| DateTokens.NormalizeMonthDay | chatshhs_refactored.py:388-397 | an `M-D`/`MM-DD` token maps to the formatted date (anchor year, month, day) when that date exists, and is rejected otherwise |
| DateTokens.NormalizeIdempotent | chatshhs_refactored.py:366-399 | normalising an answer again, under any anchor, returns it unchanged |
| DateTokens.NormalizeAsWritten | chatshhs_refactored.py:366-399 | the normaliser as written: every answer is a string strptime accepts, which need not be an 8-digit date |
| DateTokens.AsWrittenMonthDay | chatshhs_refactored.py:388-397 | as written, an accepted `M-D` token answers the year's unpadded decimal text followed by two digits of month and two of day, so that for an anchor before year 1000 no answer of this branch is an 8-digit calendar date |
| DateTokens.AsWrittenAgreesFromYear1000 | chatshhs_refactored.py:391-395 | for anchor years 1000..9999 the code as written and the corrected normaliser give the same answer on every token |
| DateTokens.ParseSevenCharacters | chatshhs_refactored.py:394 | strptime accepts the 7-character string "9990101" and reads it as 9990-10-01 |
| DateTokens.AsWrittenShortYear | chatshhs_refactored.py:391-395 | as written, "1-1" with an anchor in year 999 yields "9990101", which is not an 8-digit date |
| DateTokens.AsWrittenShortYearNotIdempotent | chatshhs_refactored.py:366-399 | the answer "9990101" is itself rejected when it is normalised again, so the code as written is not idempotent |
| DateTokens.PaddedShortYear | chatshhs_refactored.py:388-397 | the corrected normaliser maps "1-1" with an anchor in year 999 to "09990101", which is 0999-01-01 |
| RelativeDates.DaysSinceSundayIsWeekdayPlusOne | chatshhs_refactored.py:223 | `days_since_sunday` is `(weekday() + 1) % 7`: 0 on Sunday through 6 on Saturday |
| RelativeDates.WeekStartDefined | chatshhs_refactored.py:224 | `this_week_start` exists exactly when the anchor is at least the seventh day of the calendar; otherwise the subtraction overflows |
| RelativeDates.WeekStartIsSunday | chatshhs_refactored.py:223-224 | `this_week_start` is a Sunday, 0 to 6 days on or before the anchor |
| RelativeDates.WeekStartIsLatestSunday | chatshhs_refactored.py:223-224 | any Sunday 0 to 6 days on or before the anchor is `this_week_start`: the week start is unique |
| RelativeDates.ResolveIsOffset | chatshhs_refactored.py:229-245 | each phrase denotes the anchor plus a fixed offset: +1, +2, -1, or (day index - days since Sunday), plus 7 for next week; the week phrases fail when the week start does not exist |
| RelativeDates.WeekPhrases | chatshhs_refactored.py:232-245 | "이번주 X요일" is the week start plus k and "다음주 X요일" is the week start plus 7 + k (Sunday 0 … Saturday 6), so the next-week date is the this-week date plus 7 |
| RelativeDates.WeekPhraseWeekday | chatshhs_refactored.py:232-245 | the date a week phrase denotes falls on the weekday the phrase names |
| RelativeDates.ChristmasEve2025Phrases | chatshhs_refactored.py:232-245 | from Wednesday 2025-12-24, "다음주 월요일" is 2025-12-29 and "이번주 일요일" is 2025-12-21 |
| RelativeDates.LongFormReadsBack | chatshhs_refactored.py:229 | the `%Y년 %m월 %d일` text carries year, month and day in fixed columns, from which the date is read back |
| RelativeDates.LongFormInjective | chatshhs_refactored.py:229 | different dates are written as different texts |
| RelativeDates.MatchLen | chatshhs_refactored.py:232-245 | when a pattern (first word, any run of whitespace, second word) matches at the start of the text, the reported length is a non-empty prefix that the pattern matches |
| RelativeDates.MatchLenComplete | chatshhs_refactored.py:232-245 | whenever the pattern matches a prefix, the matcher finds that prefix: it is complete and the match length is unique |
| RelativeDates.SubFree | chatshhs_refactored.py:250 | `re.sub` leaves a text unchanged when the pattern's first character does not occur in it |
| RelativeDates.SubAfterFree | chatshhs_refactored.py:250 | `re.sub` passes over a stretch without the pattern's first character and rewrites only what follows |
| RelativeDates.SubReplacesMatch | chatshhs_refactored.py:250 | a match at the start is replaced by the replacement and the scan resumes after it |
| RelativeDates.PatternsDisjoint | chatshhs_refactored.py:228-246 | no text starts with a match of two different patterns of the table |
| RelativeDates.PositionInTable | chatshhs_refactored.py:228-246 | every phrase has exactly one entry in the seventeen-entry replacement table |
| RelativeDates.ConvertDefined | chatshhs_refactored.py:223-246 | the conversion succeeds exactly when all seventeen dates are representable: the week start and the last day of next week lie within 0001-01-01..9999-12-31 |
| RelativeDates.ConvertPhraseFree | chatshhs_refactored.py:248-252 | a text without any phrase-initial character comes back unchanged |
| RelativeDates.ConvertOnePhrase | chatshhs_refactored.py:218-252 | when the rest of the text holds none of the five characters a phrase can start with (내, 모, 어, 다, 이), the one phrase is replaced by its date in long form and nothing else changes |
| Query.KindOf | chatshhs_refactored.py:73-82 | exactly the four names lunch, schedule, inform and year_sch select a kind, each its own |
| Query.Entry | chatshhs_refactored.py:74-80 | a parameter is sent exactly when its value is not `None` |
| Query.Single | chatshhs_refactored.py:66-89 | `single_query` issues at most one request: none exactly when the name is unknown, and then it answers "지원하지 않는 API"; otherwise the request goes to that kind's endpoint and the answer is the reply to it |
| Query.ParamTableFacts | schoolapi.py:29-44 | the request carries exactly: the key, `Type=json`, office J10, school 7530081, plus MLSV_YMD and pSize 1 for lunch; GRADE, CLASS_NM, ALL_TI_YMD and pSize 20 for schedule; pSize 10 for inform; AA_YMD and pSize 1 for year_sch |
| Query.DateParamCarriesDate | schoolapi.py:35-42 | any date parameter of a request holds the date the query was made for |
| Query.InformSendsNoDate | schoolapi.py:39-40 | an inform request carries no date, grade or class parameter, whatever it is given |
| Query.Results | chatshhs_refactored.py:90-94 | the fan-out dictionary has exactly the requested dates as keys, each once |
| Query.FanOutValues | chatshhs_refactored.py:90-94 | each requested date maps to that date's single-query answer, even when it is listed twice |
| Query.FanOutRequests | chatshhs_refactored.py:90-94 | the fan-out issues one request per date, in date order |
| Query.FanOutSilent | chatshhs_refactored.py:90-94 | when the single query issues no request (an unknown kind), the fan-out issues none either |
| Query.Call | schoolapi.py:18-59 | without a key, schoolapi.py answers the configuration error and issues nothing; a list of dates yields a dictionary keyed by exactly those dates |
| Query.CallRequests | chatshhs_refactored.py:66-96 | for a known kind, a list of dates issues the per-date requests in order and maps each date to its reply; one date or none issues one request |
| Query.CallUnsupported | chatshhs_refactored.py:81-96 | an unknown kind issues no request and answers "지원하지 않는 API" for every date |
| Extract.FieldOrSpec | schoolapi.py:68-71 | the guarded lookup yields the row's field (or the `.get` default) on a well-formed envelope, and the placeholder on anything else |
| Extract.FirstRowSpec | chatshhs_refactored.py:139 | the first row is found exactly on a well-formed envelope |
| Extract.RowsOrSpec | schoolapi.py:74-77 | the guarded timetable lookup yields the envelope's rows, or an empty list where the path is broken |
| Extract.PeriodsFail | schoolapi.py:78-80 | numbering the rows fails exactly when some row is not a dictionary (`r.get` raises) |
| Extract.PeriodsSpec | schoolapi.py:78-80 | on dictionary rows, numbering succeeds with exactly one line per row |
| Extract.NumberedIndex | schoolapi.py:79-80 | the i-th line is for period i + 1 and shows the i-th row's subject |
| Extract.PeriodLinesSpec | schoolapi.py:73-82 | no rows give the single line "… : 시간표 정보 없음"; otherwise the lines are numbered from 1 in row order, one per row |
| Extract.InformLinesSpec | chatshhs_refactored.py:137-152 | the refactored version shows one line for a named field, three lines (name, address, telephone) without one, and one error line when the envelope is broken |
| Extract.AllDatesAppend | chatshhs_refactored.py:113-154 | the dates are handled in list order: the lines for `a + b` are those for `a` followed by those for `b`, and the first exception wins |
| Extract.OneLinePerDate | chatshhs_refactored.py:113-136 | lunch and year_sch (and inform in schoolapi.py) emit exactly one line per requested date, in order, each starting "<date> : " and showing that date's value or placeholder |
| Extract.DateLine | schoolapi.py:65-94 | the line for a date shows the first row's field when that date's answer is a well-formed envelope, and the kind's placeholder (정보 없음, 일정 없음) when the date is missing or its envelope is broken |
| SchoolInfo.Fold | schoolapi.py:137-142 | the folded dictionary has each key once |
| SchoolInfo.FoldLookup | schoolapi.py:137-142 | a key maps to the value of the last line with that key, and only the keys of colon lines occur |
| SchoolInfo.ColonlessLineDropped | schoolapi.py:139 | a line without a colon leaves the dictionary unchanged |
| SchoolInfo.DateLineSplits | schoolapi.py:140-141 | a line "<d> : <x>" splits into the key d and the trimmed value |
| SchoolInfo.SameKeyCollapses | schoolapi.py:138-141 | lines that all have the same key collapse to one entry holding the last line's value, as timetable periods of one date do |
| SchoolInfo.UnsupportedLines | schoolapi.py:95-96 | an unknown kind asked for a list of dates shows "<d> : 지원하지 않는 API" for each date, in order |
| SchoolInfo.UnsupportedDates | schoolapi.py:95-96 | the extraction of a per-date "not supported" dictionary gives one such line per date |
| SchoolInfo.ListQueryOneLineEach | chatshhs_refactored.py:211-214 | query plus extraction of a list of dates, for a one-line kind, gives one line per date in order, each prefixed by its date |
| ToolArgs.ApiOf | chatshhs_refactored.py:402-405 | exactly the four allowed names pass the whitelist, and each passes as its own kind |
| ToolArgs.IntOfShown | chatshhs_refactored.py:433 | `int(str(i)) == i` for every integer |
| ToolArgs.IntOfNumberText | chatshhs_refactored.py:433 | a JSON integer coerces to the same value as its decimal text |
| ToolArgs.IntOfIgnoresSpace | chatshhs_refactored.py:433 | surrounding whitespace does not change whether `int()` accepts a string or what it reads |
| ToolArgs.IntOfSigned | chatshhs_refactored.py:433 | a digit string reads as its decimal value; a leading `+` changes nothing and a leading `-` negates |
| ToolArgs.IntOfNeedsDigit | chatshhs_refactored.py:433 | a string that `int()` accepts holds at least one digit |
| ToolArgs.NormalizeAll | chatshhs_refactored.py:416-418 | all tokens normalise, giving one answer per token in order, or else some token fails and there is no list at all |
| ToolArgs.DatesOf | chatshhs_refactored.py:414-431 | a `date` argument is either refused with "잘못된 날짜 형식" or yields only 8-digit real dates; a value that is neither a list nor a string sends no date |
| ToolArgs.DatesOfList | chatshhs_refactored.py:415-419 | a list is accepted exactly when every item normalises, and then keeps one date per item, in order |
| ToolArgs.DatesOfCommaString | chatshhs_refactored.py:420-426 | a string with a comma is accepted exactly when every non-empty stripped piece normalises, and then keeps one date per piece, in order |
| ToolArgs.DatesOfOneString | chatshhs_refactored.py:427-431 | a string without a comma is accepted exactly when the one-item list holding it would be, with the same date but as a single date rather than a list; an 8-digit calendar date is accepted unchanged |
| ToolArgs.PiecesAppend | chatshhs_refactored.py:422 | the strip-and-filter comprehension works part by part: the pieces of `a + b` are those of `a` followed by those of `b` |
| ToolArgs.PiecesOne | chatshhs_refactored.py:422 | one part contributes its stripped form, or nothing when that is empty |
| ToolArgs.Validate | chatshhs_refactored.py:401-438 | an accepted call names an allowed API, carries only 8-digit real dates and keeps `info_type`; inform drops date, grade and class; a rejected name raises its error |
| ToolArgs.ValidateOptionalFields | chatshhs_refactored.py:409-437 | an accepted call keeps `info_type`, as its `str()`, exactly when the argument is bound to something other than null; for every kind but inform it keeps `grade` and `classnum` exactly when they are bound to something other than null, with the values `int()` reads from them |
| ToolArgs.ValidateIntErrors | chatshhs_refactored.py:432-435 | once the name and the dates pass, the call is accepted exactly when `grade` and `classnum` are absent, null or readable by `int()`; otherwise `int()`'s error rejects it, and the grade's error comes first |
| ToolArgs.NormalizeAllDates | chatshhs_refactored.py:415-419 | a list of canonical dates passes through unchanged |
| ToolArgs.CommaSeparatedDates | chatshhs_refactored.py:420-426 | canonical dates joined by commas are split back into the same list, in order |
| ToolArgs.OneBadDateRejectsAll | chatshhs_refactored.py:415-418 | a single bad item in a date list rejects the whole call with "잘못된 날짜 형식": there is no partial list |
| ToolArgs.ToolCall | chatshhs_refactored.py:445-455 | a refused call sends no request and hands the error text back to the model; an accepted call sends one request per listed date, or one for a single date or none; a request goes out only when `api_name` is one of the four names |
| ToolArgs.ToolCallSendsCalendarDates | chatshhs_refactored.py:445-451 | every request the chat sends goes to the endpoint of the validated kind, and every date parameter it carries is an 8-digit real date |

## Left out

- ChatSHHS.py as a whole is not modelled. It splits live XML responses as text and dispatches on free-form language-model output.
- The conversation around the tool call is not modelled: `respond()`, prompt construction, the OpenAI client calls and `json.dumps` of the result. These are external services or serialisation.
- The HTTP layer (`requests.get`, `raise_for_status`, `response.json()`) is the parameter `fetch`. Its failure text is kept abstract, and it is taken to be deterministic.
- Reading the service key from `st.secrets` or the environment (`get_neis_key`) is configuration I/O; the key is a parameter.
- `datetime.now(pytz…)` is a clock read; the anchor date is a parameter.
- The Streamlit UI, logging and the `__main__` demo of schoolapi.py are not modelled.
- `call_school_api` accepts `info_type`, but neither version uses it, so the model has no such parameter.
- JSON numbers are integers only; floats are not modelled.
- `str()` of lists and dicts is simplified: strings inside containers are always single-quoted and never escaped.
- `\d` and `int()` accept ASCII digits only. Python also accepts other Unicode decimal digits, and `int()` also accepts underscores between digits.
- RelativeDates.MatchLen: `\s*` is modelled for the two-word patterns only. The table has no other regular-expression syntax, so general `re` matching is not modelled.
- RelativeDates.LongForm: the year is always written with four digits. On glibc systems Python writes years below 1000 without padding, which can only matter for an anchor in the first millennium.
- RelativeDates.ConvertOnePhrase: the text around the phrase must hold none of 내, 모, 어, 다, 이, not merely no other phrase. So ordinary sentences ending in "…다" or containing "이" fall outside the lemma. Positions where such a character starts no match are left unproved because the argument across the boundaries of the phrase and its replacement was not carried out.
- ToolArgs.Validate: it uses the corrected normaliser. The version as written differs only for anchor years below 1000 (see Findings).
- ToolArgs.ToolCall: it returns the lines or the exception text; `json.dumps` of either is not modelled.

## Findings

| source | as written | input that shows it | evidently intended | confidence | as-written member | corrected member |
|---|---|---|---|---|---|---|
| chatshhs_refactored.py:391-395 | the month-day path writes the anchor year with `f"{year}"`, which has fewer than four digits before year 1000; strptime still accepts the shorter string, reading its first four digits as the year, and that string is returned | token "1-1" with an anchor date in year 999: answer "9990101" (read by strptime as 9990-10-01), which is 7 characters and is itself rejected when normalised again | write the year with four digits, as `%Y` formatting does, so that the answer is "09990101" (0999-01-01) and every answer is an 8-digit real date | not executed | DateTokens.AsWrittenShortYear | DateTokens.NormalizeDateToken |
