# NSYSU course calendar — a Dafny model

This project models the core of the NSYSU course calendar. That system has two parts:

- A client for the university's course-selection portal ("selcrs"). It logs in with a student
  number and password. It switches to another of the four portal mirrors and retries when the
  network fails, and logs in again when a page says the session expired. It decodes the Big5
  pages and reads the student profile and the weekly course table from them.
- A course calendar web application. It keeps an in-memory list of saved courses, each with a
  palette colour and an `added_at` identifier. It can add, update and delete them, and export
  them as weekly recurring calendar events.

It also models the course page of the mobile client: its four display states, and the labels
it shows for semester codes such as `1091` (ROC year 109, first semester).

Modules, one per concern:

- `Strings` holds the Python string operations the core relies on: `in`, `strip`, `split`,
  `replace`, `int()` and `str()` of integers.
- `Encodings` holds the Latin-1 round trip, the per-field Big5/CP950/UTF-8 re-decoding, and the
  body-decoding loop. The byte decoders themselves are supplied as a `Codec` value.
- `TimeCodes`, `Schedule` and `Profile` hold the page parsers. An HTML page is given as the
  cells and rows an HTML parser would return (a `Soup` value).
- `Portal`, `SelcrsClient` and `NsysuClient` hold the login and fetch state machines of the
  synchronous and asynchronous helpers.
  - The portal is a `Network`: the reply to the k-th request the helper sends.
  - Each helper is a class whose methods are proved to produce exactly the state and the
    outcome of a pure specification function (`LoginRun`, `FetchRun`).
  - The properties are lemmas about those functions.
- `CoursePage` models the mobile course page as a class over its fields.
- `CourseTable` holds the handlers' shared course list (a `CourseStore` class).
  - The handlers of `main.py` and `app.py` are identical, line for line, so one class models both.
- `CalendarExport` models the export handler, with the clock's start weekday and the calendar
  service's answers as inputs.

## Model

| member | source | states |
|---|---|---|
| `Strings.Contains` | archive/selcrs_helper.py:211 | `sub in s` holds exactly when some position of `s` starts an occurrence of `sub` |
| `Strings.SpaceRunEndIsRun` | archive/selcrs_helper.py:341 | the leading run that `strip` drops is all whitespace, and the character after it is not whitespace |
| `Strings.SpaceRunStartIsRun` | archive/selcrs_helper.py:341 | the trailing run that `strip` drops is all whitespace, and the character before it is not whitespace |
| `Strings.Strip` | main.py:277-278 | `strip()` never lengthens the text, and keeps a text that neither starts nor ends with whitespace as it is |
| `Strings.StripIsMiddle` | main.py:277-278 | `strip()` gives a contiguous slice of the text with only whitespace outside it, and the slice neither starts nor ends with whitespace |
| `Strings.Split` | archive/selcrs_helper.py:341 | `split` always yields at least one part |
| `Strings.SplitJoin` | archive/selcrs_helper.py:341 | joining the parts with the separator rebuilds the text, and no part holds the separator |
| `Strings.SplitHead` | archive/selcrs_helper.py:342 | the first part is the prefix before the first separator |
| `Strings.SplitSecond` | main.py:278 | the second part lies between the first and second separators |
| `Strings.SplitHasSeparator` | main.py:278 | there is a second part exactly when the separator occurs, which is when indexing `[1]` does not raise |
| `Strings.RemoveAll` | main.py:312 | `replace(c, "")` removes every `c` and keeps every other character |
| `Strings.RemoveAllAppend` | main.py:312 | removing a character from two joined texts removes it from each text and keeps their order |
| `Strings.RemoveAllAbsent` | archive/selcrs_helper.py:260 | `replace` leaves a text without the character unchanged |
| `Strings.NatToString` | archive/course_page.py:106 | `str()` of a natural number is a non-empty string of digits |
| `Strings.NatToStringRoundTrip` | archive/course_page.py:105-106 | reading back the digits of `str(n)` gives n |
| `Strings.DigitGroupsWithoutUnderscores` | archive/course_page.py:105 | digit groups that `int()` accepts are all digits once the underscores are gone |
| `Strings.ParseInt` | archive/course_page.py:105 | `int()` raises on any text holding one of U+001C..U+001F, which `strip()` treats as whitespace but `int()` does not skip |
| `Strings.ParseIntOfDigits` | archive/course_page.py:105 | `int()` of a string of ASCII digits is its decimal value |
| `TimeCodes.TitleIndex` | archive/selcrs_helper.py:66-70 | the index of the first time code with the title, or -1 exactly when no code has it |
| `TimeCodes.IndexOf` | archive/selcrs_helper.py:66-70 | the loop of `index_of` returns the first matching position, or -1 |
| `TimeCodes.Titles` | archive/selcrs_helper.py:327 | the titles of the time codes, in order |
| `Encodings.Latin1Encode` | archive/selcrs_helper.py:240 | encoding succeeds exactly when every character is below 256, and maps each character to its own code |
| `Encodings.Latin1RoundTrip` | archive/selcrs_helper.py:240 | decoding the Latin-1 bytes gives back the text |
| `Encodings.FirstCjkDecode` | archive/selcrs_helper.py:241-247 | the first candidate whose decode succeeds and holds a CJK ideograph, and None exactly when there is none |
| `Encodings.DecodeField` | archive/selcrs_helper.py:238-250 | the field is either the raw text or a decode that holds Chinese |
| `Encodings.DecodeFieldKeepsChinese` | archive/selcrs_helper.py:238-250 | a field that already holds Chinese characters is returned as it is |
| `Encodings.DecodeFieldIdempotent` | archive/selcrs_helper.py:238-250 | decoding a decoded field again changes nothing |
| `Encodings.ScanFirstCjk` | archive/selcrs_helper.py:295-300 | the loop stops at the first decode that succeeds and holds Chinese |
| `Encodings.ScanWithoutCjk` | archive/selcrs_helper.py:295-305 | without a Chinese decode, the text is the last successful decode, or the fallback when every decode failed |
| `Encodings.ScanBody` | archive/selcrs_helper.py:295-302 | the loop's text is the one it started with or one of the candidates' decodes, and once a decode has succeeded the loop always has a text |
| `Encodings.BodyPrefersFirstCjk` | archive/selcrs_helper.py:293-300 | the body is the first of big5, cp950, utf-8, gbk whose decode holds Chinese |
| `Encodings.BodyKeepsLastCleanDecode` | archive/selcrs_helper.py:295-305 | with no Chinese decode, the body is the last decode that did not raise |
| `Encodings.BodyReplacesOnlyWhenAllFail` | archive/selcrs_helper.py:304-305 | the replacing Big5 decode is used exactly when all four decodes raised |
| `Encodings.LastClean` | archive/selcrs_helper.py:295-302 | the last candidate that decodes without error |
| `Encodings.DecodedBody` | archive/selcrs_helper.py:292-305 | the body is one of the four candidates' decodes, or the replacing big5 decode |
| `Encodings.DecodeBody` | archive/selcrs_helper.py:292-305 | the loop's text equals the specified body decode |
| `Schedule.CourseOf` | archive/selcrs_helper.py:331-339 | a row yields a course exactly when it has at least 10 cells and its title cell has a link |
| `Schedule.GridTimes` | archive/selcrs_helper.py:360-368 | every section time of the first n columns has a weekday from 1 up to n - 10, the weekday of column j being j - 9 |
| `Schedule.CoursesOf` | archive/selcrs_helper.py:331-370 | no more courses than data rows |
| `Schedule.ParseSchedule` | archive/selcrs_helper.py:319-375 | a page with one row or none gives the empty data; otherwise one course per kept data row; without a time-code configuration the time codes are empty |
| `Schedule.OneCoursePerKeptRow` | archive/selcrs_helper.py:331-370 | exactly one course per kept row |
| `Schedule.CoursesOfAppend` | archive/selcrs_helper.py:331-370 | the courses of two runs of rows are those of the first run followed by those of the second, so the courses keep row order |
| `Schedule.NormalizeRequired` | archive/selcrs_helper.py:350 | a one-character flag gains '修' as its second character; any other flag is kept as it is; the flag is always a prefix of the result |
| `Schedule.LookupFindsTitle` | archive/selcrs_helper.py:366 | a grid character gives the index of the first time code titled with that one character, and -1 exactly when there is no configuration or no such code |
| `Schedule.TitleIsFirstLine` | archive/selcrs_helper.py:341-342 | the title is the link text up to its first newline |
| `Schedule.NamesPeriodSnoc` | archive/selcrs_helper.py:363-368 | a cell names a period exactly when its shorter prefix does or its last character does |
| `Schedule.SlotsOfExactly` | archive/selcrs_helper.py:363-368 | a cell yields a section time exactly when a non-blank character of the cell names that valid period, on that weekday |
| `Schedule.SlotsOfWeekday` | archive/selcrs_helper.py:368 | every section time of a cell carries that cell's weekday |
| `Schedule.GridTimesExactly` | archive/selcrs_helper.py:360-368 | grid section times come exactly from the columns from 10 on, column j giving weekday j-9 |
| `Schedule.GridTimesValid` | archive/selcrs_helper.py:360-368 | every section time has weekday at least 1 and a period index that is a real position in the time-code list, and each named period appears |
| `Schedule.CellSlots` | archive/selcrs_helper.py:362-368 | the loop over one cell's characters gives exactly that cell's specified section times |
| `Schedule.RowTimes` | archive/selcrs_helper.py:360-368 | the loop over the grid columns gives exactly the row's specified section times |
| `Schedule.ParseCourseTable` | archive/selcrs_helper.py:319-375 | the parsing loops produce exactly the specified course data, including the empty data for a header-only page |
| `Profile.ParseUserInfo` | archive/selcrs_helper.py:237-271 | fewer than 10 cells give the empty profile; otherwise each field is its cell (the class without spaces) or a Chinese decode of it; the grade stays empty |
| `Profile.ProfileKeepsChineseCells` | archive/selcrs_helper.py:255-267 | each of the five cells (department, class without spaces, student id, name, email) that already holds Chinese is stored as it is |
| `Portal.LoginAttempt` | archive/selcrs_helper.py:148-191 | a login pass uses one or two requests; the course-system request is sent exactly when the score system answered without its error marker; a rejection has status 400 or 401 |
| `Portal.LoginMarkerOrder` | archive/selcrs_helper.py:145-190 | a score-system rejection sends no second request; a pass succeeds exactly when neither reply holds a marker; a rejection is 400 or 401 |
| `SelcrsClient.NextIndex` | archive/selcrs_helper.py:125-130 | the next mirror stays among the four mirrors |
| `SelcrsClient.MirrorCycle` | archive/selcrs_helper.py:125-130 | four changes return to the same mirror, and every change stays among 1..4 |
| `SelcrsClient.RotatedStaysInRange` | archive/selcrs_helper.py:125-130 | any number of changes stays among 1..4 |
| `SelcrsClient.LoginRun` | archive/selcrs_helper.py:145-201 | login never changes the re-login count, never lowers the error count, and keeps the mirror valid |
| `SelcrsClient.LoginErrorBound` | archive/selcrs_helper.py:193-201 | login re-raises exactly when its own error pushed the counter past 5, and the counter ends at most 6; past 5, the first transport error re-raises |
| `SelcrsClient.LoginFieldsChanged` | archive/selcrs_helper.py:145-201 | only success stores the credentials and sets the login flag; otherwise only the error counter and mirror change, the mirror having moved once per absorbed error |
| `SelcrsClient.LogoutState` | archive/selcrs_helper.py:132-138 | logout empties both credentials, clears the login flag and the error count, and resets the mirror to 1, but keeps the re-login count |
| `SelcrsClient.FetchRun` | archive/selcrs_helper.py:207-235 | fetching keeps the mirror valid |
| `SelcrsClient.FetchPassesOnlyFreshPages` | archive/selcrs_helper.py:211-220 | a body is parsed only without the expiry marker, and then the re-login count is 0; the count never exceeds 5 |
| `SelcrsClient.FetchStuckOnceExhausted` | archive/selcrs_helper.py:211-218 | with 5 re-logins spent, every fetch fails at once, even after a logout and a new login |
| `SelcrsClient.OneExpiryThenSuccess` | archive/selcrs_helper.py:203-222 | an expired page, a clean login and a clean page give the second page after exactly one re-login |
| `SelcrsClient.SelcrsHelper.constructor` | archive/selcrs_helper.py:111-119 | a fresh helper is logged out on mirror 1 with both counters at 0 |
| `SelcrsClient.SelcrsHelper.CanReLogin` | archive/selcrs_helper.py:121-123 | a re-login is allowed exactly while fewer than 5 have been counted |
| `SelcrsClient.SelcrsHelper.ChangeSelcrsUrl` | archive/selcrs_helper.py:125-130 | only the mirror index changes, to the next mirror |
| `SelcrsClient.SelcrsHelper.Logout` | archive/selcrs_helper.py:132-138 | the state becomes the logged-out state |
| `SelcrsClient.SelcrsHelper.Login` | archive/selcrs_helper.py:145-201 | the new fields, the outcome and the next request are those of the login specification |
| `SelcrsClient.SelcrsHelper.ReLogin` | archive/selcrs_helper.py:203-205 | counts one re-login, then logs in with the stored credentials |
| `SelcrsClient.SelcrsHelper.GetUserInfo` | archive/selcrs_helper.py:207-235 | the state and the profile are those of the fetch specification followed by the profile parser |
| `SelcrsClient.SelcrsHelper.GetCourseData` | archive/selcrs_helper.py:273-378 | the state and the course data are those of the fetch specification over the decoded body followed by the table parser |
| `NsysuClient.Rotate` | archive/nsysu-helper.py:81 | `(index % 4) + 1` is always a mirror 1..4 |
| `NsysuClient.RotateMatchesChangeUrl` | archive/nsysu-helper.py:81 | on the four mirrors the rotation equals the synchronous helper's mirror change |
| `NsysuClient.LoginRun` | archive/nsysu-helper.py:43-82 | the credentials are stored whatever the outcome, and the re-login count is kept |
| `NsysuClient.LoginAgreesWithSyncHelper` | archive/nsysu-helper.py:43-82 | against the same replies both helpers return the same outcome after the same requests and reach the same state, except that this one always stores the credentials |
| `NsysuClient.SelcrsHelper.constructor` | archive/nsysu-helper.py:21-28 | a fresh helper is logged out on mirror 1 with both counters at 0 |
| `NsysuClient.SelcrsHelper.CanRelogin` | archive/nsysu-helper.py:34-36 | a re-login is allowed exactly while fewer than 5 have been counted |
| `NsysuClient.SelcrsHelper.Login` | archive/nsysu-helper.py:43-82 | the new fields, the outcome and the next request are those of the asynchronous login specification |
| `CoursePage.SemesterText` | archive/course_page.py:90-111 | a text that is not 4 characters long is returned unchanged, and outside the English locale the label never raises |
| `CoursePage.SemesterTextShape` | archive/course_page.py:90-111 | the label raises exactly when, in the English locale, `int()` rejects the first three characters of a 4-character code; a 4-character code's label ends in its season key |
| `CoursePage.SeasonLabel` | archive/course_page.py:92-101 | the season key is non-empty exactly for the codes 0..3 |
| `CoursePage.YearPart` | archive/course_page.py:103-108 | the year part raises exactly when, in the English locale, `int()` rejects the first three characters; outside it, it is those three characters followed by `course_year` |
| `CoursePage.SeasonLabels` | archive/course_page.py:92-101 | the season key is non-empty exactly for the codes 0..3, and 1 is fall and 2 spring |
| `CoursePage.EnglishYearRange` | archive/course_page.py:104-106 | in English, a code with a 3-digit ROC year y shows the Gregorian years y+1911 and y+1912, and reading them back gives those years |
| `CoursePage.DefaultSemester` | archive/course_page.py:74-78 | the default semester exists exactly when the code's label does not raise; its year followed by its value is the code, and its text is the label |
| `CoursePage.DefaultSemesterSplit` | archive/course_page.py:74-78 | the default semester's year and value put together give back the configured code |
| `CoursePage.CacheKeyAsWritten` | archive/course_page.py:164-165 | as written, the key raises exactly when semester data is present, and is "1091" otherwise |
| `CoursePage.CacheKey` | archive/course_page.py:164-165 | the corrected key agrees with the key as written wherever that one does not raise, and is the default semester's year followed by its value otherwise |
| `CoursePage.CacheKeyAsWrittenRaises` | archive/course_page.py:164-165 | as written, the cache key raises whenever semester data is present, and is "1091" without it |
| `CoursePage.CacheKeyIsDefaultCode` | archive/course_page.py:164-165 | the corrected cache key is the configured default semester code, and "1091" without data |
| `CoursePage.AllLabelledPointwise` | archive/course_page.py:123-124 | the loop completes exactly when every option has a label |
| `CoursePage.Relabelled` | archive/course_page.py:123-124 | relabelling keeps the number of options and each option's year and value |
| `CoursePage.RelabelledKeepsOptions` | archive/course_page.py:123-124 | relabelling keeps the number of options and their years and values, and on completion each text is its option's label |
| `CoursePage.RelabelledStep` | archive/course_page.py:123-124 | one loop step either stops at an option whose label raises or relabels that option and continues |
| `CoursePage.Relabel` | archive/course_page.py:123-124 | the loop gives the specified relabelling and reports whether it completed |
| `CoursePage.CoursePage.constructor` | archive/course_page.py:38-46 | a fresh page is loading, with no data, no hints and no default code |
| `CoursePage.CoursePage.GetSemester` | archive/course_page.py:74-78 | stores the configured code and builds the default semester from it |
| `CoursePage.CoursePage.OnSemesterSuccess` | archive/course_page.py:113-134 | keeps the relabelled data, asks to overwrite a stored code that differs, and selects the default only when the loop completed; exactly then `_get_course_tables` reads the cache key as written, which raises |
| `CoursePage.CoursePage.OnCourseSuccessAsWritten` | archive/course_page.py:148-155 | as written: keeps the data, then raises exactly when semester data is present, leaving the state as it was; otherwise the page is empty exactly when there are no courses, and finished otherwise |
| `CoursePage.CoursePage.OnCourseSuccess` | archive/course_page.py:148-155 | with the corrected cache key: keeps the data; the page is empty exactly when there are no courses, and finished otherwise |
| `CoursePage.CoursePage.OnFailure` | archive/course_page.py:157-159 | offline hint and finished state |
| `CoursePage.CoursePage.OnError` | archive/course_page.py:161-162 | error state |
| `CourseTable.FirstMissing` | main.py:127-133 | None exactly when every required field is present; otherwise the first missing field in checking order |
| `CourseTable.FindMissing` | main.py:128-133 | the validation loop finds the first missing field |
| `CourseTable.Used` | main.py:136 | every string colour of a stored course is in use, and every colour in use is the colour of some stored course |
| `CourseTable.Unused` | main.py:137 | the palette colours not in use, and only those |
| `CourseTable.Available` | main.py:137 | exactly the palette colours not in use, never more than the palette; with no stored course, the whole palette in order |
| `CourseTable.FirstUnusedIsHead` | main.py:137-138 | the first free colour is the first palette colour not in use |
| `CourseTable.AvailableHeadIsFirstFree` | main.py:136-138 | the colour handed out is the first palette colour no stored course uses |
| `CourseTable.AssignColour` | main.py:135-138 | the colour is always a palette colour; while one is free it is the first free one, so it is unused |
| `CourseTable.Saved` | main.py:138-141 | a saved course has the request's fields plus `color` and `added_at`, set to the colour and the timestamp, and every other field as in the request |
| `CourseTable.SavedIsStored` | main.py:138-141 | a saved course carries its palette colour and its timestamp |
| `CourseTable.AppendStored` | main.py:144 | appending a saved course keeps every course identifiable |
| `CourseTable.FindById` | main.py:176-177 | the first course whose `added_at` equals the id, or -1 exactly when none does |
| `CourseTable.Replaced` | main.py:178-181 | an updated course has the request's fields plus the stored course's `color` and `added_at`, and every other field as in the request |
| `CourseTable.MatchesAppend` | main.py:220-225 | courses matching an id in a concatenation are those of both halves |
| `CourseTable.NoMatches` | main.py:220-225 | a list in which no course has the id counts no match |
| `CourseTable.Without` | main.py:223 | `pop(i)` removes exactly the i-th course and keeps the others in order |
| `CourseTable.DeleteRemovesOneMatch` | main.py:219-225 | deleting removes exactly one course with the id |
| `CourseTable.DeleteUndoesSave` | main.py:141-144 | a course saved with a fresh timestamp is found at the end, and deleting it restores the table |
| `CourseTable.ReplaceKeepsIdentity` | main.py:176-181 | an update keeps the course's colour, timestamp and position |
| `CourseTable.CourseStore.constructor` | main.py:25-26 | the table starts empty |
| `CourseTable.CourseStore.SaveCourse` | main.py:121-157 | 400 naming the first missing field and no change; otherwise the request is appended with its colour and timestamp |
| `CourseTable.CourseStore.UpdateCourse` | main.py:159-204 | 400 for a missing field; 404 when no course has the id; otherwise the first match is replaced, keeping its colour and timestamp |
| `CourseTable.CourseStore.DeleteCourse` | main.py:206-244 | 400 without a truthy id; 404 when no course has it; otherwise the first match is removed |
| `CourseTable.CourseStore.GetCourses` | app.py:164-166 | the table as stored |
| `CalendarExport.DayNumber` | main.py:281-289 | a weekday name maps to its position 0..4 |
| `CalendarExport.DayNumberIsPosition` | main.py:281-289 | the mapping succeeds exactly for the five weekday names, giving each its position |
| `CalendarExport.DaysToAdd` | main.py:293 | the offset is between 0 and 6 |
| `CalendarExport.LandsOnCourseDay` | main.py:290-294 | the first occurrence falls on the course's weekday, and the offset is 0 exactly when the start date already does |
| `CalendarExport.OffsetIsUnique` | main.py:293 | no other offset below 7 lands on the course's weekday |
| `CalendarExport.Items` | main.py:273-274 | a list gives its entries and a string its characters, each as a one-character string; anything else cannot be indexed |
| `CalendarExport.SpanOf` | main.py:273-278 | the times exist exactly when the time range indexes as a non-empty list or string whose first and last entries are strings and whose last entry holds a '~' |
| `CalendarExport.SpanOfRange` | main.py:273-278 | the times exist exactly when the last entry has a '~'; the start is the stripped text before the first entry's first '~', the end the stripped text after the last entry's first '~' |
| `CalendarExport.Recurrence` | main.py:312 | the rule is weekly, ends on the end date without its dashes at 23:59:59 UTC, and repeats on the BYDAY code of the course's weekday |
| `CalendarExport.EventFor` | main.py:271-314 | an event needs a known weekday and a string end date, and fails when its first occurrence would fall after 9999-12-31; it starts the right number of days later, repeats weekly until the end date on that weekday, and has the range's times |
| `CalendarExport.Planned` | main.py:271 | one event per course, in table order |
| `CalendarExport.AllAcceptedStep` | main.py:271-316 | every insert succeeds exactly when the first does and every later one does |
| `CalendarExport.InsertAll` | main.py:271-323 | 200 exactly when every event is built and accepted, then with all of them; otherwise 500, the calendar having received a prefix |
| `CalendarExport.InsertAllStep` | main.py:271-323 | a failing first course gives 500 at once; otherwise the first event is inserted before the rest |
| `CalendarExport.Exported` | main.py:250-323 | 400 exactly when a date is missing or empty; 401 only without a token; events reach the calendar only with a token and a valid start date |
| `CalendarExport.EventOnCourseDay` | main.py:289-294 | each event's first occurrence is on its course's weekday, less than a week after the start date |
| `CalendarExport.ExportFailsPastMaxDate` | main.py:293-294 | when the first course's occurrence would pass 9999-12-31, the date addition raises and the handler answers 500 with nothing inserted |
| `CalendarExport.ExportedEvents` | main.py:250-323 | with valid dates and a token, the export succeeds exactly when every course's event is built and accepted, and the calendar receives the courses' events in table order |
| `CalendarExport.InsertEvents` | main.py:271-323 | the insert loop gives the specified status and inserted events |
| `CalendarExport.ExportToCalendar` | main.py:250-323 | the handler gives the specified status and inserted events |

## Left out

- HTTP sessions, cookies, request URLs and form payloads are not modelled. The portal is the sequence of its replies, so the unused mirror index does not change any URL.
- The MD5 and Base64 password encoding is not modelled; the credentials are opaque strings.
- `chardet` detection, debug prints, timing, and log calls are not modelled; they do not change state.
- Callbacks (`on_success`, `on_failure`, `on_error`), the singleton accessors, and `async`/`await` are not modelled. The asynchronous helper is modelled as a sequential one.
- A decode raising is a `None` from the `Codec`; the real decoders are not modelled.
- `TimeCodeConfig.from_raw_json` (JSON parsing of the configuration) is not modelled; the configuration is given already parsed.
- `UserInfo.empty` and `CourseData.empty` are constants in the model.
- `archive/nsysu-helper.py` from line 84 on (`get_user_info`) is not modelled: the file ends mid-statement.
- `CoursePage`'s remote configuration, preferences, locale, user name and data requests are stubs in the source. They become inputs: the configured code, `english`, and the stored current code.
- `_get_course_tables` (`archive/course_page.py:129-146`) is modelled only up to the cache key it reads at line 134. With semester data present that key raises as written, so `CoursePage.CoursePage.OnSemesterSuccess` reports `keyRaised` whenever its loop completes. The `CourseNotifyData.load` call and the course request after it are therefore never reached as written, and are not modelled; neither is the branch for missing semester data, which `_on_semester_success` never takes.
- The `self.course_data.save` call of `_on_course_success` (`archive/course_page.py:150`) is storage and is not modelled; only the key it is given is.
- `Strings.ParseInt`: digits outside ASCII, which Python's `int()` also accepts, are read as errors, since a semester code never holds them. Its whitespace is that of `int()`: every `str.isspace()` character except U+001C..U+001F, which make `int()` raise.
- The Flask routing, the OAuth flow, the token file and the calendar service are not modelled (including the redirect that `get_google_calendar_service` returns when it has no credentials). The token's presence is `hasToken`, and the service's answer to each insert is `accepts`.
- Request bodies that are not JSON objects are not modelled. The source answers those with a 400 from the validation loop when a required name is not `in` the body (a JSON string or array), or with its catch-all 500.
- `CalendarExport.ExportToCalendar`: the parsed start date is an input (`start`, None when the date does not parse), given as its weekday and its number of days before 9999-12-31, the last date `datetime` holds; the calendar arithmetic behind those two numbers is not modelled. The event carries the offset in days rather than the formatted date and time strings.
- `CalendarExport.ExportToCalendar`: the response messages are not modelled, only the status.
- `CalendarExport.EventFor`: the instructor is kept as a JSON value, not as the Python `str()` of it in the description.
- `CalendarExport.ExportedEvents`: does not repeat the weekday of each event; `CalendarExport.EventOnCourseDay` states that per event.
- `CoursePage.CoursePage.OnCourseSuccess`: uses the corrected cache key of the Findings table; as written the handler raises before setting the state whenever semester data is present, which `CoursePage.CoursePage.OnCourseSuccessAsWritten` models.
- `CoursePage.Relabel`: returns a new list instead of changing the options in place, so the aliasing between the page's semester data and its options is not modelled.
- `CourseTable.CourseStore.SaveCourse`: when every palette colour is in use, the random choice is any palette colour.
- `CourseTable.CourseStore.UpdateCourse`: JSON values are compared structurally. Python's `1 == 1.0 == True` equalities across types are not modelled.
- `archive/course_page.py:140` reads `current_semester.code`, which would raise the same way as the cache key; as written it is never reached, since line 134 raises first.

## Findings

| source | as written | input that shows it | evidently intended | confidence | as-written member | corrected member |
|---|---|---|---|---|---|---|
| archive/course_page.py:164-165 | the cache key reads `default_semester.code`, but `Semester` has only `year`, `value` and `text`, so it raises `AttributeError` whenever semester data is present | any semester data, as `CoursePage.CacheKeyAsWrittenRaises` shows | the default semester's code, year followed by value, which is the configured code (`CoursePage.CacheKeyIsDefaultCode`) | not executed | `CoursePage.CacheKeyAsWritten` | `CoursePage.CacheKey` |
| archive/course_page.py:148-155 | `_on_course_success` stores the data and then computes the cache key before it sets the state, so with semester data present it raises and the page stays in its previous state, such as LOADING | any semester data with any course data | the state becomes EMPTY or FINISH | not executed | `CoursePage.CoursePage.OnCourseSuccessAsWritten` | `CoursePage.CoursePage.OnCourseSuccess` |
