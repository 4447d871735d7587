/**
 * The export of the course table to a calendar: one weekly recurring event per course, its
 * first occurrence moved from the chosen start date to the course's weekday, its times taken
 * from the course's time range, and its recurrence ending on the chosen end date.
 */
module CalendarExport {
  import opened Wrappers
  import opened Strings
  import opened CourseTable

  /** `datetime.weekday()`: 0 is Monday. */
  type Weekday = d: int | 0 <= d <= 6

  const Weekdays: seq<string> := ["Monday", "Tuesday", "Wednesday", "Thursday", "Friday"]

  /** The BYDAY code of each weekday a course can fall on. */
  const ByDayCodes: seq<string> := ["MO", "TU", "WE", "TH", "FR"]

  /** `day_mapping[course['day']]`; None is the KeyError any other value raises. */
  function DayNumber(day: Json): (r: Option<int>)
    ensures r.Some? ==> 0 <= r.value < 5
  {
    if day == JStr("Monday") then Some(0)
    else if day == JStr("Tuesday") then Some(1)
    else if day == JStr("Wednesday") then Some(2)
    else if day == JStr("Thursday") then Some(3)
    else if day == JStr("Friday") then Some(4)
    else None
  }

  /** The mapping numbers exactly the five weekday names, each by its position. */
  lemma DayNumberIsPosition(day: Json)
    ensures DayNumber(day).Some? <==> day.JStr? && day.s in Weekdays
    ensures DayNumber(day).Some? ==>
      var k := DayNumber(day).value; 0 <= k < 5 && day == JStr(Weekdays[k])
  {
  }

  /**
   * The parsed start date as the export uses it: its weekday, and the number of days from it to
   * 9999-12-31, the last date `datetime` can hold.
   */
  datatype StartDay = StartDay(weekday: Weekday, room: nat)

  /** `(course_day - base_day) % 7`: Python's `%` with a positive divisor is never negative. */
  function DaysToAdd(courseDay: int, baseDay: int): (d: int)
    ensures 0 <= d < 7
  {
    (courseDay - baseDay) % 7
  }

  /**
   * Moving the start date forward by DaysToAdd lands on the course's weekday, within the
   * first week, and does not move it at all when the start date already is that weekday.
   */
  lemma LandsOnCourseDay(courseDay: int, baseDay: Weekday)
    requires 0 <= courseDay <= 4
    ensures (baseDay + DaysToAdd(courseDay, baseDay)) % 7 == courseDay
    ensures DaysToAdd(courseDay, baseDay) == 0 <==> courseDay == baseDay
  {
    var d := DaysToAdd(courseDay, baseDay);
    if courseDay >= baseDay {
      assert d == courseDay - baseDay;
    } else {
      assert d == courseDay - baseDay + 7;
    }
  }

  /** No shorter move reaches the course's weekday: the offset is the only one in the first week. */
  lemma OffsetIsUnique(courseDay: int, baseDay: Weekday, e: int)
    requires 0 <= courseDay <= 4 && 0 <= e < 7 && (baseDay + e) % 7 == courseDay
    ensures e == DaysToAdd(courseDay, baseDay)
  {
    LandsOnCourseDay(courseDay, baseDay);
    var d := DaysToAdd(courseDay, baseDay);
    if baseDay + e < 7 {
      assert baseDay + e == courseDay;
    } else {
      assert baseDay + e - 7 == courseDay;
    }
    if baseDay + d < 7 {
      assert baseDay + d == courseDay;
    } else {
      assert baseDay + d - 7 == courseDay;
    }
  }

  /** Python indexing of `course['timeRange']`: a list's items, or a string's characters. */
  function Items(j: Json): (r: Option<seq<Json>>)
    ensures j.JArr? ==> r == Some(j.items)
    ensures j.JStr? ==> r.Some? && |r.value| == |j.s|
    ensures j.JStr? ==> forall i :: 0 <= i < |j.s| ==> r.value[i] == JStr([j.s[i]])
    ensures !j.JArr? && !j.JStr? ==> r.None?
  {
    match j
    case JArr(items) => Some(items)
    case JStr(s) => Some(seq(|s|, i requires 0 <= i < |s| => JStr([s[i]])))
    case _ => None
  }

  datatype TimeSpan = TimeSpan(start: string, end: string)

  /**
   * The start time is the text before the first '~' of the first entry, the end time the text
   * after the first '~' of the last entry, both stripped. None is the error Python raises: a
   * missing or unindexable time range, an empty one, an entry that is not a string, or a last
   * entry without '~'.
   */
  function SpanOf(timeRange: Json): (r: Option<TimeSpan>)
    ensures r.Some? <==> Items(timeRange).Some? && var items := Items(timeRange).value;
      items != [] && items[0].JStr? && items[|items| - 1].JStr? && '~' in items[|items| - 1].s
  {
    match Items(timeRange)
    case None => None
    case Some(items) =>
      if items == [] || !items[0].JStr? || !items[|items| - 1].JStr? then None
      else
        var first := Split(items[0].s, '~');
        var last := Split(items[|items| - 1].s, '~');
        SplitHasSeparator(items[|items| - 1].s, '~');
        if |last| < 2 then None
        else Some(TimeSpan(Strip(first[0]), Strip(last[1])))
  }

  /** A list of strings as the JSON array the request carries. */
  function StringArray(items: seq<string>): (j: Json)
    ensures j.JArr? && |j.items| == |items|
    ensures forall i :: 0 <= i < |items| ==> j.items[i] == JStr(items[i])
  {
    JArr(seq(|items|, i requires 0 <= i < |items| => JStr(items[i])))
  }

  /** `h` is the text of `s` before its first '~' (all of `s` when it has none). */
  predicate BeforeFirstTilde(s: string, h: string) {
    StartsWith(s, h) && '~' !in h && (|h| == |s| || s[|h|] == '~')
  }

  /**
   * The times of a list of "start ~ end" strings: the start is the stripped text of the first
   * entry before its first '~', the end the stripped text of the last entry after its first
   * '~' and before the next one; a last entry without '~' is an error.
   */
  lemma SpanOfRange(items: seq<string>)
    requires items != []
    ensures var r := SpanOf(StringArray(items));
      var first, last := items[0], items[|items| - 1];
      (r.Some? <==> '~' in last)
      && (r.Some? ==>
            (exists h :: BeforeFirstTilde(first, h) && r.value.start == Strip(h))
            && (exists h, t :: BeforeFirstTilde(last, h) && |h| < |last|
                               && BeforeFirstTilde(last[|h| + 1..], t) && r.value.end == Strip(t)))
  {
    var first, last := items[0], items[|items| - 1];
    var entries := StringArray(items).items;
    assert Items(StringArray(items)) == Some(entries);
    assert entries[0] == JStr(first) && entries[|entries| - 1] == JStr(last);
    var r := SpanOf(StringArray(items));
    var h := Split(first, '~')[0];
    SplitHead(first, '~');
    assert BeforeFirstTilde(first, h);
    if '~' in last {
      SplitHasSeparator(last, '~');
      SplitHead(last, '~');
      SplitSecond(last, '~');
      var parts := Split(last, '~');
      var t := parts[1];
      assert r == Some(TimeSpan(Strip(h), Strip(t)));
      assert BeforeFirstTilde(last, parts[0]) && |parts[0]| < |last|;
      assert BeforeFirstTilde(last[|parts[0]| + 1..], t);
    }
  }

  datatype Event = Event(
    summary: Json,
    location: Json,
    /** The instructor named in the description, when the course has a truthy one. */
    instructor: Option<Json>,
    /** Days from the chosen start date to the first occurrence. */
    dayOffset: int,
    startTime: string,
    endTime: string,
    recurrence: string)

  /**
   * The weekly rule, repeating until the last second of the end date (written without its
   * dashes) on the course's weekday.
   */
  function Recurrence(until: string, courseDay: int): (r: string)
    requires 0 <= courseDay < 5
    ensures StartsWith(r, "RRULE:FREQ=WEEKLY;UNTIL=") && |r| == 24 + |RemoveAll(until, '-')| + 17
    ensures r[24..|r| - 17] == RemoveAll(until, '-') && r[|r| - 17..|r| - 9] == "T235959Z"
    ensures r[|r| - 9..] == ";BYDAY=" + ByDayCodes[courseDay]
  {
    "RRULE:FREQ=WEEKLY;UNTIL=" + RemoveAll(until, '-') + "T235959Z;BYDAY=" + ByDayCodes[courseDay]
  }

  /**
   * The event for one course, or None where Python raises: a missing key, a bad time range or
   * day, a first occurrence past `datetime.max` (the OverflowError of `timedelta` addition), or
   * an end date that is not a string.
   */
  function EventFor(course: Record, endDate: Json, start: StartDay): (r: Option<Event>)
    ensures r.Some? ==> "day" in course && DayNumber(course["day"]).Some? && endDate.JStr?
    ensures r.Some? ==> var d := DayNumber(course["day"]).value;
      r.value.dayOffset == DaysToAdd(d, start.weekday) && r.value.dayOffset <= start.room
      && r.value.recurrence == Recurrence(endDate.s, d)
    ensures ("day" in course && DayNumber(course["day"]).Some?
             && DaysToAdd(DayNumber(course["day"]).value, start.weekday) > start.room) ==> r.None?
    ensures r.Some? ==> "timeRange" in course && SpanOf(course["timeRange"]) == Some(TimeSpan(r.value.startTime, r.value.endTime))
  {
    if "timeRange" !in course then None
    else
      match SpanOf(course["timeRange"])
      case None => None
      case Some(span) =>
        if "day" !in course then None
        else
          match DayNumber(course["day"])
          case None => None
          case Some(d) =>
            if DaysToAdd(d, start.weekday) > start.room then None
            else if "courseName" !in course || "location" !in course || !endDate.JStr? then None
            else
              var instructor := if "instructor" in course && Truthy(course["instructor"]) then Some(course["instructor"]) else None;
              Some(Event(course["courseName"], course["location"], instructor, DaysToAdd(d, start.weekday),
                         span.start, span.end, Recurrence(endDate.s, d)))
  }

  /** The result of an export: the HTTP status and the events the calendar received, in order. */
  datatype Export = Export(status: int, inserted: seq<Event>)

  /** The event each course yields, in table order (None where building it raises). */
  function Planned(courses: seq<Record>, endDate: Json, start: StartDay): (plan: seq<Option<Event>>)
    ensures |plan| == |courses|
    ensures forall j :: 0 <= j < |courses| ==> plan[j] == EventFor(courses[j], endDate, start)
  {
    seq(|courses|, j requires 0 <= j < |courses| => EventFor(courses[j], endDate, start))
  }

  /** Every planned event exists and the calendar accepts each insert, counting from the k-th. */
  predicate AllAccepted(plan: seq<Option<Event>>, accepts: nat -> bool, k: nat) {
    forall j :: 0 <= j < |plan| ==> plan[j].Some? && accepts(k + j)
  }

  lemma AllAcceptedStep(plan: seq<Option<Event>>, accepts: nat -> bool, k: nat)
    requires plan != []
    ensures AllAccepted(plan, accepts, k) <==> plan[0].Some? && accepts(k) && AllAccepted(plan[1..], accepts, k + 1)
  {
    if plan[0].Some? && accepts(k) && AllAccepted(plan[1..], accepts, k + 1) {
      forall j | 0 <= j < |plan| ensures plan[j].Some? && accepts(k + j) {
        if j > 0 {
          assert plan[j] == plan[1..][j - 1] && k + j == (k + 1) + (j - 1);
        }
      }
      assert AllAccepted(plan, accepts, k);
    }
    if AllAccepted(plan, accepts, k) {
      assert plan[0].Some? && accepts(k + 0);
      var tail := plan[1..];
      forall j | 0 <= j < |tail| ensures tail[j].Some? && accepts((k + 1) + j) {
        assert tail[j] == plan[j + 1] && (k + 1) + j == k + (j + 1);
        assert plan[j + 1].Some? && accepts(k + (j + 1));
      }
      assert forall j :: 0 <= j < |tail| ==> tail[j].Some? && accepts((k + 1) + j);
      assert AllAccepted(tail, accepts, k + 1);
    }
  }

  /**
   * The insert loop from the k-th insert on: the planned events are inserted in order, and the
   * first one that raised, or whose insert the calendar refuses (`accepts(k)` false), ends the
   * export with status 500, keeping what was already inserted.
   */
  function InsertAll(plan: seq<Option<Event>>, accepts: nat -> bool, k: nat): (r: Export)
    ensures r.status == 200 || r.status == 500
    ensures |r.inserted| <= |plan|
    ensures forall j :: 0 <= j < |r.inserted| ==> plan[j] == Some(r.inserted[j])
    ensures r.status == 200 <==> AllAccepted(plan, accepts, k)
    ensures r.status == 200 ==> |r.inserted| == |plan|
    decreases |plan|
  {
    if plan == [] then Export(200, [])
    else
      AllAcceptedStep(plan, accepts, k);
      if plan[0].None? || !accepts(k) then Export(500, [])
      else
        var rest := InsertAll(plan[1..], accepts, k + 1);
        assert forall j :: 1 <= j < |plan| ==> plan[j] == plan[1..][j - 1];
        Export(rest.status, [plan[0].value] + rest.inserted)
  }

  /** One step of the insert loop. */
  lemma InsertAllStep(plan: seq<Option<Event>>, accepts: nat -> bool, k: nat)
    requires plan != []
    ensures plan[0].None? || !accepts(k) ==> InsertAll(plan, accepts, k) == Export(500, [])
    ensures plan[0].Some? && accepts(k) ==>
      var rest := InsertAll(plan[1..], accepts, k + 1);
      InsertAll(plan, accepts, k) == Export(rest.status, [plan[0].value] + rest.inserted)
  {
  }

  /**
   * `export_to_calendar`: 400 without a truthy start and end date, 401 without a stored token,
   * 500 when the start date does not parse (`start` None), otherwise the insert loop.
   */
  function Exported(courses: seq<Record>, startDate: Option<Json>, endDate: Option<Json>, hasToken: bool,
                    start: Option<StartDay>, accepts: nat -> bool): (r: Export)
    ensures r.status == 400 <==> startDate.None? || !Truthy(startDate.value) || endDate.None? || !Truthy(endDate.value)
    ensures r.status == 401 ==> !hasToken
    ensures r.inserted != [] ==> hasToken && start.Some? && r.status != 400
  {
    if startDate.None? || !Truthy(startDate.value) || endDate.None? || !Truthy(endDate.value) then Export(400, [])
    else if !hasToken then Export(401, [])
    else if start.None? then Export(500, [])
    else InsertAll(Planned(courses, endDate.value, start.value), accepts, 0)
  }

  /** A course's event starts on the course's weekday. */
  lemma EventOnCourseDay(course: Record, endDate: Json, start: StartDay, e: Event)
    requires EventFor(course, endDate, start) == Some(e)
    ensures "day" in course && DayNumber(course["day"]).Some?
    ensures (start.weekday + e.dayOffset) % 7 == DayNumber(course["day"]).value
    ensures 0 <= e.dayOffset < 7
  {
    var r := EventFor(course, endDate, start);
    var d := DayNumber(course["day"]).value;
    assert r.value == e && r.value.dayOffset == DaysToAdd(d, start.weekday);
    LandsOnCourseDay(d, start.weekday);
  }

  /**
   * Every course gets its event exactly when the export succeeds, and the calendar receives
   * the courses' events in table order; a failed export keeps the events of the courses
   * before the failing one (each on its course's weekday, by EventOnCourseDay).
   */
  lemma ExportedEvents(courses: seq<Record>, startDate: Json, endDate: Json, start: StartDay, accepts: nat -> bool)
    requires Truthy(startDate) && Truthy(endDate)
    ensures var r := Exported(courses, Some(startDate), Some(endDate), true, Some(start), accepts);
      (r.status == 200 || r.status == 500)
      && (r.status == 200 <==> forall j :: 0 <= j < |courses| ==> EventFor(courses[j], endDate, start).Some? && accepts(j))
      && (r.status == 200 ==> |r.inserted| == |courses|)
      && (forall j :: 0 <= j < |r.inserted| ==> EventFor(courses[j], endDate, start) == Some(r.inserted[j]))
  {
    var plan := Planned(courses, endDate, start);
    var r := InsertAll(plan, accepts, 0);
    assert Exported(courses, Some(startDate), Some(endDate), true, Some(start), accepts) == r;
    assert AllAccepted(plan, accepts, 0)
       <==> (forall j :: 0 <= j < |courses| ==> EventFor(courses[j], endDate, start).Some? && accepts(j)) by {
      forall j | 0 <= j < |courses| ensures plan[j] == EventFor(courses[j], endDate, start) && 0 + j == j {
      }
    }
  }

  /**
   * A first course whose first occurrence would fall after 9999-12-31 makes the handler answer
   * 500 before anything reaches the calendar (a Friday 9999-12-31 start with a Monday course).
   */
  lemma ExportFailsPastMaxDate(courses: seq<Record>, startDate: Json, endDate: Json, start: StartDay,
                               accepts: nat -> bool)
    requires Truthy(startDate) && Truthy(endDate)
    requires courses != [] && "day" in courses[0] && DayNumber(courses[0]["day"]).Some?
    requires DaysToAdd(DayNumber(courses[0]["day"]).value, start.weekday) > start.room
    ensures Exported(courses, Some(startDate), Some(endDate), true, Some(start), accepts) == Export(500, [])
  {
    var plan := Planned(courses, endDate, start);
    assert plan[0].None?;
    InsertAllStep(plan, accepts, 0);
  }

  /**
   * The insert loop of the export handler over the courses' events in table order (None where
   * building a course's event raises).
   */
  method InsertEvents(plan: seq<Option<Event>>, accepts: nat -> bool) returns (status: int, inserted: seq<Event>)
    ensures Export(status, inserted) == InsertAll(plan, accepts, 0)
  {
    inserted := [];
    var i := 0;
    while i < |plan|
      invariant 0 <= i <= |plan|
      invariant InsertAll(plan, accepts, 0)
        == var rest := InsertAll(plan[i..], accepts, i); Export(rest.status, inserted + rest.inserted)
    {
      assert plan[i..][1..] == plan[i + 1..] && plan[i..][0] == plan[i];
      InsertAllStep(plan[i..], accepts, i);
      var event := plan[i];
      if event.None? || !accepts(i) {
        return 500, inserted;
      }
      ghost var rest := InsertAll(plan[i + 1..], accepts, i + 1);
      assert inserted + ([event.value] + rest.inserted) == (inserted + [event.value]) + rest.inserted;
      inserted := inserted + [event.value];
      i := i + 1;
    }
    assert plan[i..] == [];
    status := 200;
  }

  /** The export handler. */
  method ExportToCalendar(courses: seq<Record>, startDate: Option<Json>, endDate: Option<Json>, hasToken: bool,
                          start: Option<StartDay>, accepts: nat -> bool)
    returns (status: int, inserted: seq<Event>)
    ensures Export(status, inserted) == Exported(courses, startDate, endDate, hasToken, start, accepts)
  {
    if startDate.None? || !Truthy(startDate.value) || endDate.None? || !Truthy(endDate.value) {
      return 400, [];
    }
    if !hasToken {
      return 401, [];
    }
    if start.None? {
      return 500, [];
    }
    var plan := Planned(courses, endDate.value, start.value);
    status, inserted := InsertEvents(plan, accepts);
  }
}
