/**
 * The schedule table of the course-selection portal turned into course records.
 * An HTML page is given as its table rows (`tr`), each a sequence of cells (`td`) holding
 * the cell's stripped text and, when the cell has a link, the stripped text of its first anchor.
 */
module Schedule {
  import opened Wrappers
  import opened Strings
  import opened TimeCodes

  datatype Location = Location(building: string, room: string)

  datatype SectionTime = SectionTime(weekday: int, index: int)

  datatype Course = Course(
    code: string,
    className: string,
    title: string,
    units: string,
    required: string,
    location: Location,
    instructors: seq<string>,
    times: seq<SectionTime>)

  datatype CourseData = CourseData(courses: seq<Course>, timeCodes: seq<string>)

  const EmptyCourseData := CourseData([], [])

  datatype Cell = Cell(text: string, anchor: Option<string>)

  type Row = seq<Cell>

  /** The first column of the weekly grid; column j is weekday j - 9, so the grid starts at weekday 1. */
  const GridStart := 10

  /** The period index of one grid character, or -1 when it names no time code (or there is no config). */
  function Lookup(config: Option<TimeCodeConfig>, c: char): int {
    if config.Some? then TitleIndex(config.value.timeCodes, [c]) else -1
  }

  /**
   * A grid character names the first time code titled with that one character; -1 means there
   * is no configuration or no such code.
   */
  lemma LookupFindsTitle(config: Option<TimeCodeConfig>, c: char)
    ensures -1 <= Lookup(config, c)
    ensures Lookup(config, c) >= 0 ==>
      var r := Lookup(config, c);
      config.Some? && r < |config.value.timeCodes| && config.value.timeCodes[r].title == [c]
      && forall j :: 0 <= j < r ==> config.value.timeCodes[j].title != [c]
    ensures Lookup(config, c) == -1 <==>
      config.None? || forall j :: 0 <= j < |config.value.timeCodes| ==> config.value.timeCodes[j].title != [c]
  {
  }

  /** The section time one grid character adds to a course: none for a blank or an unknown code. */
  function SlotOf(config: Option<TimeCodeConfig>, weekday: int, c: char): seq<SectionTime> {
    if c == ' ' then []
    else
      var index := Lookup(config, c);
      if index == -1 then [] else [SectionTime(weekday, index)]
  }

  /** The section times of one grid cell, character by character. */
  function SlotsOf(config: Option<TimeCodeConfig>, weekday: int, text: string): seq<SectionTime>
    decreases |text|
  {
    if text == [] then []
    else SlotsOf(config, weekday, text[..|text| - 1]) + SlotOf(config, weekday, text[|text| - 1])
  }

  /** The section times of grid columns GridStart .. n - 1, column by column. */
  function GridTimes(config: Option<TimeCodeConfig>, row: Row, n: nat): (r: seq<SectionTime>)
    requires n <= |row|
    ensures forall i {:trigger r[i].weekday} :: 0 <= i < |r| ==> GridStart - 9 <= r[i].weekday < n - 9
    decreases n
  {
    if n <= GridStart then []
    else
      var w := n - 1 - 9;
      var last := SlotsOf(config, w, row[n - 1].text);
      forall st | st in last ensures st.weekday == w {
        SlotsOfWeekday(config, w, row[n - 1].text, st);
      }
      GridTimes(config, row, n - 1) + last
  }

  /** `td[7]` normalised: a one-character flag such as "必" gets "修" appended. */
  function NormalizeRequired(flag: string): (r: string)
    ensures |r| == (if |flag| == 1 then 2 else |flag|)
    ensures r[..|flag|] == flag
    ensures |r| > |flag| ==> r[|flag|] == '修'
  {
    if |flag| == 1 then flag + "修" else flag
  }

  /** The course one table row yields, or None for a row that is skipped. */
  function CourseOf(config: Option<TimeCodeConfig>, row: Row): (r: Option<Course>)
    ensures r.Some? <==> |row| >= 10 && row[4].anchor.Some?
  {
    if |row| < 10 || row[4].anchor.None? then None
    else
      Some(Course(
        code := row[2].text,
        className := row[1].text + " " + row[3].text,
        title := Split(row[4].anchor.value, '\n')[0],
        units := row[5].text,
        required := NormalizeRequired(row[7].text),
        location := Location("", row[9].text),
        instructors := [row[8].text],
        times := GridTimes(config, row, |row|)))
  }

  /** The courses of the data rows, one per row that is not skipped, in row order. */
  function CoursesOf(config: Option<TimeCodeConfig>, rows: seq<Row>): (r: seq<Course>)
    ensures |r| <= |rows|
    decreases |rows|
  {
    if rows == [] then []
    else
      var last := rows[|rows| - 1];
      CoursesOf(config, rows[..|rows| - 1]) + (if CourseOf(config, last).Some? then [CourseOf(config, last).value] else [])
  }

  /** The rows that yield a course. */
  function KeptRows(rows: seq<Row>): nat
    decreases |rows|
  {
    if rows == [] then 0
    else
      var last := rows[|rows| - 1];
      KeptRows(rows[..|rows| - 1]) + (if |last| >= 10 && last[4].anchor.Some? then 1 else 0)
  }

  /** The parse of the schedule page: a header-only page is the empty course data. */
  function ParseSchedule(rows: seq<Row>, config: Option<TimeCodeConfig>): (r: CourseData)
    ensures |rows| <= 1 ==> r == EmptyCourseData
    ensures |rows| > 1 ==> |r.courses| == KeptRows(rows[1..])
    ensures config.None? ==> r.timeCodes == []
  {
    if |rows| <= 1 then EmptyCourseData
    else
      OneCoursePerKeptRow(config, rows[1..]);
      CourseData(CoursesOf(config, rows[1..]), if config.Some? then Titles(config.value) else [])
  }

  /** Each data row of at least 10 cells whose title cell holds a link yields exactly one course. */
  lemma {:induction false} OneCoursePerKeptRow(config: Option<TimeCodeConfig>, rows: seq<Row>)
    ensures |CoursesOf(config, rows)| == KeptRows(rows)
    decreases |rows|
  {
    if rows != [] {
      OneCoursePerKeptRow(config, rows[..|rows| - 1]);
    }
  }

  /** The courses of two runs of rows are the courses of the first run followed by those of the second. */
  lemma {:induction false} CoursesOfAppend(config: Option<TimeCodeConfig>, a: seq<Row>, b: seq<Row>)
    ensures CoursesOf(config, a + b) == CoursesOf(config, a) + CoursesOf(config, b)
    decreases |b|
  {
    if b == [] {
      assert a + b == a;
    } else {
      var init := b[..|b| - 1];
      var last := b[|b| - 1];
      assert (a + b)[..|a + b| - 1] == a + init;
      assert (a + b)[|a + b| - 1] == last;
      CoursesOfAppend(config, a, init);
    }
  }

  /** The course title is the first line of the link text. */
  lemma TitleIsFirstLine(config: Option<TimeCodeConfig>, row: Row)
    requires CourseOf(config, row).Some?
    ensures var title := CourseOf(config, row).value.title;
      var link := row[4].anchor.value;
      StartsWith(link, title) && '\n' !in title && (|title| == |link| || link[|title|] == '\n')
  {
    SplitHead(row[4].anchor.value, '\n');
  }

  /** Some non-blank character of `text` names the time code at `index`. */
  predicate NamesPeriod(config: Option<TimeCodeConfig>, text: string, index: int) {
    exists p :: 0 <= p < |text| && text[p] != ' ' && Lookup(config, text[p]) == index
  }

  lemma NamesPeriodSnoc(config: Option<TimeCodeConfig>, text: string, index: int)
    requires text != []
    ensures NamesPeriod(config, text, index) <==>
      NamesPeriod(config, text[..|text| - 1], index)
      || (text[|text| - 1] != ' ' && Lookup(config, text[|text| - 1]) == index)
  {
    var init := text[..|text| - 1];
    if NamesPeriod(config, text, index) {
      var p :| 0 <= p < |text| && text[p] != ' ' && Lookup(config, text[p]) == index;
      if p < |init| {
        assert init[p] == text[p];
      }
    }
    if NamesPeriod(config, init, index) {
      var p :| 0 <= p < |init| && init[p] != ' ' && Lookup(config, init[p]) == index;
      assert text[p] == init[p];
    }
  }

  /** A section time of one cell: its weekday, and a valid period named by a non-blank character of the cell. */
  lemma {:induction false} SlotsOfExactly(config: Option<TimeCodeConfig>, weekday: int, text: string, st: SectionTime)
    ensures st in SlotsOf(config, weekday, text) <==>
      st.weekday == weekday && st.index != -1 && NamesPeriod(config, text, st.index)
    decreases |text|
  {
    if text != [] {
      var init := text[..|text| - 1];
      var c := text[|text| - 1];
      SlotsOfExactly(config, weekday, init, st);
      NamesPeriodSnoc(config, text, st.index);
      assert SlotsOf(config, weekday, text) == SlotsOf(config, weekday, init) + SlotOf(config, weekday, c);
      assert st in SlotOf(config, weekday, c) <==>
        c != ' ' && Lookup(config, c) != -1 && st == SectionTime(weekday, Lookup(config, c));
    }
  }

  /** Every section time of a cell carries the cell's weekday. */
  lemma {:induction false} SlotsOfWeekday(config: Option<TimeCodeConfig>, weekday: int, text: string, st: SectionTime)
    requires st in SlotsOf(config, weekday, text)
    ensures st.weekday == weekday
    decreases |text|
  {
    var init := text[..|text| - 1];
    if st in SlotsOf(config, weekday, init) {
      SlotsOfWeekday(config, weekday, init, st);
    }
  }

  /** A section time of the grid comes from a grid column GridStart .. n - 1, and every such column's slots appear. */
  lemma {:induction false} GridTimesExactly(config: Option<TimeCodeConfig>, row: Row, n: nat, st: SectionTime)
    requires n <= |row|
    ensures st in GridTimes(config, row, n) <==>
      GridStart <= st.weekday + 9 < n && st in SlotsOf(config, st.weekday, row[st.weekday + 9].text)
    decreases n
  {
    if n > GridStart {
      GridTimesExactly(config, row, n - 1, st);
      if st.weekday == n - 1 - 9 {
        GridTimesLastColumn(config, row, n, st);
      } else {
        GridTimesOtherColumn(config, row, n, st);
      }
    }
  }

  /** A section time on the weekday of the last column counted comes from that column. */
  lemma GridTimesLastColumn(config: Option<TimeCodeConfig>, row: Row, n: nat, st: SectionTime)
    requires GridStart < n <= |row| && st.weekday == n - 1 - 9
    ensures st in GridTimes(config, row, n) <==>
      GridStart <= st.weekday + 9 < n && st in SlotsOf(config, st.weekday, row[st.weekday + 9].text)
  {
    var prev := GridTimes(config, row, n - 1);
    assert GridTimes(config, row, n) == prev + SlotsOf(config, st.weekday, row[n - 1].text);
    assert st !in prev;
  }

  /** A section time on any other weekday is unaffected by the last column counted. */
  lemma GridTimesOtherColumn(config: Option<TimeCodeConfig>, row: Row, n: nat, st: SectionTime)
    requires GridStart < n <= |row| && st.weekday != n - 1 - 9
    requires st in GridTimes(config, row, n - 1) <==>
      GridStart <= st.weekday + 9 < n - 1 && st in SlotsOf(config, st.weekday, row[st.weekday + 9].text)
    ensures st in GridTimes(config, row, n) <==>
      GridStart <= st.weekday + 9 < n && st in SlotsOf(config, st.weekday, row[st.weekday + 9].text)
  {
    var w := n - 1 - 9;
    var last := SlotsOf(config, w, row[n - 1].text);
    assert GridTimes(config, row, n) == GridTimes(config, row, n - 1) + last;
    if st in last {
      SlotsOfWeekday(config, w, row[n - 1].text, st);
    }
  }

  /**
   * Every section time of a parsed course has weekday j - 9 for a grid column j >= 10, and a
   * period index that is a real position in the time-code list whose title is a non-blank
   * character of that column; conversely each such character contributes its section time.
   */
  lemma GridTimesValid(config: Option<TimeCodeConfig>, row: Row, st: SectionTime)
    ensures st in GridTimes(config, row, |row|) <==>
      GridStart <= st.weekday + 9 < |row| && st.index != -1
      && NamesPeriod(config, row[st.weekday + 9].text, st.index)
    ensures st in GridTimes(config, row, |row|) ==>
      st.weekday >= 1 && config.Some? && 0 <= st.index < |config.value.timeCodes|
      && |config.value.timeCodes[st.index].title| == 1
  {
    GridTimesExactly(config, row, |row|, st);
    if GridStart <= st.weekday + 9 < |row| {
      SlotsOfExactly(config, st.weekday, row[st.weekday + 9].text, st);
    }
  }

  /** The inner loop over one grid cell: a section time for each character that names a time code. */
  method CellSlots(config: Option<TimeCodeConfig>, weekday: int, text: string) returns (slots: seq<SectionTime>)
    ensures slots == SlotsOf(config, weekday, text)
  {
    slots := [];
    var p := 0;
    while p < |text|
      invariant 0 <= p <= |text|
      invariant slots == SlotsOf(config, weekday, text[..p])
    {
      var c := text[p];
      assert text[..p + 1][..p] == text[..p];
      if c != ' ' {
        var index := -1;
        if config.Some? {
          index := IndexOf(config.value, [c]);
        }
        if index != -1 {
          slots := slots + [SectionTime(weekday, index)];
        }
      }
      p := p + 1;
    }
    assert text[..p] == text;
  }

  /** The loop over the grid columns of one row, column j giving weekday j - 9. */
  method RowTimes(config: Option<TimeCodeConfig>, cells: Row) returns (times: seq<SectionTime>)
    ensures times == GridTimes(config, cells, |cells|)
  {
    times := [];
    if |cells| <= GridStart {
      return;
    }
    var j := GridStart;
    while j < |cells|
      invariant GridStart <= j <= |cells|
      invariant times == GridTimes(config, cells, j)
    {
      var slots := CellSlots(config, j - 9, cells[j].text);
      assert GridTimes(config, cells, j + 1) == GridTimes(config, cells, j) + slots;
      times := times + slots;
      j := j + 1;
    }
  }

  /**
   * The parsing loops of the course-table fetch: skip the header row, skip short rows and rows
   * without a title link, and build a course from each kept row.
   */
  method ParseCourseTable(rows: seq<Row>, config: Option<TimeCodeConfig>) returns (data: CourseData)
    ensures data == ParseSchedule(rows, config)
  {
    if |rows| <= 1 {
      return EmptyCourseData;
    }
    var courses: seq<Course> := [];
    var r := 1;
    while r < |rows|
      invariant 1 <= r <= |rows|
      invariant courses == CoursesOf(config, rows[1..r])
    {
      var cells := rows[r];
      assert rows[1..r + 1][..r - 1] == rows[1..r];
      assert rows[1..r + 1][r - 1] == cells;
      if |cells| >= 10 && cells[4].anchor.Some? {
        var times := RowTimes(config, cells);
        var course := Course(
          code := cells[2].text,
          className := cells[1].text + " " + cells[3].text,
          title := Split(cells[4].anchor.value, '\n')[0],
          units := cells[5].text,
          required := NormalizeRequired(cells[7].text),
          location := Location("", cells[9].text),
          instructors := [cells[8].text],
          times := times);
        assert CourseOf(config, cells) == Some(course);
        courses := courses + [course];
      }
      r := r + 1;
    }
    assert rows[1..r] == rows[1..];
    data := CourseData(courses, if config.Some? then Titles(config.value) else []);
  }
}
