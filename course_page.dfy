/**
 * The course page of the mobile client: a four-state page (loading, finished, error, empty)
 * driven by the callbacks of its data requests, and the label shown for a semester code such
 * as "1091" (ROC year 109, first semester).
 */
module CoursePage {
  import opened Wrappers
  import opened Strings
  import opened Schedule

  datatype CourseState = Loading | Finish | Error | Empty

  datatype Semester = Semester(year: string, value: string, text: string)

  datatype SemesterData = SemesterData(
    data: seq<Semester>,
    currentIndex: int,
    defaultIndex: int,
    currentSemester: Semester,
    defaultSemester: Semester)

  /** Years on the page are ROC years: add 1911 for the Gregorian year. */
  const RocEraOffset := 1911

  /** The key of the last character of a semester code. */
  function SeasonLabel(code: char): (key: string)
    ensures key != "" <==> '0' <= code <= '3'
  {
    if code == '0' then "continuing_summer_education_program"
    else if code == '1' then "fall_semester"
    else if code == '2' then "spring_semester"
    else if code == '3' then "summer_semester"
    else ""
  }

  /**
   * The year part of a four-character code: "y~y+1" for the Gregorian year y in an English
   * locale, "<ROC year>course_year" otherwise. None is the ValueError `int()` raises when an
   * English-locale code does not start with an integer.
   */
  function YearPart(text: string, english: bool): (r: Option<string>)
    requires |text| == 4
    ensures r.None? <==> english && ParseInt(text[..3]).None?
    ensures !english ==> r.Some? && |r.value| == 14 && r.value[..3] == text[..3]
  {
    if english then
      match ParseInt(text[..3])
      case None => None
      case Some(roc) =>
        var year := roc + RocEraOffset;
        Some(IntToString(year) + "~" + IntToString(year + 1))
    else Some(text[..3] + "course_year")
  }

  /**
   * `_parse_semester_text`: a four-character code becomes "<year part> <season>"; any other
   * text is returned as it is.
   */
  function SemesterText(text: string, english: bool): (r: Option<string>)
    ensures |text| != 4 ==> r == Some(text)
    ensures !english ==> r.Some?
  {
    if |text| == 4 then
      match YearPart(text, english)
      case None => None
      case Some(first) => Some(first + " " + SeasonLabel(text[3]))
    else Some(text)
  }

  /**
   * The label raises exactly when, in an English locale, `int()` rejects the year part of a
   * four-character code; a label ends in its season.
   */
  lemma SemesterTextShape(text: string, english: bool)
    ensures SemesterText(text, english).None? <==> |text| == 4 && english && ParseInt(text[..3]).None?
    ensures |text| == 4 && SemesterText(text, english).Some? ==>
      var r := SemesterText(text, english).value;
      var season := SeasonLabel(text[3]);
      |r| > |season| && r[|r| - |season| - 1..] == " " + season
  {
    SemesterTextRaises(text, english);
    if |text| == 4 && SemesterText(text, english).Some? {
      SemesterTextEndsInSeason(text, english);
    }
  }

  /** The raising half of SemesterTextShape. */
  lemma SemesterTextRaises(text: string, english: bool)
    ensures SemesterText(text, english).None? <==> |text| == 4 && english && ParseInt(text[..3]).None?
  {
    if |text| == 4 {
      var year := YearPart(text, english);
      assert year.None? <==> english && ParseInt(text[..3]).None?;
    }
  }

  /** The season half of SemesterTextShape. */
  lemma SemesterTextEndsInSeason(text: string, english: bool)
    requires |text| == 4 && SemesterText(text, english).Some?
    ensures var r := SemesterText(text, english).value;
      var season := SeasonLabel(text[3]);
      |r| > |season| && r[|r| - |season| - 1..] == " " + season
  {
    var year := YearPart(text, english);
    var season := SeasonLabel(text[3]);
    var r := year.value + " " + season;
    assert SemesterText(text, english) == Some(r);
    assert |r| - |season| - 1 == |year.value|;
    assert r[|year.value|..] == " " + season;
  }

  /** The season label: codes ending in 0..3 name the four terms, any other last character none. */
  lemma SeasonLabels(c: char)
    ensures SeasonLabel(c) != "" <==> '0' <= c <= '3'
    ensures SeasonLabel('1') == "fall_semester" && SeasonLabel('2') == "spring_semester"
  {
  }

  /**
   * In an English locale a code whose first three characters are digits is labelled with the
   * Gregorian academic year: the ROC year plus 1911, a tilde, and the year after; the year
   * written there reads back as that number.
   */
  lemma {:induction false} EnglishYearRange(text: string)
    requires |text| == 4 && AllDigits(text[..3])
    ensures var y := DigitsValue(text[..3]) + RocEraOffset;
      SemesterText(text, true) == Some(NatToString(y) + "~" + NatToString(y + 1) + " " + SeasonLabel(text[3]))
      && DigitsValue(NatToString(y)) == y
  {
    ParseIntOfDigits(text[..3]);
    var y := DigitsValue(text[..3]) + RocEraOffset;
    NatToStringRoundTrip(y);
  }

  /** Python's `code[:3]`. */
  function YearOf(code: string): string {
    if |code| <= 3 then code else code[..3]
  }

  /** Python's `code[3:]`. */
  function ValueOf(code: string): string {
    if |code| <= 3 then "" else code[3..]
  }

  /** The default semester `get_semester` builds from the configured code (None when the label raises). */
  function DefaultSemester(code: string, english: bool): (r: Option<Semester>)
    ensures r.None? <==> SemesterText(code, english).None?
    ensures r.Some? ==> r.value.year + r.value.value == code && Some(r.value.text) == SemesterText(code, english)
  {
    match SemesterText(code, english)
    case None => None
    case Some(text) => Some(Semester(YearOf(code), ValueOf(code), text))
  }

  /** Splitting the code into year and value loses nothing. */
  lemma DefaultSemesterSplit(code: string, english: bool)
    requires DefaultSemester(code, english).Some?
    ensures var s := DefaultSemester(code, english).value; s.year + s.value == code
  {
  }

  /**
   * `_get_course_notify_cache_key` as written: it reads `default_semester.code`, a field the
   * Semester record does not have, so with semester data present it raises (None here).
   */
  function CacheKeyAsWritten(semesterData: Option<SemesterData>): (r: Option<string>)
    ensures r.None? <==> semesterData.Some?
    ensures r.Some? ==> r.value == "1091"
  {
    if semesterData.Some? then None else Some("1091")
  }

  /** As written, the cache key cannot be computed once semester data has arrived. */
  lemma CacheKeyAsWrittenRaises(sd: SemesterData)
    ensures CacheKeyAsWritten(Some(sd)).None?
    ensures CacheKeyAsWritten(None) == Some("1091")
  {
  }

  /**
   * The cache key as intended: the default semester's code (year followed by value), or "1091";
   * wherever the key as written does not raise, the two agree.
   */
  function CacheKey(semesterData: Option<SemesterData>): (r: string)
    ensures CacheKeyAsWritten(semesterData).Some? ==> r == CacheKeyAsWritten(semesterData).value
    ensures semesterData.Some? ==> r == semesterData.value.defaultSemester.year + semesterData.value.defaultSemester.value
  {
    match semesterData
    case None => "1091"
    case Some(sd) => sd.defaultSemester.year + sd.defaultSemester.value
  }

  /** The intended key of semester data built around the configured default is that configured code. */
  lemma CacheKeyIsDefaultCode(code: string, english: bool, sd: SemesterData)
    requires DefaultSemester(code, english) == Some(sd.defaultSemester)
    ensures CacheKey(Some(sd)) == code
    ensures CacheKey(None) == "1091"
  {
    DefaultSemesterSplit(code, english);
  }

  /**
   * The options after the relabelling loop: each text in order passes through SemesterText,
   * and the loop stops, leaving the remaining options untouched, at the first text that raises.
   */
  function Relabelled(options: seq<Semester>, english: bool): (r: seq<Semester>)
    ensures |r| == |options|
    ensures forall i :: 0 <= i < |r| ==> r[i].year == options[i].year && r[i].value == options[i].value
    decreases |options|
  {
    if options == [] then []
    else
      match SemesterText(options[0].text, english)
      case None => options
      case Some(text) => [options[0].(text := text)] + Relabelled(options[1..], english)
  }

  /** No option's text makes the label raise. */
  predicate AllLabelled(options: seq<Semester>, english: bool)
    decreases |options|
  {
    options == [] || (SemesterText(options[0].text, english).Some? && AllLabelled(options[1..], english))
  }

  /** AllLabelled holds exactly when every option, taken on its own, has a label. */
  lemma {:induction false} AllLabelledPointwise(options: seq<Semester>, english: bool)
    ensures AllLabelled(options, english)
      <==> forall i :: 0 <= i < |options| ==> SemesterText(options[i].text, english).Some?
    decreases |options|
  {
    if options != [] {
      AllLabelledPointwise(options[1..], english);
      assert forall i :: 1 <= i < |options| ==> options[i] == options[1..][i - 1];
    }
  }

  /**
   * Relabelling keeps the options, their years and values; when no label raises, every text
   * is the label of the old text.
   */
  lemma {:induction false} RelabelledKeepsOptions(options: seq<Semester>, english: bool)
    ensures var r := Relabelled(options, english);
      |r| == |options|
      && (forall i :: 0 <= i < |r| ==> r[i].year == options[i].year && r[i].value == options[i].value)
      && (AllLabelled(options, english) ==>
            forall i :: 0 <= i < |r| ==> Some(r[i].text) == SemesterText(options[i].text, english))
    decreases |options|
  {
    if options != [] {
      RelabelledKeepsOptions(options[1..], english);
      var r := Relabelled(options, english);
      if SemesterText(options[0].text, english).Some? {
        forall i | 1 <= i < |r| ensures r[i] == Relabelled(options[1..], english)[i - 1] && options[i] == options[1..][i - 1] {
        }
      }
    }
  }

  /** One step of the relabelling loop: what is left of the options is relabelled, or the loop stops there. */
  lemma RelabelledStep(options: seq<Semester>, done: seq<Semester>, rest: seq<Semester>, english: bool)
    requires rest != []
    requires Relabelled(options, english) == done + Relabelled(rest, english)
    requires AllLabelled(options, english) == AllLabelled(rest, english)
    ensures SemesterText(rest[0].text, english).None? ==>
      Relabelled(options, english) == done + rest && !AllLabelled(options, english)
    ensures SemesterText(rest[0].text, english).Some? ==>
      Relabelled(options, english)
        == (done + [rest[0].(text := SemesterText(rest[0].text, english).value)]) + Relabelled(rest[1..], english)
      && AllLabelled(options, english) == AllLabelled(rest[1..], english)
  {
    var next := SemesterText(rest[0].text, english);
    if next.None? {
      assert Relabelled(rest, english) == rest;
      assert !AllLabelled(rest, english);
    } else {
      var head := [rest[0].(text := next.value)];
      var tail := Relabelled(rest[1..], english);
      assert Relabelled(rest, english) == head + tail;
      assert AllLabelled(rest, english) == AllLabelled(rest[1..], english);
      assert done + (head + tail) == (done + head) + tail;
    }
  }

  /**
   * The relabelling loop of `_on_semester_success`: each option's text becomes its label, in
   * order, until a label raises; `completed` tells whether the loop ran to the end.
   */
  method Relabel(options: seq<Semester>, english: bool) returns (relabelled: seq<Semester>, completed: bool)
    ensures relabelled == Relabelled(options, english)
    ensures completed == AllLabelled(options, english)
  {
    relabelled := [];
    var rest := options;
    while rest != []
      invariant Relabelled(options, english) == relabelled + Relabelled(rest, english)
      invariant AllLabelled(options, english) == AllLabelled(rest, english)
      invariant |relabelled| + |rest| == |options|
      decreases |rest|
    {
      RelabelledStep(options, relabelled, rest, english);
      var text := SemesterText(rest[0].text, english);
      if text.None? {
        return relabelled + rest, false;
      }
      relabelled := relabelled + [rest[0].(text := text.value)];
      rest := rest[1..];
    }
    completed := true;
  }

  class CoursePage {
    var state: CourseState
    var semesterData: Option<SemesterData>
    var courseData: Option<CourseData>
    var customStateHint: Option<string>
    var customHint: Option<string>
    var isOffline: bool
    var defaultSemesterCode: string

    constructor ()
      ensures state == Loading && semesterData == None && courseData == None
      ensures customStateHint == None && customHint == None && !isOffline && defaultSemesterCode == ""
    {
      state := Loading;
      semesterData := None;
      courseData := None;
      customStateHint := None;
      customHint := None;
      isOffline := false;
      defaultSemesterCode := "";
    }

    /**
     * The part of `get_semester` that builds the default semester from the configured code
     * (from remote configuration or the stored preference), before it requests the semester list.
     */
    method GetSemester(configuredCode: string, english: bool) returns (defaultSemester: Option<Semester>)
      modifies this`defaultSemesterCode
      ensures defaultSemesterCode == configuredCode
      ensures defaultSemester == DefaultSemester(configuredCode, english)
    {
      defaultSemesterCode := configuredCode;
      var text := SemesterText(configuredCode, english);
      if text.None? {
        return None;
      }
      defaultSemester := Some(Semester(YearOf(configuredCode), ValueOf(configuredCode), text.value));
    }

    /**
     * `_on_semester_success`: keep the data, ask for the stored current code to be overwritten
     * when it differs from the default, relabel every option in place, and select the default.
     * When a label raises, the options before it are relabelled and the selection is unchanged.
     * When the loop completes, `_get_course_tables` runs with semester data present and reads the
     * cache key as written, which raises (`keyRaised`): either way the handler ends by raising.
     */
    method OnSemesterSuccess(data: SemesterData, english: bool, storedCurrentCode: string)
      returns (saveCurrentCode: bool, completed: bool, keyRaised: bool)
      modifies this`semesterData
      ensures saveCurrentCode == (storedCurrentCode != defaultSemesterCode)
      ensures completed == AllLabelled(data.data, english)
      ensures semesterData == Some(data.(data := Relabelled(data.data, english),
                                         currentIndex := if completed then data.defaultIndex else data.currentIndex))
      ensures keyRaised <==> completed
    {
      semesterData := Some(data);
      saveCurrentCode := storedCurrentCode != defaultSemesterCode;
      var options;
      options, completed := Relabel(data.data, english);
      keyRaised := false;
      if completed {
        semesterData := Some(data.(data := options, currentIndex := data.defaultIndex));
        keyRaised := CacheKeyAsWritten(semesterData).None?;
      } else {
        semesterData := Some(data.(data := options));
      }
    }

    /**
     * `_on_course_success` with the corrected cache key: keep the data and show the empty state
     * exactly when it has no course.
     */
    method OnCourseSuccess(data: CourseData) returns (cacheKey: string)
      modifies this`courseData, this`state
      ensures courseData == Some(data) && cacheKey == CacheKey(semesterData)
      ensures state == Empty <==> data.courses == []
      ensures state == Empty || state == Finish
    {
      courseData := Some(data);
      cacheKey := NotifyCacheKey();
      if data.courses == [] {
        state := Empty;
      } else {
        state := Finish;
      }
    }

    /**
     * `_on_course_success` as written: the data is kept, then the cache key is read before the
     * state is set, so with semester data present the key raises (`raised`) and the state stays
     * as it was.
     */
    method OnCourseSuccessAsWritten(data: CourseData) returns (raised: bool)
      modifies this`courseData, this`state
      ensures courseData == Some(data)
      ensures raised <==> semesterData.Some?
      ensures raised ==> state == old(state)
      ensures !raised ==> (state == Empty <==> data.courses == []) && (state == Empty || state == Finish)
    {
      courseData := Some(data);
      var key := CacheKeyAsWritten(semesterData);
      if key.None? {
        return true;
      }
      raised := false;
      if data.courses == [] {
        state := Empty;
      } else {
        state := Finish;
      }
    }

    /** `_on_failure`: the page shows what it has, with the offline hint. */
    method OnFailure()
      modifies this`customHint, this`state
      ensures customHint == Some("offline_course") && state == Finish
    {
      customHint := Some("offline_course");
      state := Finish;
    }

    /** `_on_error`: only the state changes. */
    method OnError()
      modifies this`state
      ensures state == Error
    {
      state := Error;
    }

    /** `_get_course_notify_cache_key`, with the intended semester code. */
    function NotifyCacheKey(): string
      reads this
    {
      CacheKey(semesterData)
    }
  }
}
