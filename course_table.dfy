/**
 * The in-memory course table of the calendar web application: a list of course records
 * (JSON objects) that the save, update and delete handlers change in place, each course
 * identified by the `added_at` timestamp it received when saved and shown in a palette colour.
 */
module CourseTable {
  import opened Wrappers

  datatype Json =
    | JNull
    | JBool(b: bool)
    | JNum(n: real)
    | JStr(s: string)
    | JArr(items: seq<Json>)
    | JObj(fields: map<string, Json>)

  /** A request body or a stored course: a JSON object. */
  type Record = map<string, Json>

  /** Python truthiness of a JSON value. */
  predicate Truthy(j: Json) {
    match j
    case JNull => false
    case JBool(b) => b
    case JNum(n) => n != 0.0
    case JStr(s) => s != ""
    case JArr(items) => items != []
    case JObj(fields) => fields != map[]
  }

  /** The fifteen pastel colours, in the order they are handed out. */
  const Palette: seq<string> := [
    "#BBDEFB", "#D1C4E9", "#C8E6C9", "#FFE0B2", "#F8BBD0",
    "#B2EBF2", "#DCEDC8", "#FFECB3", "#C5CAE9", "#FFCDD2",
    "#E1BEE7", "#B3E5FC", "#FFCCBC", "#D7CCC8", "#CFD8DC"]

  const RequiredFields: seq<string> := ["courseName", "location", "day", "timeRange", "periods"]

  /** An update names the course it replaces. */
  const UpdateFields: seq<string> := RequiredFields + ["courseId"]

  datatype Response = Response(status: int, message: string)

  /** The first of `fields` the request lacks, in the order they are checked. */
  function FirstMissing(request: Record, fields: seq<string>): (r: Option<string>)
    ensures r.None? <==> forall f :: f in fields ==> f in request
    ensures r.Some? ==> r.value in fields && r.value !in request
    ensures r.Some? ==> exists k :: 0 <= k < |fields| && fields[k] == r.value
                          && forall j :: 0 <= j < k ==> fields[j] in request
    decreases |fields|
  {
    if fields == [] then None
    else if fields[0] !in request then Some(fields[0])
    else
      var r := FirstMissing(request, fields[1..]);
      if r.Some? then
        var k :| 0 <= k < |fields[1..]| && fields[1..][k] == r.value
                 && forall j :: 0 <= j < k ==> fields[1..][j] in request;
        assert fields[k + 1] == r.value;
        assert forall j :: 1 <= j < k + 1 ==> fields[j] == fields[1..][j - 1];
        r
      else r
  }

  /** The validation loop of the save and update handlers. */
  method FindMissing(request: Record, fields: seq<string>) returns (missing: Option<string>)
    ensures missing == FirstMissing(request, fields)
  {
    var i := 0;
    while i < |fields|
      invariant 0 <= i <= |fields|
      invariant FirstMissing(request, fields) == FirstMissing(request, fields[i..])
    {
      assert fields[i..][1..] == fields[i + 1..];
      if fields[i] !in request {
        return Some(fields[i]);
      }
      i := i + 1;
    }
    return None;
  }

  /** The error a missing field produces. */
  function MissingFieldResponse(field: string): Response {
    Response(400, "Missing required field: " + field)
  }

  /** The colours of the stored courses (`course.get('color')`). */
  function Used(courses: seq<Record>): (r: set<string>)
    ensures forall i :: 0 <= i < |courses| && "color" in courses[i] && courses[i]["color"].JStr? ==>
      courses[i]["color"].s in r
    ensures forall c :: c in r ==>
      exists i :: 0 <= i < |courses| && "color" in courses[i] && courses[i]["color"] == JStr(c)
  {
    set i | 0 <= i < |courses| && "color" in courses[i] && courses[i]["color"].JStr? :: courses[i]["color"].s
  }

  /** The palette colours not in `used`, in palette order. */
  function Unused(palette: seq<string>, used: set<string>): (r: seq<string>)
    ensures forall c :: c in r <==> c in palette && c !in used
    ensures |r| <= |palette|
    ensures (forall c :: c in palette ==> c !in used) ==> r == palette
    decreases |palette|
  {
    if palette == [] then []
    else if palette[0] in used then Unused(palette[1..], used)
    else [palette[0]] + Unused(palette[1..], used)
  }

  /** `available_colors`. */
  function Available(courses: seq<Record>): (r: seq<string>)
    ensures forall c :: c in r <==> c in Palette && c !in Used(courses)
    ensures |r| <= |Palette|
    ensures courses == [] ==> r == Palette
  {
    Unused(Palette, Used(courses))
  }

  /**
   * The first available colour is the first palette entry not in use: every entry before it
   * is taken by some stored course.
   */
  lemma {:induction false} FirstUnusedIsHead(palette: seq<string>, used: set<string>, k: nat)
    requires k < |palette| && palette[k] !in used
    requires forall j :: 0 <= j < k ==> palette[j] in used
    ensures Unused(palette, used) != [] && Unused(palette, used)[0] == palette[k]
    decreases k
  {
    if k > 0 {
      FirstUnusedIsHead(palette[1..], used, k - 1);
    }
  }

  /** While some palette colour is free, the colour handed out is the first free one in palette order. */
  lemma AvailableHeadIsFirstFree(courses: seq<Record>, k: nat)
    requires k < |Palette| && Palette[k] !in Used(courses)
    requires forall j :: 0 <= j < k ==> Palette[j] in Used(courses)
    ensures Available(courses) != [] && Available(courses)[0] == Palette[k]
  {
    FirstUnusedIsHead(Palette, Used(courses), k);
  }

  /**
   * The colour the save handler assigns: the first available one, or any palette colour
   * (`random.choice`) once all fifteen are taken.
   */
  method AssignColour(courses: seq<Record>) returns (colour: string)
    ensures colour in Palette
    ensures Available(courses) != [] ==> colour == Available(courses)[0] && colour !in Used(courses)
  {
    var available := Available(courses);
    if available != [] {
      colour := available[0];
    } else {
      assert Palette[0] in Palette;
      colour :| colour in Palette;
    }
  }

  /** A saved course: the request with its colour and timestamp added. */
  function Saved(request: Record, colour: string, now: string): (r: Record)
    ensures r.Keys == request.Keys + {"color", "added_at"}
    ensures r["color"] == JStr(colour) && r["added_at"] == JStr(now)
    ensures forall k :: k in request && k != "color" && k != "added_at" ==> r[k] == request[k]
  {
    request["color" := JStr(colour)]["added_at" := JStr(now)]
  }

  /** A replaced course: the request, keeping the stored course's colour and timestamp. */
  function Replaced(request: Record, stored: Record): (r: Record)
    requires "color" in stored && "added_at" in stored
    ensures r.Keys == request.Keys + {"color", "added_at"}
    ensures r["color"] == stored["color"] && r["added_at"] == stored["added_at"]
    ensures forall k :: k in request && k != "color" && k != "added_at" ==> r[k] == request[k]
  {
    request["color" := stored["color"]]["added_at" := stored["added_at"]]
  }

  /** What every stored course carries once the save handler has put it in the table. */
  predicate Stored(r: Record) {
    "color" in r && r["color"].JStr? && r["color"].s in Palette && "added_at" in r && r["added_at"].JStr?
  }

  predicate AllStored(courses: seq<Record>) {
    forall i :: 0 <= i < |courses| ==> Stored(courses[i])
  }

  /** A saved course carries the colour and timestamp it was given. */
  lemma SavedIsStored(request: Record, colour: string, now: string)
    requires colour in Palette
    ensures Stored(Saved(request, colour, now))
    ensures Saved(request, colour, now)["color"] == JStr(colour)
    ensures Saved(request, colour, now)["added_at"] == JStr(now)
  {
    assert "color" != "added_at";
  }

  /** Appending a well-formed course keeps the table well formed. */
  lemma AppendStored(courses: seq<Record>, r: Record)
    requires AllStored(courses) && Stored(r)
    ensures AllStored(courses + [r])
  {
    assert forall j :: 0 <= j < |courses| ==> (courses + [r])[j] == courses[j];
  }

  /** The index of the first course whose `added_at` equals `id`, or -1. */
  function FindById(courses: seq<Record>, id: Json): (i: int)
    requires AllStored(courses)
    ensures -1 <= i < |courses|
    ensures i >= 0 ==> courses[i]["added_at"] == id
    ensures i >= 0 ==> forall j :: 0 <= j < i ==> courses[j]["added_at"] != id
    ensures i == -1 <==> forall j :: 0 <= j < |courses| ==> courses[j]["added_at"] != id
    decreases |courses|
  {
    if courses == [] then -1
    else if courses[0]["added_at"] == id then 0
    else
      var i := FindById(courses[1..], id);
      assert forall j :: 1 <= j < |courses| ==> courses[j] == courses[1..][j - 1];
      if i == -1 then -1 else i + 1
  }

  /** The course carries the given `added_at`. */
  predicate HasId(course: Record, id: Json) {
    "added_at" in course && course["added_at"] == id
  }

  /** The number of courses with the given `added_at`. */
  function Matches(courses: seq<Record>, id: Json): nat
    decreases |courses|
  {
    if courses == [] then 0
    else (if HasId(courses[0], id) then 1 else 0) + Matches(courses[1..], id)
  }

  /** Counting matches distributes over concatenation. */
  lemma {:induction false} MatchesAppend(a: seq<Record>, b: seq<Record>, id: Json)
    ensures Matches(a + b, id) == Matches(a, id) + Matches(b, id)
    decreases |a|
  {
    if a != [] {
      assert (a + b)[1..] == a[1..] + b && (a + b)[0] == a[0];
      MatchesAppend(a[1..], b, id);
    } else {
      assert a + b == b;
    }
  }

  /** A list in which no course has the id counts none. */
  lemma {:induction false} NoMatches(a: seq<Record>, id: Json)
    requires forall j :: 0 <= j < |a| ==> !HasId(a[j], id)
    ensures Matches(a, id) == 0
    decreases |a|
  {
    if a != [] {
      assert forall j :: 0 <= j < |a[1..]| ==> a[1..][j] == a[j + 1];
      NoMatches(a[1..], id);
    }
  }

  /** The list without the entry at `i` (`pop(i)`). */
  function Without(courses: seq<Record>, i: nat): (r: seq<Record>)
    requires i < |courses|
    ensures |r| == |courses| - 1
    ensures forall j :: 0 <= j < i ==> r[j] == courses[j]
    ensures forall j :: i <= j < |r| ==> r[j] == courses[j + 1]
  {
    courses[..i] + courses[i + 1..]
  }

  /** Deleting the first match removes exactly one of the courses with that timestamp. */
  lemma DeleteRemovesOneMatch(courses: seq<Record>, id: Json)
    requires AllStored(courses) && FindById(courses, id) >= 0
    ensures AllStored(Without(courses, FindById(courses, id)))
    ensures Matches(Without(courses, FindById(courses, id)), id) == Matches(courses, id) - 1
  {
    var i := FindById(courses, id);
    var front, hit, back := courses[..i], [courses[i]], courses[i + 1..];
    assert courses == front + (hit + back);
    assert Without(courses, i) == front + back;
    assert forall j :: 0 <= j < |front| ==> !HasId(front[j], id);
    NoMatches(front, id);
    MatchesAppend(hit, back, id);
    MatchesAppend(front, hit + back, id);
    MatchesAppend(front, back, id);
    assert Matches(hit, id) == 1 by {
      assert HasId(hit[0], id) && hit[1..] == [];
    }
  }

  /**
   * A course saved under a fresh timestamp can be found by it, and deleting it restores the
   * table as it was before the save.
   */
  lemma DeleteUndoesSave(courses: seq<Record>, request: Record, colour: string, now: string)
    requires AllStored(courses) && colour in Palette
    requires forall j :: 0 <= j < |courses| ==> courses[j]["added_at"] != JStr(now)
    ensures AllStored(courses + [Saved(request, colour, now)])
    ensures FindById(courses + [Saved(request, colour, now)], JStr(now)) == |courses|
    ensures Without(courses + [Saved(request, colour, now)], |courses|) == courses
  {
    var saved := Saved(request, colour, now);
    SavedIsStored(request, colour, now);
    AppendStored(courses, saved);
    var cs := courses + [saved];
    var k := FindById(cs, JStr(now));
    assert cs[|courses|] == saved;
    assert k != -1;
    assert cs[..|courses|] == courses;
  }

  /**
   * Replacing the first match keeps the course findable at the same place, with its colour and
   * timestamp, and keeps the table well formed.
   */
  lemma ReplaceKeepsIdentity(courses: seq<Record>, request: Record)
    requires AllStored(courses) && "courseId" in request && FindById(courses, request["courseId"]) >= 0
    ensures var i := FindById(courses, request["courseId"]);
      var r := Replaced(request, courses[i]);
      var cs := courses[i := r];
      AllStored(cs)
      && r["color"] == courses[i]["color"] && r["added_at"] == courses[i]["added_at"]
      && FindById(cs, request["courseId"]) == i
  {
    var i := FindById(courses, request["courseId"]);
    var cs := courses[i := Replaced(request, courses[i])];
    assert forall j :: 0 <= j < |cs| && j != i ==> cs[j] == courses[j];
    assert cs[i]["added_at"] == request["courseId"];
    assert AllStored(cs);
  }

  /** The module-level `courses` list with its handlers. */
  class CourseStore {
    var courses: seq<Record>

    /** Every stored course has a palette colour and a string timestamp. */
    ghost predicate Valid()
      reads this
    {
      AllStored(courses)
    }

    constructor ()
      ensures courses == [] && Valid()
    {
      courses := [];
    }

    /**
     * `save_course` (the request body is a JSON object; `now` is the ISO timestamp the clock
     * gives): reject a request missing a required field, otherwise append it with its colour.
     */
    method SaveCourse(request: Record, now: string) returns (response: Response, saved: Option<Record>)
      requires Valid()
      modifies this
      ensures Valid()
      ensures FirstMissing(request, RequiredFields).Some? ==>
        response == MissingFieldResponse(FirstMissing(request, RequiredFields).value)
        && saved.None? && courses == old(courses)
      ensures FirstMissing(request, RequiredFields).None? ==>
        response == Response(200, "Course saved successfully") && saved.Some?
        && "color" in saved.value && saved.value["color"].JStr? && saved.value["color"].s in Palette
        && (Available(old(courses)) != [] ==> saved.value["color"] == JStr(Available(old(courses))[0]))
        && saved.value == Saved(request, saved.value["color"].s, now)
        && courses == old(courses) + [saved.value]
    {
      var missing := FindMissing(request, RequiredFields);
      if missing.Some? {
        return MissingFieldResponse(missing.value), None;
      }
      var colour := AssignColour(courses);
      var course := Saved(request, colour, now);
      SavedIsStored(request, colour, now);
      AppendStored(courses, course);
      courses := courses + [course];
      return Response(200, "Course saved successfully"), Some(course);
    }

    /**
     * `update_course`: reject a request missing a field, otherwise replace the first course whose
     * `added_at` equals the request's courseId, keeping that course's colour and timestamp.
     */
    method UpdateCourse(request: Record) returns (response: Response, updated: Option<Record>)
      requires Valid()
      modifies this
      ensures Valid()
      ensures FirstMissing(request, UpdateFields).Some? ==>
        response == MissingFieldResponse(FirstMissing(request, UpdateFields).value)
        && updated.None? && courses == old(courses)
      ensures FirstMissing(request, UpdateFields).None? ==>
        var i := FindById(old(courses), request["courseId"]);
        (i == -1 ==> response == Response(404, "Course not found") && updated.None? && courses == old(courses))
        && (i >= 0 ==>
              response == Response(200, "Course updated successfully")
              && updated == Some(Replaced(request, old(courses)[i]))
              && courses == old(courses)[i := updated.value])
    {
      var missing := FindMissing(request, UpdateFields);
      if missing.Some? {
        return MissingFieldResponse(missing.value), None;
      }
      assert "courseId" in request by {
        assert UpdateFields[5] == "courseId";
      }
      var id := request["courseId"];
      var i := 0;
      while i < |courses|
        invariant 0 <= i <= |courses| && courses == old(courses)
        invariant forall j :: 0 <= j < i ==> courses[j]["added_at"] != id
      {
        if courses[i]["added_at"] == id {
          var course := Replaced(request, courses[i]);
          courses := courses[i := course];
          return Response(200, "Course updated successfully"), Some(course);
        }
        i := i + 1;
      }
      return Response(404, "Course not found"), None;
    }

    /**
     * `delete_course`: reject a request whose courseId is absent or falsy, otherwise remove the
     * first course whose `added_at` equals it.
     */
    method DeleteCourse(request: Record) returns (response: Response)
      requires Valid()
      modifies this
      ensures Valid()
      ensures ("courseId" !in request || !Truthy(request["courseId"])) ==>
        response == Response(400, "Course ID is required") && courses == old(courses)
      ensures "courseId" in request && Truthy(request["courseId"]) ==>
        var i := FindById(old(courses), request["courseId"]);
        (i == -1 ==> response == Response(404, "Course not found") && courses == old(courses))
        && (i >= 0 ==> response == Response(200, "Course deleted successfully")
                       && courses == Without(old(courses), i))
    {
      if "courseId" !in request || !Truthy(request["courseId"]) {
        return Response(400, "Course ID is required");
      }
      var id := request["courseId"];
      var i := 0;
      while i < |courses|
        invariant 0 <= i <= |courses| && courses == old(courses)
        invariant forall j :: 0 <= j < i ==> courses[j]["added_at"] != id
      {
        if courses[i]["added_at"] == id {
          courses := Without(courses, i);
          return Response(200, "Course deleted successfully");
        }
        i := i + 1;
      }
      return Response(404, "Course not found");
    }

    /** `get_courses`: the table as it is. */
    method GetCourses() returns (list: seq<Record>)
      ensures list == courses
    {
      list := courses;
    }
  }
}
