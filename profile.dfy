/** The student profile page: a fixed-layout table read at fixed cell offsets. */
module Profile {
  import opened Strings
  import opened Encodings

  datatype UserInfo = UserInfo(
    name: string,
    studentId: string,
    department: string,
    grade: string,
    className: string,
    email: string)

  const EmptyUserInfo := UserInfo("", "", "", "", "", "")

  /**
   * `_parse_user_info` over the stripped texts of the page's `td` cells: with at least ten cells,
   * department, class, student id, name and email come from cells 1, 3, 5, 7 and 9, each passed
   * through DecodeField; the class cell loses its spaces first. Fewer cells give the empty record.
   */
  function ParseUserInfo(codec: Codec, cells: seq<string>): (info: UserInfo)
    ensures |cells| < 10 ==> info == EmptyUserInfo
    ensures info.grade == ""
    ensures |cells| >= 10 ==>
      (info.department == cells[1] || HasCjk(info.department))
      && (info.className == RemoveAll(cells[3], ' ') || HasCjk(info.className))
      && (info.studentId == cells[5] || HasCjk(info.studentId))
      && (info.name == cells[7] || HasCjk(info.name))
      && (info.email == cells[9] || HasCjk(info.email))
  {
    if |cells| >= 10 then
      UserInfo(
        name := DecodeField(codec, cells[7]),
        studentId := DecodeField(codec, cells[5]),
        department := DecodeField(codec, cells[1]),
        grade := "",
        className := DecodeField(codec, RemoveAll(cells[3], ' ')),
        email := DecodeField(codec, cells[9]))
    else EmptyUserInfo
  }

  /** Cells that already hold Chinese are taken as they are (the class cell without its spaces). */
  lemma ProfileKeepsChineseCells(codec: Codec, cells: seq<string>)
    requires |cells| >= 10
    ensures var info := ParseUserInfo(codec, cells);
      (HasCjk(cells[1]) ==> info.department == cells[1])
      && (HasCjk(cells[7]) ==> info.name == cells[7])
      && (HasCjk(RemoveAll(cells[3], ' ')) ==> info.className == RemoveAll(cells[3], ' '))
      && (HasCjk(cells[5]) ==> info.studentId == cells[5])
      && (HasCjk(cells[9]) ==> info.email == cells[9])
  {
    if HasCjk(cells[1]) { DecodeFieldKeepsChinese(codec, cells[1]); }
    if HasCjk(cells[7]) { DecodeFieldKeepsChinese(codec, cells[7]); }
    if HasCjk(RemoveAll(cells[3], ' ')) { DecodeFieldKeepsChinese(codec, RemoveAll(cells[3], ' ')); }
    if HasCjk(cells[5]) { DecodeFieldKeepsChinese(codec, cells[5]); }
    if HasCjk(cells[9]) { DecodeFieldKeepsChinese(codec, cells[9]); }
  }
}
