/** The ordered catalogue of named class periods and the title lookup used by the schedule parser. */
module TimeCodes {

  datatype TimeCode = TimeCode(title: string, startTime: string, endTime: string)

  datatype TimeCodeConfig = TimeCodeConfig(timeCodes: seq<TimeCode>)

  /** Position of the first time code titled `title`, or -1 when no title matches. */
  function TitleIndex(codes: seq<TimeCode>, title: string): (i: int)
    ensures -1 <= i < |codes|
    ensures i >= 0 ==> codes[i].title == title && forall j :: 0 <= j < i ==> codes[j].title != title
    ensures i == -1 <==> forall j :: 0 <= j < |codes| ==> codes[j].title != title
    decreases |codes|
  {
    if codes == [] then -1
    else if codes[0].title == title then 0
    else
      var rest := TitleIndex(codes[1..], title);
      if rest == -1 then -1 else rest + 1
  }

  /** `TimeCodeConfig.index_of`: scans the codes in order and stops at the first matching title. */
  method IndexOf(config: TimeCodeConfig, section: string) returns (index: int)
    ensures index == TitleIndex(config.timeCodes, section)
  {
    var i := 0;
    while i < |config.timeCodes|
      invariant 0 <= i <= |config.timeCodes|
      invariant forall j :: 0 <= j < i ==> config.timeCodes[j].title != section
    {
      if config.timeCodes[i].title == section {
        return i;
      }
      i := i + 1;
    }
    return -1;
  }

  /** `[code.title for code in config.time_codes]` */
  function Titles(config: TimeCodeConfig): (titles: seq<string>)
    ensures |titles| == |config.timeCodes|
    ensures forall i :: 0 <= i < |titles| ==> titles[i] == config.timeCodes[i].title
  {
    seq(|config.timeCodes|, i requires 0 <= i < |config.timeCodes| => config.timeCodes[i].title)
  }
}
