/**
 * What both versions of the portal client share: the replies of the portal, the response
 * markers, the helper's counters and flags, and one pass through the two-step login.
 */
module Portal {
  import opened Strings
  import opened Encodings

  /** The outcome of one HTTP request: a transport error, or the decoded text and the raw bytes. */
  datatype Reply = TransportError | Answer(text: string, content: seq<byte>)

  /** The portal seen from the helper: the reply to the k-th request the helper sends. */
  type Network = nat -> Reply

  /** `GeneralResponse` of the synchronous helper, and the `{'status', 'message'}` dict of the async one. */
  datatype GeneralResponse = GeneralResponse(status: int, message: string)

  const Success := GeneralResponse(200, "success")

  /** "data error, please re-enter" on the score system */
  const ScoreErrorMarker := "資料錯誤請重新輸入"
  /** "student number and password do not match" on the course system */
  const CourseErrorMarker := "學號碼密碼不符"
  /** "please fill in first": the account needs a one-time form */
  const FillFormMarker := "請先填寫"
  /** "please log in again": the session expired */
  const TimeoutMarker := "請重新登錄"

  /** The fields of the helper object that the login and fetch logic reads and writes. */
  datatype State = State(
    username: string,
    password: string,
    isLogin: bool,
    reLoginCount: nat,
    index: int,
    error: nat)

  /** The mirror index is always one of the four mirrors 1..4. */
  predicate ValidState(s: State) {
    1 <= s.index <= 4
  }

  /** How one pass through the `try` block of `login` ends, with the number of the next request. */
  datatype Attempt =
    | TransportFailed(next: nat)
    | Rejected(response: GeneralResponse, next: nat)
    | Accepted(next: nat)

  /**
   * One login pass from request k: the score-system POST, and only if its reply lacks the
   * score marker, the course-system POST, whose reply is checked for the mismatch marker and
   * then for the fill-in-form marker.
   */
  function LoginAttempt(net: Network, k: nat): (a: Attempt)
    ensures k < a.next <= k + 2
    ensures a.next == k + 2 <==> net(k).Answer? && !Contains(net(k).text, ScoreErrorMarker)
    ensures a.Rejected? ==> a.response.status == 400 || a.response.status == 401
  {
    match net(k)
    case TransportError => TransportFailed(k + 1)
    case Answer(score, _) =>
      if Contains(score, ScoreErrorMarker) then Rejected(GeneralResponse(400, "score error"), k + 1)
      else
        match net(k + 1)
        case TransportError => TransportFailed(k + 2)
        case Answer(course, _) =>
          if Contains(course, CourseErrorMarker) then Rejected(GeneralResponse(400, "course error"), k + 2)
          else if Contains(course, FillFormMarker) then Rejected(GeneralResponse(401, "need to fill out form"), k + 2)
          else Accepted(k + 2)
  }

  /**
   * The markers are checked in a fixed order: a score-system rejection is final and no
   * course-system request is sent; a pass is accepted only when neither reply holds a marker.
   */
  lemma LoginMarkerOrder(net: Network, k: nat)
    ensures net(k).Answer? && Contains(net(k).text, ScoreErrorMarker) ==>
      LoginAttempt(net, k) == Rejected(GeneralResponse(400, "score error"), k + 1)
    ensures LoginAttempt(net, k).Accepted? <==>
      net(k).Answer? && !Contains(net(k).text, ScoreErrorMarker)
      && net(k + 1).Answer? && !Contains(net(k + 1).text, CourseErrorMarker)
      && !Contains(net(k + 1).text, FillFormMarker)
    ensures LoginAttempt(net, k).Rejected? ==> LoginAttempt(net, k).response.status in {400, 401}
    ensures k < LoginAttempt(net, k).next <= k + 2
  {
  }
}
