/**
 * The synchronous portal client: one helper object holding the credentials, the login flag,
 * the re-login and network-error counters and the mirror index, with a login that retries on
 * transport errors and fetches that log in again when the session has expired.
 */
module SelcrsClient {
  import opened Wrappers
  import opened Strings
  import opened Encodings
  import opened TimeCodes
  import opened Schedule
  import opened Profile
  import opened Portal

  /** The HTML parser's view of a page: the `td` texts, and the `tr` rows with their cells. */
  datatype Soup = Soup(cells: string -> seq<string>, rows: string -> seq<Row>)

  /** The text a fetch checks for the expiry marker and parses. */
  datatype Page = UserInfoPage | CourseTablePage(codec: Codec)

  function BodyOf(page: Page, reply: Reply): string
    requires reply.Answer?
  {
    match page
    case UserInfoPage => reply.text
    case CourseTablePage(codec) => DecodedBody(codec, reply.content)
  }

  /** How `login` ends: with a response, or by re-raising the transport error. */
  datatype Outcome = Answered(response: GeneralResponse) | Raised

  datatype LoginResult = LoginResult(state: State, outcome: Outcome, next: nat)

  /** `change_selcrs_url`: the next mirror, 5 wrapping back to 1. */
  function NextIndex(i: int): (r: int)
    ensures 1 <= i <= 4 ==> 1 <= r <= 4
  {
    if i + 1 == 5 then 1 else i + 1
  }

  /** The mirror reached from `i` after n changes. */
  function Rotated(i: int, n: nat): int
    decreases n
  {
    if n == 0 then i else Rotated(NextIndex(i), n - 1)
  }

  /** Four changes bring the mirror index back where it was. */
  lemma MirrorCycle(i: int)
    requires 1 <= i <= 4
    ensures Rotated(i, 4) == i
    ensures forall n: nat :: 1 <= Rotated(i, n) <= 4
  {
    forall n: nat ensures 1 <= Rotated(i, n) <= 4 {
      RotatedStaysInRange(i, n);
    }
  }

  lemma {:induction false} RotatedStaysInRange(i: int, n: nat)
    requires 1 <= i <= 4
    ensures 1 <= Rotated(i, n) <= 4
    decreases n
  {
    if n > 0 {
      RotatedStaysInRange(NextIndex(i), n - 1);
    }
  }

  /**
   * `login(u, p)` from state s with request k next: a rejection changes nothing; success stores
   * the credentials and sets the login flag (the error counter is not reset); a transport error
   * increments the error counter, re-raises once it exceeds 5, and otherwise changes the mirror
   * and starts over.
   */
  function LoginRun(s: State, u: string, p: string, net: Network, k: nat): (r: LoginResult)
    ensures r.state.reLoginCount == s.reLoginCount
    ensures r.state.error >= s.error
    ensures ValidState(s) ==> ValidState(r.state)
    decreases if s.error <= 5 then 6 - s.error else 0
  {
    match LoginAttempt(net, k)
    case Rejected(response, n) => LoginResult(s, Answered(response), n)
    case Accepted(n) => LoginResult(s.(username := u, password := p, isLogin := true), Answered(Success), n)
    case TransportFailed(n) =>
      var failed := s.(error := s.error + 1);
      if failed.error > 5 then LoginResult(failed, Raised, n)
      else LoginRun(failed.(index := NextIndex(failed.index)), u, p, net, n)
  }

  /** The number of transport errors `login` absorbed by changing the mirror and retrying. */
  function Retries(s: State, r: LoginResult): int {
    r.state.error - s.error - (if r.outcome.Raised? then 1 else 0)
  }

  /**
   * Transport errors are bounded: `login` re-raises exactly when its last error pushed the
   * counter past 5. Since success does not reset the counter, a helper that starts at 0 absorbs
   * at most 5 errors and raises on the 6th, over all logins until the next logout; once the
   * counter is past 5 the first transport error of any login is re-raised.
   */
  lemma {:induction false} LoginErrorBound(s: State, u: string, p: string, net: Network, k: nat)
    ensures var r := LoginRun(s, u, p, net, k);
      (r.outcome.Raised? <==> r.state.error > 5 && r.state.error > s.error)
      && r.state.error <= (if s.error <= 5 then 6 else s.error + 1)
      && (s.error > 5 ==> Retries(s, r) == 0)
    decreases if s.error <= 5 then 6 - s.error else 0
  {
    match LoginAttempt(net, k)
    case Rejected(_, _) =>
    case Accepted(_) =>
    case TransportFailed(n) =>
      var failed := s.(error := s.error + 1);
      if failed.error <= 5 {
        LoginErrorBound(failed.(index := NextIndex(failed.index)), u, p, net, n);
      }
  }

  /**
   * Only the no-marker path stores the credentials and sets the login flag; every other path
   * leaves all fields alone except the error counter and the mirror index, and the mirror has
   * moved once per absorbed transport error.
   */
  lemma {:induction false} LoginFieldsChanged(s: State, u: string, p: string, net: Network, k: nat)
    ensures var r := LoginRun(s, u, p, net, k);
      var moved := s.(error := r.state.error, index := r.state.index);
      (r.outcome == Answered(Success) ==> r.state == moved.(username := u, password := p, isLogin := true))
      && (r.outcome != Answered(Success) ==> r.state == moved)
      && Retries(s, r) >= 0 && r.state.index == Rotated(s.index, Retries(s, r))
    decreases if s.error <= 5 then 6 - s.error else 0
  {
    match LoginAttempt(net, k)
    case Rejected(_, _) =>
    case Accepted(_) =>
    case TransportFailed(n) =>
      var failed := s.(error := s.error + 1);
      if failed.error <= 5 {
        var next := failed.(index := NextIndex(failed.index));
        LoginFieldsChanged(next, u, p, net, n);
        var r := LoginRun(next, u, p, net, n);
        assert Retries(s, r) == Retries(next, r) + 1;
      }
  }

  /** `logout`: credentials, mirror, error counter and login flag reset; the re-login counter is kept. */
  function LogoutState(s: State): (t: State)
    ensures ValidState(t) && !t.isLogin && t.error == 0
    ensures t.index == 1 && t.username == "" && t.password == ""
    ensures t.reLoginCount == s.reLoginCount
  {
    s.(username := "", password := "", index := 1, error := 0, isLogin := false)
  }

  datatype GuardResult = GuardResult(state: State, body: Option<string>, next: nat)

  /**
   * The re-login guard of `get_user_info` and `get_course_data`, from request k: a transport
   * error gives None; while the body holds the expiry marker and fewer than 5 re-logins were
   * made, count one more, log in again with the stored credentials and fetch again (a re-raised
   * login error gives None); with the budget spent, None; otherwise reset the count and hand the
   * body to the parser.
   */
  function FetchRun(s: State, page: Page, net: Network, k: nat): (r: GuardResult)
    ensures ValidState(s) ==> ValidState(r.state)
    decreases if s.reLoginCount < 5 then 5 - s.reLoginCount else 0
  {
    match net(k)
    case TransportError => GuardResult(s, None, k + 1)
    case Answer(_, _) =>
      var body := BodyOf(page, net(k));
      if Contains(body, TimeoutMarker) && s.reLoginCount < 5 then
        var counted := s.(reLoginCount := s.reLoginCount + 1);
        var login := LoginRun(counted, counted.username, counted.password, net, k + 1);
        if login.outcome.Raised? then GuardResult(login.state, None, login.next)
        else FetchRun(login.state, page, net, login.next)
      else if s.reLoginCount >= 5 then GuardResult(s, None, k + 1)
      else GuardResult(s.(reLoginCount := 0), Some(body), k + 1)
  }

  /**
   * A body reaches the parser only without the expiry marker, and then the re-login count is 0;
   * a fetch never leaves the count above 5 when it started at most 5.
   */
  lemma {:induction false} FetchPassesOnlyFreshPages(s: State, page: Page, net: Network, k: nat)
    ensures var r := FetchRun(s, page, net, k);
      (r.body.Some? ==> r.state.reLoginCount == 0 && !Contains(r.body.value, TimeoutMarker))
      && (s.reLoginCount <= 5 ==> r.state.reLoginCount <= 5)
    decreases if s.reLoginCount < 5 then 5 - s.reLoginCount else 0
  {
    if net(k).Answer? {
      var body := BodyOf(page, net(k));
      if Contains(body, TimeoutMarker) && s.reLoginCount < 5 {
        var counted := s.(reLoginCount := s.reLoginCount + 1);
        var login := LoginRun(counted, counted.username, counted.password, net, k + 1);
        if !login.outcome.Raised? {
          FetchPassesOnlyFreshPages(login.state, page, net, login.next);
        }
      }
    }
  }

  /**
   * Once 5 re-logins are spent, a fetch sends one request and returns None without changing
   * anything. Neither a logout nor a login resets the count, so from then on every fetch of the
   * helper returns None.
   */
  lemma FetchStuckOnceExhausted(s: State, u: string, p: string, page: Page, net: Network, k: nat, m: nat)
    requires s.reLoginCount >= 5
    ensures FetchRun(s, page, net, k) == GuardResult(s, None, k + 1)
    ensures var t := LoginRun(LogoutState(s), u, p, net, k).state;
      FetchRun(t, page, net, m) == GuardResult(t, None, m + 1)
  {
    var t := LoginRun(LogoutState(s), u, p, net, k).state;
    assert t.reLoginCount == s.reLoginCount;
  }

  /**
   * A fetch whose first reply holds the expiry marker, followed by a clean login and a clean
   * reply, performs exactly one re-login and returns the second body with the count back at 0.
   */
  lemma OneExpiryThenSuccess(s: State, page: Page, net: Network, k: nat)
    requires s.reLoginCount == 0 && net(k).Answer? && Contains(BodyOf(page, net(k)), TimeoutMarker)
    requires LoginAttempt(net, k + 1) == Accepted(k + 3)
    requires net(k + 3).Answer? && !Contains(BodyOf(page, net(k + 3)), TimeoutMarker)
    ensures var r := FetchRun(s, page, net, k);
      r.body == Some(BodyOf(page, net(k + 3))) && r.next == k + 4
      && r.state == s.(isLogin := true)
  {
  }

  class SelcrsHelper {
    var username: string
    var password: string
    var isLogin: bool
    var reLoginCount: nat
    var index: int
    var error: nat

    function Snapshot(): State
      reads this
    {
      State(username, password, isLogin, reLoginCount, index, error)
    }

    ghost predicate Valid()
      reads this
    {
      ValidState(Snapshot())
    }

    constructor ()
      ensures Snapshot() == State("", "", false, 0, 1, 0) && Valid()
    {
      username := "";
      password := "";
      isLogin := false;
      reLoginCount := 0;
      index := 1;
      error := 0;
    }

    /** `can_re_login` */
    predicate CanReLogin(): (b: bool)
      reads this
      ensures b <==> reLoginCount < 5
    {
      reLoginCount < 5
    }

    method ChangeSelcrsUrl()
      requires Valid()
      modifies this
      ensures Valid()
      ensures Snapshot() == old(Snapshot()).(index := NextIndex(old(index)))
    {
      index := index + 1;
      if index == 5 {
        index := 1;
      }
    }

    method Logout()
      modifies this
      ensures Valid()
      ensures Snapshot() == LogoutState(old(Snapshot()))
    {
      username := "";
      password := "";
      index := 1;
      error := 0;
      isLogin := false;
    }

    method Login(u: string, p: string, net: Network, k: nat) returns (outcome: Outcome, next: nat)
      requires Valid()
      modifies this
      ensures Valid()
      ensures LoginResult(Snapshot(), outcome, next) == LoginRun(old(Snapshot()), u, p, net, k)
      decreases if error <= 5 then 6 - error else 0
    {
      var failedAt: nat;
      var score := net(k);
      if score.TransportError? {
        failedAt := k + 1;
      } else if Contains(score.text, ScoreErrorMarker) {
        return Answered(GeneralResponse(400, "score error")), k + 1;
      } else {
        var course := net(k + 1);
        if course.TransportError? {
          failedAt := k + 2;
        } else if Contains(course.text, CourseErrorMarker) {
          return Answered(GeneralResponse(400, "course error")), k + 2;
        } else if Contains(course.text, FillFormMarker) {
          return Answered(GeneralResponse(401, "need to fill out form")), k + 2;
        } else {
          username := u;
          password := p;
          isLogin := true;
          return Answered(Success), k + 2;
        }
      }
      error := error + 1;
      if error > 5 {
        return Raised, failedAt;
      }
      ChangeSelcrsUrl();
      outcome, next := Login(u, p, net, failedAt);
    }

    method ReLogin(net: Network, k: nat) returns (outcome: Outcome, next: nat)
      requires Valid()
      modifies this
      ensures Valid()
      ensures var counted := old(Snapshot()).(reLoginCount := old(reLoginCount) + 1);
        LoginResult(Snapshot(), outcome, next) == LoginRun(counted, counted.username, counted.password, net, k)
    {
      reLoginCount := reLoginCount + 1;
      outcome, next := Login(username, password, net, k);
    }

    method GetUserInfo(net: Network, k: nat, soup: Soup, codec: Codec) returns (info: Option<UserInfo>, next: nat)
      requires Valid()
      modifies this
      ensures Valid()
      ensures var r := FetchRun(old(Snapshot()), UserInfoPage, net, k);
        Snapshot() == r.state && next == r.next
        && info == (if r.body.Some? then Some(ParseUserInfo(codec, soup.cells(r.body.value))) else None)
      decreases if reLoginCount < 5 then 5 - reLoginCount else 0
    {
      var reply := net(k);
      if reply.TransportError? {
        return None, k + 1;
      }
      var text := reply.text;
      if Contains(text, TimeoutMarker) && CanReLogin() {
        var outcome, n := ReLogin(net, k + 1);
        if outcome.Raised? {
          return None, n;
        }
        info, next := GetUserInfo(net, n, soup, codec);
        return;
      }
      if !CanReLogin() {
        return None, k + 1;
      }
      reLoginCount := 0;
      info := Some(ParseUserInfo(codec, soup.cells(text)));
      next := k + 1;
    }

    method GetCourseData(net: Network, k: nat, soup: Soup, codec: Codec, config: Option<TimeCodeConfig>)
      returns (data: Option<CourseData>, next: nat)
      requires Valid()
      modifies this
      ensures Valid()
      ensures var r := FetchRun(old(Snapshot()), CourseTablePage(codec), net, k);
        Snapshot() == r.state && next == r.next
        && data == (if r.body.Some? then Some(ParseSchedule(soup.rows(r.body.value), config)) else None)
      decreases if reLoginCount < 5 then 5 - reLoginCount else 0
    {
      var reply := net(k);
      if reply.TransportError? {
        return None, k + 1;
      }
      var text := DecodeBody(codec, reply.content);
      if Contains(text, TimeoutMarker) && CanReLogin() {
        var outcome, n := ReLogin(net, k + 1);
        if outcome.Raised? {
          return None, n;
        }
        data, next := GetCourseData(net, n, soup, codec, config);
        return;
      }
      if !CanReLogin() {
        return None, k + 1;
      }
      reLoginCount := 0;
      var parsed := ParseCourseTable(soup.rows(text), config);
      data := Some(parsed);
      next := k + 1;
    }
  }
}
