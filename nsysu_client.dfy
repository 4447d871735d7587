/**
 * The asynchronous twin of the portal client. Its login stores the credentials before sending
 * anything and moves to the next mirror with `(index % 4) + 1`; awaiting is sequential here.
 */
module NsysuClient {
  import opened Strings
  import opened Portal
  import SelcrsClient

  /** `(index % 4) + 1` (Python's `%` with a positive divisor agrees with Dafny's). */
  function Rotate(i: int): (r: int)
    ensures 1 <= r <= 4
  {
    (i % 4) + 1
  }

  /** On the four mirrors the rotation is the synchronous helper's 1 -> 2 -> 3 -> 4 -> 1 cycle. */
  lemma RotateMatchesChangeUrl(i: int)
    requires 1 <= i <= 4
    ensures Rotate(i) == SelcrsClient.NextIndex(i)
  {
  }

  /**
   * `login(u, p)` from state s with request k next: store the credentials, then run the
   * two-step login; only the no-marker path sets the login flag; a transport error increments
   * the error counter, re-raises once it exceeds 5, and otherwise rotates the mirror and retries.
   */
  function LoginRun(s: State, u: string, p: string, net: Network, k: nat): (r: SelcrsClient.LoginResult)
    ensures r.state.username == u && r.state.password == p
    ensures r.state.reLoginCount == s.reLoginCount
    ensures 1 <= r.state.index <= 4 || r.state.index == s.index
    decreases if s.error <= 5 then 6 - s.error else 0
  {
    var stored := s.(username := u, password := p);
    match LoginAttempt(net, k)
    case Rejected(response, n) => SelcrsClient.LoginResult(stored, SelcrsClient.Answered(response), n)
    case Accepted(n) => SelcrsClient.LoginResult(stored.(isLogin := true), SelcrsClient.Answered(Success), n)
    case TransportFailed(n) =>
      var failed := stored.(error := stored.error + 1);
      if failed.error > 5 then SelcrsClient.LoginResult(failed, SelcrsClient.Raised, n)
      else LoginRun(failed.(index := Rotate(failed.index)), u, p, net, n)
  }

  /**
   * Against the same replies, both helpers' logins return the same outcome after the same
   * requests and leave the same login flag, counters and mirror; the only difference is that
   * this one has stored the credentials even when the login failed.
   */
  lemma {:induction false} LoginAgreesWithSyncHelper(s: State, u: string, p: string, net: Network, k: nat)
    requires ValidState(s)
    ensures var mine := LoginRun(s, u, p, net, k);
      var theirs := SelcrsClient.LoginRun(s, u, p, net, k);
      mine.outcome == theirs.outcome && mine.next == theirs.next
      && mine.state == theirs.state.(username := u, password := p)
    decreases if s.error <= 5 then 6 - s.error else 0
  {
    match LoginAttempt(net, k)
    case Rejected(_, _) =>
    case Accepted(_) =>
    case TransportFailed(n) =>
      var failed := s.(error := s.error + 1);
      if failed.error <= 5 {
        RotateMatchesChangeUrl(failed.index);
        var next := failed.(index := Rotate(failed.index));
        LoginAgreesWithSyncHelper(next, u, p, net, n);
        assert LoginRun(s, u, p, net, k) == LoginRun(next, u, p, net, n);
      }
  }

  class SelcrsHelper {
    var username: string
    var password: string
    var isLogin: bool
    var reloginCount: nat
    var index: int
    var error: nat

    function Snapshot(): State
      reads this
    {
      State(username, password, isLogin, reloginCount, index, error)
    }

    /** `_init` */
    constructor ()
      ensures Snapshot() == State("", "", false, 0, 1, 0)
    {
      username := "";
      password := "";
      isLogin := false;
      reloginCount := 0;
      index := 1;
      error := 0;
    }

    /** `can_relogin` */
    predicate CanRelogin(): (b: bool)
      reads this
      ensures b <==> reloginCount < 5
    {
      reloginCount < 5
    }

    method Login(u: string, p: string, net: Network, k: nat) returns (outcome: SelcrsClient.Outcome, next: nat)
      modifies this
      ensures SelcrsClient.LoginResult(Snapshot(), outcome, next) == LoginRun(old(Snapshot()), u, p, net, k)
      decreases if error <= 5 then 6 - error else 0
    {
      username := u;
      password := p;
      var failedAt: nat;
      var score := net(k);
      if score.TransportError? {
        failedAt := k + 1;
      } else if Contains(score.text, ScoreErrorMarker) {
        return SelcrsClient.Answered(GeneralResponse(400, "score error")), k + 1;
      } else {
        var course := net(k + 1);
        if course.TransportError? {
          failedAt := k + 2;
        } else if Contains(course.text, CourseErrorMarker) {
          return SelcrsClient.Answered(GeneralResponse(400, "course error")), k + 2;
        } else if Contains(course.text, FillFormMarker) {
          return SelcrsClient.Answered(GeneralResponse(401, "need to fill out form")), k + 2;
        } else {
          isLogin := true;
          return SelcrsClient.Answered(Success), k + 2;
        }
      }
      error := error + 1;
      if error > 5 {
        return SelcrsClient.Raised, failedAt;
      }
      index := Rotate(index);
      outcome, next := Login(u, p, net, failedAt);
    }
  }
}
