/** Authentication of one control-server connection: an optional token, a challenge, its verification.

    Challenges are created by the caller's random source and their verification is a parameter. */
module Auth {
  import opened Basics

  datatype AuthState =
    | WaitingForChallenge(token: Option<string>)
    | ChallengeIssued(challenge: string)
    | Authenticated

  datatype Denial = BadToken | NotIssued | AuthRequired

  /** One call, with the challenge the server would create for it. */
  datatype Call =
    | Issue(token: Option<string>, created: string)
    | Verify(response: string)
    | Guarded

  type Verifier = (string, string) -> bool

  class Connection {
    var auth: AuthState

    constructor (initial: AuthState)
      ensures auth == initial
    {
      auth := initial;
    }

    method HandleChallengeIssue(token: Option<string>, created: string) returns (r: Result<string, Denial>)
      modifies this
      ensures r.Err? <==>
        old(auth).WaitingForChallenge? && old(auth).token.Some? && (token.None? || token.value != old(auth).token.value)
      ensures r.Err? ==> r.error == BadToken && auth == old(auth)
      ensures r.Ok? ==> r.value == created && auth == ChallengeIssued(created)
      ensures auth == After((_, _) => false, old(auth), Issue(token, created))
    {
      match auth {
        case WaitingForChallenge(Some(s)) =>
          match token {
            case Some(t) =>
              if s != t {
                return Err(BadToken);
              }
            case None => return Err(BadToken);
          }
        case _ =>
      }
      auth := ChallengeIssued(created);
      r := Ok(created);
    }

    method HandleChallengeVerify(verify: Verifier, response: string) returns (r: Result<(), Denial>)
      modifies this
      ensures r.Ok? <==>
        old(auth).Authenticated? || (old(auth).ChallengeIssued? && verify(old(auth).challenge, response))
      ensures r.Ok? ==> auth == Authenticated
      ensures r.Err? ==> r.error == NotIssued && auth == old(auth)
      ensures auth == After(verify, old(auth), Verify(response))
    {
      match auth {
        case Authenticated => r := Ok(());
        case WaitingForChallenge(_) => r := Err(NotIssued);
        case ChallengeIssued(c) =>
          if verify(c, response) {
            auth := Authenticated;
            r := Ok(());
          } else {
            r := Err(NotIssued);
          }
      }
    }

    method EnsureAuth() returns (r: Result<(), Denial>)
      ensures r == if auth.Authenticated? then Ok(()) else Err(AuthRequired)
    {
      r := if auth.Authenticated? then Ok(()) else Err(AuthRequired);
    }
  }

  /** A token is expected and this one is not it. */
  predicate Denies(a: AuthState, token: Option<string>) {
    a.WaitingForChallenge? && a.token.Some? && token != a.token
  }

  function After(verify: Verifier, a: AuthState, call: Call): AuthState {
    match call
    case Issue(token, created) => if Denies(a, token) then a else ChallengeIssued(created)
    case Verify(response) => if a.ChallengeIssued? && verify(a.challenge, response) then Authenticated else a
    case Guarded => a
  }

  function Run(verify: Verifier, a: AuthState, calls: seq<Call>): AuthState {
    if calls == [] then a else After(verify, Run(verify, a, calls[..|calls| - 1]), calls[|calls| - 1])
  }

  /** The last challenge handed out is that of call `i`. */
  ghost predicate LastIssued(verify: Verifier, a: AuthState, calls: seq<Call>, i: nat) {
    && i < |calls| && calls[i].Issue? && !Denies(Run(verify, a, calls[..i]), calls[i].token)
    && forall k :: i < k < |calls| ==> !calls[k].Issue?
  }

  /** The first challenge of a connection that expects a token went to the bearer of that token. */
  ghost predicate TokenShown(initial: AuthState, calls: seq<Call>) {
    initial.WaitingForChallenge? && initial.token.Some? ==>
      exists k :: 0 <= k < |calls| && calls[k].Issue? && calls[k].token == initial.token
  }

  /** Nobody passes without answering the challenge issued last. */
  ghost predicate Answered(verify: Verifier, a: AuthState, calls: seq<Call>) {
    exists i: nat, j: nat :: LastIssued(verify, a, calls, i) && i < j < |calls|
      && calls[j].Verify? && verify(calls[i].created, calls[j].response)
  }

  lemma StillLastIssued(verify: Verifier, a: AuthState, calls: seq<Call>, i: nat)
    requires calls != [] && LastIssued(verify, a, calls[..|calls| - 1], i) && !calls[|calls| - 1].Issue?
    ensures LastIssued(verify, a, calls, i)
  {
    assert calls[..|calls| - 1][..i] == calls[..i];
  }

  /** After a challenge was issued, the state names the last one, and a token was shown if one is due. */
  lemma {:induction false} IssuedInEveryRun(verify: Verifier, initial: AuthState, calls: seq<Call>)
    requires !initial.ChallengeIssued?
    ensures Run(verify, initial, calls).ChallengeIssued? ==>
      exists i: nat :: LastIssued(verify, initial, calls, i) && Run(verify, initial, calls).challenge == calls[i].created
    ensures !Run(verify, initial, calls).WaitingForChallenge? ==> TokenShown(initial, calls)
    ensures Run(verify, initial, calls).WaitingForChallenge? ==> Run(verify, initial, calls) == initial
  {
    if calls != [] {
      var front, last := calls[..|calls| - 1], calls[|calls| - 1];
      var before, after := Run(verify, initial, front), Run(verify, initial, calls);
      IssuedInEveryRun(verify, initial, front);
      if TokenShown(initial, front) && initial.WaitingForChallenge? && initial.token.Some? {
        var k :| 0 <= k < |front| && front[k].Issue? && front[k].token == initial.token;
        assert calls[k] == front[k];
      }
      if after.ChallengeIssued? {
        if last.Issue? {
          assert LastIssued(verify, initial, calls, |front|);
        } else {
          var i: nat :| LastIssued(verify, initial, front, i) && before.challenge == front[i].created;
          StillLastIssued(verify, initial, calls, i);
          assert calls[i] == front[i];
        }
      }
    }
  }

  /** In every run that ends authenticated, either no authentication was required and no challenge was
      ever issued, or the last challenge issued was answered and any expected token was shown. */
  lemma {:induction false} AuthenticatedInEveryRun(verify: Verifier, initial: AuthState, calls: seq<Call>)
    requires !initial.ChallengeIssued? && Run(verify, initial, calls).Authenticated?
    ensures TokenShown(initial, calls)
    ensures (initial.Authenticated? && forall k :: 0 <= k < |calls| ==> !calls[k].Issue?) || Answered(verify, initial, calls)
  {
    IssuedInEveryRun(verify, initial, calls);
    if calls != [] {
      var front, last := calls[..|calls| - 1], calls[|calls| - 1];
      var before := Run(verify, initial, front);
      if before.Authenticated? {
        AuthenticatedInEveryRun(verify, initial, front);
        if Answered(verify, initial, front) {
          var i: nat, j: nat :| LastIssued(verify, initial, front, i) && i < j < |front|
            && front[j].Verify? && verify(front[i].created, front[j].response);
          StillLastIssued(verify, initial, calls, i);
          assert calls[i] == front[i] && calls[j] == front[j];
        }
      } else {
        IssuedInEveryRun(verify, initial, front);
        var i: nat :| LastIssued(verify, initial, front, i) && before.challenge == front[i].created;
        StillLastIssued(verify, initial, calls, i);
        assert calls[i] == front[i] && calls[|front|] == last;
      }
    }
  }

  /** Issuing a challenge, also on an authenticated connection, bars it until that challenge is
      answered: without a further one it is let through exactly when some answer verifies. */
  lemma {:induction false} BarredUntilAnswered(
    verify: Verifier, a: AuthState, token: Option<string>, created: string, later: seq<Call>)
    requires !Denies(a, token) && forall k :: 0 <= k < |later| ==> !later[k].Issue?
    ensures Run(verify, After(verify, a, Issue(token, created)), later) ==
      if exists j :: 0 <= j < |later| && later[j].Verify? && verify(created, later[j].response)
      then Authenticated else ChallengeIssued(created)
  {
    if later != [] {
      var front, last := later[..|later| - 1], later[|later| - 1];
      BarredUntilAnswered(verify, a, token, created, front);
      if j :| 0 <= j < |front| && front[j].Verify? && verify(created, front[j].response) {
        assert later[j] == front[j];
      }
      if j :| 0 <= j < |later| && later[j].Verify? && verify(created, later[j].response) {
        assert j < |front| ==> later[j] == front[j];
      }
    }
  }
}
