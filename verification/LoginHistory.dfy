/**
 The answers of the login route, read off the attempts themselves: who is turned
 away depends on earlier attempts from the same address for the same user.
 */
module LoginHistory {
  import opened Options
  import opened Text
  import opened LoginLimiter

  /** The user an attempt is for. */
  function User(a: Attempt): string {
    Lower(Strip(a.email))
  }

  predicate Complete(a: Attempt) {
    Strip(a.email) != "" && a.hasPassword
  }

  /** Two attempts share a failure count exactly when they come from one address
      and are for one user, provided no user name contains a colon.  Addresses may. */
  lemma KeysSeparate(a: Attempt, b: Attempt)
    requires ':' !in User(a) && ':' !in User(b)
    ensures KeyOf(a) == KeyOf(b) <==> a.clientIp == b.clientIp && User(a) == User(b)
  {
    KeyParts(a);
    KeyParts(b);
  }

  lemma KeyParts(a: Attempt)
    requires ':' !in User(a)
    ensures LastIndex(KeyOf(a), ':') == |a.clientIp|
    ensures KeyOf(a)[..|a.clientIp|] == a.clientIp && KeyOf(a)[|a.clientIp| + 1..] == User(a)
  {
    var key := KeyOf(a);
    forall j | |a.clientIp| < j < |key| ensures key[j] != ':' { assert key[j] == User(a)[j - |a.clientIp| - 1]; }
    LastIndexIs(key, ':', |a.clientIp|);
  }

  /** A colon in the user name can be mistaken for the one after the address. */
  lemma ColonsCollide(a: Attempt, b: Attempt, ip: string, x: string, y: string)
    requires a.clientIp == ip && User(a) == x + ":" + y
    requires b.clientIp == ip + ":" + x && User(b) == y
    ensures KeyOf(a) == KeyOf(b)
  {
    assert ip + ":" + (x + ":" + y) == (ip + ":" + x) + ":" + y;
  }

  // ------------------------------------------------------------ the attempts

  /** When wrong credentials were answered, over all attempts. */
  function Refusals(attempts: seq<Attempt>, outcomes: seq<Outcome>): seq<real>
    requires |attempts| == |outcomes|
  {
    if attempts == [] then []
    else
      var n := |attempts| - 1;
      Refusals(attempts[..n], outcomes[..n])
      + if outcomes[n] == InvalidCredentials then [attempts[n].later] else []
  }

  /** When wrong credentials were answered from this address for this user, since
      they last logged in. */
  function RefusalsOf(attempts: seq<Attempt>, outcomes: seq<Outcome>, ip: string, user: string): seq<real>
    requires |attempts| == |outcomes|
  {
    if attempts == [] then []
    else
      var n := |attempts| - 1;
      var before, a := RefusalsOf(attempts[..n], outcomes[..n], ip, user), attempts[n];
      if a.clientIp != ip || User(a) != user then before
      else match outcomes[n]
        case InvalidCredentials => before + [a.later]
        case LoggedIn => []
        case _ => before
  }

  lemma {:induction false} OneOutcomeEach(attempts: seq<Attempt>)
    ensures |RespondAll(attempts).0| == |attempts|
  {
    if attempts != [] { OneOutcomeEach(attempts[..|attempts| - 1]); }
  }

  predicate PlainUsers(attempts: seq<Attempt>) {
    forall i :: 0 <= i < |attempts| ==> ':' !in User(attempts[i])
  }

  lemma RespondLogs(log: seq<Event>, a: Attempt)
    ensures var (outcome, log') := Respond(log, a);
      match outcome
      case InvalidCredentials => log' == log + [Failure(KeyOf(a), a.later)]
      case LoggedIn => log' == log + [Cleared(KeyOf(a))]
      case _ => log' == log
  {
  }

  lemma {:induction false} LogIsHistory(attempts: seq<Attempt>, a: Attempt)
    requires PlainUsers(attempts) && ':' !in User(a)
    ensures |RespondAll(attempts).0| == |attempts|
    ensures var (outcomes, log) := RespondAll(attempts);
      && AllFailures(log) == Refusals(attempts, outcomes)
      && KeyFailures(log, KeyOf(a)) == RefusalsOf(attempts, outcomes, a.clientIp, User(a))
  {
    if attempts != [] {
      var n := |attempts| - 1;
      var front, last := attempts[..n], attempts[n];
      OneOutcomeEach(front);
      LogIsHistory(front, a);
      KeysSeparate(last, a);
      var (outcomes, log) := RespondAll(front);
      var (outcome, log') := Respond(log, last);
      RespondLogs(log, last);
      assert (outcomes + [outcome])[..n] == outcomes;
      match outcome {
        case InvalidCredentials => LogAppend(log, Failure(KeyOf(last), last.later), KeyOf(a));
        case LoggedIn => LogAppend(log, Cleared(KeyOf(last)), KeyOf(a));
        case _ =>
      }
    }
  }

  /** The answer to an attempt after any run of earlier ones: an incomplete one is
      a bad request; with thirty refusals to anybody within 300 seconds, or five to
      this address and user within 900 seconds since they last logged in, it is
      turned away; otherwise the credentials decide. */
  lemma AnsweredExactly(attempts: seq<Attempt>, a: Attempt)
    requires InSequence(attempts) && EndOf(attempts) <= a.now
    requires PlainUsers(attempts) && ':' !in User(a)
    ensures |RespondAll(attempts).0| == |attempts|
    ensures var outcomes := RespondAll(attempts).0;
      var all, mine := Refusals(attempts, outcomes), RefusalsOf(attempts, outcomes, a.clientIp, User(a));
      RespondAll(attempts + [a]).0 == outcomes + [
        if !Complete(a) then BadRequest
        else if (|all| >= 30 && a.now - all[|all| - 30] < 300.0) || (|mine| >= 5 && a.now - mine[|mine| - 5] < 900.0)
        then TooManyAttempts
        else if a.credentialsOk then LoggedIn else InvalidCredentials]
  {
    assert (attempts + [a])[..|attempts|] == attempts;
    LogIsHistory(attempts, a);
    RunsAreThrottled(attempts, KeyOf(a));
    BlocksExactly(RespondAll(attempts).1, KeyOf(a), a.now);
  }
}
