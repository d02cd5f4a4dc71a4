/**
 Session tokens of arbiter/api.py: "email:timestamp:signature", verified from
 the right, and the in-memory record of logins and logouts.

 The keyed hash is a parameter; all that is used of it is that its hexadecimal
 digest contains no colon.
 */
module Sessions {
  import opened Options
  import opened Text

  const MAX_AGE := 604800.0   // 7 days, in seconds

  type Mac = string -> string

  /** time.time() */
  type Time = t: real | 0.0 <= t

  ghost predicate ColonFree(mac: Mac) {
    forall s :: ':' !in mac(s)
  }

  function Payload(email: string, ts: string): string {
    email + ":" + ts
  }

  function Signed(mac: Mac, email: string, ts: string): string {
    Payload(email, ts) + ":" + mac(Payload(email, ts))
  }

  /** _generate_token at a clock reading. */
  function Generate(mac: Mac, email: string, now: Time): string {
    Signed(mac, email, Print(now.Floor))
  }

  /** token.rsplit(":", 2), when it has three parts. */
  function SplitRight(token: string): Option<(string, string, string)> {
    var j := LastIndex(token, ':');
    if j < 0 then None
    else
      var i := LastIndex(token[..j], ':');
      if i < 0 then None else Some((token[..i], token[i + 1..j], token[j + 1..]))
  }

  /** _verify_token */
  function Verify(mac: Mac, token: string, now: Time): Option<string> {
    match SplitRight(token)
    case None => None
    case Some((email, ts, sig)) =>
      match ParseInt(ts)
      case None => None
      case Some(issued) =>
        if now - issued as real > MAX_AGE then None
        else if sig != mac(Payload(email, ts)) then None
        else Some(email)
  }

  lemma SplitRightParts(email: string, ts: string, sig: string)
    requires ':' !in ts && ':' !in sig
    ensures SplitRight(email + ":" + ts + ":" + sig) == Some((email, ts, sig))
  {
    var token := email + ":" + ts + ":" + sig;
    var j := |email| + 1 + |ts|;
    assert token[j + 1..] == sig && token[j] == ':';
    forall n | j < n < |token| ensures token[n] != ':' { assert token[n] == sig[n - j - 1]; }
    LastIndexIs(token, ':', j);
    var head := token[..j];
    assert head == email + ":" + ts;
    forall n | |email| < n < |head| ensures head[n] != ':' { assert head[n] == ts[n - |email| - 1]; }
    LastIndexIs(head, ':', |email|);
    assert token[..|email|] == email && token[|email| + 1..j] == ts;
  }

  lemma SplitRightInverse(token: string)
    ensures match SplitRight(token)
      case None => true
      case Some((email, ts, sig)) => token == email + ":" + ts + ":" + sig && ':' !in ts && ':' !in sig
  {
    var j := LastIndex(token, ':');
    if 0 <= j {
      var i := LastIndex(token[..j], ':');
      if 0 <= i { assert token == token[..i] + ":" + token[i + 1..j] + ":" + token[j + 1..]; }
    }
  }

  /** A token is accepted for an email exactly when it is that email and some
      timestamp, signed, and the timestamp is at most seven days back. */
  lemma VerifyAccepts(mac: Mac, token: string, now: Time, email: string)
    requires ColonFree(mac)
    ensures Verify(mac, token, now) == Some(email) <==>
      exists ts :: ':' !in ts && token == email + ":" + ts + ":" + mac(email + ":" + ts) &&
                   ParseInt(ts).Some? && now - ParseInt(ts).value as real <= 7.0 * 24.0 * 3600.0
  {
    SplitRightInverse(token);
    if ts :| ':' !in ts && token == email + ":" + ts + ":" + mac(email + ":" + ts) &&
             ParseInt(ts).Some? && now - ParseInt(ts).value as real <= 7.0 * 24.0 * 3600.0 {
      SplitRightParts(email, ts, mac(Payload(email, ts)));
    }
    if Verify(mac, token, now) == Some(email) {
      var parts := SplitRight(token).value;
      assert token == email + ":" + parts.1 + ":" + mac(email + ":" + parts.1);
    }
  }

  /** The round trip, for every email, colons included. */
  lemma GenerateVerify(mac: Mac, email: string, issued: Time, now: Time)
    requires ColonFree(mac)
    ensures Verify(mac, Generate(mac, email, issued), now) ==
            if now - issued.Floor as real <= 7.0 * 24.0 * 3600.0 then Some(email) else None
  {
    var ts := Print(issued.Floor);
    PrintIsDigits(issued.Floor);
    ParsePrint(issued.Floor);
    SplitRightParts(email, ts, mac(Payload(email, ts)));
  }

  // ------------------------------------------------------- runs of the store

  datatype Store = Store(active: map<string, string>, revoked: set<string>)

  /** login_user (with the outcome of the password check), logout_user, and
      get_current_user (with the token it read from the request). */
  datatype Call =
    | Login(email: string, credentialsOk: bool, at: Time)
    | Logout(token: string)
    | Check(token: string, at: Time)

  datatype Reply = Issued(token: string) | Refused | LoggedOut | User(email: string) | NoUser

  function Apply(mac: Mac, s: Store, c: Call): (Store, Reply) {
    match c
    case Login(email, ok, at) =>
      var name := Lower(Strip(email));
      if !ok then (s, Refused)
      else
        var token := Generate(mac, name, at);
        (s.(active := s.active[token := name]), Issued(token))
    case Logout(token) =>
      (Store(s.active - {token}, if token == "" then s.revoked else s.revoked + {token}), LoggedOut)
    case Check(token, at) =>
      match Verify(mac, token, at)
      case None => (s, NoUser)
      case Some(email) =>
        if email == "" || token in s.revoked then (s, NoUser)
        else (if token in s.active then s else s.(active := s.active[token := email]), User(email))
  }

  function Run(mac: Mac, s: Store, calls: seq<Call>): (r: (Store, seq<Reply>))
    ensures |r.1| == |calls|
  {
    if calls == [] then (s, [])
    else
      var before := Run(mac, s, calls[..|calls| - 1]);
      var step := Apply(mac, before.0, calls[|calls| - 1]);
      (step.0, before.1 + [step.1])
  }

  /** The n-th reply is the reply to the n-th call in the state so far. */
  lemma {:induction false} RunReply(mac: Mac, s: Store, calls: seq<Call>, n: nat)
    requires n < |calls|
    ensures Run(mac, s, calls).1[n] == Apply(mac, Run(mac, s, calls[..n]).0, calls[n]).1
  {
    var front := calls[..|calls| - 1];
    if n < |front| {
      RunReply(mac, s, front, n);
      assert front[..n] == calls[..n];
    }
  }

  /** Nothing is ever taken off the revocation list. */
  lemma {:induction false} RevokedStays(mac: Mac, s: Store, calls: seq<Call>, n: nat)
    requires n <= |calls|
    ensures Run(mac, s, calls[..n]).0.revoked <= Run(mac, s, calls).0.revoked
  {
    if n < |calls| {
      var front := calls[..|calls| - 1];
      RevokedStays(mac, s, front, n);
      assert front[..n] == calls[..n];
    } else {
      assert calls[..n] == calls;
    }
  }

  lemma RevokedByCall(mac: Mac, s: Store, c: Call, token: string)
    ensures token in Apply(mac, s, c).0.revoked <==> token in s.revoked || (token != "" && c == Logout(token))
  {
  }

  /** Revoked is what was revoked at first and what has been logged out since. */
  lemma {:induction false} RevokedExactly(mac: Mac, s: Store, calls: seq<Call>, token: string)
    requires token != ""
    ensures token in Run(mac, s, calls).0.revoked <==> token in s.revoked || Logout(token) in calls
  {
    if calls != [] {
      var front, c := calls[..|calls| - 1], calls[|calls| - 1];
      RevokedExactly(mac, s, front, token);
      RevokedByCall(mac, Run(mac, s, front).0, c, token);
      assert calls == front + [c];
    }
  }

  /** Once a token has been logged out no later request is accepted on it,
      whatever happens in between. */
  lemma LoggedOutForGood(mac: Mac, s: Store, calls: seq<Call>, i: nat, j: nat)
    requires i < j < |calls|
    requires calls[i].Logout? && calls[i].token != ""
    requires calls[j].Check? && calls[j].token == calls[i].token
    ensures Run(mac, s, calls).1[j] == NoUser
  {
    RunReply(mac, s, calls, j);
    assert calls[..j][i] == Logout(calls[j].token);
    RevokedExactly(mac, s, calls[..j], calls[j].token);
  }

  /** A token issued by a login works later exactly when seven days have not
      passed, the very same string was not revoked at first, and nobody has
      logged it out, be it before or after it was issued. */
  lemma IssuedTokenWorks(mac: Mac, s: Store, calls: seq<Call>, i: nat, j: nat)
    requires ColonFree(mac) && i < j < |calls| && Run(mac, s, calls).1[i].Issued?
    requires calls[j].Check? && calls[j].token == Run(mac, s, calls).1[i].token
    ensures calls[i].Login?
    ensures var name, token := Lower(Strip(calls[i].email)), calls[j].token;
      Run(mac, s, calls).1[j] ==
        if name != "" && calls[j].at - calls[i].at.Floor as real <= 7.0 * 24.0 * 3600.0
           && token !in s.revoked && Logout(token) !in calls[..j]
        then User(name) else NoUser
  {
    RunReply(mac, s, calls, i);
    RunReply(mac, s, calls, j);
    var name := Lower(Strip(calls[i].email));
    GenerateVerify(mac, name, calls[i].at, calls[j].at);
    RevokedExactly(mac, s, calls[..j], calls[j].token);
  }

  /** A token is dead on arrival exactly when it was revoked at first or some
      earlier logout carried the same string ... */
  lemma DeadOnArrival(mac: Mac, s: Store, calls: seq<Call>, i: nat)
    requires i < |calls| && Run(mac, s, calls).1[i].Issued?
    ensures var token := Run(mac, s, calls).1[i].token;
      token in Run(mac, s, calls[..i + 1]).0.revoked <==> token in s.revoked || Logout(token) in calls[..i]
  {
    var token := Run(mac, s, calls).1[i].token;
    RunReply(mac, s, calls, i);
    OnlyLoginsIssue(mac, Run(mac, s, calls[..i]).0, calls[i]);
    RevokedExactly(mac, s, calls[..i + 1], token);
    assert calls[..i + 1] == calls[..i] + [calls[i]];
  }

  lemma OnlyLoginsIssue(mac: Mac, s: Store, c: Call)
    ensures Apply(mac, s, c).1.Issued? ==> c.Login? && Apply(mac, s, c).1.token != ""
  {
  }

  /** ... and two logins issue the same string exactly when user and second agree. */
  lemma SameToken(mac: Mac, name: string, at: Time, name': string, at': Time)
    requires ColonFree(mac)
    ensures Generate(mac, name, at) == Generate(mac, name', at') <==> name == name' && at.Floor == at'.Floor
  {
    var ts, ts' := Print(at.Floor), Print(at'.Floor);
    PrintIsDigits(at.Floor);
    PrintIsDigits(at'.Floor);
    ParsePrint(at.Floor);
    ParsePrint(at'.Floor);
    SplitRightParts(name, ts, mac(Payload(name, ts)));
    SplitRightParts(name', ts', mac(Payload(name', ts')));
  }

  /** So a new login is dead on arrival when the same user logged out a
      token issued in the same second: both are the same string. */
  lemma ReloginInSameSecondIsDead(mac: Mac, s: Store, email: string, first: Time, second: Time, later: Time)
    requires ColonFree(mac) && first <= second && first.Floor == second.Floor
    ensures
      var token := Generate(mac, Lower(Strip(email)), first);
      var calls := [Login(email, true, first), Logout(token), Login(email, true, second), Check(token, later)];
      && Run(mac, s, calls).1[2] == Issued(token)
      && Run(mac, s, calls).1[3] == NoUser
      && token in Run(mac, s, calls[..3]).0.active && token in Run(mac, s, calls[..3]).0.revoked
  {
    var token := Generate(mac, Lower(Strip(email)), first);
    var calls := [Login(email, true, first), Logout(token), Login(email, true, second), Check(token, later)];
    assert |token| >= 2;
    RunReply(mac, s, calls, 2);
    LoggedOutForGood(mac, s, calls, 1, 3);
    assert calls[..3][..2] == calls[..2] && calls[..2][..1] == calls[..1];
  }

  /** The active sessions change as one would think: a login and an accepted check
      add their token, a logout takes its away. */
  lemma ActiveAfter(mac: Mac, s: Store, c: Call, token: string)
    ensures var (s', reply) := Apply(mac, s, c);
      token in s'.active <==>
        && c != Logout(token)
        && (token in s.active || reply == Issued(token) || (c.Check? && c.token == token && reply.User?))
  {
  }

  /** Every entry of the active-session map is a token signed for its user. */
  ghost predicate ActiveAreSigned(mac: Mac, s: Store) {
    forall t :: t in s.active ==> exists ts :: t == Signed(mac, s.active[t], ts)
  }

  lemma {:induction false} RunKeepsActiveSigned(mac: Mac, s: Store, calls: seq<Call>)
    requires ColonFree(mac) && ActiveAreSigned(mac, s)
    ensures ActiveAreSigned(mac, Run(mac, s, calls).0)
  {
    if calls != [] {
      var front, c := calls[..|calls| - 1], calls[|calls| - 1];
      RunKeepsActiveSigned(mac, s, front);
      if c.Check? && Verify(mac, c.token, c.at).Some? {
        CheckedIsSigned(mac, c.token, c.at, Verify(mac, c.token, c.at).value);
      }
    }
  }

  lemma CheckedIsSigned(mac: Mac, token: string, at: Time, email: string)
    requires ColonFree(mac) && Verify(mac, token, at) == Some(email)
    ensures exists ts :: token == Signed(mac, email, ts)
  {
    SplitRightInverse(token);
    assert token == Signed(mac, email, SplitRight(token).value.1);
  }

  // ------------------------------------------------------ the module's state

  /** _ACTIVE_SESSIONS and _REVOKED_SESSIONS with the functions that use them. */
  class SessionStore {
    const mac: Mac
    var active: map<string, string>
    var revoked: set<string>

    constructor (mac: Mac)
      ensures this.mac == mac && Contents() == Store(map[], {})
    {
      this.mac, active, revoked := mac, map[], {};
    }

    function Contents(): Store
      reads this
    {
      Store(active, revoked)
    }

    method LoginUser(email: string, credentialsOk: bool, now: Time) returns (token: Option<string>)
      modifies this
      ensures (Contents(), if token.Some? then Issued(token.value) else Refused)
              == Apply(mac, old(Contents()), Login(email, credentialsOk, now))
    {
      var name := Lower(Strip(email));
      if !credentialsOk { return None; }
      var t := Generate(mac, name, now);
      active := active[t := name];
      token := Some(t);
    }

    method LogoutUser(token: string)
      modifies this
      ensures Contents() == Apply(mac, old(Contents()), Logout(token)).0
    {
      active := active - {token};
      if token != "" { revoked := revoked + {token}; }
    }

    method GetCurrentUser(token: string, now: Time) returns (email: Option<string>)
      modifies this
      ensures (Contents(), if email.Some? then User(email.value) else NoUser)
              == Apply(mac, old(Contents()), Check(token, now))
    {
      email := Verify(mac, token, now);
      if email.Some? && email.value != "" && token !in revoked {
        if token !in active { active := active[token := email.value]; }
      } else {
        email := None;
      }
    }
  }
}
