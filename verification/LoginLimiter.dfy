/**
 Login throttling of arbiter/api.py: a sliding window of failures per
 (client ip, email) key and one over all keys, pruned lazily and purged in bulk,
 shown to behave like a limiter that never forgets anything.
 */
module LoginLimiter {
  import opened Text

  const FAIL_WINDOW := 900.0
  const FAIL_MAX_PER_KEY := 5
  const GLOBAL_WINDOW := 300.0
  const GLOBAL_MAX := 30
  const PURGE_ABOVE := 1000

  // --------------------------------------------- the limiter with full memory

  datatype Event = Failure(key: string, at: real) | Cleared(key: string)

  /** The timestamps still inside a window. */
  function Recent(ts: seq<real>, now: real, window: real): seq<real> {
    if ts == [] then []
    else if now - ts[|ts| - 1] < window then Recent(ts[..|ts| - 1], now, window) + [ts[|ts| - 1]]
    else Recent(ts[..|ts| - 1], now, window)
  }

  /** The times of all failures ever. */
  function AllFailures(log: seq<Event>): seq<real> {
    if log == [] then []
    else if log[|log| - 1].Failure? then AllFailures(log[..|log| - 1]) + [log[|log| - 1].at]
    else AllFailures(log[..|log| - 1])
  }

  /** The keys of all failures ever, in step with AllFailures. */
  function FailedKeys(log: seq<Event>): (keys: seq<string>)
    ensures |keys| == |AllFailures(log)|
  {
    if log == [] then []
    else if log[|log| - 1].Failure? then FailedKeys(log[..|log| - 1]) + [log[|log| - 1].key]
    else FailedKeys(log[..|log| - 1])
  }

  /** The failures of one key since it last logged in. */
  function KeyFailures(log: seq<Event>, key: string): seq<real> {
    if log == [] then []
    else
      var before, last := KeyFailures(log[..|log| - 1], key), log[|log| - 1];
      if last.key != key then before
      else if last.Failure? then before + [last.at]
      else []
  }

  predicate Blocks(log: seq<Event>, key: string, now: real) {
    || |Recent(AllFailures(log), now, GLOBAL_WINDOW)| >= GLOBAL_MAX
    || |Recent(KeyFailures(log, key), now, FAIL_WINDOW)| >= FAIL_MAX_PER_KEY
  }

  // ----------------------------------------------------------- window lemmas

  lemma RecentAppend(ts: seq<real>, t: real, now: real, window: real)
    ensures Recent(ts + [t], now, window) ==
            if now - t < window then Recent(ts, now, window) + [t] else Recent(ts, now, window)
  {
    assert (ts + [t])[..|ts|] == ts;
  }

  lemma {:induction false} RecentShorter(ts: seq<real>, now: real, window: real)
    ensures |Recent(ts, now, window)| <= |ts|
    ensures forall t :: t in Recent(ts, now, window) <==> t in ts && now - t < window
  {
    if ts != [] {
      RecentShorter(ts[..|ts| - 1], now, window);
      assert ts == ts[..|ts| - 1] + [ts[|ts| - 1]];
    }
  }

  /** Pruning early loses nothing a later look would have kept. */
  lemma {:induction false} RecentTwice(ts: seq<real>, early: real, now: real, window: real)
    requires early <= now
    ensures Recent(Recent(ts, early, window), now, window) == Recent(ts, now, window)
  {
    if ts != [] {
      var front, t := ts[..|ts| - 1], ts[|ts| - 1];
      RecentTwice(front, early, now, window);
      if early - t < window {
        RecentAppend(Recent(front, early, window), t, now, window);
      }
    }
  }

  predicate Ordered(ts: seq<real>) {
    forall i, j :: 0 <= i < j < |ts| ==> ts[i] <= ts[j]
  }

  /** In time order, everything after a recent timestamp is recent too. */
  lemma {:induction false} RecentCount(ts: seq<real>, j: nat, now: real, window: real)
    requires Ordered(ts) && j < |ts| && now - ts[j] < window
    ensures |Recent(ts, now, window)| >= |ts| - j
  {
    var front := ts[..|ts| - 1];
    if j < |front| { RecentCount(front, j, now, window); }
  }

  lemma {:induction false} RecentAtMost(ts: seq<real>, j: nat, now: real, window: real)
    requires Ordered(ts) && j <= |ts| && (0 < j ==> now - ts[j - 1] >= window)
    ensures |Recent(ts, now, window)| <= |ts| - j
  {
    if ts != [] {
      var front := ts[..|ts| - 1];
      if j <= |front| { RecentAtMost(front, j, now, window); } else { RecentAtMost(front, j - 1, now, window); }
    }
  }

  /** The n-th timestamp from the end is still inside the window. */
  predicate Crowded(ts: seq<real>, n: nat, now: real, window: real)
    requires 0 < n
  {
    |ts| >= n && now - ts[|ts| - n] < window
  }

  /** In time order a window is full exactly when the n-th timestamp from the end
      is still inside it. */
  lemma WindowFull(ts: seq<real>, n: nat, now: real, window: real)
    requires Ordered(ts) && 0 < n
    ensures |Recent(ts, now, window)| >= n <==> Crowded(ts, n, now, window)
  {
    if |ts| < n {
      RecentShorter(ts, now, window);
    } else if now - ts[|ts| - n] < window {
      RecentCount(ts, |ts| - n, now, window);
    } else {
      RecentAtMost(ts, |ts| - n + 1, now, window);
    }
  }

  /** No more than n timestamps within any one window. */
  ghost predicate SpacedBy(ts: seq<real>, n: nat, window: real) {
    forall i :: 0 <= i < |ts| - n ==> ts[i + n] - ts[i] >= window
  }

  ghost predicate Spaced(ts: seq<real>) {
    SpacedBy(ts, GLOBAL_MAX, GLOBAL_WINDOW)
  }

  lemma SpacedAppend(ts: seq<real>, now: real, t: real, n: nat, window: real)
    requires Ordered(ts) && SpacedBy(ts, n, window) && now <= t && forall u :: u in ts ==> u <= t
    requires |Recent(ts, now, window)| < n
    ensures Ordered(ts + [t]) && SpacedBy(ts + [t], n, window)
  {
    forall i | 0 <= i < |ts| ensures ts[i] <= t { assert ts[i] in ts; }
    var first := |ts| - n;
    if 0 <= first && now - ts[first] < window { RecentCount(ts, first, now, window); }
  }

  /** At most n failures in any window, all of them in the past. */
  ghost predicate Throttled(ts: seq<real>, n: nat, window: real, clock: real) {
    Ordered(ts) && SpacedBy(ts, n, window) && forall t :: t in ts ==> t <= clock
  }

  lemma ThrottledAppend(ts: seq<real>, n: nat, window: real, clock: real, now: real, t: real)
    requires Throttled(ts, n, window, clock) && clock <= now <= t
    requires |Recent(ts, now, window)| < n
    ensures Throttled(ts + [t], n, window, t)
  {
    SpacedAppend(ts, now, t, n, window);
  }

  lemma SpacedThrice(ts: seq<real>, i: nat)
    requires Spaced(ts) && i + 90 < |ts|
    ensures ts[i + 90] - ts[i] >= FAIL_WINDOW
  {
    assert ts[(i + 30) + 30] - ts[i + 30] >= GLOBAL_WINDOW;
    assert ts[(i + 60) + 30] - ts[i + 60] >= GLOBAL_WINDOW;
  }

  /** Hence at most ninety failures fall in the last 900 seconds. */
  lemma RecentAreLate(ts: seq<real>, i: nat, now: real)
    requires Spaced(ts) && i < |ts| && now - ts[i] < FAIL_WINDOW
    requires forall t :: t in ts ==> t <= now
    ensures i >= |ts| - 90
  {
    assert i + 90 < |ts| ==> ts[i + 90] in ts;
    if i + 90 < |ts| { SpacedThrice(ts, i); }
  }

  lemma {:induction false} DistinctBelow(s: set<string>, pool: seq<string>)
    requires forall k :: k in s ==> k in pool
    ensures |s| <= |pool|
  {
    if s != {} {
      assert pool != [] by { var k :| k in s; assert k in pool; }
      var n := |pool| - 1;
      assert pool == pool[..n] + [pool[n]];
      DistinctBelow(s - {pool[n]}, pool[..n]);
      assert s <= (s - {pool[n]}) + {pool[n]};
      assert |s| <= |s - {pool[n]}| + 1 by { if pool[n] !in s { assert s - {pool[n]} == s; } }
    }
  }

  /** A failure a key still carries is one of the log's failures of that key. */
  lemma {:induction false} KeyFailureLogged(log: seq<Event>, key: string, t: real) returns (i: nat)
    requires t in KeyFailures(log, key)
    ensures i < |AllFailures(log)| && AllFailures(log)[i] == t && FailedKeys(log)[i] == key
  {
    var front, last := log[..|log| - 1], log[|log| - 1];
    if t in KeyFailures(front, key) {
      i := KeyFailureLogged(front, key, t);
    } else {
      i := |AllFailures(front)|;
    }
  }

  /** Keys with a failure in the last 900 seconds. */
  lemma FewRecentKeys(log: seq<Event>, keys: set<string>, now: real)
    requires var ts := AllFailures(log); Spaced(ts) && forall t :: t in ts ==> t <= now
    requires forall k :: k in keys ==> Recent(KeyFailures(log, k), now, FAIL_WINDOW) != []
    ensures |keys| <= 90
  {
    var ts, names := AllFailures(log), FailedKeys(log);
    var late := if |names| <= 90 then names else names[|names| - 90..];
    forall k | k in keys ensures k in late {
      var mine := KeyFailures(log, k);
      RecentShorter(mine, now, FAIL_WINDOW);
      var t := Recent(mine, now, FAIL_WINDOW)[0];
      assert t in Recent(mine, now, FAIL_WINDOW);
      var i := KeyFailureLogged(log, k, t);
      RecentAreLate(ts, i, now);
      assert names[i] == late[if |names| <= 90 then i else i - (|names| - 90)];
    }
    DistinctBelow(keys, late);
  }

  // ------------------------------------- what forgetting is allowed to change

  function Of(failures: map<string, seq<real>>, key: string): seq<real> {
    if key in failures then failures[key] else []
  }

  /** From `clock` on, the pruned global list answers like the full log. */
  ghost predicate GlobalAgrees(global: seq<real>, log: seq<Event>, clock: real) {
    forall now :: now >= clock ==>
      Recent(global, now, GLOBAL_WINDOW) == Recent(AllFailures(log), now, GLOBAL_WINDOW)
  }

  /** ... and so do the lists kept per key, an absent key counting as empty. */
  ghost predicate KeysAgree(failures: map<string, seq<real>>, log: seq<Event>, clock: real) {
    forall k, now :: now >= clock ==>
      Recent(Of(failures, k), now, FAIL_WINDOW) == Recent(KeyFailures(log, k), now, FAIL_WINDOW)
  }

  lemma PruneGlobal(global: seq<real>, log: seq<Event>, clock: real, now: real)
    requires GlobalAgrees(global, log, clock) && clock <= now
    ensures GlobalAgrees(Recent(global, now, GLOBAL_WINDOW), log, now)
  {
    forall later | later >= now
      ensures Recent(Recent(global, now, GLOBAL_WINDOW), later, GLOBAL_WINDOW) ==
              Recent(AllFailures(log), later, GLOBAL_WINDOW)
    {
      RecentTwice(global, now, later, GLOBAL_WINDOW);
    }
  }

  lemma PruneKey(failures: map<string, seq<real>>, log: seq<Event>, clock: real, now: real, key: string)
    requires KeysAgree(failures, log, clock) && clock <= now
    ensures KeysAgree(failures[key := Recent(Of(failures, key), now, FAIL_WINDOW)], log, now)
  {
    forall later | later >= now
      ensures Recent(Recent(Of(failures, key), now, FAIL_WINDOW), later, FAIL_WINDOW) ==
              Recent(KeyFailures(log, key), later, FAIL_WINDOW)
    {
      RecentTwice(Of(failures, key), now, later, FAIL_WINDOW);
    }
  }

  lemma LogAppend(log: seq<Event>, e: Event, k: string)
    ensures AllFailures(log + [e]) == if e.Failure? then AllFailures(log) + [e.at] else AllFailures(log)
    ensures KeyFailures(log + [e], k) ==
            if e.key != k then KeyFailures(log, k) else if e.Failure? then KeyFailures(log, k) + [e.at] else []
  {
    assert (log + [e])[..|log|] == log;
  }

  lemma RecordAgrees(failures: map<string, seq<real>>, global: seq<real>, log: seq<Event>, clock: real,
                     key: string, at: real)
    requires KeysAgree(failures, log, clock) && GlobalAgrees(global, log, clock) && clock <= at
    ensures GlobalAgrees(global + [at], log + [Failure(key, at)], at)
    ensures KeysAgree(failures[key := Of(failures, key) + [at]], log + [Failure(key, at)], at)
  {
    forall now | now >= at
      ensures Recent(global + [at], now, GLOBAL_WINDOW) ==
              Recent(AllFailures(log + [Failure(key, at)]), now, GLOBAL_WINDOW)
    {
      LogAppend(log, Failure(key, at), key);
      RecentAppend(global, at, now, GLOBAL_WINDOW);
      RecentAppend(AllFailures(log), at, now, GLOBAL_WINDOW);
    }
    forall k, now | now >= at
      ensures Recent(Of(failures[key := Of(failures, key) + [at]], k), now, FAIL_WINDOW) ==
              Recent(KeyFailures(log + [Failure(key, at)], k), now, FAIL_WINDOW)
    {
      LogAppend(log, Failure(key, at), k);
      RecentAppend(Of(failures, key), at, now, FAIL_WINDOW);
      RecentAppend(KeyFailures(log, key), at, now, FAIL_WINDOW);
    }
  }

  lemma ClearAgrees(failures: map<string, seq<real>>, global: seq<real>, log: seq<Event>, clock: real, key: string)
    requires KeysAgree(failures, log, clock) && GlobalAgrees(global, log, clock)
    ensures GlobalAgrees(global, log + [Cleared(key)], clock)
    ensures KeysAgree(failures - {key}, log + [Cleared(key)], clock)
  {
    LogAppend(log, Cleared(key), key);
    forall k, now | now >= clock
      ensures Recent(Of(failures - {key}, k), now, FAIL_WINDOW) ==
              Recent(KeyFailures(log + [Cleared(key)], k), now, FAIL_WINDOW)
    {
      LogAppend(log, Cleared(key), k);
    }
  }

  /** Dropping a key whose failures have all expired changes no answer. */
  lemma DropAgrees(failures: map<string, seq<real>>, log: seq<Event>, clock: real, key: string)
    requires KeysAgree(failures, log, clock)
    requires Recent(Of(failures, key), clock, FAIL_WINDOW) == []
    ensures KeysAgree(failures - {key}, log, clock)
  {
    forall now | now >= clock ensures Recent(KeyFailures(log, key), now, FAIL_WINDOW) == [] {
      RecentTwice(Of(failures, key), clock, now, FAIL_WINDOW);
    }
  }

  // ------------------------------------------------------------- the limiter

  datatype Outcome = BadRequest | TooManyAttempts | InvalidCredentials | LoggedIn

  /** One POST to the login route: the clock is read once for the throttle
      check and once more when a failure is recorded. */
  datatype Attempt = Attempt(clientIp: string, email: string, hasPassword: bool, credentialsOk: bool,
                             now: real, later: real)

  function KeyOf(a: Attempt): string {
    a.clientIp + ":" + Lower(Strip(a.email))
  }

  /** handle_login over the limiter that keeps every event. */
  function Respond(log: seq<Event>, a: Attempt): (Outcome, seq<Event>) {
    if Strip(a.email) == "" || !a.hasPassword then (BadRequest, log)
    else if Blocks(log, KeyOf(a), a.now) then (TooManyAttempts, log)
    else if a.credentialsOk then (LoggedIn, log + [Cleared(KeyOf(a))])
    else (InvalidCredentials, log + [Failure(KeyOf(a), a.later)])
  }

  /** The memory bound. */
  predicate Bounded(failures: map<string, seq<real>>, global: seq<real>) {
    && |failures| <= PURGE_ABOVE
    && |global| <= GLOBAL_MAX
    && ListsShort(failures)
  }

  predicate ListsShort(failures: map<string, seq<real>>) {
    forall k :: k in failures ==> |failures[k]| <= FAIL_MAX_PER_KEY
  }

  ghost predicate LogInOrder(log: seq<Event>, clock: real) {
    Throttled(AllFailures(log), GLOBAL_MAX, GLOBAL_WINDOW, clock)
  }

  class Limiter {
    var failures: map<string, seq<real>>
    var failuresGlobal: seq<real>
    ghost var log: seq<Event>
    ghost var clock: real

    /** Between attempts. */
    ghost predicate Valid()
      reads this
    {
      && KeysAgree(failures, log, clock) && GlobalAgrees(failuresGlobal, log, clock)
      && LogInOrder(log, clock) && Bounded(failures, failuresGlobal)
    }

    /** After a check that let the attempt pass, before its outcome is known. */
    ghost predicate Admitted(key: string)
      reads this
    {
      && KeysAgree(failures, log, clock) && GlobalAgrees(failuresGlobal, log, clock)
      && LogInOrder(log, clock) && ListsShort(failures)
      && |Recent(AllFailures(log), clock, GLOBAL_WINDOW)| < GLOBAL_MAX && |failuresGlobal| < GLOBAL_MAX
      && key in failures && |failures[key]| < FAIL_MAX_PER_KEY
      && |failures - {key}| <= PURGE_ABOVE
    }

    constructor ()
      ensures Valid() && log == [] && clock == 0.0
    {
      failures, failuresGlobal := map[], [];
      log, clock := [], 0.0;
    }

    /** _login_throttled */
    method LoginThrottled(key: string, now: real) returns (throttled: bool)
      requires Valid() && clock <= now
      modifies `failures, `failuresGlobal, `clock
      ensures throttled == Blocks(log, key, now) && clock == now
      ensures if throttled then Valid() else Admitted(key)
    {
      PruneGlobal(failuresGlobal, log, clock, now);
      PruneKey(failures, log, clock, now, key);
      RecentShorter(failuresGlobal, now, GLOBAL_WINDOW);
      RecentShorter(Of(failures, key), now, FAIL_WINDOW);
      assert KeysAgree(failures, log, now);
      failuresGlobal := Recent(failuresGlobal, now, GLOBAL_WINDOW);
      clock := now;
      if |failuresGlobal| >= GLOBAL_MAX { return true; }
      var attempts := Recent(Of(failures, key), now, FAIL_WINDOW);
      DropsOneKey(failures, key, attempts);
      failures := failures[key := attempts];
      throttled := |attempts| >= FAIL_MAX_PER_KEY;
    }

    /** _login_record_failure, with the purge of expired keys. */
    method LoginRecordFailure(key: string, now: real)
      requires Admitted(key) && clock <= now
      modifies this
      ensures Valid() && clock == now && log == old(log) + [Failure(key, now)]
      ensures old(|failures|) > PURGE_ABOVE ==> |failures| <= 90
    {
      RecordAgrees(failures, failuresGlobal, log, clock, key, now);
      LogAppend(log, Failure(key, now), key);
      ThrottledAppend(AllFailures(log), GLOBAL_MAX, GLOBAL_WINDOW, clock, clock, now);
      DropsOneKey(failures, key, failures[key] + [now]);
      failures := failures[key := failures[key] + [now]];
      failuresGlobal := failuresGlobal + [now];
      log := log + [Failure(key, now)];
      clock := now;
      if |failures| > PURGE_ABOVE { Purge(now); }
    }

    method Purge(now: real)
      requires KeysAgree(failures, log, now) && LogInOrder(log, now) && ListsShort(failures) && clock == now
      modifies `failures
      ensures KeysAgree(failures, log, now) && ListsShort(failures) && |failures| <= 90
    {
      var todo := failures.Keys;
      while todo != {}
        invariant todo <= failures.Keys && KeysAgree(failures, log, now) && ListsShort(failures)
        invariant forall k :: k in failures && k !in todo ==> Recent(failures[k], now, FAIL_WINDOW) != []
        decreases |todo|
      {
        var k :| k in todo;
        todo := todo - {k};
        NoneRecent(failures[k], now);
        if forall i :: 0 <= i < |failures[k]| ==> now - failures[k][i] >= FAIL_WINDOW {
          DropAgrees(failures, log, now, k);
          failures := failures - {k};
        }
      }
      forall k | k in failures.Keys ensures Recent(KeyFailures(log, k), now, FAIL_WINDOW) != [] {
        assert Of(failures, k) == failures[k];
      }
      FewRecentKeys(log, failures.Keys, now);
    }

    /** _login_clear_failures */
    method LoginClearFailures(key: string)
      requires Admitted(key)
      modifies this
      ensures Valid() && clock == old(clock) && log == old(log) + [Cleared(key)]
    {
      ClearAgrees(failures, failuresGlobal, log, clock, key);
      LogAppend(log, Cleared(key), key);
      failures := failures - {key};
      log := log + [Cleared(key)];
    }

    /** handle_login: the same answers as the limiter that never forgets, in
        bounded memory. */
    method HandleLogin(a: Attempt) returns (outcome: Outcome)
      requires Valid() && clock <= a.now <= a.later
      modifies this
      ensures Valid() && clock <= a.later && old(clock) <= clock
      ensures (outcome, log) == Respond(old(log), a)
    {
      if Strip(a.email) == "" || !a.hasPassword { return BadRequest; }
      var key := KeyOf(a);
      var throttled := LoginThrottled(key, a.now);
      if throttled { return TooManyAttempts; }
      if a.credentialsOk {
        LoginClearFailures(key);
        return LoggedIn;
      }
      LoginRecordFailure(key, a.later);
      return InvalidCredentials;
    }
  }

  lemma {:induction false} NoneRecent(ts: seq<real>, now: real)
    ensures Recent(ts, now, FAIL_WINDOW) == [] <==> forall i :: 0 <= i < |ts| ==> now - ts[i] >= FAIL_WINDOW
  {
    if ts != [] {
      var front := ts[..|ts| - 1];
      NoneRecent(front, now);
      assert forall i :: 0 <= i < |front| ==> front[i] == ts[i];
    }
  }

  lemma DropsOneKey(failures: map<string, seq<real>>, key: string, ts: seq<real>)
    ensures key in failures ==> |failures[key := ts]| == |failures|
    ensures |failures[key := ts] - {key}| <= |failures|
  {
    assert failures[key := ts].Keys == failures.Keys + {key};
    assert (failures[key := ts] - {key}).Keys == failures.Keys - {key};
    assert |failures[key := ts] - {key}| == |failures.Keys - {key}|;
  }

  // ---------------------------------------------------------- whole runs

  /** Attempts come one after another on one clock. */
  predicate InSequence(attempts: seq<Attempt>) {
    && (forall i :: 0 <= i < |attempts| ==> 0.0 <= attempts[i].now <= attempts[i].later)
    && (forall i, j :: 0 <= i < j < |attempts| ==> attempts[i].later <= attempts[j].now)
  }

  function RespondAll(attempts: seq<Attempt>): (seq<Outcome>, seq<Event>) {
    if attempts == [] then ([], [])
    else
      var before := RespondAll(attempts[..|attempts| - 1]);
      var last := Respond(before.1, attempts[|attempts| - 1]);
      (before.0 + [last.0], last.1)
  }

  lemma ResponseIsThrottled(log: seq<Event>, a: Attempt, clock: real, key: string)
    requires clock <= a.now <= a.later
    requires Throttled(AllFailures(log), GLOBAL_MAX, GLOBAL_WINDOW, clock)
    requires Throttled(KeyFailures(log, key), FAIL_MAX_PER_KEY, FAIL_WINDOW, clock)
    ensures Throttled(AllFailures(Respond(log, a).1), GLOBAL_MAX, GLOBAL_WINDOW, a.later)
    ensures Throttled(KeyFailures(Respond(log, a).1, key), FAIL_MAX_PER_KEY, FAIL_WINDOW, a.later)
  {
    match Respond(log, a).0
    case InvalidCredentials =>
      LogAppend(log, Failure(KeyOf(a), a.later), key);
      ThrottledAppend(AllFailures(log), GLOBAL_MAX, GLOBAL_WINDOW, clock, a.now, a.later);
      if KeyOf(a) == key {
        ThrottledAppend(KeyFailures(log, key), FAIL_MAX_PER_KEY, FAIL_WINDOW, clock, a.now, a.later);
      }
    case LoggedIn =>
      LogAppend(log, Cleared(KeyOf(a)), key);
    case _ =>
  }

  lemma BlocksExactly(log: seq<Event>, key: string, now: real)
    requires Ordered(AllFailures(log)) && Ordered(KeyFailures(log, key))
    ensures Blocks(log, key, now) <==>
            Crowded(AllFailures(log), 30, now, 300.0) || Crowded(KeyFailures(log, key), 5, now, 900.0)
  {
    WindowFull(AllFailures(log), GLOBAL_MAX, now, GLOBAL_WINDOW);
    WindowFull(KeyFailures(log, key), FAIL_MAX_PER_KEY, now, FAIL_WINDOW);
  }

  /** On every run an attempt is turned away for too many failures exactly when
      the thirtieth failure back is under 300 seconds old, or the fifth back of
      its key since that key last logged in is under 900 seconds old. */
  lemma TurnedAwayExactly(attempts: seq<Attempt>, a: Attempt)
    requires InSequence(attempts) && EndOf(attempts) <= a.now
    ensures var log := RespondAll(attempts).1;
      Respond(log, a).0 == TooManyAttempts <==>
        && Strip(a.email) != "" && a.hasPassword
        && (Crowded(AllFailures(log), 30, a.now, 300.0) || Crowded(KeyFailures(log, KeyOf(a)), 5, a.now, 900.0))
  {
    RunsAreThrottled(attempts, KeyOf(a));
    BlocksExactly(RespondAll(attempts).1, KeyOf(a), a.now);
  }

  function EndOf(attempts: seq<Attempt>): real {
    if attempts == [] then 0.0 else attempts[|attempts| - 1].later
  }

  /** What the throttle is for: on every run no window of 300 seconds sees more
      than 30 failures, and none of 900 seconds more than 5 of one key between
      two of its logins. */
  lemma {:induction false} RunsAreThrottled(attempts: seq<Attempt>, key: string)
    requires InSequence(attempts)
    ensures Throttled(AllFailures(RespondAll(attempts).1), GLOBAL_MAX, GLOBAL_WINDOW, EndOf(attempts))
    ensures Throttled(KeyFailures(RespondAll(attempts).1, key), FAIL_MAX_PER_KEY, FAIL_WINDOW, EndOf(attempts))
  {
    if attempts != [] {
      var front, a := attempts[..|attempts| - 1], attempts[|attempts| - 1];
      RunsAreThrottled(front, key);
      ResponseIsThrottled(RespondAll(front).1, a, EndOf(front), key);
    }
  }

  /** On every run the real limiter gives the answers of the limiter that keeps
      every failure forever and ends within its memory bound; as every prefix of
      a run is a run, so it is after each attempt. */
  method Serve(limiter: Limiter, attempts: seq<Attempt>) returns (outcomes: seq<Outcome>)
    requires limiter.Valid() && limiter.log == [] && limiter.clock == 0.0 && InSequence(attempts)
    modifies limiter
    ensures (outcomes, limiter.log) == RespondAll(attempts)
    ensures limiter.Valid() && |limiter.failures| <= 1000 && |limiter.failuresGlobal| <= 30
    ensures forall key :: key in limiter.failures ==> |limiter.failures[key]| <= 5
  {
    outcomes := [];
    for i := 0 to |attempts|
      invariant limiter.Valid()
      invariant forall j :: i <= j < |attempts| ==> limiter.clock <= attempts[j].now
      invariant (outcomes, limiter.log) == RespondAll(attempts[..i])
    {
      assert attempts[..i + 1][..i] == attempts[..i];
      var outcome := limiter.HandleLogin(attempts[i]);
      outcomes := outcomes + [outcome];
    }
    assert attempts[..|attempts|] == attempts;
  }
}
