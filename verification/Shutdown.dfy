/**
 Shutdown supervision of arbiter/main.py after the API has started: watched
 tasks, operating-system signals and the shutdown sequence, interleaved at every
 point where the event loop may switch.
 */
module Shutdown {
  import opened Options

  /** How a task ended; a crash carries the exception (a number). */
  datatype End = Returned | Crashed(exc: nat) | Cancelled

  datatype Task = Running(cancelRequested: bool) | Finished(end: End, notified: bool)

  /** What callback and signal handler share: shutdown_state, shutdown_event and
      fatal_error_holder. */
  datatype Flags = Flags(inProgress: bool, event: bool, fatal: Option<nat>)

  /** Where the main coroutine is: waiting for the event, in prepare_shutdown,
      about to cancel the k-th task, past the drain, or out of run_system;
      Killed is os._exit(1). */
  datatype Phase = Waiting | Preparing | Cancelling(k: nat) | Drained | Exited(raised: Option<nat>) | Killed

  datatype State = State(tasks: seq<Task>, flags: Flags, phase: Phase)

  datatype Event =
    | Signal                     // SIGINT or SIGTERM
    | Finish(i: nat, end: End)   // a task ends, of itself or because it was cancelled
    | Notify(i: nat)             // its done callback runs
    | Wake                       // the main coroutine sees the event
    | Prepared                   // prepare_shutdown returned, raised or timed out
    | CancelNext                 // the sequence cancels the next task
    | Drain                      // gather: every task has ended
    | Exit                       // cleanup is over

  predicate Alive(p: Phase) {
    !p.Exited? && !p.Killed?
  }

  predicate Enabled(s: State, e: Event) {
    Alive(s.phase) && match e
      case Signal => true
      case Finish(i, _) => i < |s.tasks| && s.tasks[i].Running?
      case Notify(i) => i < |s.tasks| && s.tasks[i].Finished? && !s.tasks[i].notified
      case Wake => s.phase.Waiting? && s.flags.event
      case Prepared => s.phase.Preparing?
      case CancelNext => s.phase.Cancelling? && s.phase.k < |s.tasks|
      case Drain => s.phase == Cancelling(|s.tasks|) && forall t :: t in s.tasks ==> t.Finished?
      case Exit => s.phase.Drained?
  }

  /** _on_done */
  function OnDone(f: Flags, end: End): Flags {
    if f.inProgress || end.Cancelled? then f
    else Flags(true, true, if end.Crashed? && f.fatal.None? then Some(end.exc) else f.fatal)
  }

  function Step(s: State, e: Event): State
    requires Enabled(s, e)
  {
    match e
    case Signal =>
      if s.flags.inProgress then s.(phase := Killed)
      else s.(flags := s.flags.(inProgress := true, event := true))
    case Finish(i, end) => s.(tasks := s.tasks[i := Finished(end, false)])
    case Notify(i) =>
      var end := s.tasks[i].end;
      s.(tasks := s.tasks[i := Finished(end, true)], flags := OnDone(s.flags, end))
    case Wake => s.(phase := Preparing)
    case Prepared => s.(phase := Cancelling(0))
    case CancelNext =>
      var k := s.phase.k;
      s.(tasks := if s.tasks[k].Running? then s.tasks[k := Running(true)] else s.tasks, phase := Cancelling(k + 1))
    case Drain => s.(phase := Drained)
    case Exit => s.(phase := Exited(s.flags.fatal))
  }

  predicate CanRun(s: State, es: seq<Event>)
    decreases |es|, 0
  {
    es == [] || (CanRun(s, es[..|es| - 1]) && Enabled(Run(s, es[..|es| - 1]), es[|es| - 1]))
  }

  function Run(s: State, es: seq<Event>): State
    requires CanRun(s, es)
    decreases |es|, 1
  {
    if es == [] then s else Step(Run(s, es[..|es| - 1]), es[|es| - 1])
  }

  /** After startup: every task runs, nothing has happened. */
  predicate Starting(s: State) {
    && (forall t :: t in s.tasks ==> t == Running(false))
    && s.flags == Flags(false, false, None) && s.phase == Waiting
  }

  lemma {:induction false} RunPrefix(s: State, es: seq<Event>, n: nat)
    requires CanRun(s, es) && n <= |es|
    ensures CanRun(s, es[..n])
    ensures n < |es| ==> Enabled(Run(s, es[..n]), es[n]) && es[..n + 1][..n] == es[..n]
                         && CanRun(s, es[..n + 1]) && Run(s, es[..n + 1]) == Step(Run(s, es[..n]), es[n])
    decreases |es|
  {
    if n == |es| {
      assert es[..n] == es;
    } else {
      var front := es[..|es| - 1];
      if n < |front| {
        RunPrefix(s, front, n);
        assert front[..n] == es[..n] && front[..n + 1] == es[..n + 1];
      } else {
        assert es[..n] == front && es[..n + 1] == es;
      }
    }
  }

  // --------------------------------------------------- what began the shutdown

  /** The event begins the shutdown: a signal, or the callback of a task that was
      not cancelled, while none is in progress. */
  predicate Begins(s: State, e: Event)
    requires Enabled(s, e)
  {
    !s.flags.inProgress && (e.Signal? || (e.Notify? && !s.tasks[e.i].end.Cancelled?))
  }

  datatype Cause = NotYet | BySignal | ByExit | ByCrash(exc: nat)

  /** What began the shutdown, read off the run. */
  function CauseOf(s: State, es: seq<Event>): Cause
    requires CanRun(s, es)
    decreases |es|
  {
    if es == [] then NotYet
    else
      var front, e := es[..|es| - 1], es[|es| - 1];
      var before, at := CauseOf(s, front), Run(s, front);
      if before != NotYet || !Begins(at, e) then before
      else match e
        case Notify(i) => if at.tasks[i].end.Crashed? then ByCrash(at.tasks[i].end.exc) else ByExit
        case _ => BySignal
  }

  /** How often the fatal-error holder was written. */
  function FatalWrites(s: State, es: seq<Event>): nat
    requires CanRun(s, es)
    decreases |es|
  {
    if es == [] then 0
    else
      var front := es[..|es| - 1];
      FatalWrites(s, front) + if Run(s, es).flags.fatal != Run(s, front).flags.fatal then 1 else 0
  }

  /** In every interleaving the holder is written at most once, and it holds an
      exception exactly when a crash, and that crash, began the shutdown. */
  lemma {:induction false} FatalIsTheCause(s: State, es: seq<Event>)
    requires Starting(s) && CanRun(s, es)
    ensures var end, cause := Run(s, es), CauseOf(s, es);
      && (end.flags.inProgress <==> cause != NotYet)
      && (end.flags.event <==> end.flags.inProgress)
      && end.flags.fatal == (if cause.ByCrash? then Some(cause.exc) else None)
      && FatalWrites(s, es) == (if cause.ByCrash? then 1 else 0)
    decreases |es|
  {
    if es != [] { FatalIsTheCause(s, es[..|es| - 1]); }
  }

  /** run_system ends by raising an exception exactly when the shutdown began
      with the crash that carried it. */
  lemma ExitRaisesTheCause(s: State, es: seq<Event>)
    requires Starting(s) && CanRun(s, es) && Run(s, es).phase.Exited?
    ensures Run(s, es).phase.raised == if CauseOf(s, es).ByCrash? then Some(CauseOf(s, es).exc) else None
    ensures CauseOf(s, es) != NotYet && forall t :: t in Run(s, es).tasks ==> t.Finished?
  {
    ExitKeepsFatal(s, es);
    FatalIsTheCause(s, es);
  }

  lemma {:induction false} ExitKeepsFatal(s: State, es: seq<Event>)
    requires Starting(s) && CanRun(s, es)
    ensures Run(s, es).phase.Exited? ==> Run(s, es).phase.raised == Run(s, es).flags.fatal
    ensures !Run(s, es).phase.Waiting? && !Run(s, es).phase.Killed? ==> Run(s, es).flags.event
    ensures Run(s, es).phase.Drained? || Run(s, es).phase.Exited? ==> forall t :: t in Run(s, es).tasks ==> t.Finished?
    decreases |es|
  {
    if es != [] { ExitKeepsFatal(s, es[..|es| - 1]); }
  }

  // ---------------------------------------------------------------- ordering

  lemma {:induction false} FindBegin(s: State, es: seq<Event>) returns (a: nat)
    requires Starting(s) && CanRun(s, es) && Run(s, es).flags.inProgress
    ensures a < |es| && CanRun(s, es[..a]) && Enabled(Run(s, es[..a]), es[a]) && Begins(Run(s, es[..a]), es[a])
    decreases |es|
  {
    var front := es[..|es| - 1];
    if Run(s, front).flags.inProgress {
      a := FindBegin(s, front);
      assert front[..a] == es[..a];
    } else {
      a := |es| - 1;
    }
  }

  lemma {:induction false} FindWake(s: State, es: seq<Event>) returns (b: nat)
    requires Starting(s) && CanRun(s, es) && !Run(s, es).phase.Waiting? && !Run(s, es).phase.Killed?
    ensures b < |es| && es[b] == Wake
    decreases |es|
  {
    if Run(s, es[..|es| - 1]).phase.Waiting? { b := |es| - 1; } else { b := FindWake(s, es[..|es| - 1]); }
  }

  predicate PastPrepare(p: Phase) {
    p.Cancelling? || p.Drained? || p.Exited?
  }

  lemma {:induction false} FindPrepared(s: State, es: seq<Event>) returns (c: nat)
    requires Starting(s) && CanRun(s, es) && PastPrepare(Run(s, es).phase)
    ensures c < |es| && es[c] == Prepared
    decreases |es|
  {
    if PastPrepare(Run(s, es[..|es| - 1]).phase) { c := FindPrepared(s, es[..|es| - 1]); } else { c := |es| - 1; }
  }

  /** Orders before tasks: whenever the sequence cancels a task, something began
      the shutdown, then the main coroutine woke, then prepare_shutdown returned,
      raised or timed out, in this order and all before. */
  lemma CancelComesLast(s: State, es: seq<Event>, k: nat) returns (a: nat, b: nat, c: nat)
    requires Starting(s) && CanRun(s, es) && k < |es| && es[k] == CancelNext
    ensures a < b < c < k && es[b] == Wake && es[c] == Prepared
    ensures CanRun(s, es[..a]) && Enabled(Run(s, es[..a]), es[a]) && Begins(Run(s, es[..a]), es[a])
  {
    RunPrefix(s, es, k);
    c := FindPrepared(s, es[..k]);
    RunPrefix(s, es, c);
    assert es[..k][c] == es[c];
    b := FindWake(s, es[..c]);
    RunPrefix(s, es, b);
    assert es[..c][b] == es[b];
    FatalIsTheCause(s, es[..b]);
    a := FindBegin(s, es[..b]);
    assert es[..b][..a] == es[..a] && es[..b][a] == es[a];
  }

  /** Nor does any task carry a cancel request before then. */
  lemma {:induction false} RequestNeedsPrepare(s: State, es: seq<Event>, i: nat)
    requires Starting(s) && CanRun(s, es)
    requires i < |Run(s, es).tasks| && Run(s, es).tasks[i] == Running(true)
    ensures exists c :: 0 <= c < |es| && es[c] == Prepared
    decreases |es|
  {
    assert i < |s.tasks| ==> s.tasks[i] in s.tasks;
    if es != [] {
      var front := es[..|es| - 1];
      var before := Run(s, front);
      if before.tasks[i] == Running(true) {
        RequestNeedsPrepare(s, front, i);
        var c :| 0 <= c < |front| && front[c] == Prepared;
        assert es[c] == Prepared;
      } else {
        var c := FindPrepared(s, front);
        assert es[c] == Prepared;
      }
    }
  }

  /** The first k tasks have ended or carry a cancel request. */
  predicate AskedToStop(tasks: seq<Task>, k: nat) {
    forall j :: 0 <= j < k && j < |tasks| ==> tasks[j].Finished? || tasks[j] == Running(true)
  }

  /** How many tasks the sequence has been through. */
  function Covered(s: State): nat {
    match s.phase
    case Cancelling(k) => k
    case Drained => |s.tasks|
    case Exited(_) => |s.tasks|
    case _ => 0
  }

  lemma StepAsks(s: State, e: Event)
    requires Enabled(s, e) && AskedToStop(s.tasks, Covered(s)) && Covered(s) <= |s.tasks|
    ensures AskedToStop(Step(s, e).tasks, Covered(Step(s, e))) && Covered(Step(s, e)) <= |Step(s, e).tasks|
    ensures |Step(s, e).tasks| == |s.tasks|
  {
  }

  /** The sequence leaves nobody out: on every run the tasks it has been through
      have ended or been asked to stop, so when it waits for them to end, all have. */
  lemma {:induction false} SequenceAsksAll(s: State, es: seq<Event>)
    requires Starting(s) && CanRun(s, es)
    ensures var end := Run(s, es);
      && |end.tasks| == |s.tasks| && Covered(end) <= |end.tasks| && AskedToStop(end.tasks, Covered(end))
      && (end.phase == Cancelling(|end.tasks|) ==> AskedToStop(end.tasks, |end.tasks|))
    decreases |es|
  {
    if es != [] {
      SequenceAsksAll(s, es[..|es| - 1]);
      StepAsks(Run(s, es[..|es| - 1]), es[|es| - 1]);
    }
  }

  /** A task that has ended stays as it ended. */
  lemma EndIsFinal(s: State, e: Event, i: nat)
    requires Enabled(s, e) && i < |s.tasks| && s.tasks[i].Finished?
    ensures |Step(s, e).tasks| == |s.tasks|
    ensures Step(s, e).tasks[i].Finished? && Step(s, e).tasks[i].end == s.tasks[i].end
    ensures s.tasks[i].notified ==> Step(s, e).tasks[i].notified
  {
  }

  // ------------------------------------------------------- nothing gets stuck

  function Unfinished(tasks: seq<Task>): nat {
    if tasks == [] then 0 else (if tasks[0].Running? then 1 else 0) + Unfinished(tasks[1..])
  }

  lemma {:induction false} OneFewer(tasks: seq<Task>, i: nat, end: End)
    requires i < |tasks| && tasks[i].Running?
    ensures Unfinished(tasks[i := Finished(end, false)]) == Unfinished(tasks) - 1
  {
    var after := tasks[i := Finished(end, false)];
    if i > 0 {
      OneFewer(tasks[1..], i - 1, end);
      assert after[1..] == tasks[1..][i - 1 := Finished(end, false)];
    }
  }

  /** How far a state is from the end. */
  function Distance(s: State): nat {
    match s.phase
    case Waiting => |s.tasks| + Unfinished(s.tasks) + 5
    case Preparing => |s.tasks| + Unfinished(s.tasks) + 4
    case Cancelling(k) => (if k <= |s.tasks| then |s.tasks| - k else 0) + Unfinished(s.tasks) + 3
    case Drained => 1
    case _ => 0
  }

  lemma {:induction false} SameUnfinished(tasks: seq<Task>, i: nat)
    requires i < |tasks| && tasks[i].Running?
    ensures Unfinished(tasks[i := Running(true)]) == Unfinished(tasks)
  {
    var after := tasks[i := Running(true)];
    if i > 0 {
      SameUnfinished(tasks[1..], i - 1);
      assert after[1..] == tasks[1..][i - 1 := Running(true)];
    }
  }

  /** What can happen next on the way out, if the tasks do end once asked to. */
  lemma NextStep(s: State) returns (e: Event)
    requires Alive(s.phase) && s.flags.event && Covered(s) <= |s.tasks|
    ensures Enabled(s, e) && Distance(Step(s, e)) < Distance(s) && !Step(s, e).phase.Killed? && !e.Signal?
    ensures Step(s, e).flags.event
  {
    match s.phase {
      case Waiting => e := Wake;
      case Preparing => e := Prepared;
      case Cancelling(k) =>
        if k < |s.tasks| {
          e := CancelNext;
          if s.tasks[k].Running? { SameUnfinished(s.tasks, k); }
        } else if i: nat :| i < |s.tasks| && s.tasks[i].Running? {
          e := Finish(i, Cancelled);
          OneFewer(s.tasks, i, Cancelled);
        } else {
          e := Drain;
          assert forall t :: t in s.tasks ==> t.Finished?;
        }
      case Drained => e := Exit;
    }
  }

  /** Once begun, a shutdown that is not forced can always be completed: from every
      reachable state some continuation without a further signal exits. */
  lemma {:induction false} ShutdownCanFinish(s: State, es: seq<Event>) returns (more: seq<Event>)
    requires Starting(s) && CanRun(s, es) && Run(s, es).flags.inProgress && !Run(s, es).phase.Killed?
    ensures CanRun(s, es + more) && Run(s, es + more).phase.Exited? && Signal !in more
    decreases Distance(Run(s, es))
  {
    var now := Run(s, es);
    if now.phase.Exited? {
      more := [];
      assert es + more == es;
    } else {
      FatalIsTheCause(s, es);
      SequenceAsksAll(s, es);
      var e := NextStep(now);
      RunOneMore(s, es, e);
      FatalIsTheCause(s, es + [e]);
      var rest := ShutdownCanFinish(s, es + [e]);
      more := [e] + rest;
      assert es + more == es + [e] + rest;
    }
  }

  /** The escape hatch: any signal once the shutdown has begun, by whatever
      cause, ends the process on the spot. */
  lemma SignalDuringShutdownKills(s: State, es: seq<Event>, k: nat)
    requires Starting(s) && CanRun(s, es) && k < |es| && es[k] == Signal
    requires CanRun(s, es[..k]) && CauseOf(s, es[..k]) != NotYet
    ensures |es| == k + 1 && Run(s, es).phase == Killed
  {
    RunPrefix(s, es, k);
    FatalIsTheCause(s, es[..k]);
    if k + 1 < |es| {
      RunPrefix(s, es, k + 1);
    } else {
      assert es[..k + 1] == es;
    }
  }

  /** ... and nothing else does: the process is killed exactly when the last event
      was a signal and the shutdown had begun before. */
  lemma KilledExactly(s: State, es: seq<Event>)
    requires Starting(s) && CanRun(s, es)
    ensures Run(s, es).phase.Killed? <==>
            es != [] && es[|es| - 1] == Signal && CauseOf(s, es[..|es| - 1]) != NotYet
  {
    if es != [] { FatalIsTheCause(s, es[..|es| - 1]); }
  }

  /** So it need not take a second signal: once a task has crashed, or returned,
      the first signal kills, and no order has been cancelled. */
  lemma FirstSignalMayKill(s: State, i: nat, end: End)
    requires Starting(s) && i < |s.tasks| && !end.Cancelled?
    ensures var es := [Finish(i, end), Notify(i), Signal];
      CanRun(s, es) && Run(s, es).phase.Killed? && Run(s, es[..2]).phase.Waiting?
  {
    assert s.tasks[i] in s.tasks;
    RunOneMore(s, [], Finish(i, end));
    assert [] + [Finish(i, end)] == [Finish(i, end)];
    assert [Finish(i, end)] + [Notify(i)] == [Finish(i, end), Notify(i)];
    assert [Finish(i, end), Notify(i)] + [Signal] == [Finish(i, end), Notify(i), Signal];
    RunOneMore(s, [Finish(i, end)], Notify(i));
    RunOneMore(s, [Finish(i, end), Notify(i)], Signal);
    var es := [Finish(i, end), Notify(i), Signal];
    assert es[..2] == [Finish(i, end), Notify(i)];
  }

  lemma RunOneMore(s: State, es: seq<Event>, e: Event)
    requires CanRun(s, es) && Enabled(Run(s, es), e)
    ensures CanRun(s, es + [e]) && Run(s, es + [e]) == Step(Run(s, es), e)
  {
    assert (es + [e])[..|es|] == es;
  }

  // -------------------------------------------------- whether shutdown begins

  /** The event asks for a shutdown: a signal, or a task that ended without having
      been cancelled. */
  predicate Asks(at: State, e: Event)
    requires Enabled(at, e)
  {
    match e
    case Signal => true
    case Notify(i) => !at.tasks[i].end.Cancelled?
    case _ => false
  }

  predicate AsksAt(s: State, es: seq<Event>, k: nat)
    requires k < |es|
  {
    CanRun(s, es[..k]) && Enabled(Run(s, es[..k]), es[k]) && Asks(Run(s, es[..k]), es[k])
  }

  ghost predicate Asked(s: State, es: seq<Event>) {
    exists k :: 0 <= k < |es| && AsksAt(s, es, k)
  }

  lemma AsksBefore(s: State, front: seq<Event>, e: Event, k: nat)
    requires k < |front|
    ensures AsksAt(s, front + [e], k) <==> AsksAt(s, front, k)
  {
    assert (front + [e])[..k] == front[..k];
  }

  lemma AskedOneMore(s: State, front: seq<Event>, e: Event)
    ensures Asked(s, front + [e]) <==> Asked(s, front) || AsksAt(s, front + [e], |front|)
  {
    forall k | 0 <= k < |front| ensures AsksAt(s, front + [e], k) <==> AsksAt(s, front, k) {
      AsksBefore(s, front, e, k);
    }
  }

  /** A shutdown is in progress exactly when it has been asked for.  A watched task
      that ends cancelled asks for nothing. */
  lemma {:induction false} BegunExactly(s: State, es: seq<Event>)
    requires Starting(s) && CanRun(s, es)
    ensures Run(s, es).flags.inProgress <==> Asked(s, es)
    decreases |es|
  {
    if es != [] {
      var front, e := es[..|es| - 1], es[|es| - 1];
      assert es == front + [e];
      AskedOneMore(s, front, e);
      BegunExactly(s, front);
    }
  }

  // ------------------------------------------------------ the shared objects

  /** The flags with the closures that write them. */
  class Supervisor {
    var inProgress: bool
    var event: bool
    var fatal: Option<nat>
    var forcedExit: bool

    constructor ()
      ensures Current() == Flags(false, false, None) && !forcedExit
    {
      inProgress, event, fatal, forcedExit := false, false, None, false;
    }

    function Current(): Flags
      reads this
    {
      Flags(inProgress, event, fatal)
    }

    /** The done callback of a watched task. */
    method NotifyDone(end: End)
      modifies this
      ensures Current() == OnDone(old(Current()), end) && forcedExit == old(forcedExit)
    {
      if inProgress { return; }
      if end.Cancelled? { return; }
      if end.Crashed? && fatal.None? { fatal := Some(end.exc); }
      inProgress := true;
      event := true;
    }

    /** The signal handler. */
    method HandleShutdown(ghost s: State)
      requires s.flags == Current() && Enabled(s, Signal)
      modifies this
      ensures Current() == Step(s, Signal).flags
      ensures forcedExit <==> old(forcedExit) || Step(s, Signal).phase == Killed
    {
      if inProgress {
        forcedExit := true;
        return;
      }
      inProgress := true;
      event := true;
    }
  }
}
