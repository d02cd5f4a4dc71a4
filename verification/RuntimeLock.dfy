/**
 arbiter/runtime_lock.py as interleaved system calls on one path.  An actor is an
 open file of some lock object in some process: it opens, locks, writes, unlocks
 and unlinks.  Actors are numbered; a process that acquires twice has two.  Inode
 numbers are never reused.
 */
module RuntimeLock {
  import opened Options

  /** Where an actor stands; the inode is that of its open descriptor. */
  datatype Phase = Idle | Opened(inode: nat) | Locked(inode: nat) | Held(inode: nat) | Unlocked

  /** The file the path names, the next inode number, the actor whose process last
      wrote its pid into each file, and every actor's phase (Idle when absent). */
  datatype World = World(path: Option<nat>, next: nat, text: map<nat, nat>, phases: map<nat, Phase>)

  datatype Event =
    | Open(who: nat)
    | Flock(who: nat)
    | WritePid(who: nat)
    | Unlock(who: nat)
    | Unlink(who: nat)
    | Crash(who: nat)

  const START := World(None, 0, map[], map[])

  function At(w: World, p: nat): Phase {
    if p in w.phases then w.phases[p] else Idle
  }

  /** The actor has the flock on this inode. */
  predicate Has(w: World, p: nat, inode: nat) {
    At(w, p) == Locked(inode) || At(w, p) == Held(inode)
  }

  predicate Free(w: World, inode: nat) {
    forall p :: p in w.phases ==> !Has(w, p, inode)
  }

  function Move(w: World, p: nat, phase: Phase): World {
    w.(phases := w.phases[p := phase])
  }

  predicate Enabled(w: World, e: Event) {
    match e
    case Open(p) => At(w, p).Idle?
    case Flock(p) => At(w, p).Opened?
    case WritePid(p) => At(w, p).Locked?
    case Unlock(p) => At(w, p).Held?
    case Unlink(p) => At(w, p).Unlocked?
    case Crash(p) => true
  }

  /** One system call.  The kernel drops a crashed process's lock; a refused
      flock closes the descriptor and raises. */
  function Step(w: World, e: Event): World
    requires Enabled(w, e)
  {
    match e
    case Open(p) =>
      if w.path.Some? then Move(w, p, Opened(w.path.value))
      else Move(w.(path := Some(w.next), next := w.next + 1), p, Opened(w.next))
    case Flock(p) =>
      var inode := At(w, p).inode;
      if Free(w, inode) then Move(w, p, Locked(inode)) else Move(w, p, Idle)
    case WritePid(p) =>
      var inode := At(w, p).inode;
      Move(w.(text := w.text[inode := p]), p, Held(inode))
    case Unlock(p) => Move(w, p, Unlocked)
    case Unlink(p) => Move(w.(path := None), p, Idle)
    case Crash(p) => Move(w, p, Idle)
  }

  predicate CanRun(w: World, es: seq<Event>)
    decreases |es|
  {
    es == [] || (Enabled(w, es[0]) && CanRun(Step(w, es[0]), es[1..]))
  }

  function Run(w: World, es: seq<Event>): World
    requires CanRun(w, es)
    decreases |es|
  {
    if es == [] then w else Run(Step(w, es[0]), es[1..])
  }

  // ------------------------------------------------- what every run keeps

  ghost predicate Known(w: World, phase: Phase) {
    match phase
    case Opened(n) => n < w.next
    case Locked(n) => n < w.next
    case Held(n) => n < w.next
    case _ => true
  }

  /** No inode is locked twice, a finished holder's pid is what its file says,
      and every inode in use has been handed out. */
  ghost predicate Sound(w: World) {
    && (forall p, q, n :: Has(w, p, n) && Has(w, q, n) ==> p == q)
    && (forall p :: At(w, p).Held? ==> At(w, p).inode in w.text && w.text[At(w, p).inode] == p)
    && (forall p :: Known(w, At(w, p)))
    && (w.path.Some? ==> w.path.value < w.next)
  }

  /** A step moves nobody but its own process. */
  lemma StepAt(w: World, e: Event, q: nat)
    requires Enabled(w, e)
    ensures q != e.who ==> At(Step(w, e), q) == At(w, q)
    ensures q == e.who ==> At(Step(w, e), q) == Reached(w, e)
  {
  }

  /** The phase in which a step leaves its own process. */
  function Reached(w: World, e: Event): Phase
    requires Enabled(w, e)
  {
    match e
    case Open(_) => Opened(if w.path.Some? then w.path.value else w.next)
    case Flock(p) => if Free(w, At(w, p).inode) then Locked(At(w, p).inode) else Idle
    case WritePid(p) => Held(At(w, p).inode)
    case Unlock(_) => Unlocked
    case Unlink(_) => Idle
    case Crash(_) => Idle
  }

  lemma StepSound(w: World, e: Event)
    requires Sound(w) && Enabled(w, e)
    ensures Sound(Step(w, e))
  {
    var w' := Step(w, e);
    forall q ensures q != e.who ==> At(w', q) == At(w, q) { StepAt(w, e, q); }
    forall p, q, n | Has(w', p, n) && Has(w', q, n) ensures p == q {
      assert p != e.who ==> Has(w, p, n) && p in w.phases;
      assert q != e.who ==> Has(w, q, n) && q in w.phases;
      assert !e.Flock? && Has(w', e.who, n) ==> Has(w, e.who, n);
    }
    if e.WritePid? {
      forall q | At(w', q).Held? ensures At(w', q).inode in w'.text && w'.text[At(w', q).inode] == q {
        if q != e.who { assert Has(w, e.who, At(w, e.who).inode) && Has(w, q, At(w, q).inode); }
      }
    }
  }

  /** In every interleaving: at most one holder per inode, and the file of one
      that has finished acquiring names it. */
  lemma {:induction false} RunSound(w: World, es: seq<Event>)
    requires Sound(w) && CanRun(w, es)
    ensures Sound(Run(w, es))
    decreases |es|
  {
    if es != [] {
      StepSound(w, es[0]);
      RunSound(Step(w, es[0]), es[1..]);
    }
  }

  /** A crash frees the lock: whatever inode the actor had is free afterwards, and
      everybody else keeps what they had. */
  lemma CrashFrees(w: World, p: nat)
    requires Sound(w)
    ensures var w' := Step(w, Crash(p));
      && w'.path == w.path && w'.text == w.text
      && (forall n :: Has(w, p, n) ==> Free(w', n))
      && (forall q, n :: Has(w', q, n) <==> Has(w, q, n) && q != p)
  {
    var w' := Step(w, Crash(p));
    forall q ensures At(w', q) == if q == p then Idle else At(w, q) { StepAt(w, Crash(p), q); }
    forall n | Has(w, p, n) ensures Free(w', n) {
      forall q | q in w'.phases ensures !Has(w', q, n) { assert Has(w, q, n) ==> q == p; }
    }
  }

  /** So after a holder's crash any idle process can take the path over. */
  lemma CrashedHolderIsReplaced(w: World, p: nat, q: nat)
    requires Sound(w) && p != q && At(w, q).Idle?
    requires w.path.Some? && Has(w, p, w.path.value)
    ensures CanRun(w, [Crash(p), Open(q)] + [Flock(q)])
    ensures Has(Run(w, [Crash(p), Open(q)] + [Flock(q)]), q, w.path.value)
  {
    CrashFrees(w, p);
    var w1 := Step(w, Crash(p));
    StepSound(w, Crash(p));
    StepAt(w, Crash(p), q);
    var w2 := Step(w1, Open(q));
    OpenedFree(w1, q);
    RunTwo(w, Crash(p), Open(q));
    RunOne(w2, Flock(q));
    StepAt(w2, Flock(q), q);
    RunAppend(w, [Crash(p), Open(q)], [Flock(q)]);
  }

  // ------------------------------------------------------ holding the path

  predicate Holds(w: World, p: nat) {
    At(w, p).Locked? || At(w, p).Held?
  }

  ghost predicate Exclusive(w: World) {
    forall p, q :: Holds(w, p) && Holds(w, q) ==> p == q
  }

  /** A holder of a file the path no longer names. */
  predicate Orphan(w: World, p: nat) {
    Holds(w, p) && w.path != Some(At(w, p).inode)
  }

  ghost predicate NoOrphans(w: World) {
    forall p :: !Orphan(w, p)
  }

  /** The two steps that go wrong: locking a file that has been unlinked since
      it was opened, and unlinking a file that somebody else has locked. */
  ghost predicate Race(w: World, e: Event)
    requires Enabled(w, e)
  {
    match e
    case Flock(p) => Free(w, At(w, p).inode) && w.path != Some(At(w, p).inode)
    case Unlink(p) => exists q :: Holds(w, q)
    case _ => false
  }

  lemma NoOrphansExclusive(w: World)
    requires Sound(w) && NoOrphans(w)
    ensures Exclusive(w)
  {
    forall p, q | Holds(w, p) && Holds(w, q) ensures p == q {
      assert !Orphan(w, p) && !Orphan(w, q);
      assert Has(w, p, w.path.value) && Has(w, q, w.path.value);
    }
  }

  /** Exactly those steps orphan a holder. */
  lemma StepOrphans(w: World, e: Event)
    requires Sound(w) && NoOrphans(w) && Enabled(w, e)
    ensures NoOrphans(Step(w, e)) <==> !Race(w, e)
  {
    var w' := Step(w, e);
    forall q ensures q != e.who ==> At(w', q) == At(w, q) { StepAt(w, e, q); }
    StepAt(w, e, e.who);
    match e {
      case Flock(p) =>
        if Race(w, e) { assert Orphan(w', p); } else { forall q ensures !Orphan(w', q) { assert !Orphan(w, q); } }
      case Unlink(p) =>
        if q :| Holds(w, q) {
          assert Orphan(w', q);
        } else {
          forall q ensures !Orphan(w', q) { assert !Holds(w, q); }
        }
      case Open(p) =>
        forall q ensures !Orphan(w', q) { assert !Orphan(w, q); }
      case WritePid(p) =>
        forall q ensures !Orphan(w', q) { assert !Orphan(w, q); }
      case _ =>
        forall q ensures !Orphan(w', q) { assert !Orphan(w, q); }
    }
  }

  /** Once a holder is orphaned, two more calls of any idle process are enough
      for two processes to hold the path at once. */
  lemma OrphanLosesExclusion(w: World, p: nat, q: nat)
    requires Sound(w) && Orphan(w, p) && At(w, q).Idle?
    ensures CanRun(w, [Open(q)]) && CanRun(w, [Open(q), Flock(q)])
    ensures !Exclusive(w) || !Exclusive(Run(w, [Open(q), Flock(q)]))
  {
    var w1 := Step(w, Open(q));
    var w2 := Step(w1, Flock(q));
    RunOne(w, Open(q));
    RunTwo(w, Open(q), Flock(q));
    StepAt(w, Open(q), p);
    StepAt(w1, Flock(q), p);
    var m := At(w1, q).inode;
    if Free(w1, m) {
      assert Holds(w2, q) && Holds(w2, p) && p != q;
    } else {
      var other :| other in w1.phases && Has(w1, other, m);
      StepAt(w, Open(q), other);
      assert Holds(w, other) && Holds(w, p) && At(w, p).inode != m;
    }
  }

  /** No race occurs along the run. */
  ghost predicate RaceFree(w: World, es: seq<Event>)
    requires CanRun(w, es)
    decreases |es|
  {
    es == [] || (!Race(w, es[0]) && RaceFree(Step(w, es[0]), es[1..]))
  }

  /** A run without races keeps every holder on the path's own file, so at most
      one process holds the path at its end (and, its prefixes being such runs,
      throughout). */
  lemma {:induction false} RaceFreeRunExclusive(w: World, es: seq<Event>)
    requires Sound(w) && NoOrphans(w) && CanRun(w, es) && RaceFree(w, es)
    ensures NoOrphans(Run(w, es)) && Exclusive(Run(w, es))
    decreases |es|
  {
    if es == [] {
      NoOrphansExclusive(w);
    } else {
      StepOrphans(w, es[0]);
      StepSound(w, es[0]);
      RaceFreeRunExclusive(Step(w, es[0]), es[1..]);
    }
  }

  /** Along a run races are exactly what orphans holders: a run is race-free if and
      only if nobody is orphaned after any of its prefixes. */
  lemma {:induction false} RaceFreeMeans(w: World, es: seq<Event>)
    requires Sound(w) && NoOrphans(w) && CanRun(w, es)
    ensures RaceFree(w, es) <==> NeverOrphans(w, es)
    decreases |es|
  {
    if es != [] {
      StepOrphans(w, es[0]);
      StepSound(w, es[0]);
      NeverOrphansStep(w, es);
      if !Race(w, es[0]) { RaceFreeMeans(Step(w, es[0]), es[1..]); }
    }
  }

  ghost predicate NeverOrphans(w: World, es: seq<Event>)
    requires CanRun(w, es)
  {
    forall n :: 0 <= n <= |es| && CanRun(w, es[..n]) ==> NoOrphans(Run(w, es[..n]))
  }

  lemma {:induction false} CanRunPrefix(w: World, es: seq<Event>, n: nat)
    requires CanRun(w, es) && n <= |es|
    ensures CanRun(w, es[..n])
    decreases n
  {
    if n > 0 {
      CanRunPrefix(Step(w, es[0]), es[1..], n - 1);
      assert es[..n][1..] == es[1..][..n - 1];
    }
  }

  lemma PrefixStep(w: World, es: seq<Event>, n: nat)
    requires CanRun(w, es) && 0 < n <= |es|
    ensures CanRun(w, es[..n]) && CanRun(Step(w, es[0]), es[1..][..n - 1])
    ensures Run(w, es[..n]) == Run(Step(w, es[0]), es[1..][..n - 1])
  {
    CanRunPrefix(w, es, n);
    assert es[..n][1..] == es[1..][..n - 1];
  }

  lemma NeverOrphansStep(w: World, es: seq<Event>)
    requires es != [] && NoOrphans(w) && CanRun(w, es)
    ensures NeverOrphans(w, es) <==> NeverOrphans(Step(w, es[0]), es[1..])
    ensures NeverOrphans(w, es) ==> NoOrphans(Step(w, es[0]))
  {
    var w1, rest := Step(w, es[0]), es[1..];
    forall n | 0 < n <= |es|
      ensures CanRun(w, es[..n]) && CanRun(w1, rest[..n - 1]) && Run(w, es[..n]) == Run(w1, rest[..n - 1])
    {
      PrefixStep(w, es, n);
    }
    assert rest[..1 - 1] == [] && Run(w1, []) == w1;
    if NeverOrphans(w, es) {
      forall m | 0 <= m <= |rest| && CanRun(w1, rest[..m]) ensures NoOrphans(Run(w1, rest[..m])) {
        assert rest[..(m + 1) - 1] == rest[..m] && NoOrphans(Run(w, es[..m + 1]));
      }
    }
    if NeverOrphans(w1, rest) {
      forall n | 0 <= n <= |es| && CanRun(w, es[..n]) ensures NoOrphans(Run(w, es[..n])) {
        if n == 0 { assert es[..n] == []; } else { assert NoOrphans(Run(w1, rest[..n - 1])); }
      }
    }
  }

  // -------------------------------------------- open+flock, unlock+unlink as one

  datatype Call = Acquire(who: nat) | Write(who: nat) | Release(who: nat) | Die(who: nat)

  function Events(c: Call): seq<Event> {
    match c
    case Acquire(p) => [Open(p), Flock(p)]
    case Write(p) => [WritePid(p)]
    case Release(p) => [Unlock(p), Unlink(p)]
    case Die(p) => [Crash(p)]
  }

  /** No actor is between open and flock, or between unlock and unlink. */
  ghost predicate Settled(w: World) {
    forall p :: !At(w, p).Opened? && !At(w, p).Unlocked?
  }

  predicate CanCall(w: World, cs: seq<Call>)
    decreases |cs|
  {
    cs == [] || (CanRun(w, Events(cs[0])) && CanCall(Run(w, Events(cs[0])), cs[1..]))
  }

  function RunCalls(w: World, cs: seq<Call>): World
    requires CanCall(w, cs)
    decreases |cs|
  {
    if cs == [] then w else RunCalls(Run(w, Events(cs[0])), cs[1..])
  }

  lemma RunOne(w: World, e: Event)
    requires Enabled(w, e)
    ensures CanRun(w, [e]) && Run(w, [e]) == Step(w, e)
  {
    assert [e][1..] == [];
    assert CanRun(Step(w, e), []);
  }

  lemma RunTwo(w: World, e: Event, f: Event)
    requires Enabled(w, e) && Enabled(Step(w, e), f)
    ensures CanRun(w, [e, f]) && Run(w, [e, f]) == Step(Step(w, e), f)
  {
    assert [e, f][1..] == [f];
    RunOne(Step(w, e), f);
  }

  lemma CallKeeps(w: World, c: Call)
    requires Sound(w) && NoOrphans(w) && Settled(w) && CanRun(w, Events(c))
    ensures var w' := Run(w, Events(c)); Sound(w') && NoOrphans(w') && Settled(w')
  {
    match c {
      case Acquire(p) =>
        var w1 := Step(w, Open(p));
        RunTwo(w, Open(p), Flock(p));
        StepSound(w, Open(p));
        StepSound(w1, Flock(p));
        StepOrphans(w, Open(p));
        assert w1.path == Some(At(w1, p).inode);
        StepOrphans(w1, Flock(p));
        forall q ensures !At(Step(w1, Flock(p)), q).Opened? && !At(Step(w1, Flock(p)), q).Unlocked? {
          StepAt(w, Open(p), q);
          StepAt(w1, Flock(p), q);
        }
      case Write(p) =>
        RunOne(w, WritePid(p));
        StepSound(w, WritePid(p));
        StepOrphans(w, WritePid(p));
        forall q ensures q != p ==> At(Step(w, WritePid(p)), q) == At(w, q) { StepAt(w, WritePid(p), q); }
      case Release(p) =>
        var w1 := Step(w, Unlock(p));
        RunTwo(w, Unlock(p), Unlink(p));
        StepSound(w, Unlock(p));
        StepSound(w1, Unlink(p));
        StepOrphans(w, Unlock(p));
        NoOrphansExclusive(w);
        forall q ensures !Holds(w1, q) {
          StepAt(w, Unlock(p), q);
          assert At(w1, p) == Unlocked && Holds(w, p);
          assert Holds(w1, q) && q != p ==> Holds(w, q);
        }
        StepOrphans(w1, Unlink(p));
        forall q ensures !At(Step(w1, Unlink(p)), q).Opened? && !At(Step(w1, Unlink(p)), q).Unlocked? {
          StepAt(w, Unlock(p), q);
          StepAt(w1, Unlink(p), q);
        }
      case Die(p) =>
        RunOne(w, Crash(p));
        StepSound(w, Crash(p));
        StepOrphans(w, Crash(p));
        forall q ensures q != p ==> At(Step(w, Crash(p)), q) == At(w, q) { StepAt(w, Crash(p), q); }
    }
  }

  /** If open-to-flock and unlock-to-unlink each ran as one step, the holder's
      file would always be the one the path names, and the holder unique. */
  lemma {:induction false} CallsExclusive(w: World, cs: seq<Call>)
    requires Sound(w) && NoOrphans(w) && Settled(w) && CanCall(w, cs)
    ensures var w' := RunCalls(w, cs); Sound(w') && NoOrphans(w') && Exclusive(w')
    decreases |cs|
  {
    if cs == [] {
      NoOrphansExclusive(w);
    } else {
      CallKeeps(w, cs[0]);
      CallsExclusive(Run(w, Events(cs[0])), cs[1..]);
    }
  }

  /** Every run of the system, from its start: no file is held twice, and as long
      as no race occurs neither is the path. */
  lemma EveryRunIsSound(es: seq<Event>)
    requires CanRun(START, es)
    ensures Sound(Run(START, es))
    ensures RaceFree(START, es) ==> NoOrphans(Run(START, es)) && Exclusive(Run(START, es))
    ensures RaceFree(START, es) <==> NeverOrphans(START, es)
  {
    RunSound(START, es);
    RaceFreeMeans(START, es);
    if RaceFree(START, es) { RaceFreeRunExclusive(START, es); }
  }

  /** ... and if open-to-flock and unlock-to-unlink were one step each, never. */
  lemma EveryCallRunIsExclusive(cs: seq<Call>)
    requires CanCall(START, cs)
    ensures var w := RunCalls(START, cs); Sound(w) && NoOrphans(w) && Exclusive(w)
  {
    CallsExclusive(START, cs);
  }

  lemma {:induction false} RunAppend(w: World, es: seq<Event>, fs: seq<Event>)
    requires CanRun(w, es) && CanRun(Run(w, es), fs)
    ensures CanRun(w, es + fs) && Run(w, es + fs) == Run(Run(w, es), fs)
    decreases |es|
  {
    if es == [] {
      assert es + fs == fs;
    } else {
      RunAppend(Step(w, es[0]), es[1..], fs);
      assert (es + fs)[1..] == es[1..] + fs;
    }
  }

  /** As the code stands both races can happen.  While p releases, q is between
      open and flock; it then locks a file without a name, and r finds the path
      free. */
  lemma FineInterleavingLosesPath(w: World, p: nat, q: nat, r: nat)
    requires p != q && q != r && r != p
    requires Sound(w) && NoOrphans(w) && At(w, p).Held? && At(w, q).Idle? && At(w, r).Idle?
    ensures CanRun(w, Steal(p, q, r)) && Holds(Run(w, Steal(p, q, r)), q) && Holds(Run(w, Steal(p, q, r)), r)
  {
    var n := At(w, p).inode;
    assert !Orphan(w, p);
    NoOrphansExclusive(w);
    var w1 := Step(w, Open(q));
    var w2 := Step(w1, Unlock(p));
    RunTwo(w, Open(q), Unlock(p));
    assert At(w1, q) == Opened(n) && At(w2, q) == Opened(n) && At(w2, r) == Idle;
    forall o ensures !Holds(w2, o) {
      StepAt(w, Open(q), o);
      StepAt(w1, Unlock(p), o);
      assert Holds(w, p) && (Holds(w2, o) ==> Holds(w, o));
    }
    AfterRelease(w2, n, p, q, r);
    RunAppend(w, [Open(q), Unlock(p)], [Unlink(p), Flock(q)]);
    RunAppend(w, [Open(q), Unlock(p)] + [Unlink(p), Flock(q)], [Open(r), Flock(r)]);
  }

  function Steal(p: nat, q: nat, r: nat): seq<Event> {
    [Open(q), Unlock(p)] + [Unlink(p), Flock(q)] + [Open(r), Flock(r)]
  }

  lemma AfterRelease(w: World, n: nat, p: nat, q: nat, r: nat)
    requires p != q && q != r && r != p
    requires At(w, p).Unlocked? && At(w, q) == Opened(n) && At(w, r) == Idle && n < w.next
    requires forall o :: !Holds(w, o)
    ensures CanRun(w, [Unlink(p), Flock(q)])
    ensures CanRun(Run(w, [Unlink(p), Flock(q)]), [Open(r), Flock(r)])
    ensures var w' := Run(Run(w, [Unlink(p), Flock(q)]), [Open(r), Flock(r)]); Holds(w', q) && Holds(w', r)
  {
    var w1 := Step(w, Unlink(p));
    forall o ensures !Holds(w1, o) {
      StepAt(w, Unlink(p), o);
      assert !Holds(w, o);
    }
    forall o ensures !Has(w1, o, n) { assert !Holds(w1, o); }
    assert At(w1, q) == Opened(n) && Free(w1, n);
    var w2 := Step(w1, Flock(q));
    RunTwo(w, Unlink(p), Flock(q));
    var w3 := Step(w2, Open(r));
    assert At(w3, r) == Opened(w.next);
    forall o | o in w3.phases ensures !Has(w3, o, w.next) {
      StepAt(w1, Flock(q), o);
      StepAt(w2, Open(r), o);
      assert !Holds(w1, o);
    }
    RunTwo(w2, Open(r), Flock(r));
  }

  /** So the system can get there from its start. */
  lemma PathIsLostFromStart(p: nat, q: nat, r: nat)
    requires p != q && q != r && r != p
    ensures var es := [Open(p), Flock(p)] + [WritePid(p)] + Steal(p, q, r);
      CanRun(START, es) && !Exclusive(Run(START, es))
  {
    var w1 := Step(START, Open(p));
    var w2 := Step(w1, Flock(p));
    assert At(w1, p) == Opened(0) && Free(w1, 0);
    RunTwo(START, Open(p), Flock(p));
    var w3 := Step(w2, WritePid(p));
    RunOne(w2, WritePid(p));
    RunAppend(START, [Open(p), Flock(p)], [WritePid(p)]);
    CallKeeps(START, Acquire(p));
    CallKeeps(w2, Write(p));
    FineInterleavingLosesPath(w3, p, q, r);
    RunAppend(START, [Open(p), Flock(p)] + [WritePid(p)], Steal(p, q, r));
  }

  // ----------------------------------------------------------- the lock object

  /** What the operating system keeps, shared by all processes; `pid` tells the
      process of each actor. */
  class FileSystem {
    const pid: nat -> nat
    var world: World

    constructor (pid: nat -> nat)
      ensures world == START && this.pid == pid
    {
      this.pid, world := pid, START;
    }
  }

  datatype Outcome = Acquired | AlreadyHeld(ownerPid: Option<nat>)

  /** A number that stands for no open file: the smallest. */
  method NewActor(w: World) returns (p: nat)
    ensures At(w, p).Idle? && p !in w.phases
  {
    p := 0;
    var left := w.phases.Keys;
    while p in w.phases
      invariant left <= w.phases.Keys && forall q :: q in w.phases && q >= p ==> q in left
      decreases left
    {
      left := left - {p};
      p := p + 1;
    }
  }

  /** RuntimeLock, for calls that nobody interrupts.  `actor` is the open file
      behind `fd`. */
  class PathLock {
    const fs: FileSystem
    var actor: nat
    var fd: Option<nat>

    ghost predicate Valid()
      reads this, fs
    {
      Sound(fs.world) && (fd.Some? ==> At(fs.world, actor) == Held(fd.value))
    }

    constructor (fs: FileSystem)
      requires Sound(fs.world)
      ensures Valid() && this.fs == fs && fd.None?
    {
      this.fs, actor, fd := fs, 0, None;
    }

    method Do(e: Event)
      requires Enabled(fs.world, e)
      modifies fs
      ensures fs.world == Step(old(fs.world), e)
    {
      fs.world := Step(fs.world, e);
    }

    /** acquire, also through an object that already holds a lock: succeeds exactly
        when nobody holds the file the path names; if it fails, a holder that has
        written its pid is the one reported.  Nobody else's hold changes, and that
        includes a lock this object had before: acquiring again never gives it up,
        and is refused with the own pid while the path still names its file. */
    method Acquire() returns (outcome: Outcome)
      requires Valid()
      modifies this, fs
      ensures Valid()
      ensures outcome.Acquired? <==> old(fs.world.path.None? || Free(fs.world, fs.world.path.value))
      ensures outcome.Acquired? ==> fd.Some? && fs.world.path == fd
      ensures outcome.Acquired? ==> var now := actor; old(At(fs.world, now)).Idle?
      ensures outcome.AlreadyHeld? ==> fd == old(fd) && actor == old(actor)
      ensures outcome.AlreadyHeld? ==> fs.world.path.Some? && forall p: nat ::
                old(At(fs.world, p)) == Held(fs.world.path.value) ==> outcome.ownerPid == Some(fs.pid(p))
      ensures old(fd).Some? && old(fs.world.path) == old(fd) ==>
                outcome == AlreadyHeld(Some(fs.pid(old(actor))))
      ensures forall p :: outcome.AlreadyHeld? || p != actor ==> At(fs.world, p) == old(At(fs.world, p))
    {
      ghost var w0 := fs.world;
      var p := NewActor(fs.world);
      StepSound(w0, Open(p));
      forall q ensures At(Step(w0, Open(p)), q) == if q == p then Reached(w0, Open(p)) else At(w0, q) {
        StepAt(w0, Open(p), q);
      }
      Do(Open(p));
      ghost var w1 := fs.world;
      var inode := At(fs.world, p).inode;
      OpenedFree(w0, p);
      StepSound(w1, Flock(p));
      forall q ensures At(Step(w1, Flock(p)), q) == if q == p then Reached(w1, Flock(p)) else At(w0, q) {
        StepAt(w1, Flock(p), q);
      }
      Do(Flock(p));
      if At(fs.world, p).Idle? {
        assert fd.Some? && w0.path == fd ==> Has(w0, actor, inode);
        var text := fs.world.text;
        return AlreadyHeld(if inode in text then Some(fs.pid(text[inode])) else None);
      }
      assert fd.Some? && w0.path == fd ==> Has(w0, actor, inode) && actor in w0.phases;
      ghost var w2 := fs.world;
      StepSound(w2, WritePid(p));
      forall q ensures At(Step(w2, WritePid(p)), q) == if q == p then Held(inode) else At(w0, q) {
        StepAt(w2, WritePid(p), q);
      }
      fd, actor := Some(inode), p;
      Do(WritePid(p));
      return Acquired;
    }

    /** release: a no-op without a descriptor; afterwards the path is gone. */
    method Release()
      requires Valid()
      modifies this, fs
      ensures Valid() && fd.None? && actor == old(actor)
      ensures old(fd).None? ==> fs.world == old(fs.world)
      ensures old(fd).Some? ==> fs.world.path.None? && At(fs.world, actor).Idle?
      ensures old(fd).Some? ==> forall p :: p != actor ==> At(fs.world, p) == old(At(fs.world, p))
    {
      if fd.None? { return; }
      ghost var w0 := fs.world;
      StepSound(w0, Unlock(actor));
      StepAt(w0, Unlock(actor), actor);
      Do(Unlock(actor));
      ghost var w1 := fs.world;
      fd := None;
      StepSound(w1, Unlink(actor));
      StepAt(w1, Unlink(actor), actor);
      forall p ensures p != actor ==> At(Step(w1, Unlink(actor)), p) == At(w0, p) {
        StepAt(w0, Unlock(actor), p);
        StepAt(w1, Unlink(actor), p);
      }
      Do(Unlink(actor));
    }
  }

  /** Opening gets the path's file, or a new one that nobody can have locked. */
  lemma OpenedFree(w: World, p: nat)
    requires Sound(w) && At(w, p).Idle?
    ensures var w' := Step(w, Open(p));
      w'.path == Some(At(w', p).inode) &&
      (Free(w', At(w', p).inode) <==> w.path.None? || Free(w, w.path.value))
  {
    var w' := Step(w, Open(p));
    var n := At(w', p).inode;
    forall q ensures Has(w', q, n) <==> Has(w, q, n) {
      StepAt(w, Open(p), q);
      assert Known(w, At(w, q));
    }
    if w.path.Some? {
      if q :| q in w.phases && Has(w, q, n) { assert q in w'.phases && Has(w', q, n); }
      if q :| q in w'.phases && Has(w', q, n) { assert q in w.phases && Has(w, q, n); }
    } else {
      forall q | q in w'.phases ensures !Has(w', q, n) { assert Known(w, At(w, q)); }
    }
  }
}
