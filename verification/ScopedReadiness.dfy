/**
 The per-venue and per-pair view of arbiter/readiness.py, and how it relates to
 the decision the gate takes for one opportunity.
 */
module ScopedReadiness {
  import opened Options
  import opened Text
  import opened VenueNames
  import opened Readiness

  /** _build_scoped_readiness: blocking reasons per venue and per pair of venues
      (left before right). */
  method BuildScopedReadiness(checks: seq<Check>, platforms: seq<string>)
    returns (venues: map<string, seq<string>>, pairs: map<(string, string), seq<string>>)
    ensures venues.Keys == set p | p in platforms
    ensures forall p :: p in platforms ==> venues[p] == Reasons(checks, p)
    ensures forall i, j :: 0 <= i < j < |platforms| ==>
              (platforms[i], platforms[j]) in pairs &&
              pairs[(platforms[i], platforms[j])] == PairReasons(checks, platforms[i], platforms[j])
  {
    var global: seq<string>;
    venues, global := CollectReasons(checks, platforms);
    pairs := map[];
    for i := 0 to |platforms|
      invariant PairsUpTo(pairs, platforms, i) && PairsRight(pairs, checks)
    {
      pairs := AddPairs(pairs, checks, global, venues, platforms, i);
    }
  }

  ghost predicate PairsUpTo(pairs: map<(string, string), seq<string>>, platforms: seq<string>, n: nat)
    requires n <= |platforms|
  {
    forall a, b :: 0 <= a < n && a < b < |platforms| ==> (platforms[a], platforms[b]) in pairs
  }

  ghost predicate PairsRight(pairs: map<(string, string), seq<string>>, checks: seq<Check>) {
    forall pair :: pair in pairs ==> pairs[pair] == PairReasons(checks, pair.0, pair.1)
  }

  /** The pairs of platform i with the platforms after it. */
  method AddPairs(pairs: map<(string, string), seq<string>>, ghost checks: seq<Check>, global: seq<string>,
                  venues: map<string, seq<string>>, platforms: seq<string>, i: nat)
    returns (more: map<(string, string), seq<string>>)
    requires i < |platforms| && PairsUpTo(pairs, platforms, i) && PairsRight(pairs, checks)
    requires global == GlobalReasons(checks)
    requires forall p :: p in platforms ==> p in venues && venues[p] == Reasons(checks, p)
    ensures PairsUpTo(more, platforms, i + 1) && PairsRight(more, checks)
  {
    more := pairs;
    for j := i + 1 to |platforms|
      invariant pairs.Keys <= more.Keys && PairsRight(more, checks)
      invariant forall b :: i < b < j ==> (platforms[i], platforms[b]) in more
    {
      var left, right := platforms[i], platforms[j];
      more := more[(left, right) := Unique(global + venues[left] + venues[right])];
    }
    forall a, b | 0 <= a < i && a < b < |platforms| ensures (platforms[a], platforms[b]) in more {
      assert (platforms[a], platforms[b]) in pairs.Keys;
    }
  }

  method CollectReasons(checks: seq<Check>, platforms: seq<string>)
    returns (venues: map<string, seq<string>>, global: seq<string>)
    ensures venues.Keys == set p | p in platforms
    ensures forall p :: p in platforms ==> venues[p] == Reasons(checks, p)
    ensures global == GlobalReasons(checks)
  {
    venues, global := map p | p in platforms :: [], [];
    for n := 0 to |checks|
      invariant venues.Keys == set p | p in platforms
      invariant forall p :: p in venues ==> venues[p] == Reasons(checks[..n], p)
      invariant global == GlobalReasons(checks[..n])
    {
      var check := checks[n];
      assert checks[..n + 1][..n] == checks[..n];
      venues := map p | p in venues :: if Holds(check, p) then venues[p] + [check.summary] else venues[p];
      if Raised(check) && Scope(check).None? { global := global + [check.summary]; }
    }
    assert checks[..|checks|] == checks;
  }

  // ------------------------------------------------- the view against the gate

  /** A check blocks the pair in the view. */
  predicate HoldsPair(c: Check, left: string, right: string) {
    Holds(c, left) || Holds(c, right)
  }

  predicate NoneHolds(checks: seq<Check>, left: string, right: string) {
    forall i :: 0 <= i < |checks| ==> !HoldsPair(checks[i], left, right)
  }

  lemma PairReadyMeans(checks: seq<Check>, left: string, right: string)
    ensures PairReady(checks, left, right) <==> NoneHolds(checks, left, right)
  {
    PairReadyIffBothReady(checks, left, right);
    ReasonsEmpty(checks, left);
    ReasonsEmpty(checks, right);
  }

  lemma NoneHoldsConcat(a: seq<Check>, b: seq<Check>, left: string, right: string)
    ensures NoneHolds(a + b, left, right) <==> NoneHolds(a, left, right) && NoneHolds(b, left, right)
  {
    if NoneHolds(a + b, left, right) {
      forall i | 0 <= i < |a| ensures !HoldsPair(a[i], left, right) { assert (a + b)[i] == a[i]; }
      forall i | 0 <= i < |b| ensures !HoldsPair(b[i], left, right) { assert (a + b)[|a| + i] == b[i]; }
    }
  }

  lemma NoneHoldsThree(x: Check, y: Check, z: Check, left: string, right: string)
    ensures NoneHolds([x, y, z], left, right) <==>
            !HoldsPair(x, left, right) && !HoldsPair(y, left, right) && !HoldsPair(z, left, right)
  {
    var s := [x, y, z];
    assert s[0] == x && s[1] == y && s[2] == z;
  }

  lemma GivenHolds(checks: seq<Check>, left: string, right: string)
    requires forall c :: c in checks ==> !VenueLocal(c.key)
    ensures NoneHolds(checks, left, right) <==> GivenClear(checks, None)
  {
    forall i | 0 <= i < |checks| ensures HoldsPair(checks[i], left, right) <==> Raised(checks[i]) {
      assert checks[i] in checks;
    }
  }

  lemma CollectorCheckHolds(c: Check, left: string, right: string)
    requires c.key == Collectors
    ensures HoldsPair(c, left, right) <==> Raised(c) && !(ParseVenues(c.summary) !! {left, right})
  {
  }

  lemma CollectorHolds(r: Runtime, left: string, right: string)
    requires forall c :: c in r.collectors ==> Plain(c.name)
    ensures HoldsPair(CheckCollectors(r), left, right) <==> CollectorsBlock(r.collectors, {left, right})
  {
    CollectorScope(r);
    CollectorCheckHolds(CheckCollectors(r), left, right);
  }

  lemma BalanceHolds(r: Runtime, left: string, right: string)
    ensures HoldsPair(CheckBalances(r), left, right) <==> BalancesBlock(r.balances, {left, right})
  {
  }

  /** The view only sees the first five open critical incidents. */
  predicate Overflow(incidents: seq<Incident>, involved: set<string>) {
    var critical := OpenCritical(incidents);
    |critical| > 5 && AnyTouches(critical[5..], involved)
  }

  lemma TagsTouch(incidents: seq<Incident>, left: string, right: string)
    ensures AnyTouches(incidents, {left, right}) <==>
            "" in Tags(incidents) || left in Tags(incidents) || right in Tags(incidents)
  {
    if i :| 0 <= i < |incidents| && Touches(incidents[i], {left, right}) {
      assert incidents[i] in incidents && Lower(incidents[i].platform) in Tags(incidents);
      if incidents[i].platform == "" { assert Lower("") == ""; }
    }
    forall t | t in Tags(incidents) && (t == "" || t == left || t == right)
      ensures AnyTouches(incidents, {left, right})
    {
      var inc :| inc in incidents && Lower(inc.platform) == t;
      var i :| 0 <= i < |incidents| && incidents[i] == inc;
      assert Touches(incidents[i], {left, right});
    }
  }

  predicate VisiblyTouched(incidents: seq<Incident>, involved: set<string>) {
    AnyTouches(FirstFive(OpenCritical(incidents)), involved)
  }

  lemma IncidentHolds(r: Runtime, left: string, right: string)
    ensures HoldsPair(CheckIncidents(r), left, right) <==> VisiblyTouched(r.incidents, {left, right})
  {
    var shown := FirstFive(OpenCritical(r.incidents));
    TagsTouch(shown, left, right);
    if shown != [] { assert shown[0] in shown && Lower(shown[0].platform) in Tags(shown); }
  }

  lemma VisibleOrOverflow(incidents: seq<Incident>, left: string, right: string)
    ensures IncidentsBlock(incidents, {left, right}) <==>
            VisiblyTouched(incidents, {left, right}) || Overflow(incidents, {left, right})
  {
    var critical := OpenCritical(incidents);
    var shown := FirstFive(critical);
    assert |critical| > 5 ==> critical == shown + critical[5..];
    AnyTouchesConcat(shown, if |critical| > 5 then critical[5..] else [], {left, right});
  }

  lemma AnyTouchesConcat(a: seq<Incident>, b: seq<Incident>, involved: set<string>)
    ensures AnyTouches(a + b, involved) <==> AnyTouches(a, involved) || AnyTouches(b, involved)
  {
    if i :| 0 <= i < |a| && Touches(a[i], involved) { assert (a + b)[i] == a[i]; }
    if i :| 0 <= i < |b| && Touches(b[i], involved) { assert (a + b)[|a| + i] == b[i]; }
  }

  /** What it takes for the view to call a pair ready. */
  lemma PairReadyParts(r: Runtime, left: string, right: string)
    requires WellFormed(r)
    ensures PairReady(Checks(r), left, right) <==>
      && GivenClear(r.front, None) && GivenClear(r.back, None)
      && !VisiblyTouched(r.incidents, {left, right})
      && !BalancesBlock(r.balances, {left, right}) && !CollectorsBlock(r.collectors, {left, right})
  {
    var own := [CheckIncidents(r), CheckBalances(r), CheckCollectors(r)];
    PairReadyMeans(Checks(r), left, right);
    NoneHoldsConcat(r.front + own, r.back, left, right);
    NoneHoldsConcat(r.front, own, left, right);
    NoneHoldsThree(CheckIncidents(r), CheckBalances(r), CheckCollectors(r), left, right);
    GivenHolds(r.front, left, right);
    GivenHolds(r.back, left, right);
    IncidentHolds(r, left, right);
    CollectorHolds(r, left, right);
    BalanceHolds(r, left, right);
  }

  /** For an opportunity on a pair: no check stands in its way (leaving the
      validator out of it) exactly when the pair is ready in the view and no
      critical incident beyond the fifth touches it.  So for a ready pair the
      gate and the view agree exactly when no such incident does. */
  lemma ViewAgreesWithGate(r: Runtime, left: string, right: string, v: Validator)
    requires WellFormed(r)
    ensures Clear(r, {left, right}, None) <==>
            PairReady(Checks(r), left, right) && !Overflow(r.incidents, {left, right})
    ensures PairReady(Checks(r), left, right) ==>
            (Clear(r, {left, right}, v) <==> !Overflow(r.incidents, {left, right}))
    ensures |OpenCritical(r.incidents)| <= 5 ==> !Overflow(r.incidents, {left, right})
  {
    PairReadyParts(r, left, right);
    VisibleOrOverflow(r.incidents, left, right);
    ClearMeans(r, {left, right}, None);
    ClearMeans(r, {left, right}, v);
  }

  lemma {:induction false} OpenCriticalConcat(a: seq<Incident>, b: seq<Incident>)
    requires forall i :: i in b ==> i.critical && !i.resolved
    ensures OpenCritical(a + b) == OpenCritical(a) + b
  {
    if b == [] {
      assert a + b == a;
    } else {
      var n := |b| - 1;
      OpenCriticalConcat(a, b[..n]);
      OpenCriticalAppend(a + b[..n], b[n]);
      assert a + b == (a + b[..n]) + [b[n]];
    }
  }

  /** They do disagree: on any pair with no critical incident and a clear way,
      five incidents elsewhere hide a sixth on the pair itself. */
  lemma SixthIncidentHides(r: Runtime, five: seq<Incident>, sixth: Incident, left: string, right: string)
    requires WellFormed(r) && OpenCritical(r.incidents) == [] && Clear(r, {left, right}, None)
    requires |five| == 5 && forall i :: i in five ==> i.critical && !i.resolved && !Touches(i, {left, right})
    requires sixth.critical && !sixth.resolved && Lower(sixth.platform) == left
    ensures var r' := r.(incidents := r.incidents + five + [sixth]);
      PairReady(Checks(r'), left, right) && !Clear(r', {left, right}, None)
  {
    SixthIsHidden(r.incidents, five, sixth, left, right);
    ViewAgreesWithGate(r, left, right, None);
    var r' := r.(incidents := r.incidents + five + [sixth]);
    ViewAgreesWithGate(r', left, right, None);
    PairReadyParts(r, left, right);
    PairReadyParts(r', left, right);
  }

  lemma SixthIsHidden(incidents: seq<Incident>, five: seq<Incident>, sixth: Incident, left: string, right: string)
    requires OpenCritical(incidents) == []
    requires |five| == 5 && forall i :: i in five ==> i.critical && !i.resolved && !Touches(i, {left, right})
    requires sixth.critical && !sixth.resolved && Lower(sixth.platform) == left
    ensures !VisiblyTouched(incidents + five + [sixth], {left, right})
    ensures Overflow(incidents + five + [sixth], {left, right})
  {
    OpenCriticalConcat(incidents, five);
    OpenCriticalAppend(incidents + five, sixth);
    var critical := OpenCritical(incidents + five + [sixth]);
    assert critical == five + [sixth] && critical[..5] == five;
    assert critical[5..][0] == sixth && Touches(sixth, {left, right});
  }

  /** Nor does the gate mind missing telemetry: without collectors the check is
      raised, but it names no venue and so stops no opportunity. */
  lemma NoTelemetryStopsNothing(r: Runtime, involved: set<string>, v: Validator)
    requires r.collectors == [] && Venue(NO_TELEMETRY) !in involved
    ensures Raised(CheckCollectors(r)) && !Stops(r, involved, v, CheckCollectors(r))
  {
    CollectorBlocks(r, involved, v);
  }
}
