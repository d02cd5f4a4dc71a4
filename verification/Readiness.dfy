/**
 The live-trading gate of arbiter/readiness.py: the checks, their venue scopes,
 the per-venue and per-pair view, and the decision for one opportunity.
 */
module Readiness {
  import opened Options
  import opened Text
  import opened VenueNames

  // ------------------------------------------------------------------ checks

  datatype Status = Pass | Warning | Manual | Fail

  datatype Key = Mappings | Credentials | Alerting | Profitability | Incidents | Balances | Collectors
               | QuoteFreshness | Reconciliation

  /** `low` and `critical` are the parts of the details that scopes are read from. */
  datatype Check = Check(key: Key, status: Status, blocking: bool, summary: string,
                         low: seq<string>, critical: seq<Incident>)

  datatype Collector = Collector(name: string, fetches: int, consecutiveErrors: int, openCircuit: bool)

  datatype Balance = Balance(platform: string, isLow: bool)

  /** `platform` is the tag in the metadata, "" if there is none; `stands` is the
      number of incidents the entry stands for. */
  datatype Incident = Incident(critical: bool, resolved: bool, platform: string, stands: nat)

  /** What the gate looks at.  The outcomes of the checks that are not tied to a
      venue are given: `front` runs before the venue checks, `back` after. */
  datatype Runtime = Runtime(dryRun: bool, front: seq<Check>, incidents: seq<Incident>, balances: seq<Balance>,
                             collectors: seq<Collector>, back: seq<Check>)

  predicate VenueLocal(k: Key) {
    k.Incidents? || k.Balances? || k.Collectors?
  }

  ghost predicate WellFormed(r: Runtime) {
    && (forall c :: c in r.front ==> !VenueLocal(c.key))
    && (forall c :: c in r.back ==> !VenueLocal(c.key) && !c.key.Profitability?)
    && (forall c :: c in r.collectors ==> Plain(c.name))
  }

  function OpenCritical(incidents: seq<Incident>): seq<Incident> {
    if incidents == [] then []
    else (if incidents[0].critical && !incidents[0].resolved then [incidents[0]] else []) + OpenCritical(incidents[1..])
  }

  function CountOpen(incidents: seq<Incident>): nat {
    if incidents == [] then 0 else (if incidents[0].resolved then 0 else 1) + CountOpen(incidents[1..])
  }

  function Effective(incidents: seq<Incident>): nat {
    if incidents == [] then 0
    else (if incidents[0].stands == 0 then 1 else incidents[0].stands) + Effective(incidents[1..])
  }

  function FirstFive(incidents: seq<Incident>): seq<Incident> {
    if |incidents| <= 5 then incidents else incidents[..5]
  }

  function CheckIncidents(r: Runtime): Check {
    var critical := OpenCritical(r.incidents);
    if critical != [] then
      Check(Incidents, Fail, true, Print(Effective(critical)) + " critical incidents remain unresolved",
            [], FirstFive(critical))
    else if CountOpen(r.incidents) > 0 then
      Check(Incidents, Warning, false, Print(CountOpen(r.incidents)) + " non-critical incidents are still open", [], [])
    else Check(Incidents, Pass, true, "No open incidents are blocking execution", [], [])
  }

  function LowPlatforms(balances: seq<Balance>): seq<string> {
    if balances == [] then []
    else (if balances[0].isLow then [balances[0].platform] else []) + LowPlatforms(balances[1..])
  }

  function CheckBalances(r: Runtime): Check {
    var low := LowPlatforms(r.balances);
    if r.balances == [] then Check(Balances, Warning, true, "Venue balances have not been observed yet", [], [])
    else if low != [] then
      Check(Balances, Fail, true, "Low balances detected on " + Join(SortNames(low), ", "), low, [])
    else Check(Balances, Pass, true, "Venue balances are above configured thresholds", [], [])
  }

  predicate Failing(c: Collector) {
    c.openCircuit || c.consecutiveErrors >= 5
  }

  function FailingNames(cs: seq<Collector>): seq<string> {
    if cs == [] then [] else (if Failing(cs[0]) then [cs[0].name] else []) + FailingNames(cs[1..])
  }

  function WarmingNames(cs: seq<Collector>): seq<string> {
    if cs == [] then [] else (if cs[0].fetches <= 0 then [cs[0].name] else []) + WarmingNames(cs[1..])
  }

  const NO_TELEMETRY := "Collector telemetry is unavailable"

  function CheckCollectors(r: Runtime): Check {
    var failures, warming := FailingNames(r.collectors), WarmingNames(r.collectors);
    if r.collectors == [] then Check(Collectors, Warning, true, NO_TELEMETRY, [], [])
    else if failures != [] then
      Check(Collectors, Fail, true, Announce("Collector health is degraded", failures), [], [])
    else if warming != [] then
      Check(Collectors, Warning, true, Announce("Collectors are still warming up", warming), [], [])
    else Check(Collectors, Pass, true, "Collectors are publishing healthy live data", [], [])
  }

  /** The checks of refresh, in order. */
  function Checks(r: Runtime): seq<Check> {
    r.front + [CheckIncidents(r), CheckBalances(r), CheckCollectors(r)] + r.back
  }

  predicate Raised(c: Check) {
    c.blocking && !c.status.Pass?
  }

  // ------------------------------------------------------------------ scopes

  function LowerAll(names: seq<string>): set<string> {
    set n | n in names :: Lower(n)
  }

  function Tags(incidents: seq<Incident>): set<string> {
    set i | i in incidents :: Lower(i.platform)
  }

  /** _platform_scope_for_check: the venues a check is confined to, None for a
      check that concerns every venue. */
  function Scope(c: Check): Option<set<string>> {
    match c.key
    case Collectors => Some(ParseVenues(c.summary))
    case Balances => if c.low == [] then None else Some(LowerAll(c.low))
    case Incidents => if c.critical == [] || "" in Tags(c.critical) then None else Some(Tags(c.critical))
    case _ => None
  }

  /** The check blocks venue p in the per-venue view. */
  predicate Holds(c: Check, p: string) {
    Raised(c) && (Scope(c).None? || p in Scope(c).value)
  }

  function Reasons(checks: seq<Check>, p: string): seq<string> {
    if checks == [] then []
    else
      var n := |checks| - 1;
      if Holds(checks[n], p) then Reasons(checks[..n], p) + [checks[n].summary] else Reasons(checks[..n], p)
  }

  function GlobalReasons(checks: seq<Check>): seq<string> {
    if checks == [] then []
    else
      var n := |checks| - 1;
      if Raised(checks[n]) && Scope(checks[n]).None? then GlobalReasons(checks[..n]) + [checks[n].summary]
      else GlobalReasons(checks[..n])
  }

  /** list(dict.fromkeys(s)) */
  function Unique(s: seq<string>): seq<string> {
    if s == [] then []
    else
      var front := Unique(s[..|s| - 1]);
      if s[|s| - 1] in front then front else front + [s[|s| - 1]]
  }

  function PairReasons(checks: seq<Check>, left: string, right: string): seq<string> {
    Unique(GlobalReasons(checks) + Reasons(checks, left) + Reasons(checks, right))
  }

  predicate VenueReady(checks: seq<Check>, p: string) {
    Reasons(checks, p) == []
  }

  predicate PairReady(checks: seq<Check>, left: string, right: string) {
    PairReasons(checks, left, right) == []
  }

  lemma {:induction false} ReasonsEmpty(checks: seq<Check>, p: string)
    ensures VenueReady(checks, p) <==> forall i :: 0 <= i < |checks| ==> !Holds(checks[i], p)
  {
    if checks != [] { ReasonsEmpty(checks[..|checks| - 1], p); }
  }

  lemma {:induction false} GlobalReasonsAreShared(checks: seq<Check>, p: string)
    ensures GlobalReasons(checks) != [] ==> Reasons(checks, p) != []
  {
    if checks != [] { GlobalReasonsAreShared(checks[..|checks| - 1], p); }
  }

  lemma {:induction false} UniqueEmpty(s: seq<string>)
    ensures Unique(s) == [] <==> s == []
  {
    if s != [] { UniqueEmpty(s[..|s| - 1]); }
  }

  /** A venue pair is ready exactly when both of its venues are. */
  lemma PairReadyIffBothReady(checks: seq<Check>, left: string, right: string)
    ensures PairReady(checks, left, right) <==> VenueReady(checks, left) && VenueReady(checks, right)
  {
    GlobalReasonsAreShared(checks, left);
    UniqueEmpty(GlobalReasons(checks) + Reasons(checks, left) + Reasons(checks, right));
  }

  lemma {:induction false} ReasonsAre(checks: seq<Check>, p: string, s: string)
    ensures s in Reasons(checks, p) <==> exists i :: 0 <= i < |checks| && Holds(checks[i], p) && checks[i].summary == s
  {
    if checks != [] {
      var n := |checks| - 1;
      ReasonsAre(checks[..n], p, s);
      assert forall i :: 0 <= i < n ==> checks[..n][i] == checks[i];
    }
  }

  lemma {:induction false} GlobalReasonsAre(checks: seq<Check>, p: string, s: string)
    ensures s in GlobalReasons(checks) ==> s in Reasons(checks, p)
  {
    if checks != [] { GlobalReasonsAre(checks[..|checks| - 1], p, s); }
  }

  predicate NoRepeats(s: seq<string>) {
    forall i, j :: 0 <= i < j < |s| ==> s[i] != s[j]
  }

  lemma {:induction false} UniqueIs(s: seq<string>)
    ensures NoRepeats(Unique(s)) && forall x :: x in Unique(s) <==> x in s
  {
    if s != [] {
      var n := |s| - 1;
      UniqueIs(s[..n]);
      assert s == s[..n] + [s[n]];
    }
  }

  /** The reasons shown for a pair are, each once, the summaries of the raised
      blocking checks that are confined to no venue or to one of the two. */
  lemma PairReasonsAre(checks: seq<Check>, left: string, right: string, s: string)
    ensures NoRepeats(PairReasons(checks, left, right))
    ensures s in PairReasons(checks, left, right) <==>
      exists i :: 0 <= i < |checks| && checks[i].summary == s && checks[i].blocking && checks[i].status != Pass
                  && (Scope(checks[i]).None? || left in Scope(checks[i]).value || right in Scope(checks[i]).value)
  {
    UniqueIs(GlobalReasons(checks) + Reasons(checks, left) + Reasons(checks, right));
    GlobalReasonsAre(checks, left, s);
    ReasonsAre(checks, left, s);
    ReasonsAre(checks, right, s);
  }

  /** How many blockers the open critical incidents stand for. */
  function Standing(incidents: seq<Incident>): nat {
    if incidents == [] then 0
    else
      var i := incidents[0];
      Standing(incidents[1..]) + if i.critical && !i.resolved then (if i.stands > 1 then i.stands else 1) else 0
  }

  lemma {:induction false} EffectiveIsStanding(incidents: seq<Incident>)
    ensures Effective(OpenCritical(incidents)) == Standing(incidents)
    ensures OpenCritical(incidents) != [] <==>
            exists i :: 0 <= i < |incidents| && incidents[i].critical && !incidents[i].resolved
  {
    if incidents != [] {
      EffectiveIsStanding(incidents[1..]);
      assert forall i :: 1 <= i < |incidents| ==> incidents[i] == incidents[1..][i - 1];
      assert [] + OpenCritical(incidents[1..]) == OpenCritical(incidents[1..]);
    }
  }

  lemma {:induction false} CountOpenIs(incidents: seq<Incident>)
    ensures CountOpen(incidents) == |set i | 0 <= i < |incidents| && !incidents[i].resolved|
  {
    if incidents != [] {
      var n, front := |incidents| - 1, incidents[..|incidents| - 1];
      CountOpenIs(front);
      CountOpenLast(front, incidents[n]);
      assert incidents == front + [incidents[n]];
      var all := set i | 0 <= i < |incidents| && !incidents[i].resolved;
      var before := set i | 0 <= i < n && !front[i].resolved;
      assert all == before + if incidents[n].resolved then {} else {n};
    }
  }

  lemma {:induction false} CountOpenLast(front: seq<Incident>, last: Incident)
    ensures CountOpen(front + [last]) == CountOpen(front) + if last.resolved then 0 else 1
  {
    if front == [] {
      assert front + [last] == [last];
    } else {
      assert (front + [last])[1..] == front[1..] + [last];
      CountOpenLast(front[1..], last);
    }
  }

  /** The incident check in the raw readings: what it says and when it blocks. */
  lemma IncidentSummary(r: Runtime)
    ensures var c, open := CheckIncidents(r), set i | 0 <= i < |r.incidents| && !r.incidents[i].resolved;
      if exists i :: 0 <= i < |r.incidents| && r.incidents[i].critical && !r.incidents[i].resolved
      then Raised(c) && c.summary == Print(Standing(r.incidents)) + " critical incidents remain unresolved"
      else !Raised(c) && (open != {} ==> c.summary == Print(|open|) + " non-critical incidents are still open")
  {
    EffectiveIsStanding(r.incidents);
    CountOpenIs(r.incidents);
    var open := set i | 0 <= i < |r.incidents| && !r.incidents[i].resolved;
    if open != {} { var i :| i in open; assert |open| == |open - {i}| + 1; }
  }

  // -------------------------------------------------------------------- gate

  /** _incident_touches_opportunity: an untagged incident touches everything. */
  predicate Touches(i: Incident, involved: set<string>) {
    i.platform == "" || Lower(i.platform) in involved
  }

  predicate AnyTouches(incidents: seq<Incident>, involved: set<string>) {
    exists i :: 0 <= i < |incidents| && Touches(incidents[i], involved)
  }

  predicate Elsewhere(scope: Option<set<string>>, involved: set<string>) {
    scope.Some? && scope.value != {} && scope.value !! involved
  }

  /** The outcome of the scoped profitability validator, None if there is none. */
  type Validator = Option<bool>

  /** The check lands in relevant_blocking. */
  predicate Blocks(r: Runtime, involved: set<string>, v: Validator, c: Check) {
    Raised(c) && match c.key
      case Collectors => !Elsewhere(Scope(c), involved)
      case Balances => !Elsewhere(Scope(c), involved)
      case Profitability => v.None?
      case Incidents => OpenCritical(r.incidents) == [] || AnyTouches(OpenCritical(r.incidents), involved)
      case _ => true
  }

  /** The validator's refusal ends the loop. */
  predicate Vetoes(v: Validator, c: Check) {
    Raised(c) && c.key.Profitability? && v == Some(false)
  }

  predicate Stops(r: Runtime, involved: set<string>, v: Validator, c: Check) {
    Blocks(r, involved, v, c) || Vetoes(v, c)
  }

  predicate NoneStops(r: Runtime, involved: set<string>, v: Validator, checks: seq<Check>) {
    forall i :: 0 <= i < |checks| ==> !Stops(r, involved, v, checks[i])
  }

  predicate Clear(r: Runtime, involved: set<string>, v: Validator) {
    NoneStops(r, involved, v, Checks(r))
  }

  predicate LowInvolved(r: Runtime, involved: set<string>) {
    exists n :: n in LowPlatforms(r.balances) && n in involved
  }

  /** allow_execution */
  predicate Allowed(r: Runtime, involved: set<string>, v: Validator) {
    r.dryRun || (Clear(r, involved, v) && v != Some(false) && !LowInvolved(r, involved))
  }

  datatype Verdict = Approved(reason: string) | Refused(reason: string)

  predicate AnyVetoes(v: Validator, checks: seq<Check>) {
    exists i :: 0 <= i < |checks| && Vetoes(v, checks[i])
  }

  /** The reason given is the summary of the first check that blocks. */
  predicate QuotesFirst(r: Runtime, involved: set<string>, v: Validator, checks: seq<Check>, reason: string) {
    exists i :: 0 <= i < |checks| && Blocks(r, involved, v, checks[i]) && reason == checks[i].summary
                && forall j :: 0 <= j < i ==> !Blocks(r, involved, v, checks[j])
  }

  const LOW_BALANCES := "Low balances on live venues"

  // ----------------------------------------- the decision, in the raw readings

  /** A check whose outcome is given, not passed, and not overruled by the validator. */
  predicate Objects(c: Check, v: Validator) {
    c.blocking && c.status != Pass && !(c.key == Profitability && v == Some(true))
  }

  /** An open critical incident that is not tagged with some other venue. */
  predicate Alarms(i: Incident, involved: set<string>) {
    i.critical && !i.resolved && (i.platform == "" || Lower(i.platform) in involved)
  }

  predicate LowAt(b: Balance, involved: set<string>) {
    b.isLow && (Lower(b.platform) in involved || b.platform in involved)
  }

  predicate Broken(c: Collector) {
    c.openCircuit || c.consecutiveErrors > 4
  }

  predicate At(c: Collector, involved: set<string>) {
    Lower(Strip(c.name)) in involved
  }

  /** Collectors stand in the way: a broken one at an involved venue or, while none
      is broken anywhere, an involved one that has not fetched yet.  Missing
      telemetry stops nothing but a venue of that name. */
  predicate CollectorsObject(cs: seq<Collector>, involved: set<string>) {
    if cs == [] then Lower("Collector telemetry is unavailable") in involved
    else if exists i :: 0 <= i < |cs| && Broken(cs[i]) then SomeBrokenAt(cs, involved)
    else SomeWarmingAt(cs, involved)
  }

  predicate NoneObjects(checks: seq<Check>, v: Validator) {
    forall i :: 0 <= i < |checks| ==> !Objects(checks[i], v)
  }

  predicate NoneAlarms(incidents: seq<Incident>, involved: set<string>) {
    forall i :: 0 <= i < |incidents| ==> !Alarms(incidents[i], involved)
  }

  predicate NoneLow(balances: seq<Balance>, involved: set<string>) {
    forall i :: 0 <= i < |balances| ==> !LowAt(balances[i], involved)
  }

  /** What the gate promises, read off the readings themselves. */
  predicate MayTrade(r: Runtime, involved: set<string>, v: Validator) {
    || r.dryRun
    || (&& v != Some(false) && NoneObjects(r.front, v) && NoneObjects(r.back, v)
        && NoneAlarms(r.incidents, involved) && r.balances != [] && NoneLow(r.balances, involved)
        && !CollectorsObject(r.collectors, involved))
  }

  lemma {:induction false} LowPlatformsAre(balances: seq<Balance>, n: string)
    ensures n in LowPlatforms(balances) <==>
            exists i :: 0 <= i < |balances| && balances[i].platform == n && balances[i].isLow
  {
    if balances != [] {
      var rest := balances[1..];
      LowPlatformsAre(rest, n);
      if i :| 0 <= i < |rest| && rest[i].platform == n && rest[i].isLow { assert balances[i + 1] == rest[i]; }
      if i :| 0 <= i < |balances| && balances[i].platform == n && balances[i].isLow {
        if i > 0 { assert rest[i - 1] == balances[i]; }
      }
    }
  }

  lemma {:induction false} IncidentsAlarm(incidents: seq<Incident>, involved: set<string>)
    ensures IncidentsBlock(incidents, involved) <==> !NoneAlarms(incidents, involved)
  {
    if incidents != [] {
      var n := |incidents| - 1;
      IncidentsAlarm(incidents[..n], involved);
      assert incidents == incidents[..n] + [incidents[n]];
      OpenCriticalAppend(incidents[..n], incidents[n]);
      AnyTouchesLast(OpenCritical(incidents[..n]), incidents[n], involved);
      assert forall i :: 0 <= i < n ==> incidents[..n][i] == incidents[i];
    }
  }

  lemma AnyTouchesLast(incidents: seq<Incident>, last: Incident, involved: set<string>)
    ensures AnyTouches(incidents + [last], involved) <==> AnyTouches(incidents, involved) || Touches(last, involved)
  {
    var more := incidents + [last];
    assert more[|incidents|] == last;
    assert forall i :: 0 <= i < |incidents| ==> more[i] == incidents[i];
  }

  lemma BalancesAre(r: Runtime, involved: set<string>)
    ensures !BalancesBlock(r.balances, involved) && !LowInvolved(r, involved) <==>
            r.balances != [] && NoneLow(r.balances, involved)
  {
    forall n ensures n in LowPlatforms(r.balances) <==>
                     exists i :: 0 <= i < |r.balances| && r.balances[i].platform == n && r.balances[i].isLow
    {
      LowPlatformsAre(r.balances, n);
    }
    forall i | 0 <= i < |r.balances| && r.balances[i].isLow
      ensures r.balances[i].platform in LowPlatforms(r.balances)
              && Lower(r.balances[i].platform) in LowerAll(LowPlatforms(r.balances)) {}
  }

  predicate SomeBrokenAt(cs: seq<Collector>, involved: set<string>) {
    exists i :: 0 <= i < |cs| && Broken(cs[i]) && At(cs[i], involved)
  }

  predicate SomeWarmingAt(cs: seq<Collector>, involved: set<string>) {
    exists i :: 0 <= i < |cs| && cs[i].fetches <= 0 && At(cs[i], involved)
  }

  lemma {:induction false} BrokenAre(cs: seq<Collector>, involved: set<string>)
    requires forall i :: 0 <= i < |cs| ==> Plain(cs[i].name)
    ensures FailingNames(cs) != [] <==> exists i :: 0 <= i < |cs| && Broken(cs[i])
    ensures !(Venues(FailingNames(cs)) !! involved) <==> SomeBrokenAt(cs, involved)
  {
    if cs != [] {
      BrokenAre(cs[1..], involved);
      assert forall i :: 1 <= i < |cs| ==> cs[i] == cs[1..][i - 1];
      VenuesCons(cs[0].name, FailingNames(cs[1..]));
      assert [] + FailingNames(cs[1..]) == FailingNames(cs[1..]);
    }
  }

  lemma {:induction false} WarmingAre(cs: seq<Collector>, involved: set<string>)
    requires forall i :: 0 <= i < |cs| ==> Plain(cs[i].name)
    ensures !(Venues(WarmingNames(cs)) !! involved) <==> SomeWarmingAt(cs, involved)
  {
    if cs != [] {
      WarmingAre(cs[1..], involved);
      assert forall i :: 1 <= i < |cs| ==> cs[i] == cs[1..][i - 1];
      VenuesCons(cs[0].name, WarmingNames(cs[1..]));
      assert [] + WarmingNames(cs[1..]) == WarmingNames(cs[1..]);
    }
  }

  lemma VenuesCons(name: string, names: seq<string>)
    requires Plain(name)
    ensures Venues([name] + names) == {Lower(Strip(name))} + Venues(names)
  {
    assert name in [name] + names;
    assert forall n :: n in [name] + names <==> n == name || n in names;
  }

  lemma CollectorsAre(cs: seq<Collector>, involved: set<string>)
    requires forall i :: 0 <= i < |cs| ==> Plain(cs[i].name)
    ensures CollectorsBlock(cs, involved) <==> CollectorsObject(cs, involved)
  {
    BrokenAre(cs, involved);
    WarmingAre(cs, involved);
    NoTelemetryVenue();
    if WarmingNames(cs) == [] { assert Venues([]) == {}; }
  }

  lemma NoTelemetryVenue()
    ensures Venue(NO_TELEMETRY) == Lower("Collector telemetry is unavailable")
  {
    assert Trimmed(NO_TELEMETRY);
    StripTrimmed(NO_TELEMETRY);
  }

  /** The decision rests on exactly this. */
  lemma AllowedMeans(r: Runtime, involved: set<string>, v: Validator)
    requires WellFormed(r)
    ensures Allowed(r, involved, v) <==> MayTrade(r, involved, v)
  {
    ClearMeans(r, involved, v);
    IncidentsAlarm(r.incidents, involved);
    BalancesAre(r, involved);
    forall i | 0 <= i < |r.collectors| ensures Plain(r.collectors[i].name) { assert r.collectors[i] in r.collectors; }
    CollectorsAre(r.collectors, involved);
    GivenQuiet(r.front, v);
    GivenQuiet(r.back, v);
  }

  lemma GivenQuiet(checks: seq<Check>, v: Validator)
    ensures GivenClear(checks, v) <==> NoneObjects(checks, v)
  {
  }

  /** Nothing raised, no open critical incident, balances observed and none low,
      every collector fetching with fewer than five errors in a row and a closed
      circuit. */
  predicate Healthy(r: Runtime) {
    && (forall i :: 0 <= i < |r.front| ==> !r.front[i].blocking || r.front[i].status == Pass)
    && (forall i :: 0 <= i < |r.back| ==> !r.back[i].blocking || r.back[i].status == Pass)
    && (forall i :: 0 <= i < |r.incidents| ==> r.incidents[i].resolved || !r.incidents[i].critical)
    && r.balances != [] && (forall i :: 0 <= i < |r.balances| ==> !r.balances[i].isLow)
    && r.collectors != [] && (forall i :: 0 <= i < |r.collectors| ==>
         r.collectors[i].fetches > 0 && r.collectors[i].consecutiveErrors < 5 && !r.collectors[i].openCircuit)
  }

  lemma HealthyMayTrade(r: Runtime, involved: set<string>, v: Validator)
    requires Healthy(r) && v != Some(false)
    ensures MayTrade(r, involved, v)
  {
  }

  /** Healthy means approved. */
  lemma HealthyIsApproved(r: Runtime, involved: set<string>, v: Validator)
    requires WellFormed(r) && Healthy(r) && v != Some(false)
    ensures Allowed(r, involved, v)
  {
    HealthyMayTrade(r, involved, v);
    AllowedMeans(r, involved, v);
  }

  /** The decision.  The validator's word ends the matter as soon as its check is
      reached; otherwise the first blocking check is quoted, and the validator and
      the balances are asked once more when no check blocks. */
  method AllowExecution(r: Runtime, yesPlatform: string, noPlatform: string, v: Validator, scopedReason: string)
    returns (verdict: Verdict)
    ensures verdict.Approved? <==> Allowed(r, {Lower(yesPlatform), Lower(noPlatform)}, v)
    ensures WellFormed(r) ==> (verdict.Approved? <==> MayTrade(r, {Lower(yesPlatform), Lower(noPlatform)}, v))
    ensures verdict.Refused? ==>
      var involved := {Lower(yesPlatform), Lower(noPlatform)};
      if AnyVetoes(v, Checks(r)) then verdict.reason == scopedReason
      else if !Clear(r, involved, v) then QuotesFirst(r, involved, v, Checks(r), verdict.reason)
      else verdict.reason == if v == Some(false) then scopedReason else LOW_BALANCES
  {
    if WellFormed(r) { AllowedMeans(r, {Lower(yesPlatform), Lower(noPlatform)}, v); }
    if r.dryRun { return Approved("dry-run mode collecting evidence"); }
    var involved := {Lower(yesPlatform), Lower(noPlatform)};
    var vetoed, relevant := ReviewChecks(r, involved, v, Checks(r));
    if vetoed { return Refused(scopedReason); }
    if relevant != [] { return Refused(relevant[0]); }
    if v == Some(false) { return Refused(scopedReason); }
    if LowInvolved(r, involved) { return Refused(LOW_BALANCES); }
    return Approved("ready for live execution");
  }

  /** The loop over the checks, which the validator's refusal leaves at once. */
  method ReviewChecks(r: Runtime, involved: set<string>, v: Validator, checks: seq<Check>)
    returns (vetoed: bool, relevant: seq<string>)
    ensures vetoed <==> AnyVetoes(v, checks)
    ensures NoneStops(r, involved, v, checks) <==> !vetoed && relevant == []
    ensures !vetoed && relevant != [] ==> QuotesFirst(r, involved, v, checks, relevant[0])
  {
    relevant := [];
    for n := 0 to |checks|
      invariant forall i :: 0 <= i < n ==> !Vetoes(v, checks[i])
      invariant if relevant == [] then forall i :: 0 <= i < n ==> !Blocks(r, involved, v, checks[i])
                else QuotesFirst(r, involved, v, checks, relevant[0])
    {
      if Vetoes(v, checks[n]) { assert Stops(r, involved, v, checks[n]); return true, relevant; }
      if Blocks(r, involved, v, checks[n]) { relevant := relevant + [checks[n].summary]; }
    }
    vetoed := false;
  }

  // -------------------------------------- failures elsewhere never cost a trade

  lemma {:induction false} FailingNamesAre(cs: seq<Collector>, n: string)
    ensures n in FailingNames(cs) <==> exists i :: 0 <= i < |cs| && cs[i].name == n && Failing(cs[i])
  {
    if cs != [] {
      FailingNamesAre(cs[1..], n);
      if i :| 0 <= i < |cs[1..]| && cs[1..][i].name == n && Failing(cs[1..][i]) { assert cs[i + 1] == cs[1..][i]; }
      if i :| 0 <= i < |cs| && cs[i].name == n && Failing(cs[i]) { if i > 0 { assert cs[1..][i - 1] == cs[i]; } }
    }
  }

  lemma {:induction false} WarmingNamesAre(cs: seq<Collector>, n: string)
    ensures n in WarmingNames(cs) <==> exists i :: 0 <= i < |cs| && cs[i].name == n && cs[i].fetches <= 0
  {
    if cs != [] {
      WarmingNamesAre(cs[1..], n);
      if i :| 0 <= i < |cs[1..]| && cs[1..][i].name == n && cs[1..][i].fetches <= 0 { assert cs[i + 1] == cs[1..][i]; }
      if i :| 0 <= i < |cs| && cs[i].name == n && cs[i].fetches <= 0 { if i > 0 { assert cs[1..][i - 1] == cs[i]; } }
    }
  }

  /** The venues the collector check names when it is raised. */
  function CollectorVenues(cs: seq<Collector>): Option<set<string>> {
    if cs == [] then Some({Venue(NO_TELEMETRY)})
    else if FailingNames(cs) != [] then Some(Venues(FailingNames(cs)))
    else if WarmingNames(cs) != [] then Some(Venues(WarmingNames(cs)))
    else None
  }

  lemma NamesArePlain(cs: seq<Collector>)
    requires forall c :: c in cs ==> Plain(c.name)
    ensures forall n :: n in FailingNames(cs) || n in WarmingNames(cs) ==> Plain(n)
  {
    forall n | n in FailingNames(cs) || n in WarmingNames(cs) ensures Plain(n) {
      FailingNamesAre(cs, n);
      WarmingNamesAre(cs, n);
    }
  }

  /** What the gate reads off the summary is what the check put there. */
  lemma CollectorScope(r: Runtime)
    requires forall c :: c in r.collectors ==> Plain(c.name)
    ensures var check, venues := CheckCollectors(r), CollectorVenues(r.collectors);
      && check.key == Collectors && (Raised(check) <==> venues.Some?)
      && (venues.Some? ==> ParseVenues(check.summary) == venues.value != {})
  {
    NamesArePlain(r.collectors);
    if r.collectors == [] {
      TelemetrySummary();
      ParsePlain(NO_TELEMETRY);
    } else if FailingNames(r.collectors) != [] {
      ParseAnnounce("Collector health is degraded", FailingNames(r.collectors));
    } else if WarmingNames(r.collectors) != [] {
      ParseAnnounce("Collectors are still warming up", WarmingNames(r.collectors));
    }
  }

  predicate CollectorsBlock(cs: seq<Collector>, involved: set<string>) {
    CollectorVenues(cs).Some? && !(CollectorVenues(cs).value !! involved)
  }

  predicate BalancesBlock(balances: seq<Balance>, involved: set<string>) {
    balances == [] || !(LowerAll(LowPlatforms(balances)) !! involved)
  }

  predicate IncidentsBlock(incidents: seq<Incident>, involved: set<string>) {
    AnyTouches(OpenCritical(incidents), involved)
  }

  lemma CollectorCheckBlocks(r: Runtime, involved: set<string>, v: Validator, c: Check)
    requires c.key == Collectors
    ensures !Vetoes(v, c)
    ensures Blocks(r, involved, v, c) <==>
            Raised(c) && (ParseVenues(c.summary) == {} || !(ParseVenues(c.summary) !! involved))
  {
  }

  lemma CollectorBlocks(r: Runtime, involved: set<string>, v: Validator)
    requires forall c :: c in r.collectors ==> Plain(c.name)
    ensures Blocks(r, involved, v, CheckCollectors(r)) <==> CollectorsBlock(r.collectors, involved)
    ensures !Vetoes(v, CheckCollectors(r))
  {
    CollectorScope(r);
    CollectorCheckBlocks(r, involved, v, CheckCollectors(r));
  }

  lemma BalanceBlocks(r: Runtime, involved: set<string>, v: Validator)
    ensures Blocks(r, involved, v, CheckBalances(r)) <==> BalancesBlock(r.balances, involved)
    ensures !Vetoes(v, CheckBalances(r))
  {
    var low := LowPlatforms(r.balances);
    if low != [] { assert Lower(low[0]) in LowerAll(low); }
  }

  lemma IncidentBlocks(r: Runtime, involved: set<string>, v: Validator)
    ensures Blocks(r, involved, v, CheckIncidents(r)) <==> IncidentsBlock(r.incidents, involved)
    ensures !Vetoes(v, CheckIncidents(r))
  {
  }

  /** The given checks: only the validator's word matters. */
  predicate GivenClear(checks: seq<Check>, v: Validator) {
    forall i :: 0 <= i < |checks| ==> !Raised(checks[i]) || (checks[i].key.Profitability? && v == Some(true))
  }

  lemma GivenStops(r: Runtime, involved: set<string>, v: Validator, checks: seq<Check>)
    requires forall c :: c in checks ==> !VenueLocal(c.key)
    ensures NoneStops(r, involved, v, checks) <==> GivenClear(checks, v)
  {
    forall i | 0 <= i < |checks|
      ensures Stops(r, involved, v, checks[i]) <==>
              !(!Raised(checks[i]) || (checks[i].key.Profitability? && v == Some(true)))
    {
      assert checks[i] in checks;
      GivenStop(r, involved, v, checks[i]);
    }
  }

  lemma GivenStop(r: Runtime, involved: set<string>, v: Validator, c: Check)
    requires !VenueLocal(c.key)
    ensures Stops(r, involved, v, c) <==> Raised(c) && !(c.key.Profitability? && v == Some(true))
  {
    match v
    case None =>
    case Some(approved) => if approved {}
  }

  lemma NoneStopsConcat(r: Runtime, involved: set<string>, v: Validator, a: seq<Check>, b: seq<Check>)
    ensures NoneStops(r, involved, v, a + b) <==> NoneStops(r, involved, v, a) && NoneStops(r, involved, v, b)
  {
    if NoneStops(r, involved, v, a + b) {
      forall i | 0 <= i < |a| ensures !Stops(r, involved, v, a[i]) { assert (a + b)[i] == a[i]; }
      forall i | 0 <= i < |b| ensures !Stops(r, involved, v, b[i]) { assert (a + b)[|a| + i] == b[i]; }
    }
  }

  lemma NoneStopsThree(r: Runtime, involved: set<string>, v: Validator, x: Check, y: Check, z: Check)
    ensures NoneStops(r, involved, v, [x, y, z]) <==>
            !Stops(r, involved, v, x) && !Stops(r, involved, v, y) && !Stops(r, involved, v, z)
  {
    var s := [x, y, z];
    assert s[0] == x && s[1] == y && s[2] == z;
  }

  predicate VenuesClear(r: Runtime, involved: set<string>) {
    && !IncidentsBlock(r.incidents, involved)
    && !BalancesBlock(r.balances, involved)
    && !CollectorsBlock(r.collectors, involved)
  }

  /** What it takes for no check to stand in the way. */
  lemma ClearMeans(r: Runtime, involved: set<string>, v: Validator)
    requires WellFormed(r)
    ensures Clear(r, involved, v) <==> GivenClear(r.front, v) && VenuesClear(r, involved) && GivenClear(r.back, v)
  {
    var own := [CheckIncidents(r), CheckBalances(r), CheckCollectors(r)];
    NoneStopsConcat(r, involved, v, r.front + own, r.back);
    NoneStopsConcat(r, involved, v, r.front, own);
    GivenStops(r, involved, v, r.front);
    GivenStops(r, involved, v, r.back);
    NoneStopsThree(r, involved, v, CheckIncidents(r), CheckBalances(r), CheckCollectors(r));
    IncidentBlocks(r, involved, v);
    BalanceBlocks(r, involved, v);
    CollectorBlocks(r, involved, v);
  }

  lemma TelemetrySummary()
    ensures Plain(NO_TELEMETRY)
  {
    assert Trimmed(NO_TELEMETRY);
    StripTrimmed(NO_TELEMETRY);
  }

  /** One thing going wrong at one venue. */
  datatype Failure =
    | CircuitOpens(collector: nat)
    | ErrorsMount(collector: nat, errors: int)
    | BalanceDrops(platform: string)
    | CriticalIncident(platform: string, stands: nat)

  function DropBalance(balances: seq<Balance>, platform: string): seq<Balance> {
    if balances == [] then [Balance(platform, true)]
    else if balances[0].platform == platform then [Balance(platform, true)] + balances[1..]
    else [balances[0]] + DropBalance(balances[1..], platform)
  }

  predicate Possible(r: Runtime, f: Failure) {
    match f
    case CircuitOpens(i) => i < |r.collectors|
    case ErrorsMount(i, n) => i < |r.collectors| && n >= 5
    case BalanceDrops(_) => true
    case CriticalIncident(platform, _) => platform != ""
  }

  function After(r: Runtime, f: Failure): Runtime
    requires Possible(r, f)
  {
    match f
    case CircuitOpens(i) => r.(collectors := r.collectors[i := r.collectors[i].(openCircuit := true)])
    case ErrorsMount(i, n) => r.(collectors := r.collectors[i := r.collectors[i].(consecutiveErrors := n)])
    case BalanceDrops(platform) => r.(balances := DropBalance(r.balances, platform))
    case CriticalIncident(platform, stands) =>
      r.(incidents := r.incidents + [Incident(true, false, platform, stands)])
  }

  /** The failure is confined to a venue the opportunity does not touch. */
  predicate Uninvolved(r: Runtime, f: Failure, involved: set<string>)
    requires Possible(r, f)
  {
    match f
    case CircuitOpens(i) => Venue(r.collectors[i].name) !in involved
    case ErrorsMount(i, _) => Venue(r.collectors[i].name) !in involved
    case BalanceDrops(platform) => Lower(platform) !in involved && platform !in involved
    case CriticalIncident(platform, _) => Lower(platform) !in involved
  }

  lemma OneMoreFailing(cs: seq<Collector>, i: nat, worse: Collector)
    requires i < |cs| && worse.name == cs[i].name && Failing(worse)
    ensures worse.name in FailingNames(cs[i := worse])
    ensures forall n :: n in FailingNames(cs[i := worse]) ==> n == worse.name || n in FailingNames(cs)
  {
    var after := cs[i := worse];
    assert after[i] == worse;
    FailingNamesAre(after, worse.name);
    forall n | n in FailingNames(after) ensures n == worse.name || n in FailingNames(cs) {
      FailingNamesAre(after, n);
      FailingNamesAre(cs, n);
      var j :| 0 <= j < |after| && after[j].name == n && Failing(after[j]);
      if j != i { assert cs[j] == after[j]; }
    }
  }

  lemma WorseVenues(before: seq<string>, after: seq<string>, name: string)
    requires forall n :: n in after ==> n == name || n in before
    ensures forall p :: p in Venues(after) ==> p == Venue(name) || p in Venues(before)
  {
  }

  /** A collector that starts failing adds only its own venue to the scope. */
  lemma CollectorWorse(cs: seq<Collector>, i: nat, worse: Collector, involved: set<string>)
    requires i < |cs| && worse.name == cs[i].name && Failing(worse) && Venue(worse.name) !in involved
    ensures CollectorsBlock(cs[i := worse], involved) ==> CollectorsBlock(cs, involved)
  {
    OneMoreFailing(cs, i, worse);
    WorseVenues(FailingNames(cs), FailingNames(cs[i := worse]), worse.name);
    if CollectorsBlock(cs[i := worse], involved) {
      var p :| p in CollectorVenues(cs[i := worse]).value && p in involved;
      assert p in Venues(FailingNames(cs));
    }
  }

  lemma {:induction false} DropLow(balances: seq<Balance>, platform: string, n: string)
    ensures n in LowPlatforms(DropBalance(balances, platform)) <==> n == platform || n in LowPlatforms(balances)
  {
    if balances != [] && balances[0].platform != platform { DropLow(balances[1..], platform, n); }
  }

  lemma BalanceWorse(balances: seq<Balance>, platform: string, involved: set<string>)
    requires balances != [] && Lower(platform) !in involved
    ensures BalancesBlock(DropBalance(balances, platform), involved) ==> BalancesBlock(balances, involved)
  {
    var after := DropBalance(balances, platform);
    if BalancesBlock(after, involved) {
      var p :| p in LowerAll(LowPlatforms(after)) && p in involved;
      var n :| n in LowPlatforms(after) && Lower(n) == p;
      DropLow(balances, platform, n);
      assert p in LowerAll(LowPlatforms(balances));
    }
  }

  lemma {:induction false} OpenCriticalAppend(incidents: seq<Incident>, i: Incident)
    ensures OpenCritical(incidents + [i]) ==
            if i.critical && !i.resolved then OpenCritical(incidents) + [i] else OpenCritical(incidents)
  {
    if incidents == [] {
      assert incidents + [i] == [i];
    } else {
      OpenCriticalAppend(incidents[1..], i);
      assert (incidents + [i])[1..] == incidents[1..] + [i];
    }
  }

  lemma IncidentWorse(incidents: seq<Incident>, i: Incident, involved: set<string>)
    requires !Touches(i, involved)
    ensures IncidentsBlock(incidents + [i], involved) ==> IncidentsBlock(incidents, involved)
  {
    OpenCriticalAppend(incidents, i);
  }

  lemma FailureKeepsVenuesClear(r: Runtime, f: Failure, involved: set<string>)
    requires Possible(r, f) && Uninvolved(r, f, involved) && VenuesClear(r, involved)
    ensures VenuesClear(After(r, f), involved)
    ensures !LowInvolved(r, involved) ==> !LowInvolved(After(r, f), involved)
  {
    var r' := After(r, f);
    match f {
      case CircuitOpens(i) => CollectorWorse(r.collectors, i, r'.collectors[i], involved);
      case ErrorsMount(i, n) => CollectorWorse(r.collectors, i, r'.collectors[i], involved);
      case BalanceDrops(platform) =>
        BalanceWorse(r.balances, platform, involved);
        forall n ensures n in LowPlatforms(r'.balances) <==> n == platform || n in LowPlatforms(r.balances) {
          DropLow(r.balances, platform, n);
        }
      case CriticalIncident(platform, stands) =>
        IncidentWorse(r.incidents, Incident(true, false, platform, stands), involved);
    }
  }

  lemma FailureKeepsWellFormed(r: Runtime, f: Failure)
    requires WellFormed(r) && Possible(r, f)
    ensures WellFormed(After(r, f))
  {
    var r' := After(r, f);
    match f {
      case CircuitOpens(i) => KeepsPlain(r, i, r'.collectors[i]);
      case ErrorsMount(i, n) => KeepsPlain(r, i, r'.collectors[i]);
      case BalanceDrops(_) =>
      case CriticalIncident(_, _) =>
    }
  }

  /** A failure confined to a venue the opportunity does not touch leaves an
      approval standing. */
  lemma FailureElsewhere(r: Runtime, f: Failure, involved: set<string>, v: Validator)
    requires WellFormed(r) && Possible(r, f) && Uninvolved(r, f, involved)
    requires Allowed(r, involved, v)
    ensures WellFormed(After(r, f)) && Allowed(After(r, f), involved, v)
  {
    FailureKeepsWellFormed(r, f);
    if !r.dryRun {
      ClearMeans(r, involved, v);
      ClearMeans(After(r, f), involved, v);
      FailureKeepsVenuesClear(r, f, involved);
    }
  }

  /** The other direction: any such failure at a venue the opportunity does
      touch turns the approval into a refusal.  So an approval survives a failure
      exactly when the failure is elsewhere. */
  lemma FailureDecides(r: Runtime, f: Failure, involved: set<string>, v: Validator)
    requires WellFormed(r) && Possible(r, f) && Allowed(r, involved, v) && !r.dryRun
    ensures Allowed(After(r, f), involved, v) <==> Uninvolved(r, f, involved)
  {
    FailureKeepsWellFormed(r, f);
    ClearMeans(After(r, f), involved, v);
    if Uninvolved(r, f, involved) {
      FailureElsewhere(r, f, involved, v);
    } else {
      FailureHereBlocks(r, f, involved);
    }
  }

  lemma FailureHereBlocks(r: Runtime, f: Failure, involved: set<string>)
    requires Possible(r, f) && !Uninvolved(r, f, involved)
    requires forall c :: c in r.collectors ==> Plain(c.name)
    ensures !VenuesClear(After(r, f), involved) || LowInvolved(After(r, f), involved)
  {
    var r' := After(r, f);
    match f {
      case CircuitOpens(i) => CollectorHere(r.collectors, i, r'.collectors[i], involved);
      case ErrorsMount(i, n) => CollectorHere(r.collectors, i, r'.collectors[i], involved);
      case BalanceDrops(platform) =>
        DropLow(r.balances, platform, platform);
        assert Lower(platform) in LowerAll(LowPlatforms(r'.balances));
      case CriticalIncident(platform, stands) =>
        var i := Incident(true, false, platform, stands);
        OpenCriticalAppend(r.incidents, i);
        var critical := OpenCritical(r'.incidents);
        assert critical[|critical| - 1] == i && Touches(i, involved);
    }
  }

  lemma CollectorHere(cs: seq<Collector>, i: nat, worse: Collector, involved: set<string>)
    requires i < |cs| && worse.name == cs[i].name && Failing(worse) && Venue(worse.name) in involved
    requires forall c :: c in cs ==> Plain(c.name)
    ensures CollectorsBlock(cs[i := worse], involved)
  {
    assert cs[i] in cs;
    OneMoreFailing(cs, i, worse);
    assert Venue(worse.name) in Venues(FailingNames(cs[i := worse]));
  }

  lemma KeepsPlain(r: Runtime, i: nat, worse: Collector)
    requires WellFormed(r) && i < |r.collectors| && worse.name == r.collectors[i].name
    ensures WellFormed(r.(collectors := r.collectors[i := worse]))
  {
    assert r.collectors[i] in r.collectors;
  }

  /** ... and so does any run of such failures. */
  function AfterAll(r: Runtime, fs: seq<Failure>): Runtime {
    if fs == [] then r
    else
      var before := AfterAll(r, fs[..|fs| - 1]);
      if Possible(before, fs[|fs| - 1]) then After(before, fs[|fs| - 1]) else before
  }

  lemma {:induction false} FailuresElsewhere(r: Runtime, fs: seq<Failure>, involved: set<string>, v: Validator)
    requires WellFormed(r) && Allowed(r, involved, v)
    requires forall n :: 0 <= n < |fs| && Possible(AfterAll(r, fs[..n]), fs[n]) ==>
               Uninvolved(AfterAll(r, fs[..n]), fs[n], involved)
    ensures WellFormed(AfterAll(r, fs)) && Allowed(AfterAll(r, fs), involved, v)
  {
    if fs != [] {
      var front := fs[..|fs| - 1];
      forall n | 0 <= n < |front| ensures front[..n] == fs[..n] {}
      FailuresElsewhere(r, front, involved, v);
      var before := AfterAll(r, front);
      if Possible(before, fs[|fs| - 1]) { FailureElsewhere(before, fs[|fs| - 1], involved, v); }
    }
  }

  // ------------------------------------------ ... but can let one through

  predicate WarmingAt(cs: seq<Collector>, involved: set<string>) {
    exists i :: 0 <= i < |cs| && cs[i].fetches <= 0 && Venue(cs[i].name) in involved
  }

  /** The failure takes a warning's place: the first failing collector silences
      the warming ones, and the first observed balance ends the wait for any. */
  predicate Silences(r: Runtime, f: Failure, involved: set<string>) {
    match f
    case CircuitOpens(_) => FailingNames(r.collectors) == [] && WarmingAt(r.collectors, involved)
    case ErrorsMount(_, _) => FailingNames(r.collectors) == [] && WarmingAt(r.collectors, involved)
    case BalanceDrops(_) => r.balances == []
    case CriticalIncident(_, _) => false
  }

  /** Nothing else stands in the way. */
  predicate OtherwiseClear(r: Runtime, f: Failure, involved: set<string>, v: Validator) {
    && GivenClear(r.front, v) && GivenClear(r.back, v) && v != Some(false)
    && !IncidentsBlock(r.incidents, involved)
    && (f.BalanceDrops? || (!BalancesBlock(r.balances, involved) && !LowInvolved(r, involved)))
    && (f.CircuitOpens? || f.ErrorsMount? || !CollectorsBlock(r.collectors, involved))
  }

  lemma WarmingBlocks(cs: seq<Collector>, involved: set<string>)
    requires cs != [] && FailingNames(cs) == [] && forall c :: c in cs ==> Plain(c.name)
    ensures CollectorsBlock(cs, involved) <==> WarmingAt(cs, involved)
  {
    var names := WarmingNames(cs);
    forall n ensures n in names <==> exists i :: 0 <= i < |cs| && cs[i].name == n && cs[i].fetches <= 0 {
      WarmingNamesAre(cs, n);
    }
    if WarmingAt(cs, involved) {
      var i :| 0 <= i < |cs| && cs[i].fetches <= 0 && Venue(cs[i].name) in involved;
      assert cs[i] in cs && cs[i].name in names && Venue(cs[i].name) in Venues(names);
    }
    if CollectorsBlock(cs, involved) {
      var p :| p in Venues(names) && p in involved;
      var n :| n in names && Strip(n) != "" && Venue(n) == p;
    }
  }

  lemma StillFailing(cs: seq<Collector>, i: nat, worse: Collector)
    requires i < |cs| && worse.name == cs[i].name && Failing(worse)
    ensures forall n :: n in FailingNames(cs) ==> n in FailingNames(cs[i := worse])
  {
    var after := cs[i := worse];
    forall n | n in FailingNames(cs) ensures n in FailingNames(after) {
      FailingNamesAre(cs, n);
      var j :| 0 <= j < |cs| && cs[j].name == n && Failing(cs[j]);
      assert after[j].name == n && Failing(after[j]);
      FailingNamesAre(after, n);
    }
  }

  /** When a collector starts failing, the collector check stops blocking exactly
      if that collector is elsewhere and only warming ones were named before. */
  lemma CollectorUnblocks(cs: seq<Collector>, i: nat, worse: Collector, involved: set<string>)
    requires i < |cs| && worse.name == cs[i].name && Failing(worse)
    requires forall c :: c in cs ==> Plain(c.name)
    ensures CollectorsBlock(cs, involved) && !CollectorsBlock(cs[i := worse], involved) <==>
            FailingNames(cs) == [] && WarmingAt(cs, involved) && Venue(worse.name) !in involved
  {
    var after := cs[i := worse];
    assert cs[i] in cs;
    OneMoreFailing(cs, i, worse);
    assert Venue(worse.name) in Venues(FailingNames(after));
    if FailingNames(cs) == [] {
      WarmingBlocks(cs, involved);
      WorseVenues([], FailingNames(after), worse.name);
    } else {
      StillFailing(cs, i, worse);
      MoreVenues(FailingNames(cs), FailingNames(after));
    }
  }

  lemma MoreVenues(before: seq<string>, after: seq<string>)
    requires forall n :: n in before ==> n in after
    ensures Venues(before) <= Venues(after)
  {
  }

  lemma BalanceUnblocks(r: Runtime, platform: string, involved: set<string>)
    ensures var after := DropBalance(r.balances, platform);
      (BalancesBlock(r.balances, involved) || LowInvolved(r, involved))
      && !BalancesBlock(after, involved) && !LowInvolved(r.(balances := after), involved) <==>
      r.balances == [] && Lower(platform) !in involved && platform !in involved
  {
    var low, low' := LowPlatforms(r.balances), LowPlatforms(DropBalance(r.balances, platform));
    forall n ensures n in low' <==> n == platform || n in low { DropLow(r.balances, platform, n); }
    assert platform in low';
    forall p ensures p in LowerAll(low') <==> p == Lower(platform) || p in LowerAll(low) {
      if p in LowerAll(low') { var n :| n in low' && Lower(n) == p; }
      if p in LowerAll(low) { var n :| n in low && Lower(n) == p; assert n in low'; }
      assert Lower(platform) in LowerAll(low');
    }
  }

  /** A failure can open the gate.  In live mode a refusal becomes an approval
      exactly when nothing else stands in the way and either the first collector
      to fail is at an uninvolved venue while one at an involved venue is warming
      up, or the first balance to be observed is a low one elsewhere. */
  lemma FailureOpens(r: Runtime, f: Failure, involved: set<string>, v: Validator)
    requires WellFormed(r) && Possible(r, f) && !r.dryRun
    ensures !Allowed(r, involved, v) && Allowed(After(r, f), involved, v) <==>
            OtherwiseClear(r, f, involved, v) && Uninvolved(r, f, involved) && Silences(r, f, involved)
  {
    var r' := After(r, f);
    FailureKeepsWellFormed(r, f);
    ClearMeans(r, involved, v);
    ClearMeans(r', involved, v);
    match f {
      case CircuitOpens(i) => CollectorUnblocks(r.collectors, i, r'.collectors[i], involved);
      case ErrorsMount(i, n) => CollectorUnblocks(r.collectors, i, r'.collectors[i], involved);
      case BalanceDrops(platform) => BalanceUnblocks(r, platform, involved);
      case CriticalIncident(platform, stands) =>
        var i := Incident(true, false, platform, stands);
        OpenCriticalAppend(r.incidents, i);
        MoreIncidents(OpenCritical(r.incidents), i, involved);
    }
  }

  lemma MoreIncidents(incidents: seq<Incident>, i: Incident, involved: set<string>)
    ensures AnyTouches(incidents, involved) ==> AnyTouches(incidents + [i], involved)
  {
    if j :| 0 <= j < |incidents| && Touches(incidents[j], involved) {
      assert Touches((incidents + [i])[j], involved);
    }
  }
}
