/**
 The payoff table of the directional book: what the flagged legs pay in every
 settlement state in play and in each state's complement.  How a state is
 complemented is a parameter.
 */
module PayoffTable {
  import opened Options
  import opened Sums

  type Complementer = string -> string

  /** One flagged leg: `quantity` contracts that pay 1 each in `state`. */
  datatype Stake = Stake(state: string, quantity: real, cost: real)

  function Quantity(stakes: seq<Stake>): real {
    if stakes == [] then 0.0 else Quantity(stakes[..|stakes| - 1]) + stakes[|stakes| - 1].quantity
  }

  function Cost(stakes: seq<Stake>): real {
    if stakes == [] then 0.0 else Cost(stakes[..|stakes| - 1]) + stakes[|stakes| - 1].cost
  }

  /** What the stakes pay if the world ends up in `state`. */
  function Payout(stakes: seq<Stake>, state: string): real {
    if stakes == [] then 0.0
    else Payout(stakes[..|stakes| - 1], state)
         + if stakes[|stakes| - 1].state == state then stakes[|stakes| - 1].quantity else 0.0
  }

  predicate PaysIn(stakes: seq<Stake>, state: string) {
    exists i :: 0 <= i < |stakes| && stakes[i].state == state
  }

  predicate AllPositive(stakes: seq<Stake>) {
    forall i :: 0 <= i < |stakes| ==> stakes[i].quantity > 0.0
  }

  lemma {:induction false} PayoutPositive(stakes: seq<Stake>, s: string)
    requires AllPositive(stakes)
    ensures Payout(stakes, s) >= 0.0 && (Payout(stakes, s) > 0.0 <==> PaysIn(stakes, s))
  {
    if stakes != [] {
      var n := |stakes| - 1;
      PayoutPositive(stakes[..n], s);
      PaysInOneMore(stakes[..n], stakes[n], s);
      assert stakes[..n] + [stakes[n]] == stakes;
    }
  }

  lemma PaysInOneMore(stakes: seq<Stake>, last: Stake, s: string)
    ensures PaysIn(stakes + [last], s) <==> PaysIn(stakes, s) || last.state == s
  {
    var more := stakes + [last];
    assert more[|stakes|] == last;
    if i :| 0 <= i < |stakes| && stakes[i].state == s { assert more[i].state == s; }
  }

  // -------------------------------------------------------------- the table

  function Credit(table: map<string, real>, stake: Stake): map<string, real> {
    table[stake.state := Get(table, stake.state) + stake.quantity]
  }

  /** The table says what the stakes pay, and its keys are the states in which
      some stake pays. */
  ghost predicate Tabulates(table: map<string, real>, stakes: seq<Stake>) {
    forall s :: (s in table <==> PaysIn(stakes, s)) && Get(table, s) == Payout(stakes, s)
  }

  lemma CreditTabulates(table: map<string, real>, stakes: seq<Stake>, last: Stake)
    requires Tabulates(table, stakes)
    ensures Tabulates(Credit(table, last), stakes + [last])
  {
    assert (stakes + [last])[..|stakes|] == stakes;
    forall s ensures (s in Credit(table, last) <==> PaysIn(stakes + [last], s))
                     && Get(Credit(table, last), s) == Payout(stakes + [last], s)
    {
      PaysInOneMore(stakes, last, s);
    }
  }

  /** Adding to one entry adds that much to the sum. */
  lemma CreditSum(table: map<string, real>, stake: Stake)
    ensures SumOver(Credit(table, stake).Keys, Credit(table, stake)) == SumOver(table.Keys, table) + stake.quantity
  {
    var after, rest := Credit(table, stake), table.Keys - {stake.state};
    SumSame(rest, after, table);
    SumAdd(rest, after, stake.state);
    assert after.Keys == rest + {stake.state};
    if stake.state in table { SumPick(table.Keys, table, stake.state); } else { assert rest == table.Keys; }
  }

  /** Accumulating payouts, contracts and cost leg by leg.  Every contract ends
      up in exactly one entry. */
  method Accumulate(stakes: seq<Stake>) returns (table: map<string, real>, contracts: real, cost: real)
    ensures Tabulates(table, stakes)
    ensures contracts == Quantity(stakes) && cost == Cost(stakes)
    ensures SumOver(table.Keys, table) == contracts
  {
    table, contracts, cost := map[], 0.0, 0.0;
    for i := 0 to |stakes|
      invariant Tabulates(table, stakes[..i])
      invariant contracts == Quantity(stakes[..i]) && cost == Cost(stakes[..i])
      invariant SumOver(table.Keys, table) == contracts
    {
      assert stakes[..i + 1] == stakes[..i] + [stakes[i]] && stakes[..i + 1][..i] == stakes[..i];
      CreditTabulates(table, stakes[..i], stakes[i]);
      CreditSum(table, stakes[i]);
      table := Credit(table, stakes[i]);
      contracts := contracts + stakes[i].quantity;
      cost := cost + stakes[i].cost;
    }
    assert stakes[..|stakes|] == stakes;
  }

  // ------------------------------------------------------------ the universe

  /** A state that complementing leaves and comes back to. */
  predicate Paired(comp: Complementer, state: string) {
    comp(state) != state && comp(comp(state)) == state
  }

  predicate AllPaired(comp: Complementer, stakes: seq<Stake>) {
    forall i :: 0 <= i < |stakes| ==> Paired(comp, stakes[i].state)
  }

  ghost predicate IsUniverse(comp: Complementer, universe: set<string>, stakes: seq<Stake>) {
    forall s :: s in universe <==> PaysIn(stakes, s) || exists t :: PaysIn(stakes, t) && comp(t) == s
  }

  /** One pass that adds each state's complement ... */
  method AddComplements(comp: Complementer, states: set<string>) returns (universe: set<string>)
    ensures forall s :: s in universe <==> s in states || exists t :: t in states && comp(t) == s
  {
    universe := states;
    var todo := states;
    while todo != {}
      invariant todo <= states
      invariant forall s :: s in universe <==> s in states || exists t :: t in states && t !in todo && comp(t) == s
    {
      var t :| t in todo;
      ghost var before := universe;
      universe := universe + {comp(t)};
      todo := todo - {t};
      forall s ensures s in universe <==> s in states || exists u :: u in states && u !in todo && comp(u) == s {
        assert s in universe <==> s in before || s == comp(t);
      }
    }
  }

  /** ... already closes the universe under complement. */
  lemma UniverseIsClosed(comp: Complementer, universe: set<string>, stakes: seq<Stake>)
    requires IsUniverse(comp, universe, stakes) && AllPaired(comp, stakes)
    ensures forall s :: s in universe ==> comp(s) in universe && Paired(comp, s)
  {
    forall s | s in universe ensures comp(s) in universe && Paired(comp, s) {
      if PaysIn(stakes, s) {
        var i :| 0 <= i < |stakes| && stakes[i].state == s;
      } else {
        var t :| PaysIn(stakes, t) && comp(t) == s;
        var i :| 0 <= i < |stakes| && stakes[i].state == t;
        assert Paired(comp, t);
      }
    }
  }

  /** The payouts over the whole universe are the contracts at risk. */
  lemma PayoutsAreContracts(comp: Complementer, universe: set<string>, stakes: seq<Stake>, table: map<string, real>)
    requires IsUniverse(comp, universe, stakes) && Tabulates(table, stakes)
    ensures SumOver(universe, table) == SumOver(table.Keys, table)
  {
    assert table.Keys + universe == universe;
    SumAbsent(table.Keys, universe, table);
  }

  /** In a single settlement domain what is won in one state is lost in the
      other, up to the price paid for both. */
  lemma OneDomain(comp: Complementer, universe: set<string>, stakes: seq<Stake>, table: map<string, real>, s: string)
    requires IsUniverse(comp, universe, stakes) && Tabulates(table, stakes) && AllPaired(comp, stakes)
    requires SumOver(table.Keys, table) == Quantity(stakes)
    requires universe == {s, comp(s)} && Paired(comp, s)
    ensures (Payout(stakes, s) - Cost(stakes)) + (Payout(stakes, comp(s)) - Cost(stakes))
            == Quantity(stakes) - 2.0 * Cost(stakes)
  {
    PayoutsAreContracts(comp, universe, stakes, table);
    SumPick(universe, table, s);
    assert universe - {s} == {comp(s)};
    SumPick({comp(s)}, table, comp(s));
    assert {comp(s)} - {comp(s)} == {};
  }

  /** net is the worst outcome of the universe, and `at` has it. */
  ghost predicate IsWorst(universe: set<string>, stakes: seq<Stake>, at: string, net: real) {
    && at in universe && net == Payout(stakes, at) - Cost(stakes)
    && forall s :: s in universe ==> net <= Payout(stakes, s) - Cost(stakes)
  }

  method WorstCase(universe: set<string>, stakes: seq<Stake>, table: map<string, real>, cost: real)
    returns (at: string, net: real)
    requires universe != {} && Tabulates(table, stakes) && cost == Cost(stakes)
    ensures IsWorst(universe, stakes, at, net)
  {
    at :| at in universe;
    net := Get(table, at) - cost;
    var todo := universe - {at};
    while todo != {}
      invariant todo <= universe && at in universe && net == Get(table, at) - cost
      invariant forall s :: s in universe && s !in todo ==> net <= Get(table, s) - cost
    {
      var s :| s in todo;
      todo := todo - {s};
      if Get(table, s) - cost < net { at, net := s, Get(table, s) - cost; }
    }
    forall s | s in universe ensures net <= Payout(stakes, s) - Cost(stakes) {
      assert Get(table, s) == Payout(stakes, s);
    }
  }

  /** Everything spent is lost in the worst case exactly when some state of the
      universe pays nothing; a book on one settlement state is such a book. */
  lemma WorstLosesAll(comp: Complementer, universe: set<string>, stakes: seq<Stake>, at: string, net: real)
    requires IsUniverse(comp, universe, stakes) && AllPositive(stakes) && AllPaired(comp, stakes)
    requires IsWorst(universe, stakes, at, net)
    ensures net >= -Cost(stakes)
    ensures net == -Cost(stakes) <==> exists s :: s in universe && !PaysIn(stakes, s)
    ensures (forall i, j :: 0 <= i < j < |stakes| ==> stakes[i].state == stakes[j].state) ==> net == -Cost(stakes)
  {
    forall s ensures Payout(stakes, s) >= 0.0 && (Payout(stakes, s) > 0.0 <==> PaysIn(stakes, s)) {
      PayoutPositive(stakes, s);
    }
    if forall i, j :: 0 <= i < j < |stakes| ==> stakes[i].state == stakes[j].state {
      UniverseIsClosed(comp, universe, stakes);
      OneStateMissesComplement(comp, stakes, at);
    }
  }

  lemma OneStateMissesComplement(comp: Complementer, stakes: seq<Stake>, s: string)
    requires forall i, j :: 0 <= i < j < |stakes| ==> stakes[i].state == stakes[j].state
    requires comp(s) != s
    ensures !PaysIn(stakes, s) || !PaysIn(stakes, comp(s))
  {
  }

  /** One domain {state, complement} per state in play, each listed once. */
  ghost predicate Domains(comp: Complementer, domains: seq<set<string>>, stakes: seq<Stake>) {
    && (forall d :: d in domains <==> exists s :: PaysIn(stakes, s) && d == {s, comp(s)})
    && (forall i, j :: 0 <= i < j < |domains| ==> domains[i] != domains[j])
  }

  /** A position adds stakes on one state. */
  method AddDomain(comp: Complementer, domains: seq<set<string>>, ghost stakes: seq<Stake>, a: Stake, ghost b: Stake)
    returns (more: seq<set<string>>)
    requires Domains(comp, domains, stakes) && a.state == b.state
    ensures Domains(comp, more, stakes + [a, b])
  {
    var domain := {a.state, comp(a.state)};
    more := if domain in domains then domains else domains + [domain];
    forall t ensures PaysIn(stakes + [a, b], t) <==> PaysIn(stakes, t) || t == a.state {
      assert stakes + [a, b] == (stakes + [a]) + [b];
      PaysInOneMore(stakes, a, t);
      PaysInOneMore(stakes + [a], b, t);
    }
    assert PaysIn(stakes + [a, b], a.state);
  }

  lemma DomainOfState(comp: Complementer, domains: seq<set<string>>, stakes: seq<Stake>, universe: set<string>,
                      t: string)
    requires Domains(comp, domains, stakes) && IsUniverse(comp, universe, stakes) && AllPaired(comp, stakes)
    requires t in universe
    ensures {t, comp(t)} in domains
  {
    if !PaysIn(stakes, t) {
      var u :| PaysIn(stakes, u) && comp(u) == t;
      var i :| 0 <= i < |stakes| && stakes[i].state == u;
      assert Paired(comp, u);
      assert {u, comp(u)} == {t, comp(t)};
    }
  }

  /** When a single domain is listed, its two states are the universe, and the
      two nets add up to the contracts less twice the cost. */
  lemma SingleDomain(comp: Complementer, stakes: seq<Stake>, universe: set<string>, table: map<string, real>,
                     domains: seq<set<string>>, s: string)
    requires AllPaired(comp, stakes) && IsUniverse(comp, universe, stakes) && Tabulates(table, stakes)
    requires SumOver(table.Keys, table) == Quantity(stakes)
    requires Domains(comp, domains, stakes) && |domains| == 1 && s in universe
    ensures universe == {s, comp(s)} == domains[0]
    ensures (Payout(stakes, s) - Cost(stakes)) + (Payout(stakes, comp(s)) - Cost(stakes))
            == Quantity(stakes) - 2.0 * Cost(stakes)
  {
    UniverseIsClosed(comp, universe, stakes);
    DomainOfState(comp, domains, stakes, universe, s);
    forall t | t in universe ensures t in domains[0] {
      DomainOfState(comp, domains, stakes, universe, t);
      assert t in {t, comp(t)};
    }
    OneDomain(comp, universe, stakes, table, s);
  }

  /** The figures shown for the flagged legs. */
  datatype Summary = Summary(payout: map<string, real>, universe: set<string>, contracts: real, cost: real,
                             worst: Option<(string, real)>)

  ghost predicate Summarizes(comp: Complementer, s: Summary, stakes: seq<Stake>) {
    && Tabulates(s.payout, stakes) && IsUniverse(comp, s.universe, stakes)
    && s.contracts == Quantity(stakes) && s.cost == Cost(stakes)
    && match s.worst
       case None => stakes == []
       case Some((at, net)) => stakes != [] && IsWorst(s.universe, stakes, at, net)
  }

  /** The tail of _directional_book: the payouts over the universe account for
      every contract at risk, and the universe is closed under complement. */
  method Summarize(comp: Complementer, stakes: seq<Stake>) returns (s: Summary)
    requires AllPaired(comp, stakes)
    ensures Summarizes(comp, s, stakes)
    ensures SumOver(s.universe, s.payout) == s.contracts
    ensures forall state :: state in s.universe ==> comp(state) in s.universe
  {
    var payout, contracts, cost := Accumulate(stakes);
    var universe := AddComplements(comp, payout.Keys);
    UniverseIsClosed(comp, universe, stakes);
    PayoutsAreContracts(comp, universe, stakes, payout);
    var worst := None;
    if payout.Keys != {} {
      var at, net := WorstCase(universe, stakes, payout, cost);
      worst := Some((at, net));
      assert PaysIn(stakes, at) || exists t :: PaysIn(stakes, t) && comp(t) == at;
    } else {
      if stakes != [] { assert PaysIn(stakes, stakes[0].state); }
    }
    s := Summary(payout, universe, contracts, cost, worst);
  }

  /** What one execution puts into the book: nothing, or two stakes on one state. */
  predicate Contributes(comp: Complementer, ss: seq<Stake>) {
    AllPositive(ss) && (ss == [] || (|ss| == 2 && ss[0].state == ss[1].state && Paired(comp, ss[0].state)))
  }

  function Flatten(parts: seq<seq<Stake>>): seq<Stake> {
    if parts == [] then [] else Flatten(parts[..|parts| - 1]) + parts[|parts| - 1]
  }

  /** The domains and figures of all contributions together. */
  method Tally(comp: Complementer, parts: seq<seq<Stake>>) returns (domains: seq<set<string>>, summary: Summary)
    requires forall ss :: ss in parts ==> Contributes(comp, ss)
    ensures Domains(comp, domains, Flatten(parts)) && Summarizes(comp, summary, Flatten(parts))
    ensures SumOver(summary.universe, summary.payout) == summary.contracts
    ensures forall s :: s in summary.universe ==> comp(s) in summary.universe
    ensures summary.worst.Some? ==>
      && summary.worst.value.1 >= -summary.cost
      && (summary.worst.value.1 == -summary.cost <==> exists s :: s in summary.universe && s !in summary.payout)
  {
    domains := [];
    var stakes: seq<Stake> := [];
    for n := 0 to |parts|
      invariant stakes == Flatten(parts[..n])
      invariant Domains(comp, domains, stakes) && AllPaired(comp, stakes) && AllPositive(stakes)
    {
      assert parts[..n + 1][..n] == parts[..n];
      var ss := parts[n];
      assert Contributes(comp, ss);
      if ss == [] {
        assert stakes + ss == stakes;
      } else {
        assert ss == [ss[0], ss[1]];
        domains := AddDomain(comp, domains, stakes, ss[0], ss[1]);
        stakes := stakes + ss;
      }
    }
    assert parts[..|parts|] == parts;
    summary := Summarize(comp, stakes);
    if summary.worst.Some? {
      WorstLosesAll(comp, summary.universe, stakes, summary.worst.value.0, summary.worst.value.1);
    }
  }
}
