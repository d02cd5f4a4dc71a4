/**
 The deposit-invariant P&L of handle_pnl_summary in arbiter/api.py, over exact
 amounts.  A missing platform counts as 0 in every map.
 */
module PnlSummary {
  import opened Options
  import opened Sums

  /** Live balances and the reconciler's books.  The starting balances already
      include the deposits. */
  datatype Books = Books(live: map<string, real>, starting: map<string, real>,
                         deposits: map<string, real>, recorded: map<string, real>)

  /** Platforms without a live balance whose balance is estimated. */
  function Estimated(b: Books): set<string> {
    (b.starting.Keys + b.recorded.Keys) - b.live.Keys
  }

  function Counted(b: Books): set<string> {
    b.live.Keys + Estimated(b)
  }

  /** Live balances, completed by start plus recorded P&L. */
  function Balances(b: Books): map<string, real> {
    map p | p in Counted(b) :: if p in b.live then b.live[p] else Get(b.starting, p) + Get(b.recorded, p)
  }

  function OriginalStarting(b: Books): map<string, real> {
    map p | p in Counted(b) :: Get(b.starting, p) - Get(b.deposits, p)
  }

  ghost function NetCashChange(b: Books): real {
    SumOver(Counted(b), Balances(b)) - SumOver(Counted(b), b.starting)
  }

  ghost function OriginalBasis(b: Books): real {
    SumOver(Counted(b), OriginalStarting(b))
  }

  /** The headline: the settled split if there is one, else the ledger if it has
      entries, else the balance method. */
  ghost function NetTradingPnl(b: Books, settled: Option<real>, expectedSettlement: real): real {
    if settled.Some? then settled.value
    else if b.recorded != map[] then SumOver(b.recorded.Keys, b.recorded)
    else NetCashChange(b) + expectedSettlement
  }

  /** Current balance less adjusted start, platform by platform. */
  function Changes(b: Books): map<string, real> {
    map p | p in Counted(b) :: Balances(b)[p] - Get(b.starting, p)
  }

  /** The change in cash is what live platforms gained over their start plus
      what the ledger recorded for the estimated ones. */
  lemma NetCashDecomposes(b: Books)
    ensures NetCashChange(b) == SumOver(b.live.Keys, Changes(b)) + SumOver(Estimated(b), b.recorded)
  {
    SumDifference(Counted(b), Changes(b), Balances(b), b.starting);
    SumUnion(b.live.Keys, Estimated(b), Changes(b));
    SumSame(Estimated(b), Changes(b), b.recorded);
  }

  /** Platform by platform: a live balance less its start, or what the ledger
      recorded for an estimated one. */
  lemma ChangesAre(b: Books, p: string)
    ensures p in Changes(b) <==> p in b.live || p in b.starting || p in b.recorded
    ensures p in b.live ==> Changes(b)[p] == b.live[p] - Get(b.starting, p)
    ensures p !in b.live && p in Changes(b) ==> Changes(b)[p] == Get(b.recorded, p)
  {
  }

  /** The original basis is the starts less the deposits of the same platforms. */
  lemma BasisDecomposes(b: Books)
    ensures OriginalBasis(b) == SumOver(Counted(b), b.starting) - SumOver(Counted(b), b.deposits)
  {
    SumDifference(Counted(b), OriginalStarting(b), b.starting, b.deposits);
  }

  /** A profit of x recorded for a platform. */
  function Profit(b: Books, p: string, x: real): Books {
    b.(recorded := b.recorded[p := Get(b.recorded, p) + x])
  }

  /** A live balance that rises by x. */
  function Gain(b: Books, p: string, x: real): Books
    requires p in b.live
  {
    b.(live := b.live[p := b.live[p] + x])
  }

  lemma SumRises(keys: set<string>, m: map<string, real>, m': map<string, real>, p: string, x: real)
    requires p in keys && Get(m', p) == Get(m, p) + x && forall q :: q != p ==> Get(m', q) == Get(m, q)
    ensures SumOver(keys, m') == SumOver(keys, m) + x
  {
    SumPick(keys, m, p);
    SumPick(keys, m', p);
    SumSame(keys - {p}, m', m);
  }

  /** What the headline follows.  The settled split, if there is one, and nothing
      else; otherwise the ledger once it has an entry: recorded profit moves the
      headline one to one and live balances do not; otherwise the balances, with
      the expected settlement, one to one. */
  lemma HeadlineFollows(b: Books, p: string, x: real, expected: real, y: real)
    ensures forall settled :: NetTradingPnl(b, Some(settled), expected) == settled
    ensures b.recorded != map[] ==>
      && NetTradingPnl(Profit(b, p, x), None, expected) == NetTradingPnl(b, None, expected) + x
      && NetTradingPnl(b, None, expected + y) == NetTradingPnl(b, None, expected)
      && (p in b.live ==> NetTradingPnl(Gain(b, p, x), None, expected) == NetTradingPnl(b, None, expected))
    ensures b.recorded == map[] ==>
      && NetTradingPnl(Profit(b, p, x), None, expected) == x
      && NetTradingPnl(b, None, expected + y) == NetTradingPnl(b, None, expected) + y
      && (p in b.live ==> NetTradingPnl(Gain(b, p, x), None, expected) == NetTradingPnl(b, None, expected) + x)
  {
    LedgerRises(b, p, x);
    if p in b.live { BalanceRises(b, p, x); }
  }

  lemma LedgerRises(b: Books, p: string, x: real)
    ensures var after := Profit(b, p, x).recorded;
      SumOver(after.Keys, after) == SumOver(b.recorded.Keys, b.recorded) + x
  {
    var after := Profit(b, p, x).recorded;
    assert after.Keys == b.recorded.Keys + {p};
    SumRises(after.Keys, b.recorded, after, p, x);
    SumAbsent(b.recorded.Keys, {p}, b.recorded);
  }

  lemma BalanceRises(b: Books, p: string, x: real)
    requires p in b.live
    ensures NetCashChange(Gain(b, p, x)) == NetCashChange(b) + x
  {
    var b' := Gain(b, p, x);
    assert b'.live.Keys == b.live.Keys && Counted(b') == Counted(b);
    SumRises(Counted(b), Balances(b), Balances(b'), p, x);
  }

  /** A deposit of d as the reconciler books it: it moves the live balance, the
      starting balance and the deposit total of one platform. */
  function Deposit(b: Books, p: string, d: real): Books {
    b.(live := if p in b.live then b.live[p := b.live[p] + d] else b.live,
       starting := b.starting[p := Get(b.starting, p) + d],
       deposits := b.deposits[p := Get(b.deposits, p) + d])
  }

  lemma NetCashIsChanges(b: Books)
    ensures NetCashChange(b) == SumOver(Counted(b), Changes(b))
  {
    SumDifference(Counted(b), Changes(b), Balances(b), b.starting);
  }

  lemma DepositCounted(b: Books, p: string, d: real)
    ensures Counted(Deposit(b, p, d)) == Counted(b) + {p}
  {
  }

  lemma DepositChange(b: Books, p: string, d: real, q: string)
    ensures Get(Changes(Deposit(b, p, d)), q) == Get(Changes(b), q)
  {
    DepositCounted(b, p, d);
  }

  /** No deposit changes the net cash change, in total or on any platform. */
  lemma DepositKeepsNetCash(b: Books, p: string, d: real)
    ensures NetCashChange(Deposit(b, p, d)) == NetCashChange(b)
    ensures forall q :: Get(Changes(Deposit(b, p, d)), q) == Get(Changes(b), q)
  {
    forall q ensures Get(Changes(Deposit(b, p, d)), q) == Get(Changes(b), q) { DepositChange(b, p, d, q); }
    NetCashIsChanges(b);
    NetCashIsChanges(Deposit(b, p, d));
    DepositCounted(b, p, d);
    SumSame(Counted(b) + {p}, Changes(Deposit(b, p, d)), Changes(b));
    SumAbsent(Counted(b), {p}, Changes(b));
  }

  /** Nor the headline, by whichever method it is computed. */
  lemma DepositKeepsTradingPnl(b: Books, p: string, d: real, settled: Option<real>, expectedSettlement: real)
    ensures NetTradingPnl(Deposit(b, p, d), settled, expectedSettlement)
            == NetTradingPnl(b, settled, expectedSettlement)
  {
    DepositKeepsNetCash(b, p, d);
  }

  lemma DepositStarting(b: Books, p: string, d: real, q: string)
    requires q in Counted(b)
    ensures Get(OriginalStarting(Deposit(b, p, d)), q) == Get(OriginalStarting(b), q)
  {
    DepositCounted(b, p, d);
  }

  /** The effect on the original capital basis, for any books. */
  lemma DepositAndBasis(b: Books, p: string, d: real)
    ensures OriginalBasis(Deposit(b, p, d)) == OriginalBasis(b) - if p in Counted(b) then 0.0 else Get(b.deposits, p)
  {
    var after := OriginalStarting(Deposit(b, p, d));
    DepositCounted(b, p, d);
    forall q | q in Counted(b) ensures Get(after, q) == Get(OriginalStarting(b), q) { DepositStarting(b, p, d, q); }
    SumSame(Counted(b), OriginalStarting(b), after);
    if p in Counted(b) {
      assert Counted(b) + {p} == Counted(b);
    } else {
      SumAdd(Counted(b), after, p);
    }
  }

  // -------------------------------------------------------- books as they arise

  /** What writes to the reconciler's books: a row restored from the database, an
      initial deposit backfilled from it, a start set, one platform of a new
      baseline (with its live balance, if any), a deposit, initial capital set by
      hand, recorded P&L; and a new reading of the live balances. */
  datatype Entry =
    | Restored(platform: string, start: real, total: real)
    | Backfilled(platform: string, noEvents: bool)
    | StartSet(platform: string, start: real)
    | Rebaselined(platform: string, balance: Option<real>, ledger: real)
    | Deposited(platform: string, amount: real)
    | CapitalSet(platform: string, amount: real)
    | Recorded(recorded: map<string, real>)
    | Observed(live: map<string, real>)

  function Enter(b: Books, e: Entry): Books {
    match e
    case Restored(p, start, total) =>
      b.(starting := b.starting[p := start], deposits := b.deposits[p := total],
         recorded := b.recorded[p := Get(b.recorded, p)])
    case Backfilled(p, noEvents) =>
      if Get(b.starting, p) > 0.0 && Get(b.deposits, p) == 0.0 && noEvents
      then b.(deposits := b.deposits[p := Get(b.starting, p)])
      else b
    case StartSet(p, start) =>
      b.(starting := b.starting[p := start], recorded := b.recorded[p := Get(b.recorded, p)])
    case Rebaselined(p, balance, ledger) =>
      var start := if balance.Some? then balance.value - ledger
                   else if p in b.starting then b.starting[p] else -ledger;
      b.(starting := b.starting[p := start], deposits := b.deposits[p := 0.0], recorded := b.recorded[p := ledger])
    case Deposited(p, amount) =>
      b.(starting := b.starting[p := Get(b.starting, p) + amount],
         deposits := b.deposits[p := Get(b.deposits, p) + amount])
    case CapitalSet(p, amount) =>
      b.(starting := b.starting[p := amount], deposits := b.deposits[p := 0.0])
    case Recorded(recorded) => b.(recorded := recorded)
    case Observed(live) => b.(live := live)
  }

  function BooksAfter(es: seq<Entry>): Books {
    if es == [] then Books(map[], map[], map[], map[]) else Enter(BooksAfter(es[..|es| - 1]), es[|es| - 1])
  }

  /** Wherever deposits are booked there is a start. */
  predicate Booked(b: Books) {
    b.deposits.Keys <= b.starting.Keys
  }

  lemma EnterKeepsBooked(b: Books, e: Entry)
    requires Booked(b)
    ensures Booked(Enter(b, e))
  {
    if e.Backfilled? && Get(b.starting, e.platform) > 0.0 { assert e.platform in b.starting; }
  }

  lemma {:induction false} AlwaysBooked(es: seq<Entry>)
    ensures Booked(BooksAfter(es))
  {
    if es != [] {
      AlwaysBooked(es[..|es| - 1]);
      EnterKeepsBooked(BooksAfter(es[..|es| - 1]), es[|es| - 1]);
    }
  }

  /** Nor does a deposit change the original capital basis. */
  lemma DepositKeepsBasis(b: Books, p: string, d: real)
    requires Booked(b)
    ensures Booked(Deposit(b, p, d)) && OriginalBasis(Deposit(b, p, d)) == OriginalBasis(b)
  {
    DepositAndBasis(b, p, d);
  }

  /** Whatever has been booked before. */
  lemma DepositNeverMovesBasis(es: seq<Entry>, p: string, d: real)
    ensures OriginalBasis(Deposit(BooksAfter(es), p, d)) == OriginalBasis(BooksAfter(es))
  {
    AlwaysBooked(es);
    DepositKeepsBasis(BooksAfter(es), p, d);
  }

  // ------------------------------------------------------------ the handler

  datatype Figures = Figures(balances: map<string, real>, changes: map<string, real>, estimated: set<string>,
                             netCash: real, originalBasis: real, netBalance: real, tradingPnl: real)

  method SumValues(keys: set<string>, m: map<string, real>) returns (total: real)
    ensures total == SumOver(keys, m)
  {
    total := 0.0;
    var todo := keys;
    while todo != {}
      invariant todo <= keys && total + SumOver(todo, m) == SumOver(keys, m)
    {
      var k :| k in todo;
      SumPick(todo, m, k);
      total := total + Get(m, k);
      todo := todo - {k};
    }
  }

  /** After the platforms outside `todo` have been looked at. */
  ghost predicate Filled(b: Books, balances: map<string, real>, estimated: set<string>, todo: set<string>) {
    && (forall q :: q in estimated <==> q in Estimated(b) && q !in todo)
    && (forall q :: q in balances <==> q in b.live || q in estimated)
    && (forall q :: q in balances ==>
          balances[q] == if q in b.live then b.live[q] else Get(b.starting, q) + Get(b.recorded, q))
  }

  lemma FilledAll(b: Books, balances: map<string, real>, estimated: set<string>)
    requires Filled(b, balances, estimated, {})
    ensures balances == Balances(b) && estimated == Estimated(b)
  {
  }

  function AllPlatforms(b: Books): set<string> {
    b.live.Keys + b.starting.Keys + b.deposits.Keys + b.recorded.Keys
  }

  lemma FilledNone(b: Books)
    ensures Filled(b, b.live, {}, AllPlatforms(b))
  {
  }

  /** The loop that fills in estimated balances. */
  method FillEstimates(b: Books) returns (balances: map<string, real>, estimated: set<string>)
    ensures balances == Balances(b) && estimated == Estimated(b)
  {
    balances, estimated := b.live, {};
    var todo := AllPlatforms(b);
    FilledNone(b);
    while todo != {}
      invariant Filled(b, balances, estimated, todo)
      decreases todo
    {
      var p :| p in todo;
      todo := todo - {p};
      if p !in balances && (p in b.starting || p in b.recorded) {
        balances := balances[p := Get(b.starting, p) + Get(b.recorded, p)];
        estimated := estimated + {p};
      }
    }
    FilledAll(b, balances, estimated);
  }

  /** handle_pnl_summary, from balances and books to the figures shown. */
  method Summarize(b: Books, settled: Option<real>, expectedSettlement: real) returns (f: Figures)
    ensures f.balances == Balances(b) && f.changes == Changes(b) && f.estimated == Estimated(b)
    ensures f.netCash == NetCashChange(b) && f.originalBasis == OriginalBasis(b)
    ensures f.netBalance == NetCashChange(b) + expectedSettlement
    ensures f.tradingPnl == NetTradingPnl(b, settled, expectedSettlement)
  {
    var balances, estimated := FillEstimates(b);
    assert balances.Keys == Counted(b);
    var changes := map p | p in balances :: balances[p] - Get(b.starting, p);
    var original := map p | p in balances :: Get(b.starting, p) - Get(b.deposits, p);
    var totalCurrent := SumValues(balances.Keys, balances);
    var totalStart := SumValues(balances.Keys, b.starting);
    var totalOriginal := SumValues(balances.Keys, original);
    var estimatedEquity := totalCurrent + expectedSettlement;
    var netBalance := estimatedEquity - totalStart;
    var ledger := SumValues(b.recorded.Keys, b.recorded);
    var pnl := if settled.Some? then settled.value else if b.recorded != map[] then ledger else netBalance;
    f := Figures(balances, changes, estimated, totalCurrent - totalStart, totalOriginal, netBalance, pnl);
  }
}
