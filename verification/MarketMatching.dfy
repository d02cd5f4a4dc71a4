/**
 scripts/discover_market_mappings.py: an inverted token index stands in for
 scoring every Kalshi market against every Polymarket market, and a greedy pass
 turns the scored pairs into a one-to-one list of at most MAX_CANDIDATES rows.
 */
module MarketMatching {
  import opened Options
  import opened Rounding
  import opened Ranking
  import opened Text
  import opened TokenIndex
  import opened PairLoops
  import Deduplication

  const MIN_SCORE := 0.18
  const MAX_CANDIDATES := 2000

  /** A listing of either venue: its ticker or slug, extracted text, normalised
      category ("" when unknown) and resolution day. */
  datatype Market = Market(id: string, text: string, category: string, day: Option<int>)

  // ------------------------------------------------------------------- text

  function NormalizedLength(words: seq<string>): nat {
    if words == [] then 0
    else if |words| == 1 then |words[0]|
    else |words[0]| + 1 + NormalizedLength(words[1..])
  }

  const COMMON_TOKENS: set<string> := {
    "a", "an", "and", "are", "be", "for", "if", "in", "is", "of", "on", "or",
    "the", "to", "vs", "will", "win", "winner", "yes", "no"
  }

  predicate IsToken(w: string) {
    (|w| >= 3 || (w != "" && forall c :: c in w ==> '0' <= c <= '9')) && w !in COMMON_TOKENS
  }

  function MarketTokens(text: string): set<string> {
    set w | w in Words(text) && IsToken(w)
  }

  // ---------------------------------------------------------------- scoring

  /** similarity_score, on the words of the two texts. */
  function Similarity(a: seq<string>, b: seq<string>): real {
    if a == [] || b == [] then 0.0
    else if a == b then 1.0
    else
      var wa, wb := set w | w in a, set w | w in b;
      var shorter, longer := NormalizedLength(a), NormalizedLength(b);
      var ratio := if shorter <= longer then Ratio(shorter, longer) else Ratio(longer, shorter);
      Round4(0.7 * Ratio(|wa * wb|, |wa + wb|) + 0.3 * ratio)
  }

  function Gap(a: int, b: int): nat {
    if a <= b then b - a else a - b
  }

  /** The date rules: None vetoes the pair. */
  function DateAdjusted(base: real, kCategory: string, pCategory: string,
                        kDay: Option<int>, pDay: Option<int>): Option<real> {
    if kDay.Some? && pDay.Some? then
      var gap := Gap(kDay.value, pDay.value);
      if kCategory == "sports" && gap > 1 then None
      else if gap > 31 then None
      else Some(base + if gap == 0 then 0.20 else if gap <= 1 then 0.10 else if gap <= 7 then 0.04 else 0.0)
    else if kCategory == "sports" && pCategory == "sports" then Some(base * 0.5)
    else Some(base)
  }

  /** Words and tokens in common, before dates and categories count. */
  function Base(k: Market, p: Market): real {
    var kTokens, pTokens := MarketTokens(k.text), MarketTokens(p.text);
    0.65 * Similarity(Words(k.text), Words(p.text)) + 0.35 * Ratio(|kTokens * pTokens|, |kTokens + pTokens|)
  }

  /** The bonus for one common category, and the cap. */
  function Capped(adjusted: Option<real>, sameCategory: bool): real {
    match adjusted
    case None => 0.0
    case Some(value) =>
      var total := value + if sameCategory then 0.05 else 0.0;
      Round4(if total <= 0.9999 then total else 0.9999)
  }

  predicate BothKnown(k: Market, p: Market) {
    k.category != "" && p.category != ""
  }

  function CandidateScore(k: Market, p: Market): real {
    if BothKnown(k, p) && k.category != p.category then 0.0
    else if !SharesToken(k, p) then 0.0
    else Capped(DateAdjusted(Base(k, p), k.category, p.category, k.day, p.day),
                BothKnown(k, p) && k.category == p.category)
  }

  predicate SharesToken(k: Market, p: Market) {
    MarketTokens(k.text) * MarketTokens(p.text) != {}
  }

  lemma SharedWithinAll(a: set<string>, b: set<string>)
    ensures |a * b| <= |a + b|
    ensures 0.0 <= Ratio(|a * b|, |a + b|) <= 1.0
  {
    SubsetSize(a * b, a + b);
    RatioRange(|a * b|, |a + b|);
  }

  lemma {:induction false} SubsetSize<T>(a: set<T>, b: set<T>)
    requires a <= b
    ensures |a| <= |b|
  {
    if a != {} {
      var x :| x in a;
      SubsetSize(a - {x}, b - {x});
    }
  }

  lemma SimilarityRange(a: seq<string>, b: seq<string>)
    ensures 0.0 <= Similarity(a, b) <= 1.0
  {
    if a != [] && b != [] && a != b {
      var wa, wb := set w | w in a, set w | w in b;
      SharedWithinAll(wa, wb);
      var shorter, longer := NormalizedLength(a), NormalizedLength(b);
      RatioRange(shorter, longer);
      RatioRange(longer, shorter);
      var ratio := if shorter <= longer then Ratio(shorter, longer) else Ratio(longer, shorter);
      Round4Between(0.7 * Ratio(|wa * wb|, |wa + wb|) + 0.3 * ratio, 0, 10000);
    }
  }

  lemma BaseRange(k: Market, p: Market)
    ensures 0.0 <= Base(k, p) <= 1.0
  {
    SharedWithinAll(MarketTokens(k.text), MarketTokens(p.text));
    SimilarityRange(Words(k.text), Words(p.text));
  }

  lemma CappedRange(adjusted: Option<real>, same: bool)
    requires adjusted.Some? ==> 0.0 <= adjusted.value
    ensures 0.0 <= Capped(adjusted, same) <= 0.9999
  {
    if adjusted.Some? {
      var total := adjusted.value + if same then 0.05 else 0.0;
      Round4Between(if total <= 0.9999 then total else 0.9999, 0, 9999);
    }
  }

  /** Every score is between 0 and 0.9999. */
  lemma ScoreRange(k: Market, p: Market)
    ensures 0.0 <= CandidateScore(k, p) <= 0.9999
  {
    BaseRange(k, p);
    CappedRange(DateAdjusted(Base(k, p), k.category, p.category, k.day, p.day),
                BothKnown(k, p) && k.category == p.category);
  }

  /** Of two listings that differ only in their day the closer never scores less. */
  lemma CloserNeverScoresLess(k: Market, near: Market, far: Market)
    requires k.day.Some? && near.day.Some? && far.day.Some? && far == near.(day := far.day)
    requires Gap(k.day.value, near.day.value) <= Gap(k.day.value, far.day.value)
    ensures CandidateScore(k, near) >= CandidateScore(k, far)
  {
    assert Base(k, near) == Base(k, far) && SharesToken(k, near) == SharesToken(k, far);
    BaseRange(k, near);
    CappedMonotone(DateAdjusted(Base(k, near), k.category, near.category, k.day, near.day),
                   DateAdjusted(Base(k, near), k.category, near.category, k.day, far.day),
                   BothKnown(k, near) && k.category == near.category);
  }

  lemma CappedMonotone(near: Option<real>, far: Option<real>, same: bool)
    requires far.Some? ==> near.Some? && far.value <= near.value
    requires near.Some? ==> 0.0 <= near.value
    ensures Capped(far, same) <= Capped(near, same)
  {
    CappedRange(near, same);
    if far.Some? {
      var bonus := if same then 0.05 else 0.0;
      Round4Monotone(if far.value + bonus <= 0.9999 then far.value + bonus else 0.9999,
                     if near.value + bonus <= 0.9999 then near.value + bonus else 0.9999);
    }
  }

  /** The same words on the same day score the maximum. */
  lemma SameWordsSameDayScoresTop(k: Market, p: Market)
    requires Words(k.text) == Words(p.text) && MarketTokens(k.text) != {}
    requires k.category == "" || p.category == "" || k.category == p.category
    requires k.day.Some? && p.day == k.day
    ensures CandidateScore(k, p) == 0.9999
  {
    var tokens := MarketTokens(k.text);
    assert MarketTokens(p.text) == tokens && tokens * tokens == tokens && tokens + tokens == tokens;
    assert Words(k.text) != [] by { var w :| w in tokens; assert w in Words(k.text); }
    RatioOfWhole(|tokens|);
    Round4Between(0.9999, 9999, 9999);
  }

  /** A pair can only score if no veto applies: a common token, no two known
      categories that differ, and dates at most a month (sports: a day) apart. */
  lemma ScoreVetoes(k: Market, p: Market)
    requires CandidateScore(k, p) > 0.0
    ensures SharesToken(k, p)
    ensures k.category == "" || p.category == "" || k.category == p.category
    ensures k.day.Some? && p.day.Some? ==>
      var allowed := if k.category == "sports" then 1 else 31;
      -allowed <= k.day.value - p.day.value <= allowed
  {
  }

  // ------------------------------------------------- pairs, all and indexed

  /** Brute force: this pair belongs in the output. */
  predicate Qualifies(k: Market, p: Market, minScore: real) {
    CandidateScore(k, p) >= minScore
  }

  function Row(k: Market, p: Market): Candidate {
    Candidate(k.id, p.id, CandidateScore(k, p), k.text + "|" + p.text)
  }

  function Wanted(minScore: real): (Market, Market) -> bool {
    (k, p) => Qualifies(k, p, minScore)
  }

  /** The rows a threshold asks for, by scoring every pair ... */
  function AllPairs(ks: seq<Market>, entries: seq<Market>, minScore: real): multiset<Candidate> {
    BruteForce(Wanted(minScore), Row, ks, entries)
  }

  /** ... and by scoring only pairs that share a token. */
  function IndexedPairs(ks: seq<Market>, entries: seq<Market>, minScore: real): multiset<Candidate> {
    Indexed(Wanted(minScore), SharesToken, Row, ks, entries)
  }

  /** Going through the index yields the rows of the double loop, each as often,
      exactly when the threshold is positive or every pair shares a token. */
  lemma IndexEqualsBruteForce(ks: seq<Market>, entries: seq<Market>, minScore: real)
    ensures IndexedPairs(ks, entries, minScore) == AllPairs(ks, entries, minScore) <==>
            0.0 < minScore || forall i, j :: 0 <= i < |ks| && 0 <= j < |entries| ==> SharesToken(ks[i], entries[j])
  {
    IndexedIsBruteForce(Wanted(minScore), SharesToken, Row, ks, entries);
    forall i, j | 0 <= i < |ks| && 0 <= j < |entries|
      ensures if 0.0 < minScore then Qualifies(ks[i], entries[j], minScore) ==> SharesToken(ks[i], entries[j])
              else Wanted(minScore)(ks[i], entries[j])
    {
      ThresholdDecides(ks[i], entries[j], minScore);
    }
  }

  /** A positive threshold asks for a common token, any other for nothing. */
  lemma ThresholdDecides(k: Market, p: Market, minScore: real)
    ensures if 0.0 < minScore then Qualifies(k, p, minScore) ==> SharesToken(k, p) else Qualifies(k, p, minScore)
  {
    ScoreRange(k, p);
    if 0.0 < minScore <= CandidateScore(k, p) { ScoreVetoes(k, p); }
  }

  // ------------------------------------------------------------------ index

  function WithText(ps: seq<Market>): seq<Market> {
    if ps == [] then []
    else WithText(ps[..|ps| - 1]) + if ps[|ps| - 1].text != "" then [ps[|ps| - 1]] else []
  }

  function TokenSets(entries: seq<Market>): seq<set<string>> {
    seq(|entries|, i requires 0 <= i < |entries| => MarketTokens(entries[i].text))
  }

  method BuildPolyIndex(ps: seq<Market>) returns (entries: seq<Market>, index: Index)
    ensures entries == WithText(ps) && Indexes(index, TokenSets(entries))
  {
    entries, index := [], map[];
    for i := 0 to |ps|
      invariant entries == WithText(ps[..i]) && Indexes(index, TokenSets(entries))
    {
      assert ps[..i + 1][..i] == ps[..i];
      if ps[i].text == "" { continue; }
      index := AddDocument(index, TokenSets(entries), |entries|, MarketTokens(ps[i].text));
      assert TokenSets(entries + [ps[i]]) == TokenSets(entries) + [MarketTokens(ps[i].text)];
      entries := entries + [ps[i]];
    }
    assert ps[..|ps|] == ps;
  }

  // --------------------------------------------------------------- matching

  /** match_markets: through the index, and for a positive threshold exactly the
      rows of the double loop.  The order of the rows of one Kalshi market is
      that of a Python set, hence arbitrary. */
  method MatchMarkets(ks: seq<Market>, entries: seq<Market>, index: Index, minScore: real)
    returns (rows: seq<Candidate>)
    requires Indexes(index, TokenSets(entries))
    ensures multiset(rows) == IndexedPairs(ks, entries, minScore)
    ensures 0.0 < minScore ==> multiset(rows) == AllPairs(ks, entries, minScore)
  {
    rows := [];
    for i := 0 to |ks|
      invariant multiset(rows) == IndexedPairs(ks[..i], entries, minScore)
    {
      assert ks[..i + 1][..i] == ks[..i];
      rows := MatchOne(ks[i], entries, index, minScore, rows);
    }
    assert ks[..|ks|] == ks;
    IndexEqualsBruteForce(ks, entries, minScore);
  }

  /** The body of the outer loop: nothing is looked up without tokens. */
  method MatchOne(k: Market, entries: seq<Market>, index: Index, minScore: real, rows: seq<Candidate>)
    returns (more: seq<Candidate>)
    requires Indexes(index, TokenSets(entries))
    ensures multiset(more) == multiset(rows)
            + RowsAmong(Wanted(minScore), Row, k, entries, Found(SharesToken, k, entries))
  {
    var found: set<nat> := {};
    more := rows;
    if MarketTokens(k.text) != {} {
      found := Lookup(index, TokenSets(entries), MarketTokens(k.text));
      more := ScoreFound(k, entries, found, minScore, rows);
    } else {
      RowsAmongNone(Wanted(minScore), Row, k, entries);
    }
    assert found == Found(SharesToken, k, entries);
  }

  /** The inner loop: scores the entries the lookup found. */
  method ScoreFound(k: Market, entries: seq<Market>, found: set<nat>, minScore: real, rows: seq<Candidate>)
    returns (more: seq<Candidate>)
    requires forall j :: j in found ==> j < |entries|
    ensures multiset(more) == multiset(rows) + RowsAmong(Wanted(minScore), Row, k, entries, found)
  {
    more := rows;
    var todo := found;
    while todo != {}
      invariant todo <= found
      invariant multiset(more) + RowsAmong(Wanted(minScore), Row, k, entries, todo)
                == multiset(rows) + RowsAmong(Wanted(minScore), Row, k, entries, found)
    {
      var idx :| idx in todo;
      RowsAmongPick(Wanted(minScore), Row, k, entries, todo, idx);
      todo := todo - {idx};
      if CandidateScore(k, entries[idx]) < minScore { continue; }
      more := more + [Row(k, entries[idx])];
    }
    RowsAmongNone(Wanted(minScore), Row, k, entries);
  }

  // --------------------------------------------------------- the whole script

  /** A pair of listings both rounds would score: a target Kalshi market with
      any Polymarket listing, or any Kalshi market with a target listing. */
  ghost predicate Offered(kTarget: seq<Market>, kAll: seq<Market>, pTarget: seq<Market>, pAll: seq<Market>,
                          k: Market, p: Market) {
    && p.text != "" && CandidateScore(k, p) >= 0.18
    && ((k in kTarget && p in pAll) || (k in kAll && p in pTarget))
  }

  lemma {:induction false} WithTextMembers(ps: seq<Market>, p: Market)
    ensures p in WithText(ps) <==> p in ps && p.text != ""
  {
    if ps != [] {
      WithTextMembers(ps[..|ps| - 1], p);
      assert ps == ps[..|ps| - 1] + [ps[|ps| - 1]];
    }
  }

  /** One round, index and all, is the double loop over the listings with text. */
  method Round(ks: seq<Market>, ps: seq<Market>) returns (rows: seq<Candidate>)
    ensures multiset(rows) == AllPairs(ks, WithText(ps), MIN_SCORE)
  {
    var entries, index := BuildPolyIndex(ps);
    rows := MatchMarkets(ks, entries, index, MIN_SCORE);
  }

  lemma RoundMembers(ks: seq<Market>, ps: seq<Market>, rows: seq<Candidate>, c: Candidate)
    requires multiset(rows) == AllPairs(ks, WithText(ps), MIN_SCORE)
    ensures c in rows <==>
      exists k, p :: k in ks && p in ps && p.text != "" && Qualifies(k, p, MIN_SCORE) && c == Row(k, p)
  {
    var wanted := Wanted(MIN_SCORE);
    BruteForceMembers(wanted, Row, ks, WithText(ps), c);
    assert c in rows <==> c in multiset(rows);
    assert c in rows <==> exists k, p :: k in ks && p in WithText(ps) && wanted(k, p) && c == Row(k, p);
    forall k, p ensures k in ks && p in WithText(ps) && wanted(k, p) && c == Row(k, p) <==>
                        k in ks && p in ps && p.text != "" && Qualifies(k, p, MIN_SCORE) && c == Row(k, p)
    {
      WithTextMembers(ps, p);
    }
  }

  /** main, from listings to candidates.  The output is a one-to-one list of at
      most 2000 offered pairs, and no one-to-one list of at most that
      many offered pairs is worth more than twice as much. */
  method Discover(kTarget: seq<Market>, kAll: seq<Market>, pTarget: seq<Market>, pAll: seq<Market>)
    returns (candidates: seq<Candidate>)
    ensures |candidates| <= 2000 && BestFirst(candidates) && Matching(BothKeys, candidates, [])
    ensures forall c :: c in candidates ==>
              exists k, p :: Offered(kTarget, kAll, pTarget, pAll, k, p) && c == Row(k, p)
    ensures forall m: seq<Candidate> ::
              |m| <= 2000 && Matching(BothKeys, m, []) &&
              (forall c :: c in m ==> exists k, p :: Offered(kTarget, kAll, pTarget, pAll, k, p) && c == Row(k, p))
              ==> Total(m) <= 2.0 * Total(candidates)
  {
    var r1 := Round(kTarget, pAll);
    var r2 := Round(kAll, pTarget);
    var all := r1 + r2;
    var deduped := Deduplication.DeduplicateCandidates(all);
    candidates := Take(deduped, MAX_CANDIDATES);
    TakeSelected(all, MAX_CANDIDATES);
    forall c ensures c in all <==> exists k, p :: Offered(kTarget, kAll, pTarget, pAll, k, p) && c == Row(k, p) {
      RoundMembers(kTarget, pAll, r1, c);
      RoundMembers(kAll, pTarget, r2, c);
      RoundsOffer(kTarget, kAll, pTarget, pAll, r1, r2, c);
    }
    forall c | c in all ensures 0.0 <= c.score {
      var k, p :| Offered(kTarget, kAll, pTarget, pAll, k, p) && c == Row(k, p);
      ScoreRange(k, p);
    }
    forall m: seq<Candidate> |
      |m| <= MAX_CANDIDATES && Matching(BothKeys, m, []) && (forall c :: c in m ==> c in all)
      ensures Total(m) <= 2.0 * Total(candidates)
    {
      DedupHalfOptimal(BothKeys, all, m, MAX_CANDIDATES);
    }
  }

  lemma TakeSelected(s: seq<Candidate>, n: nat)
    ensures var t := Take(Dedup(BothKeys, s), n);
      BestFirst(t) && Matching(BothKeys, t, []) && |t| <= n && forall c :: c in t ==> c in s
  {
    DedupSelects(BothKeys, s);
    var t := Take(Dedup(BothKeys, s), n);
    forall c | c in t ensures c in Dedup(BothKeys, s) {}
  }

  lemma RoundsOffer(kTarget: seq<Market>, kAll: seq<Market>, pTarget: seq<Market>, pAll: seq<Market>,
                    r1: seq<Candidate>, r2: seq<Candidate>, c: Candidate)
    requires c in r1 <==>
      exists k, p :: k in kTarget && p in pAll && p.text != "" && Qualifies(k, p, MIN_SCORE) && c == Row(k, p)
    requires c in r2 <==>
      exists k, p :: k in kAll && p in pTarget && p.text != "" && Qualifies(k, p, MIN_SCORE) && c == Row(k, p)
    ensures c in r1 + r2 <==> exists k, p :: Offered(kTarget, kAll, pTarget, pAll, k, p) && c == Row(k, p)
  {
    if k, p :| Offered(kTarget, kAll, pTarget, pAll, k, p) && c == Row(k, p) {
      assert c in r1 || c in r2;
    }
    if c in r1 {
      var k, p :| k in kTarget && p in pAll && p.text != "" && Qualifies(k, p, MIN_SCORE) && c == Row(k, p);
      assert Offered(kTarget, kAll, pTarget, pAll, k, p);
    }
    if c in r2 {
      var k, p :| k in kAll && p in pTarget && p.text != "" && Qualifies(k, p, MIN_SCORE) && c == Row(k, p);
      assert Offered(kTarget, kAll, pTarget, pAll, k, p);
    }
  }
}
