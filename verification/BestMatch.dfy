/**
 scripts/discover_markets.py: for each Kalshi market the single best Polymarket
 entry, found through an index over title tokens and price levels.
 */
module BestMatch {
  import opened Options
  import opened Rounding
  import opened TokenIndex
  import opened Ranking
  import opened PairLoops
  import Deduplication

  const THRESHOLD := 0.25

  /** A pre-tokenised title: words, price levels and years. */
  datatype Title = Title(words: set<string>, prices: set<string>, years: set<string>)

  function Keys(t: Title): set<string> {
    t.words + t.prices
  }

  function Similarity(k: Title, p: Title): real {
    if k.prices != {} && p.prices != {} && k.prices * p.prices == {} then 0.0
    else if k.years != {} && p.years != {} && k.years * p.years == {} then 0.01
    else
      var share := Ratio(|(k.words * p.words) + (k.prices * p.prices)|, |Keys(k) + Keys(p)|);
      Round4(if k.prices * p.prices != {} then Boosted(share) else share)
  }

  /** The price-level bonus. */
  function Boosted(share: real): real {
    if share * 1.6 <= 0.99 then share * 1.6 else 0.99
  }

  function Scores(k: Title, ps: seq<Title>): seq<real> {
    seq(|ps|, i requires 0 <= i < |ps| => Similarity(k, ps[i]))
  }

  function KeySets(ps: seq<Title>): seq<set<string>> {
    seq(|ps|, i requires 0 <= i < |ps| => Keys(ps[i]))
  }

  /** The score does not depend on which title is whose, and a title scores
      against itself as high as any can. */
  lemma SimilaritySymmetric(k: Title, p: Title)
    ensures Similarity(k, p) == Similarity(p, k)
    ensures Keys(k) != {} ==> Similarity(k, k) == if k.prices != {} then 0.99 else 1.0
  {
    assert k.prices * p.prices == p.prices * k.prices && k.years * p.years == p.years * k.years;
    assert k.words * p.words == p.words * k.words && Keys(k) + Keys(p) == Keys(p) + Keys(k);
    assert k.prices * k.prices == k.prices && k.years * k.years == k.years && k.words * k.words == k.words;
    assert Keys(k) + Keys(k) == Keys(k);
    if Keys(k) != {} {
      RatioOfWhole(|Keys(k)|);
      Round4Between(0.99, 9900, 9900);
      Round4Between(1.0, 10000, 10000);
    }
  }

  /** What a pair with n of m keys in common scores: n / m, rounded; with a common
      price level 1.6 times that, at most 0.99; 0.01 if the years clash and 0 if the
      price levels do. */
  lemma SimilarityIs(k: Title, p: Title, n: nat, m: nat)
    requires k.words !! k.prices && p.words !! p.prices && k.words !! p.prices && k.prices !! p.words
    requires n == |(k.words + k.prices) * (p.words + p.prices)|
    requires m == |k.words + k.prices + p.words + p.prices| && m > 0
    ensures Similarity(k, p) ==
            if Clash(k.prices, p.prices) then 0.0
            else if Clash(k.years, p.years) then 0.01
            else if k.prices * p.prices == {} then Round4(n as real / m as real)
            else Round4(Least(1.6 * (n as real / m as real), 0.99))
  {
    assert (k.words * p.words) + (k.prices * p.prices) == (k.words + k.prices) * (p.words + p.prices);
    assert Keys(k) + Keys(p) == k.words + k.prices + p.words + p.prices;
  }

  predicate Clash(a: set<string>, b: set<string>) {
    a != {} && b != {} && a * b == {}
  }

  /** Without a common word or price level a pair scores 0, unless only the years
      clash: then it scores 0.01. */
  lemma UnreachableScoresLow(k: Title, p: Title)
    requires Keys(k) * Keys(p) == {}
    ensures Similarity(k, p) == if Clash(k.years, p.years) && !Clash(k.prices, p.prices) then 0.01 else 0.0
  {
    assert k.words * p.words == {} by { assert k.words * p.words <= Keys(k) * Keys(p); }
    assert k.prices * p.prices == {} by { assert k.prices * p.prices <= Keys(k) * Keys(p); }
    assert (k.words * p.words) + (k.prices * p.prices) == {};
    RatioRange(0, |Keys(k) + Keys(p)|);
    Round4Between(0.0, 0, 0);
  }

  /** best is a top score over the candidates, `at` names a holder; no positive
      score means no holder. */
  ghost predicate IsBest(scores: seq<real>, candidates: set<nat>, best: real, at: Option<nat>) {
    && best >= 0.0
    && (forall j: nat :: j < |scores| && j in candidates ==> scores[j] <= best)
    && match at
       case None => best == 0.0
       case Some(j) => j < |scores| && j in candidates && scores[j] == best && best > 0.0
  }

  lemma OneMore(scores: seq<real>, done: set<nat>, idx: nat, best: real, at: Option<nat>)
    requires idx < |scores| && IsBest(scores, done, best, at)
    ensures if scores[idx] > best then IsBest(scores, done + {idx}, scores[idx], Some(idx))
            else IsBest(scores, done + {idx}, best, at)
  {
  }

  /** The loop over the candidates, in any order. */
  method Scan(k: Title, ps: seq<Title>, candidates: set<nat>) returns (best: real, at: Option<nat>)
    requires forall j: nat :: j in candidates ==> j < |ps|
    ensures IsBest(Scores(k, ps), candidates, best, at)
  {
    ghost var scores, done := Scores(k, ps), {};
    best, at := 0.0, None;
    var todo := candidates;
    while todo != {}
      invariant done + todo == candidates
      invariant IsBest(scores, done, best, at)
      decreases |todo|
    {
      var idx :| idx in todo;
      todo := todo - {idx};
      var sc := Similarity(k, ps[idx]);
      assert scores[idx] == sc;
      OneMore(scores, done, idx, best, at);
      done := done + {idx};
      if sc > best { best, at := sc, Some(idx); }
    }
    assert done == candidates;
  }

  /** The best over the index's candidates is the best over all entries, except
      that when nothing reachable scores the latter may be the 0.01 of a year
      mismatch.  So both accept a market together, and with the same score, at any
      threshold above 0.01. */
  lemma IndexedBestIsBest(k: Title, ps: seq<Title>, candidates: set<nat>, best: real, at: Option<nat>,
                          everyone: set<nat>, fullBest: real, fullAt: Option<nat>)
    requires forall j: nat :: j in candidates <==> j < |ps| && Keys(k) * Keys(ps[j]) != {}
    requires IsBest(Scores(k, ps), candidates, best, at)
    requires forall j: nat :: j in everyone <==> j < |ps|
    requires IsBest(Scores(k, ps), everyone, fullBest, fullAt)
    ensures best == fullBest || best < fullBest == 0.01
  {
    forall j: nat | j < |ps| && j !in candidates ensures Scores(k, ps)[j] == 0.0 || Scores(k, ps)[j] == 0.01 {
      UnreachableScoresLow(k, ps[j]);
    }
  }

  /** Steps 3 and 4 of main for one Kalshi market: an accepted entry scores at
      least the threshold and no entry at all scores more; a market is refused
      only when every entry is below the threshold. */
  method FindMatch(k: Title, ps: seq<Title>, index: Index) returns (found: Option<(nat, real)>)
    requires Indexes(index, KeySets(ps))
    ensures match found
      case None => forall p :: p in ps ==> Similarity(k, p) < 0.25
      case Some((at, score)) =>
        && at < |ps| && score == Similarity(k, ps[at]) && score >= 0.25
        && forall p :: p in ps ==> Similarity(k, p) <= score
  {
    var candidates := Lookup(index, KeySets(ps), Keys(k));
    forall j: nat ensures j in candidates <==> j < |ps| && Keys(k) * Keys(ps[j]) != {} {}
    var best, at := Scan(k, ps, candidates);
    forall p | p in ps ensures Similarity(k, p) <= 0.01 || Similarity(k, p) <= best {
      var j: nat :| j < |ps| && ps[j] == p;
      assert Scores(k, ps)[j] == Similarity(k, p);
      if j !in candidates { UnreachableScoresLow(k, p); }
    }
    if at.None? || best < THRESHOLD { return None; }
    assert Scores(k, ps)[at.value] == best;
    return Some((at.value, best));
  }

  /** The pre-tokenising loop. */
  method BuildIndex(ps: seq<Title>) returns (index: Index)
    ensures Indexes(index, KeySets(ps))
  {
    index := map[];
    for i := 0 to |ps|
      invariant Indexes(index, KeySets(ps[..i]))
    {
      assert KeySets(ps[..i + 1]) == KeySets(ps[..i]) + [Keys(ps[i])];
      index := AddDocument(index, KeySets(ps[..i]), i, Keys(ps[i]));
    }
    assert ps[..|ps|] == ps;
  }

  // --------------------------------------------------------- the whole script

  /** A listing of either venue: its key (ticker or event ticker, slug or id),
      text and tokenised title. */
  datatype Listing = Listing(key: string, text: string, title: Title)

  function Titles(ps: seq<Listing>): seq<Title> {
    seq(|ps|, i requires 0 <= i < |ps| => ps[i].title)
  }

  function Score(k: Listing, p: Listing): real {
    Similarity(k.title, p.title)
  }

  function Row(k: Listing, p: Listing): Candidate {
    Candidate(k.key, p.key, Score(k, p), k.text + "|" + p.text)
  }

  predicate Accepted(k: Listing, ps: seq<Listing>) {
    exists i :: 0 <= i < |ps| && Score(k, ps[i]) >= 0.25
  }

  /** p is acceptable for k, and no entry at all is better. */
  predicate BestFor(k: Listing, p: Listing, ps: seq<Listing>) {
    p in ps && Score(k, p) >= 0.25 && forall i :: 0 <= i < |ps| ==> Score(k, ps[i]) <= Score(k, p)
  }

  ghost predicate MatchOf(k: Listing, ps: seq<Listing>, c: Candidate) {
    exists p :: BestFor(k, p, ps) && c == Row(k, p)
  }

  function AcceptedIn(ps: seq<Listing>): Listing -> bool {
    k => Accepted(k, ps)
  }

  ghost function MatchesIn(ps: seq<Listing>): (Listing, Candidate) -> bool {
    (k, c) => MatchOf(k, ps, c)
  }

  /** One row for each accepted market, in order, with a best entry. */
  ghost predicate OnePerMarket(ks: seq<Listing>, ps: seq<Listing>, matches: seq<Candidate>) {
    OneRowEach(AcceptedIn(ps), MatchesIn(ps), ks, matches)
  }

  /** The loop body for one market: nothing, or the row of a best entry. */
  method MatchMarket(k: Listing, ps: seq<Listing>, index: Index) returns (found: Option<Candidate>)
    requires Indexes(index, KeySets(Titles(ps)))
    ensures found.Some? <==> Accepted(k, ps)
    ensures found.Some? ==> MatchOf(k, ps, found.value)
  {
    var at := FindMatch(k.title, Titles(ps), index);
    forall i | 0 <= i < |ps| ensures Titles(ps)[i] == ps[i].title && Titles(ps)[i] in Titles(ps) {}
    if at.None? { return None; }
    var p := ps[at.value.0];
    assert Score(k, p) == at.value.1;
    assert BestFor(k, p, ps);
    return Some(Row(k, p));
  }

  /** The matching loop. */
  method MatchAll(ks: seq<Listing>, ps: seq<Listing>, index: Index) returns (matches: seq<Candidate>)
    requires Indexes(index, KeySets(Titles(ps)))
    ensures OnePerMarket(ks, ps, matches)
  {
    matches := [];
    for i := 0 to |ks|
      invariant OnePerMarket(ks[..i], ps, matches)
    {
      assert ks[..i + 1] == ks[..i] + [ks[i]];
      var found := MatchMarket(ks[i], ps, index);
      ghost var row := if found.Some? then found.value else Row(ks[i], ks[i]);
      OneRowMore(AcceptedIn(ps), MatchesIn(ps), ks[..i], matches, ks[i], row);
      if found.Some? { matches := matches + [found.value]; }
    }
    assert ks[..|ks|] == ks;
  }

  /** The row is that of one of these markets. */
  ghost predicate FromMarket(ks: seq<Listing>, ps: seq<Listing>, c: Candidate) {
    exists k :: k in ks && MatchOf(k, ps, c)
  }

  /** The market has a row that is kept or lost to a kept rival. */
  ghost predicate Settled(k: Listing, ps: seq<Listing>, deduped: seq<Candidate>) {
    exists c :: MatchOf(k, ps, c) && KeptRival(OptionalSlug, c, deduped)
  }

  lemma MarketSettled(ks: seq<Listing>, ps: seq<Listing>, matches: seq<Candidate>, k: Listing)
    requires OnePerMarket(ks, ps, matches) && k in ks && Accepted(k, ps)
    ensures Settled(k, ps, Dedup(OptionalSlug, matches))
  {
    var c := SomeRowFits(AcceptedIn(ps), MatchesIn(ps), ks, matches, k);
    DedupSelects(OptionalSlug, matches);
    assert !Skips(OptionalSlug, c, []);
  }

  /** main, from listings to matches: what is kept of one row per accepted market.
      Kept is a one-to-one, best-first list; every row pairs a market with an entry
      no other entry beats; and an accepted market without a row of its own lost
      its key, or a best entry's, to a kept row that scores at least as much. */
  method Discover(ks: seq<Listing>, ps: seq<Listing>) returns (deduped: seq<Candidate>)
    ensures exists matches :: OnePerMarket(ks, ps, matches) && deduped == Dedup(OptionalSlug, matches)
    ensures BestFirst(deduped) && OneToOne(OptionalSlug, deduped)
    ensures forall c :: c in deduped ==> FromMarket(ks, ps, c)
    ensures forall k :: k in ks && Accepted(k, ps) ==> Settled(k, ps, deduped)
  {
    var index := BuildIndex(Titles(ps));
    var matches := MatchAll(ks, ps, index);
    deduped := Deduplication.DeduplicateMatches(matches);
    DedupSelects(OptionalSlug, matches);
    forall c | c in deduped ensures FromMarket(ks, ps, c) {
      var k := RowFitsSome(AcceptedIn(ps), MatchesIn(ps), ks, matches, c);
    }
    forall k | k in ks && Accepted(k, ps) ensures Settled(k, ps, deduped) { MarketSettled(ks, ps, matches, k); }
  }
}
