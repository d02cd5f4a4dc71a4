/**
 The deduplication loops of the discovery scripts.  Each keeps two sets of used
 keys; each is shown to compute Ranking.Dedup under its own policy.
 */
module Deduplication {
  import opened Ranking

  /** The used-key sets agree with the rows kept so far. */
  ghost predicate Tracks(p: Policy, kept: seq<Candidate>, usedTickers: set<string>, usedSlugs: set<string>) {
    && (forall k :: k in usedTickers <==> exists i :: 0 <= i < |kept| && kept[i].ticker == k)
    && (forall k :: k in usedSlugs <==> exists i :: 0 <= i < |kept| && ClaimsSlug(p, kept[i]) && kept[i].slug == k)
  }

  lemma TracksBlocked(p: Policy, kept: seq<Candidate>, usedTickers: set<string>, usedSlugs: set<string>, c: Candidate)
    requires Tracks(p, kept, usedTickers, usedSlugs)
    ensures Blocked(p, c, kept) <==> c.ticker in usedTickers || (ClaimsSlug(p, c) && c.slug in usedSlugs)
  {
    if i :| 0 <= i < |kept| && Conflicts(p, c, kept[i]) {}
    if c.ticker in usedTickers {
      var i :| 0 <= i < |kept| && kept[i].ticker == c.ticker;
      assert Conflicts(p, c, kept[i]);
    }
    if ClaimsSlug(p, c) && c.slug in usedSlugs {
      var i :| 0 <= i < |kept| && ClaimsSlug(p, kept[i]) && kept[i].slug == c.slug;
      assert Conflicts(p, c, kept[i]);
    }
  }

  lemma TracksAppend(p: Policy, kept: seq<Candidate>, usedTickers: set<string>, usedSlugs: set<string>, c: Candidate)
    requires Tracks(p, kept, usedTickers, usedSlugs)
    ensures Tracks(p, kept + [c], usedTickers + {c.ticker},
                   if ClaimsSlug(p, c) then usedSlugs + {c.slug} else usedSlugs)
  {
    var more := kept + [c];
    assert more[|kept|] == c;
    forall k | k in usedTickers ensures exists i :: 0 <= i < |more| && more[i].ticker == k {
      var i :| 0 <= i < |kept| && kept[i].ticker == k;
      assert more[i].ticker == k;
    }
    forall k | k in usedSlugs ensures exists i :: 0 <= i < |more| && ClaimsSlug(p, more[i]) && more[i].slug == k {
      var i :| 0 <= i < |kept| && ClaimsSlug(p, kept[i]) && kept[i].slug == k;
      assert more[i].slug == k;
    }
  }

  /** One round of any of the loops. */
  lemma GreedyRound(p: Policy, s: seq<Candidate>, i: nat, kept: seq<Candidate>)
    requires i < |s|
    ensures kept + Greedy(p, s[i..], kept) ==
            if Skips(p, s[i], kept) then kept + Greedy(p, s[i + 1..], kept)
            else (kept + [s[i]]) + Greedy(p, s[i + 1..], kept + [s[i]])
  {
    assert s[i..][1..] == s[i + 1..];
  }

  /** discover_market_mappings and discover_v3_targeted. */
  method DeduplicateCandidates(candidates: seq<Candidate>) returns (result: seq<Candidate>)
    ensures result == Dedup(BothKeys, candidates)
  {
    var s := Sort(candidates);
    var usedKalshi: set<string>, usedPoly: set<string> := {}, {};
    result := [];
    assert s[0..] == s && [] + Greedy(BothKeys, s, []) == Greedy(BothKeys, s, []);
    for i := 0 to |s|
      invariant Tracks(BothKeys, result, usedKalshi, usedPoly)
      invariant result + Greedy(BothKeys, s[i..], result) == Dedup(BothKeys, candidates)
    {
      var c := s[i];
      GreedyRound(BothKeys, s, i, result);
      TracksBlocked(BothKeys, result, usedKalshi, usedPoly, c);
      if c.ticker == "" || c.slug == "" { continue; }
      if c.ticker in usedKalshi || c.slug in usedPoly { continue; }
      TracksAppend(BothKeys, result, usedKalshi, usedPoly, c);
      result := result + [c];
      usedKalshi, usedPoly := usedKalshi + {c.ticker}, usedPoly + {c.slug};
    }
  }

  /** discover_markets: a match without a slug is only held to its ticker. */
  method DeduplicateMatches(matches: seq<Candidate>) returns (deduped: seq<Candidate>)
    ensures deduped == Dedup(OptionalSlug, matches)
  {
    var s := Sort(matches);
    var seenK: set<string>, seenP: set<string> := {}, {};
    deduped := [];
    assert s[0..] == s && [] + Greedy(OptionalSlug, s, []) == Greedy(OptionalSlug, s, []);
    for i := 0 to |s|
      invariant Tracks(OptionalSlug, deduped, seenK, seenP)
      invariant deduped + Greedy(OptionalSlug, s[i..], deduped) == Dedup(OptionalSlug, matches)
    {
      var m := s[i];
      GreedyRound(OptionalSlug, s, i, deduped);
      TracksBlocked(OptionalSlug, deduped, seenK, seenP, m);
      if m.ticker in seenK || (m.slug != "" && m.slug in seenP) { continue; }
      TracksAppend(OptionalSlug, deduped, seenK, seenP, m);
      seenK := seenK + {m.ticker};
      if m.slug != "" { seenP := seenP + {m.slug}; }
      deduped := deduped + [m];
    }
  }

  /** discover_v2_events, phase 1: event ticker and slug, empty or not. */
  method DeduplicateEvents(matches: seq<Candidate>) returns (top: seq<Candidate>)
    ensures top == Dedup(PlainKeys, matches)
  {
    var s := Sort(matches);
    var usedEvents: set<string>, usedSlugs: set<string> := {}, {};
    top := [];
    assert s[0..] == s && [] + Greedy(PlainKeys, s, []) == Greedy(PlainKeys, s, []);
    for i := 0 to |s|
      invariant Tracks(PlainKeys, top, usedEvents, usedSlugs)
      invariant top + Greedy(PlainKeys, s[i..], top) == Dedup(PlainKeys, matches)
    {
      var m := s[i];
      GreedyRound(PlainKeys, s, i, top);
      TracksBlocked(PlainKeys, top, usedEvents, usedSlugs, m);
      if m.ticker in usedEvents || m.slug in usedSlugs { continue; }
      TracksAppend(PlainKeys, top, usedEvents, usedSlugs, m);
      top := top + [m];
      usedEvents, usedSlugs := usedEvents + {m.ticker}, usedSlugs + {m.slug};
    }
  }
}
