/**
 Candidate pairs, the stable best-first order, and the greedy pass that turns
 scored pairs into a one-to-one matching.  Four discovery scripts contain this
 pass; they differ only in which keys a kept pair claims (see Policy).
 */
module Ranking {

  /** One scored pair; `detail` stands for the descriptive fields of the row. */
  datatype Candidate = Candidate(ticker: string, slug: string, score: real, detail: string)

  /** BothKeys: rows missing a key are skipped.  OptionalSlug: an empty slug
      blocks nothing.  PlainKeys: every key counts, empty ones too. */
  datatype Policy = BothKeys | OptionalSlug | PlainKeys

  predicate Eligible(p: Policy, c: Candidate) {
    p.BothKeys? ==> c.ticker != "" && c.slug != ""
  }

  predicate ClaimsSlug(p: Policy, c: Candidate) {
    p.OptionalSlug? ==> c.slug != ""
  }

  /** Two pairs that cannot both be kept. */
  predicate Conflicts(p: Policy, c: Candidate, d: Candidate) {
    c.ticker == d.ticker || (c.slug == d.slug && ClaimsSlug(p, c))
  }

  predicate Blocked(p: Policy, c: Candidate, taken: seq<Candidate>) {
    exists i :: 0 <= i < |taken| && Conflicts(p, c, taken[i])
  }

  predicate Skips(p: Policy, c: Candidate, taken: seq<Candidate>) {
    !Eligible(p, c) || Blocked(p, c, taken)
  }

  lemma BlockedByOneMore(p: Policy, d: Candidate, taken: seq<Candidate>, c: Candidate)
    ensures Blocked(p, d, taken + [c]) <==> Blocked(p, d, taken) || Conflicts(p, d, c)
  {
    var more := taken + [c];
    if Conflicts(p, d, c) { assert more[|taken|] == c; }
    if i :| 0 <= i < |taken| && Conflicts(p, d, taken[i]) { assert more[i] == taken[i]; }
  }

  // ---------------------------------------------------------------- sorting

  predicate BestFirst(s: seq<Candidate>) {
    forall i, j :: 0 <= i < j < |s| ==> s[i].score >= s[j].score
  }

  function Insert(c: Candidate, s: seq<Candidate>): seq<Candidate> {
    if s == [] || c.score >= s[0].score then [c] + s else [s[0]] + Insert(c, s[1..])
  }

  /** list.sort(key=score, reverse=True): best first, ties in their old order. */
  function Sort(s: seq<Candidate>): seq<Candidate> {
    if s == [] then [] else Insert(s[0], Sort(s[1..]))
  }

  /** The rows of one score, in order. */
  function WithScore(s: seq<Candidate>, v: real): seq<Candidate> {
    if s == [] then []
    else if s[0].score == v then [s[0]] + WithScore(s[1..], v)
    else WithScore(s[1..], v)
  }

  lemma {:induction false} InsertElements(c: Candidate, s: seq<Candidate>)
    ensures multiset(Insert(c, s)) == multiset{c} + multiset(s)
  {
    if s == [] || c.score >= s[0].score {
    } else {
      InsertElements(c, s[1..]);
      assert s == [s[0]] + s[1..];
    }
  }

  lemma {:induction false} InsertBelow(c: Candidate, s: seq<Candidate>, top: real)
    requires c.score <= top && forall d :: d in s ==> d.score <= top
    ensures forall d :: d in Insert(c, s) ==> d.score <= top
  {
    if s != [] { InsertBelow(c, s[1..], top); }
  }

  lemma {:induction false} InsertBestFirst(c: Candidate, s: seq<Candidate>)
    requires BestFirst(s)
    ensures BestFirst(Insert(c, s))
  {
    if s == [] || c.score >= s[0].score {
    } else {
      var t := Insert(c, s[1..]);
      InsertBestFirst(c, s[1..]);
      InsertBelow(c, s[1..], s[0].score);
      forall j | 0 <= j < |t| ensures s[0].score >= t[j].score { assert t[j] in t; }
    }
  }

  lemma WithScoreCons(c: Candidate, s: seq<Candidate>, v: real)
    ensures WithScore([c] + s, v) == if c.score == v then [c] + WithScore(s, v) else WithScore(s, v)
  {
    assert ([c] + s)[1..] == s;
  }

  lemma {:induction false} InsertStable(c: Candidate, s: seq<Candidate>, v: real)
    ensures WithScore(Insert(c, s), v) == if c.score == v then [c] + WithScore(s, v) else WithScore(s, v)
  {
    if s == [] || c.score >= s[0].score {
      WithScoreCons(c, s, v);
    } else {
      var h, t := s[0], s[1..];
      assert s == [h] + t;
      InsertStable(c, t, v);
      WithScoreCons(h, Insert(c, t), v);
      WithScoreCons(h, t, v);
    }
  }

  /** Python's contract for list.sort: a reordering, best first, stable. */
  lemma {:induction false} SortIsStable(s: seq<Candidate>)
    ensures multiset(Sort(s)) == multiset(s)
    ensures BestFirst(Sort(s))
    ensures forall v :: WithScore(Sort(s), v) == WithScore(s, v)
  {
    if s == [] {
    } else {
      SortIsStable(s[1..]);
      InsertElements(s[0], Sort(s[1..]));
      InsertBestFirst(s[0], Sort(s[1..]));
      assert s == [s[0]] + s[1..];
      forall v ensures WithScore(Sort(s), v) == WithScore(s, v) {
        InsertStable(s[0], Sort(s[1..]), v);
      }
    }
  }

  lemma {:induction false} WithScoreMembers(s: seq<Candidate>, v: real, c: Candidate)
    ensures c in WithScore(s, v) <==> c in s && c.score == v
  {
    if s != [] { WithScoreMembers(s[1..], v, c); }
  }

  /** ... and that contract determines the result, so Sort is list.sort. */
  lemma {:induction false} StableOrderIsUnique(s: seq<Candidate>, t: seq<Candidate>)
    requires BestFirst(s) && BestFirst(t)
    requires forall v :: WithScore(s, v) == WithScore(t, v)
    ensures s == t
  {
    if s == [] || t == [] {
      if s != [] { WithScoreMembers(s, s[0].score, s[0]); }
      if t != [] { WithScoreMembers(t, t[0].score, t[0]); }
    } else {
      WithScoreMembers(s, s[0].score, s[0]);
      WithScoreMembers(t, s[0].score, s[0]);
      WithScoreMembers(t, t[0].score, t[0]);
      WithScoreMembers(s, t[0].score, t[0]);
      assert s[0].score == t[0].score;
      var v0 := s[0].score;
      assert WithScore(s, v0) == [s[0]] + WithScore(s[1..], v0);
      assert WithScore(t, v0) == [t[0]] + WithScore(t[1..], v0);
      assert WithScore(s, v0)[0] == WithScore(t, v0)[0];
      forall v ensures WithScore(s[1..], v) == WithScore(t[1..], v) {
        if v == v0 {
          assert WithScore(s[1..], v) == WithScore(s, v)[1..];
          assert WithScore(t[1..], v) == WithScore(t, v)[1..];
        } else {
          assert WithScore(s, v) == WithScore(s[1..], v);
          assert WithScore(t, v) == WithScore(t[1..], v);
        }
      }
      StableOrderIsUnique(s[1..], t[1..]);
    }
  }

  // ------------------------------------------------------------ greedy pass

  /** The rows kept from `s` once the rows in `taken` have been kept. */
  function Greedy(p: Policy, s: seq<Candidate>, taken: seq<Candidate>): seq<Candidate> {
    if s == [] then []
    else if Skips(p, s[0], taken) then Greedy(p, s[1..], taken)
    else [s[0]] + Greedy(p, s[1..], taken + [s[0]])
  }

  function Dedup(p: Policy, s: seq<Candidate>): seq<Candidate> {
    Greedy(p, Sort(s), [])
  }

  predicate OneToOne(p: Policy, s: seq<Candidate>) {
    forall i, j :: 0 <= i < j < |s| ==> !Conflicts(p, s[i], s[j])
  }

  /** Pairs that may all be kept beside the rows in `taken`. */
  predicate Matching(p: Policy, m: seq<Candidate>, taken: seq<Candidate>) {
    && OneToOne(p, m)
    && forall c :: c in m ==> !Skips(p, c, taken)
  }

  ghost predicate KeptRival(p: Policy, c: Candidate, g: seq<Candidate>) {
    exists k :: k in g && Conflicts(p, c, k) && k.score >= c.score
  }

  /** What the greedy pass promises of its result. */
  ghost predicate Selected(p: Policy, s: seq<Candidate>, taken: seq<Candidate>, g: seq<Candidate>) {
    && Matching(p, g, taken)
    && BestFirst(g)
    && (forall c :: c in g ==> c in s)
    && Covered(p, s, taken, g)
  }

  /** Every row that could have been kept has a kept rival (perhaps itself). */
  ghost predicate Covered(p: Policy, s: seq<Candidate>, taken: seq<Candidate>, g: seq<Candidate>) {
    forall c :: c in s && !Skips(p, c, taken) ==> KeptRival(p, c, g)
  }

  /** ... and first come, first served on top: of equal rivals the first is kept. */
  lemma GreedySelects(p: Policy, s: seq<Candidate>, taken: seq<Candidate>)
    requires BestFirst(s)
    ensures Selected(p, s, taken, Greedy(p, s, taken))
    ensures ServedFrom(p, s, taken, Greedy(p, s, taken))
  {
    GreedySelected(p, s, taken);
    var kept := GreedyServes(p, s, taken);
  }

  lemma {:induction false} GreedySelected(p: Policy, s: seq<Candidate>, taken: seq<Candidate>)
    requires BestFirst(s)
    ensures Selected(p, s, taken, Greedy(p, s, taken))
  {
    if s == [] {
    } else if Skips(p, s[0], taken) {
      GreedySelected(p, s[1..], taken);
      assert s == [s[0]] + s[1..];
    } else {
      GreedySelected(p, s[1..], taken + [s[0]]);
      var g := Greedy(p, s[1..], taken + [s[0]]);
      MatchingCons(p, s[0], taken, g);
      BestFirstCons(s, g);
      CoveredCons(p, s, taken, g);
    }
  }

  lemma BestFirstCons(s: seq<Candidate>, g: seq<Candidate>)
    requires s != [] && BestFirst(s) && BestFirst(g) && forall c :: c in g ==> c in s[1..]
    ensures BestFirst([s[0]] + g) && forall c :: c in [s[0]] + g ==> c in s
  {
    forall j | 0 <= j < |g| ensures s[0].score >= g[j].score { assert g[j] in s[1..]; }
  }

  lemma CoveredCons(p: Policy, s: seq<Candidate>, taken: seq<Candidate>, g: seq<Candidate>)
    requires s != [] && BestFirst(s)
    requires Covered(p, s[1..], taken + [s[0]], g)
    ensures Covered(p, s, taken, [s[0]] + g)
  {
    forall d | d in s && !Skips(p, d, taken) ensures KeptRival(p, d, [s[0]] + g) {
      BlockedByOneMore(p, d, taken, s[0]);
      RivalCons(p, d, s, g);
    }
  }

  lemma MatchingCons(p: Policy, c: Candidate, taken: seq<Candidate>, g: seq<Candidate>)
    requires !Skips(p, c, taken) && Matching(p, g, taken + [c])
    ensures Matching(p, [c] + g, taken)
  {
    forall d | d in g ensures !Skips(p, d, taken) && !Conflicts(p, c, d) {
      BlockedByOneMore(p, d, taken, c);
    }
  }

  lemma RivalCons(p: Policy, d: Candidate, s: seq<Candidate>, g: seq<Candidate>)
    requires s != [] && BestFirst(s) && d in s
    requires d in s[1..] && !Conflicts(p, d, s[0]) ==> KeptRival(p, d, g)
    ensures KeptRival(p, d, [s[0]] + g)
  {
    var h := [s[0]] + g;
    if Conflicts(p, d, s[0]) {
      assert h[0] == s[0];
    } else {
      var k :| k in g && Conflicts(p, d, k) && k.score >= d.score;
      assert k in h;
    }
  }

  // ---------------------------------------------------------------- tie rule

  /** First come, first served: a row is kept exactly when it may be and no row
      kept before it claims one of its keys. */
  ghost predicate Served(p: Policy, s: seq<Candidate>, taken: seq<Candidate>, kept: seq<bool>) {
    |kept| == |s| && forall i :: 0 <= i < |s| ==> (kept[i] <==> MayStay(p, s, taken, kept, i))
  }

  ghost predicate MayStay(p: Policy, s: seq<Candidate>, taken: seq<Candidate>, kept: seq<bool>, i: nat)
    requires i < |s| == |kept|
  {
    !Skips(p, s[i], taken) && forall j :: 0 <= j < i && kept[j] ==> !Conflicts(p, s[i], s[j])
  }

  /** The kept rows, in their order. */
  function Picked(s: seq<Candidate>, kept: seq<bool>): seq<Candidate>
    requires |kept| == |s|
  {
    if s == [] then [] else (if kept[0] then [s[0]] else []) + Picked(s[1..], kept[1..])
  }

  lemma ServedCons(p: Policy, s: seq<Candidate>, taken: seq<Candidate>, kept: seq<bool>)
    requires s != [] && var first := !Skips(p, s[0], taken);
      Served(p, s[1..], if first then taken + [s[0]] else taken, kept)
    ensures Served(p, s, taken, [!Skips(p, s[0], taken)] + kept)
  {
    var t, all := s[1..], [!Skips(p, s[0], taken)] + kept;
    forall i | 0 < i < |s| ensures all[i] <==> MayStay(p, s, taken, all, i) {
      BlockedByOneMore(p, s[i], taken, s[0]);
      assert t[i - 1] == s[i] && kept[i - 1] == all[i];
      assert forall j :: 0 < j < i ==> all[j] == kept[j - 1] && s[j] == t[j - 1];
      assert forall j :: 0 <= j < i - 1 ==> kept[j] == all[j + 1] && t[j] == s[j + 1];
    }
  }

  lemma {:induction false} GreedyServes(p: Policy, s: seq<Candidate>, taken: seq<Candidate>) returns (kept: seq<bool>)
    ensures Served(p, s, taken, kept) && Greedy(p, s, taken) == Picked(s, kept)
  {
    if s == [] {
      kept := [];
    } else {
      var first := !Skips(p, s[0], taken);
      var rest := GreedyServes(p, s[1..], if first then taken + [s[0]] else taken);
      ServedCons(p, s, taken, rest);
      kept := [first] + rest;
      assert kept[1..] == rest;
    }
  }

  /** There is only one way to serve. */
  lemma {:induction false} ServedUniquely(p: Policy, s: seq<Candidate>, taken: seq<Candidate>,
                                          kept: seq<bool>, kept': seq<bool>, n: nat)
    requires Served(p, s, taken, kept) && Served(p, s, taken, kept') && n <= |s|
    ensures forall j :: 0 <= j < n ==> kept[j] == kept'[j]
  {
    if n > 0 {
      ServedUniquely(p, s, taken, kept, kept', n - 1);
      SameStay(p, s, taken, kept, kept', n - 1);
    }
  }

  lemma SameStay(p: Policy, s: seq<Candidate>, taken: seq<Candidate>, kept: seq<bool>, kept': seq<bool>, i: nat)
    requires i < |s| == |kept| == |kept'| && forall j :: 0 <= j < i ==> kept[j] == kept'[j]
    ensures MayStay(p, s, taken, kept, i) == MayStay(p, s, taken, kept', i)
  {
  }

  lemma {:induction false} PickedMember(s: seq<Candidate>, kept: seq<bool>, i: nat)
    requires |kept| == |s| && i < |s| && kept[i]
    ensures s[i] in Picked(s, kept)
  {
    if i > 0 { PickedMember(s[1..], kept[1..], i - 1); }
  }

  /** A row that could stay is kept, unless a kept row before it claims a key. */
  lemma FirstCome(p: Policy, s: seq<Candidate>, taken: seq<Candidate>, i: nat)
    requires i < |s| && !Skips(p, s[i], taken)
    ensures var g := Greedy(p, s, taken);
      s[i] in g || exists j :: 0 <= j < i && s[j] in g && Conflicts(p, s[i], s[j])
  {
    var kept := GreedyServes(p, s, taken);
    if kept[i] {
      PickedMember(s, kept, i);
    } else {
      assert !MayStay(p, s, taken, kept, i);
      var j :| 0 <= j < i && kept[j] && Conflicts(p, s[i], s[j]);
      PickedMember(s, kept, j);
    }
  }

  /** g is what first come, first served keeps of the rows in this order. */
  ghost predicate ServedFrom(p: Policy, order: seq<Candidate>, taken: seq<Candidate>, g: seq<Candidate>) {
    exists kept :: Served(p, order, taken, kept) && g == Picked(order, kept)
  }

  /** The deduplicated list is one-to-one and best first, every row of it was
      offered, and every offered row that is missing lost one of its keys to a
      kept row that scores at least as much.  Of rivals with equal scores the one
      offered first is kept. */
  lemma DedupSelects(p: Policy, s: seq<Candidate>)
    ensures Selected(p, s, [], Dedup(p, s))
    ensures ServedFrom(p, Sort(s), [], Dedup(p, s))
  {
    SortIsStable(s);
    GreedySelects(p, Sort(s), []);
    SameMembers(s, Sort(s));
  }

  /** This leaves nothing open: first come, first served over any stable
      best-first order of the rows is the deduplicated list. */
  lemma DedupIsDetermined(p: Policy, s: seq<Candidate>, order: seq<Candidate>, g: seq<Candidate>)
    requires BestFirst(order) && forall v :: WithScore(order, v) == WithScore(s, v)
    ensures ServedFrom(p, order, [], g) <==> g == Dedup(p, s)
  {
    SortIsStable(s);
    StableOrderIsUnique(order, Sort(s));
    var kept := GreedyServes(p, order, []);
    if ServedFrom(p, order, [], g) {
      var kept' :| Served(p, order, [], kept') && g == Picked(order, kept');
      ServedUniquely(p, order, [], kept, kept', |order|);
      assert kept == kept';
    }
  }

  lemma SameMembers(s: seq<Candidate>, t: seq<Candidate>)
    requires multiset(s) == multiset(t)
    ensures forall c :: c in s <==> c in t
  {
    forall c ensures c in s <==> c in t {
      assert c in s <==> c in multiset(s);
      assert c in t <==> c in multiset(t);
    }
  }

  // -------------------------------------------------------- half of optimal

  function Total(s: seq<Candidate>): real {
    if s == [] then 0.0 else s[0].score + Total(s[1..])
  }

  function Take(s: seq<Candidate>, n: nat): seq<Candidate> {
    if n <= |s| then s[..n] else s
  }

  lemma {:induction false} TotalRemove(s: seq<Candidate>, i: nat)
    requires i < |s|
    ensures Total(s) == s[i].score + Total(s[..i] + s[i + 1..])
  {
    if i == 0 {
      assert s[..0] + s[1..] == s[1..];
    } else {
      TotalRemove(s[1..], i - 1);
      var t := s[..i] + s[i + 1..];
      assert t[0] == s[0] && t[1..] == s[1..][..i - 1] + s[1..][i..];
    }
  }

  lemma {:induction false} TotalNonNegative(s: seq<Candidate>)
    requires forall c :: c in s ==> 0.0 <= c.score
    ensures 0.0 <= Total(s)
  {
    if s != [] { TotalNonNegative(s[1..]); }
  }

  predicate SharesKey(p: Policy, byTicker: bool, c: Candidate, d: Candidate) {
    if byTicker then c.ticker == d.ticker else c.slug == d.slug && ClaimsSlug(p, c)
  }

  /** Taking out of a matching the at most one pair that shares a key with c. */
  lemma Evict(p: Policy, m: seq<Candidate>, byTicker: bool, c: Candidate) returns (rest: seq<Candidate>)
    requires OneToOne(p, m) && 0.0 <= c.score
    requires forall d :: d in m ==> d.score <= c.score
    ensures OneToOne(p, rest) && forall d :: d in rest ==> d in m && !SharesKey(p, byTicker, d, c)
    ensures Total(m) <= Total(rest) + c.score
    ensures |rest| <= |m| && (|rest| == |m| ==> rest == m)
  {
    if i: nat :| i < |m| && SharesKey(p, byTicker, m[i], c) {
      rest := m[..i] + m[i + 1..];
      TotalRemove(m, i);
      assert m[i] in m;
      forall j | 0 <= j < |m| && j != i ensures !SharesKey(p, byTicker, m[j], c) {
        assert i < j ==> !Conflicts(p, m[i], m[j]);
        assert j < i ==> !Conflicts(p, m[j], m[i]);
      }
    } else {
      rest := m;
    }
  }

  /** Choosing the best pair first costs a rival matching at most two pairs. */
  lemma Displace(p: Policy, m: seq<Candidate>, c: Candidate) returns (rest: seq<Candidate>)
    requires OneToOne(p, m) && 0.0 <= c.score
    requires forall d :: d in m ==> d.score <= c.score
    ensures OneToOne(p, rest) && forall d :: d in rest ==> d in m && !Conflicts(p, d, c)
    ensures Total(m) <= Total(rest) + 2.0 * c.score
    ensures m != [] ==> |rest| < |m|
  {
    var r1 := Evict(p, m, true, c);
    var r2 := Evict(p, r1, false, c);
    if m == [] || |r2| < |m| {
      rest := r2;
      assert forall d :: d in rest ==> d in r1 && d in m;
    } else {
      rest := m[1..];
      assert r1 == m && r2 == m;
      assert forall d :: d in rest ==> d in r1 && d in r2;
      assert m[0] in m;
    }
  }

  lemma RivalAfterTaking(p: Policy, s: seq<Candidate>, taken: seq<Candidate>, m: seq<Candidate>)
    returns (rest: seq<Candidate>)
    requires s != [] && BestFirst(s) && 0.0 <= s[0].score
    requires m != [] && Matching(p, m, taken) && forall c :: c in m ==> c in s
    ensures |rest| < |m| && Matching(p, rest, taken + [s[0]]) && forall c :: c in rest ==> c in s[1..]
    ensures Total(m) <= Total(rest) + 2.0 * s[0].score
  {
    forall d | d in m ensures d.score <= s[0].score { assert d in s; }
    rest := Displace(p, m, s[0]);
    forall d | d in rest ensures !Skips(p, d, taken + [s[0]]) && d in s[1..] {
      BlockedByOneMore(p, d, taken, s[0]);
      assert d in [s[0]] + s[1..];
    }
  }

  lemma TotalTakeCons(c: Candidate, g: seq<Candidate>, n: nat)
    requires 0 < n
    ensures Total(Take([c] + g, n)) == c.score + Total(Take(g, n - 1))
  {
    assert Take([c] + g, n) == [c] + Take(g, n - 1);
    assert ([c] + Take(g, n - 1))[1..] == Take(g, n - 1);
  }

  lemma GreedyNonNegative(p: Policy, s: seq<Candidate>, taken: seq<Candidate>, n: nat)
    requires BestFirst(s) && forall c :: c in s ==> 0.0 <= c.score
    ensures 0.0 <= Total(Take(Greedy(p, s, taken), n))
  {
    GreedySelects(p, s, taken);
    TotalNonNegative(Take(Greedy(p, s, taken), n));
  }

  /** Among matchings of at most n pairs, none is worth more than twice the
      first n pairs the greedy pass keeps. */
  lemma {:induction false} GreedyHalfOptimal(p: Policy, s: seq<Candidate>, taken: seq<Candidate>,
                                             m: seq<Candidate>, n: nat)
    requires BestFirst(s) && forall c :: c in s ==> 0.0 <= c.score
    requires Matching(p, m, taken) && |m| <= n && forall c :: c in m ==> c in s
    ensures Total(m) <= 2.0 * Total(Take(Greedy(p, s, taken), n))
  {
    assert m != [] ==> m[0] in s;
    if m == [] {
      GreedyNonNegative(p, s, taken, n);
    } else if Skips(p, s[0], taken) {
      assert s == [s[0]] + s[1..];
      GreedyHalfOptimal(p, s[1..], taken, m, n);
    } else {
      var rest := RivalAfterTaking(p, s, taken, m);
      GreedyHalfOptimal(p, s[1..], taken + [s[0]], rest, n - 1);
      TotalTakeCons(s[0], Greedy(p, s[1..], taken + [s[0]]), n);
    }
  }

  /** The same for the whole script: unsorted rows in, any cap on the output. */
  lemma DedupHalfOptimal(p: Policy, s: seq<Candidate>, m: seq<Candidate>, n: nat)
    requires forall c :: c in s ==> 0.0 <= c.score
    requires Matching(p, m, []) && |m| <= n && forall c :: c in m ==> c in s
    ensures Total(m) <= 2.0 * Total(Take(Dedup(p, s), n))
  {
    SortIsStable(s);
    SameMembers(s, Sort(s));
    GreedyHalfOptimal(p, Sort(s), [], m, n);
  }

  /** Two is the best possible factor: here the optimum is exactly double. */
  lemma HalfIsTight(a: Candidate, b: Candidate, c: Candidate)
    requires a == Candidate("A", "y", 1.0, "") && b == Candidate("A", "x", 1.0, "")
    requires c == Candidate("B", "y", 1.0, "")
    ensures Dedup(BothKeys, [a, b, c]) == [a]
    ensures Matching(BothKeys, [b, c], []) && Total([b, c]) == 2.0 * Total([a])
  {
    SortKeepsSorted([a, b, c]);
    BlockedByOneMore(BothKeys, b, [], a);
    BlockedByOneMore(BothKeys, c, [], a);
    GreedyPicksOne(BothKeys, a, b, c);
    MatchingCons(BothKeys, b, [], [c]);
    BlockedByOneMore(BothKeys, c, [], b);
    assert [b, c] == [b] + [c] && [b, c][1..] == [c];
    assert Total([c]) == 1.0;
  }

  lemma GreedyPicksOne(p: Policy, a: Candidate, b: Candidate, c: Candidate)
    requires !Skips(p, a, []) && Skips(p, b, [] + [a]) && Skips(p, c, [] + [a])
    ensures Greedy(p, [a, b, c], []) == [a]
  {
    assert [a, b, c][1..] == [b, c] && [b, c][1..] == [c];
    assert Greedy(p, [c], [] + [a]) == Greedy(p, [], [] + [a]);
  }

  // -------------------------------------------- idempotence and second round

  lemma {:induction false} SortKeepsSorted(s: seq<Candidate>)
    requires BestFirst(s)
    ensures Sort(s) == s
  {
    if s != [] { SortKeepsSorted(s[1..]); }
  }

  lemma {:induction false} GreedyKeepsMatching(p: Policy, g: seq<Candidate>, taken: seq<Candidate>)
    requires Matching(p, g, taken)
    ensures Greedy(p, g, taken) == g
  {
    if g != [] {
      assert g[0] in g;
      forall j | 1 <= j < |g| ensures !Skips(p, g[j], taken + [g[0]]) {
        BlockedByOneMore(p, g[j], taken, g[0]);
        assert g[j] in g && !Conflicts(p, g[0], g[j]);
      }
      GreedyKeepsMatching(p, g[1..], taken + [g[0]]);
    }
  }

  lemma DedupIdempotent(p: Policy, s: seq<Candidate>)
    ensures Dedup(p, Dedup(p, s)) == Dedup(p, s)
  {
    DedupSelects(p, s);
    SortKeepsSorted(Dedup(p, s));
    GreedyKeepsMatching(p, Dedup(p, s), []);
  }

  /** The mirror image of Insert: after the rows that score as much. */
  function InsertLast(c: Candidate, s: seq<Candidate>): seq<Candidate> {
    if s == [] || s[0].score < c.score then [c] + s else [s[0]] + InsertLast(c, s[1..])
  }

  lemma {:induction false} InsertionsCommute(c: Candidate, x: Candidate, s: seq<Candidate>)
    ensures InsertLast(x, Insert(c, s)) == Insert(c, InsertLast(x, s))
  {
    if s == [] {
    } else {
      InsertionsCommute(c, x, s[1..]);
      assert ([s[0]] + Insert(c, s[1..]))[1..] == Insert(c, s[1..]);
      assert ([s[0]] + InsertLast(x, s[1..]))[1..] == InsertLast(x, s[1..]);
      assert ([c] + s)[1..] == s && ([x] + s)[1..] == s;
    }
  }

  lemma {:induction false} SortAppend(s: seq<Candidate>, x: Candidate)
    ensures Sort(s + [x]) == InsertLast(x, Sort(s))
  {
    if s == [] {
      assert [] + [x] == [x];
    } else {
      SortAppend(s[1..], x);
      assert (s + [x])[1..] == s[1..] + [x];
      InsertionsCommute(s[0], x, Sort(s[1..]));
    }
  }

  lemma InsertLastCons(y: Candidate, c: Candidate, s: seq<Candidate>)
    ensures InsertLast(y, [c] + s) == if c.score < y.score then [y] + ([c] + s) else [c] + InsertLast(y, s)
  {
    assert ([c] + s)[1..] == s;
  }

  predicate SomeBelow(s: seq<Candidate>, v: real) {
    s != [] && (s[0].score < v || SomeBelow(s[1..], v))
  }

  lemma {:induction false} NoneBelow(s: seq<Candidate>, v: real, x: Candidate)
    requires x in s && !SomeBelow(s, v)
    ensures x.score >= v
  {
    if x != s[0] { NoneBelow(s[1..], v, x); }
  }

  lemma Regroup(c: Candidate, u: seq<Candidate>, t: seq<Candidate>)
    ensures [c] + (u + t) == ([c] + u) + t
  {
  }

  /** A row goes into the front part if that has a lower score ... */
  lemma {:induction false} InsertLastFront(y: Candidate, u: seq<Candidate>, t: seq<Candidate>)
    requires SomeBelow(u, y.score)
    ensures InsertLast(y, u + t) == InsertLast(y, u) + t
  {
    var c, rest := u[0], u[1..];
    assert u == [c] + rest;
    Regroup(c, rest, t);
    InsertLastCons(y, c, rest + t);
    if c.score < y.score {
      Regroup(y, u, t);
    } else {
      InsertLastFront(y, rest, t);
      Regroup(c, InsertLast(y, rest), t);
    }
  }

  /** ... and else behind it. */
  lemma {:induction false} InsertLastBack(y: Candidate, u: seq<Candidate>, t: seq<Candidate>)
    requires !SomeBelow(u, y.score)
    ensures InsertLast(y, u + t) == u + InsertLast(y, t)
  {
    if u == [] {
      assert u + t == t;
    } else {
      var c, rest := u[0], u[1..];
      assert u == [c] + rest;
      Regroup(c, rest, t);
      InsertLastCons(y, c, rest + t);
      InsertLastBack(y, rest, t);
      Regroup(c, rest, InsertLast(y, t));
    }
  }

  /** The rows that score at least v, from the front on. */
  function AtLeast(s: seq<Candidate>, v: real): (n: nat)
    ensures n <= |s| && (n < |s| ==> s[n].score < v)
  {
    if s == [] || s[0].score < v then 0 else 1 + AtLeast(s[1..], v)
  }

  lemma {:induction false} FrontAtLeast(s: seq<Candidate>, v: real)
    ensures !SomeBelow(s[..AtLeast(s, v)], v)
  {
    if s != [] && s[0].score >= v {
      FrontAtLeast(s[1..], v);
      assert s[..AtLeast(s, v)][1..] == s[1..][..AtLeast(s[1..], v)];
    }
  }

  lemma InsertLastBetween(x: Candidate, w1: seq<Candidate>, w2: seq<Candidate>)
    requires !SomeBelow(w1, x.score) && (w2 == [] || w2[0].score < x.score)
    ensures InsertLast(x, w1 + w2) == w1 + ([x] + w2)
  {
    InsertLastBack(x, w1, w2);
  }

  lemma BelowIsElsewhere(s: seq<Candidate>, n: nat, x: Candidate)
    requires BestFirst(s) && n <= |s| && (n < |s| ==> s[n].score < x.score)
    ensures x !in s[n..]
  {
    forall i | n <= i < |s| ensures s[i].score < x.score {}
  }

  /** A row goes in behind every row that scores as much, hence behind its equals. */
  lemma InsertLastBehind(x: Candidate, s: seq<Candidate>) returns (w1: seq<Candidate>, w2: seq<Candidate>)
    requires BestFirst(s)
    ensures s == w1 + w2 && InsertLast(x, w1 + w2) == w1 + ([x] + w2) && x !in w2
  {
    var n := AtLeast(s, x.score);
    BelowIsElsewhere(s, n, x);
    FrontAtLeast(s, x.score);
    w1, w2 := s[..n], s[n..];
    InsertLastBetween(x, w1, w2);
  }

  /** In the sorted list a repeat stands somewhere behind its first occurrence,
      and without it the list is the same. */
  lemma {:induction false} SortWithRepeat(a: seq<Candidate>, x: Candidate, b: seq<Candidate>)
    returns (w1: seq<Candidate>, w2: seq<Candidate>)
    requires x in a
    ensures Sort(a + b) == w1 + w2 && Sort(a + [x] + b) == w1 + ([x] + w2) && x in w1
  {
    if b == [] {
      assert a + b == a && a + [x] + b == a + [x];
      SortAppend(a, x);
      SortIsStable(a);
      SameMembers(a, Sort(a));
      w1, w2 := InsertLastBehind(x, Sort(a));
      assert x in w1 + w2;
    } else {
      var n := |b| - 1;
      var front, y := b[..n], b[n];
      var v1, v2 := SortWithRepeat(a, x, front);
      assert a + b == (a + front) + [y] && a + [x] + b == (a + [x] + front) + [y];
      SortAppend(a + front, y);
      SortAppend(a + [x] + front, y);
      w1, w2 := InsertAround(y, v1, x, v2);
    }
  }

  lemma InsertAround(y: Candidate, v1: seq<Candidate>, x: Candidate, v2: seq<Candidate>)
    returns (w1: seq<Candidate>, w2: seq<Candidate>)
    requires x in v1
    ensures InsertLast(y, v1 + v2) == w1 + w2 && InsertLast(y, v1 + ([x] + v2)) == w1 + ([x] + w2) && x in w1
  {
    if SomeBelow(v1, y.score) {
      w1, w2 := InsertLast(y, v1), v2;
      InsertLastFront(y, v1, v2);
      InsertLastFront(y, v1, [x] + v2);
      InsertLastKeeps(y, v1, x);
    } else {
      w1, w2 := v1, InsertLast(y, v2);
      InsertLastBack(y, v1, v2);
      InsertLastBack(y, v1, [x] + v2);
      NoneBelow(v1, y.score, x);
      InsertLastCons(y, x, v2);
    }
  }

  lemma {:induction false} InsertLastKeeps(y: Candidate, s: seq<Candidate>, x: Candidate)
    requires x in s
    ensures x in InsertLast(y, s)
  {
    if s[0].score >= y.score && x != s[0] { InsertLastKeeps(y, s[1..], x); }
  }

  lemma GreedyCons(p: Policy, c: Candidate, s: seq<Candidate>, taken: seq<Candidate>)
    ensures Greedy(p, [c] + s, taken) ==
            if Skips(p, c, taken) then Greedy(p, s, taken) else [c] + Greedy(p, s, taken + [c])
  {
    assert ([c] + s)[1..] == s;
  }

  /** A row is dropped wherever it stands behind an equal row or a taken key. */
  lemma {:induction false} GreedySkipsRepeat(p: Policy, w1: seq<Candidate>, x: Candidate, w2: seq<Candidate>,
                                             taken: seq<Candidate>)
    requires x in w1 || Skips(p, x, taken)
    ensures Greedy(p, w1 + ([x] + w2), taken) == Greedy(p, w1 + w2, taken)
  {
    if w1 == [] {
      assert w1 + ([x] + w2) == [x] + w2 && w1 + w2 == w2;
      GreedyCons(p, x, w2, taken);
    } else {
      var c, rest := w1[0], w1[1..];
      assert w1 == [c] + rest;
      Regroup(c, rest, [x] + w2);
      Regroup(c, rest, w2);
      GreedyCons(p, c, rest + ([x] + w2), taken);
      GreedyCons(p, c, rest + w2, taken);
      BlockedByOneMore(p, x, taken, c);
      GreedySkipsRepeat(p, rest, x, w2, if Skips(p, c, taken) then taken else taken + [c]);
    }
  }

  /** A repeat changes nothing, wherever it stands and whatever follows. */
  lemma DedupIgnoresOne(p: Policy, a: seq<Candidate>, x: Candidate, b: seq<Candidate>)
    requires x in a
    ensures Dedup(p, a + [x] + b) == Dedup(p, a + b)
  {
    var w1, w2 := SortWithRepeat(a, x, b);
    GreedySkipsRepeat(p, w1, x, w2, []);
  }

  /** The rows of b that a does not have. */
  function NewRows(a: seq<Candidate>, b: seq<Candidate>): seq<Candidate> {
    if b == [] then [] else (if b[0] in a then [] else [b[0]]) + NewRows(a, b[1..])
  }

  lemma {:induction false} DropRepeats(p: Policy, a: seq<Candidate>, done: seq<Candidate>, b: seq<Candidate>)
    ensures Dedup(p, a + done + b) == Dedup(p, a + done + NewRows(a, b))
    decreases |b|
  {
    if b != [] {
      var x, rest := b[0], b[1..];
      assert b == [x] + rest;
      if x in a {
        assert a + done + b == (a + done) + [x] + rest;
        DedupIgnoresOne(p, a + done, x, rest);
        DropRepeats(p, a, done, rest);
        assert NewRows(a, b) == NewRows(a, rest);
      } else {
        assert a + done + b == a + (done + [x]) + rest;
        DropRepeats(p, a, done + [x], rest);
        assert a + (done + [x]) + NewRows(a, rest) == a + done + NewRows(a, b);
      }
    }
  }

  /** Of the second round only the rows matter that the first did not produce. */
  lemma DedupIgnoresRepeats(p: Policy, r1: seq<Candidate>, r2: seq<Candidate>)
    ensures Dedup(p, r1 + r2) == Dedup(p, r1 + NewRows(r1, r2))
    ensures (forall c :: c in r2 ==> c in r1) ==> Dedup(p, r1 + r2) == Dedup(p, r1)
  {
    DropRepeats(p, r1, [], r2);
    assert r1 + [] + r2 == r1 + r2 && r1 + [] + NewRows(r1, r2) == r1 + NewRows(r1, r2);
    if forall c :: c in r2 ==> c in r1 {
      NothingNew(r1, r2);
      assert r1 + [] == r1;
    }
  }

  lemma {:induction false} NothingNew(a: seq<Candidate>, b: seq<Candidate>)
    requires forall c :: c in b ==> c in a
    ensures NewRows(a, b) == []
  {
    if b != [] { NothingNew(a, b[1..]); }
  }
}
