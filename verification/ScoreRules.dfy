/**
 What candidate_score of scripts/discover_market_mappings.py amounts to: how each
 of its rules moves the score, in the constants of the script.
 */
module ScoreRules {
  import opened Options
  import opened Rounding
  import opened Text
  import opened MarketMatching

  predicate Mismatched(k: Market, p: Market) {
    k.category != "" && p.category != "" && k.category != p.category
  }

  /** Nothing but the dates can keep the pair from scoring. */
  predicate Comparable(k: Market, p: Market) {
    !Mismatched(k, p) && SharesToken(k, p)
  }

  predicate BothDated(k: Market, p: Market) {
    k.day.Some? && p.day.Some?
  }

  /** Sports listings may be a day apart, others 31 days; an unknown date is no
      obstacle. */
  predicate DatesAllow(k: Market, p: Market) {
    BothDated(k, p) ==> Gap(k.day.value, p.day.value) <= if k.category == "sports" then 1 else 31
  }

  lemma CappedPlus(value: real, same: bool, n: nat)
    ensures Capped(Some(value + (2 * n) as real / 10000.0), same)
            == Least(Capped(Some(value), same) + (2 * n) as real / 10000.0, 0.9999)
  {
    var total := value + if same then 0.05 else 0.0;
    Round4Shift(total, n);
    Round4Cap(total);
    Round4Cap(total + (2 * n) as real / 10000.0);
  }

  lemma DatedCapped(base: real, kCategory: string, pCategory: string, kDay: int, pDay: int, same: bool)
    ensures Gap(kDay, pDay) <= (if kCategory == "sports" then 1 else 31) ==>
      Capped(DateAdjusted(base, kCategory, pCategory, Some(kDay), Some(pDay)), same)
      == Least(Capped(Some(base), same) + Bonus(Gap(kDay, pDay)), 0.9999)
    ensures Gap(kDay, pDay) > (if kCategory == "sports" then 1 else 31) ==>
      Capped(DateAdjusted(base, kCategory, pCategory, Some(kDay), Some(pDay)), same) == 0.0
  {
    var gap := Gap(kDay, pDay);
    CappedPlus(base, same, if gap == 0 then 1000 else if gap == 1 then 500 else if gap <= 7 then 200 else 0);
  }

  function Bonus(gap: nat): real {
    match gap
    case 0 => 0.20
    case 1 => 0.10
    case _ => if gap <= 7 then 0.04 else 0.0
  }

  lemma ScoreParts(k: Market, p: Market)
    requires Comparable(k, p)
    ensures CandidateScore(k, p) == Capped(DateAdjusted(Base(k, p), k.category, p.category, k.day, p.day),
                                           BothKnown(k, p) && k.category == p.category)
  {
  }

  /** Dates: against the same pair with an unknown date, the score rises by 0.20
      on the same day, 0.10 a day apart, 0.04 up to seven days apart and not at all
      up to 31, below the cap of 0.9999; further apart it is 0. */
  lemma DateBonus(k: Market, p: Market)
    requires Comparable(k, p) && BothDated(k, p) && !(k.category == "sports" && p.category == "sports")
    ensures DatesAllow(k, p) ==>
      CandidateScore(k, p) == Least(CandidateScore(k.(day := None), p) + Bonus(Gap(k.day.value, p.day.value)), 0.9999)
    ensures !DatesAllow(k, p) ==> CandidateScore(k, p) == 0.0
  {
    var undated := k.(day := None);
    SameBase(k, p);
    ScoreParts(k, p);
    ScoreParts(undated, p);
    DatedCapped(Base(k, p), k.category, p.category, k.day.value, p.day.value,
                BothKnown(k, p) && k.category == p.category);
  }

  lemma SameBase(k: Market, p: Market)
    ensures Base(k.(day := None), p) == Base(k, p) == Base(k, p.(category := ""))
    ensures SharesToken(k.(day := None), p) == SharesToken(k, p) == SharesToken(k, p.(category := ""))
  {
  }

  lemma CategoryCapped(value: real)
    ensures Capped(Some(value), true) == Least(Capped(Some(value), false) + 0.05, 0.9999)
  {
    CappedPlus(value, false, 250);
    Round4Cap(value + 0.05);
  }

  /** Categories: one common known category adds 0.05 below the cap, against the
      same pair with one category unknown; two different ones veto. */
  lemma CategoryBonus(k: Market, p: Market)
    requires SharesToken(k, p) && k.category != "" && p.category != "" && DatesAllow(k, p)
    ensures k.category == p.category && (k.category != "sports" || BothDated(k, p)) ==>
            CandidateScore(k, p) == Least(CandidateScore(k, p.(category := "")) + 0.05, 0.9999)
    ensures k.category != p.category ==> CandidateScore(k, p) == 0.0
  {
    var q := p.(category := "");
    if k.category == p.category && (k.category != "sports" || BothDated(k, p)) {
      SameBase(k, p);
      ScoreParts(k, p);
      ScoreParts(k, q);
      var adjusted := DateAdjusted(Base(k, p), k.category, "", k.day, p.day);
      assert adjusted == DateAdjusted(Base(k, p), k.category, p.category, k.day, p.day) && adjusted.Some?;
      CategoryCapped(adjusted.value);
    }
  }

  /** Sports without two dates count half: the score less the category bonus is
      half of what the texts alone score, up to rounding. */
  lemma SportsHalved(k: Market, p: Market)
    requires SharesToken(k, p) && k.category == p.category == "sports" && !BothDated(k, p)
    ensures -0.0002 <= 2.0 * (CandidateScore(k, p) - 0.05)
                       - CandidateScore(k.(category := "", day := None), p.(category := "")) <= 0.0002
  {
    var k', p' := k.(category := "", day := None), p.(category := "");
    BaseRange(k, p);
    assert Base(k', p') == Base(k, p) && SharesToken(k', p') by { SameBase(k, p); TextDecides(k, p, k', p'); }
    var base := Base(k, p);
    Round4Cap(base * 0.5 + 0.05);
    Round4Cap(base);
  }

  lemma TextDecides(k: Market, p: Market, k': Market, p': Market)
    requires k.text == k'.text && p.text == p'.text
    ensures Base(k, p) == Base(k', p') && SharesToken(k, p) == SharesToken(k', p')
  {
  }

  /** Known dates that are close enough never cost anything. */
  lemma DatesNeverCost(k: Market, p: Market)
    requires BothDated(k, p) && DatesAllow(k, p)
    ensures CandidateScore(k, p) >= CandidateScore(k.(day := None), p)
  {
    SameBase(k, p);
    BaseRange(k, p);
    CappedMonotone(DateAdjusted(Base(k, p), k.category, p.category, k.day, p.day),
                   DateAdjusted(Base(k, p), k.category, p.category, None, p.day),
                   BothKnown(k, p) && k.category == p.category);
  }

  lemma ShareBound(part: nat, whole: nat)
    requires 1 <= part && whole < 3500
    ensures 0.35 * Ratio(part, whole) >= 0.0 && (whole > 0 ==> 0.35 * Ratio(part, whole) > 0.0001)
  {
    if whole > 0 {
      assert part as real / whole as real >= 1.0 / whole as real > 1.0 / 3500.0;
    }
  }

  /** When a pair scores at all: exactly if it has a token in common, its known
      categories agree and its known dates are close enough.  (Rounding could take
      a pair to 0 whose texts have 3500 different tokens between them.) */
  lemma ScoresExactlyWhen(k: Market, p: Market)
    requires |MarketTokens(k.text) + MarketTokens(p.text)| < 3500
    ensures CandidateScore(k, p) > 0.0 <==> Comparable(k, p) && DatesAllow(k, p)
  {
    if Comparable(k, p) && DatesAllow(k, p) {
      var common, all := MarketTokens(k.text) * MarketTokens(p.text), MarketTokens(k.text) + MarketTokens(p.text);
      SubsetSize(common, all);
      ShareBound(|common|, |all|);
      SimilarityRange(Words(k.text), Words(p.text));
      var base := Base(k, p);
      assert base > 0.0001;
      var adjusted := DateAdjusted(base, k.category, p.category, k.day, p.day);
      assert adjusted.Some? && adjusted.value > 0.00005;
      var total := adjusted.value + if BothKnown(k, p) && k.category == p.category then 0.05 else 0.0;
      Round4Positive(if total <= 0.9999 then total else 0.9999);
    }
  }

  // ------------------------------------------------------------------- texts

  lemma {:induction false} LengthOfWords(words: seq<string>)
    ensures NormalizedLength(words) == |Join(words, " ")|
  {
    if |words| > 1 { LengthOfWords(words[1..]); }
  }

  /** The shorter length over the longer one. */
  function LengthRatio(a: nat, b: nat): real {
    if a <= b then Ratio(a, b) else Ratio(b, a)
  }

  lemma SimilarityOf(a: seq<string>, b: seq<string>, wa: set<string>, wb: set<string>)
    requires a != [] && b != [] && a != b && wa == (set w | w in a) && wb == (set w | w in b)
    ensures Similarity(a, b) == Round4(0.7 * Ratio(|wa * wb|, |wa + wb|)
                                       + 0.3 * LengthRatio(NormalizedLength(a), NormalizedLength(b)))
  {
  }

  lemma PlainTokens(text: string, words: seq<string>, all: set<string>)
    requires words == Words(text) && all == (set w | w in words) && forall w :: w in all ==> IsToken(w)
    ensures MarketTokens(text) == all
  {
  }

  lemma PlainBase(k: Market, p: Market, wa: set<string>, wb: set<string>)
    requires MarketTokens(k.text) == wa && MarketTokens(p.text) == wb
    ensures SharesToken(k, p) <==> wa * wb != {}
    ensures Base(k, p) == 0.65 * Similarity(Words(k.text), Words(p.text)) + 0.35 * Ratio(|wa * wb|, |wa + wb|)
  {
  }

  lemma PlainUndated(k: Market, p: Market)
    requires k.category == p.category == "" && !BothDated(k, p) && SharesToken(k, p)
    ensures CandidateScore(k, p) == Least(Round4(Base(k, p)), 0.9999)
  {
    ScoreParts(k, p);
    Round4Cap(Base(k, p));
  }

  /** Texts made of tokens only, without dates and categories: 65 % of the lexical
      similarity, which is 70 % common words and 30 % length, and 35 % common
      words once more. */
  lemma ScoreOfPlainTexts(k: Market, p: Market, a: seq<string>, b: seq<string>, wa: set<string>, wb: set<string>)
    requires k.category == p.category == "" && !BothDated(k, p)
    requires a == Words(k.text) && b == Words(p.text) && a != b
    requires wa == (set w | w in a) && wb == (set w | w in b) && wa * wb != {}
    requires forall w :: w in wa + wb ==> IsToken(w)
    ensures var share := |wa * wb| as real / |wa + wb| as real;
      CandidateScore(k, p) == Least(Round4(
        0.65 * Round4(0.7 * share + 0.3 * LengthRatio(|Join(a, " ")|, |Join(b, " ")|)) + 0.35 * share), 0.9999)
  {
    PlainTokens(k.text, a, wa);
    PlainTokens(p.text, b, wb);
    PlainBase(k, p, wa, wb);
    LengthOfWords(a);
    LengthOfWords(b);
    SimilarityOf(a, b, wa, wb);
    assert wa + wb != {};
    PlainUndated(k, p);
  }

  /** Identical words make up the full share. */
  lemma ScoreOfSameWords(k: Market, p: Market)
    requires k.category == p.category == "" && !BothDated(k, p)
    requires Words(k.text) == Words(p.text)
    ensures CandidateScore(k, p) == if MarketTokens(k.text) == {} then 0.0 else 0.9999
  {
    var tokens := MarketTokens(k.text);
    assert MarketTokens(p.text) == tokens && tokens * tokens == tokens && tokens + tokens == tokens;
    if tokens != {} {
      assert Words(k.text) != [] by { var w :| w in tokens; assert w in Words(k.text); }
      RatioOfWhole(|tokens|);
      Round4Between(0.9999, 9999, 9999);
    }
  }

  lemma ShareGrows(part: nat, whole: nat, more: nat)
    requires part <= whole && more <= 1
    ensures Ratio(part, whole) <= Ratio(part + 1, whole + more) || (more == 0 && whole == 0)
  {
    if whole > 0 {
      assert part as real * (whole + more) as real <= (part + 1) as real * whole as real;
      CrossMultiply(part, whole, part + 1, whole + more);
    }
  }

  lemma CrossMultiply(a: nat, b: nat, c: nat, d: nat)
    requires 0 < b && 0 < d && a as real * d as real <= c as real * b as real
    ensures a as real / b as real <= c as real / d as real
  {
    var x, y := a as real / b as real, c as real / d as real;
    assert x * b as real == a as real && y * d as real == c as real;
    assert (x - y) * (b as real * d as real) <= 0.0;
  }

  lemma {:induction false} LengthGrows(words: seq<string>, w: string)
    ensures NormalizedLength(words + [w]) == NormalizedLength(words) + |w| + if words == [] then 0 else 1
  {
    if words == [] {
      assert words + [w] == [w];
    } else {
      assert (words + [w])[1..] == words[1..] + [w];
      LengthGrows(words[1..], w);
    }
  }

  lemma QuotientAtLeast(part: real, whole: real, r: real)
    requires 0.0 < whole && r * whole <= part
    ensures r <= part / whole
  {
    var q := part / whole;
    assert q * whole == part;
    assert (q - r) * whole >= 0.0;
  }

  lemma AddToBoth(a: real, b: real, n: real)
    requires 0.0 <= a <= b && 0.0 < b && 0.0 <= n
    ensures a / b <= (a + n) / (b + n)
  {
    var r := a / b;
    assert r * b == a;
    assert r <= 1.0 by { assert (1.0 - r) * b >= 0.0; }
    assert r * n <= n;
    assert r * (b + n) == r * b + r * n;
    QuotientAtLeast(a + n, b + n, r);
  }

  lemma LengthRatioGrows(a: nat, b: nat, n: nat)
    requires 0 < a && 0 < b
    ensures LengthRatio(a, b) <= LengthRatio(a + n, b + n)
  {
    AddToBoth((if a <= b then a else b) as real, (if a <= b then b else a) as real, n as real);
  }

  lemma ShareWithWord(wa: set<string>, wb: set<string>, w: string)
    ensures Ratio(|wa * wb|, |wa + wb|) <= Ratio(|(wa + {w}) * (wb + {w})|, |(wa + {w}) + (wb + {w})|)
  {
    var both, all := wa * wb, wa + wb;
    SubsetSize(both, all);
    assert (wa + {w}) * (wb + {w}) == both + {w} && (wa + {w}) + (wb + {w}) == all + {w};
    if w in both {
      assert both + {w} == both && all + {w} == all;
    } else {
      ShareGrows(|both|, |all|, if w in all then 0 else 1);
      assert w in all ==> all + {w} == all;
    }
  }

  lemma WordsWith(a: seq<string>, w: string)
    ensures (set v | v in a + [w]) == (set v | v in a) + {w}
  {
  }

  lemma WeighedMonotone(share: real, length: real, share': real, length': real)
    requires share <= share' && length <= length'
    ensures Round4(0.7 * share + 0.3 * length) <= Round4(0.7 * share' + 0.3 * length')
  {
    Round4Monotone(0.7 * share + 0.3 * length, 0.7 * share' + 0.3 * length');
  }

  lemma StillDifferent(a: seq<string>, b: seq<string>, w: string)
    requires a != b
    ensures a + [w] != b + [w]
  {
    assert (a + [w])[..|a|] == a && (b + [w])[..|b|] == b;
  }

  /** One more word at the end of both texts never lowers the similarity. */
  lemma SharedWordNeverLowers(a: seq<string>, b: seq<string>, w: string)
    requires "" !in a && "" !in b
    ensures Similarity(a + [w], b + [w]) >= Similarity(a, b)
  {
    SimilarityRange(a + [w], b + [w]);
    if a != [] && b != [] && a != b {
      var wa, wb := set v | v in a, set v | v in b;
      WordsWith(a, w);
      WordsWith(b, w);
      StillDifferent(a, b, w);
      SimilarityOf(a, b, wa, wb);
      SimilarityOf(a + [w], b + [w], wa + {w}, wb + {w});
      ShareWithWord(wa, wb, w);
      LengthGrows(a, w);
      LengthGrows(b, w);
      assert a[0] in a && b[0] in b;
      LengthRatioGrows(NormalizedLength(a), NormalizedLength(b), |w| + 1);
      WeighedMonotone(Ratio(|wa * wb|, |wa + wb|), LengthRatio(NormalizedLength(a), NormalizedLength(b)),
                      Ratio(|(wa + {w}) * (wb + {w})|, |(wa + {w}) + (wb + {w})|),
                      LengthRatio(NormalizedLength(a + [w]), NormalizedLength(b + [w])));
    }
  }

  lemma CommonAreLetters(w: string)
    requires w in COMMON_TOKENS
    ensures w != "" && 'a' <= w[0] <= 'z'
  {
  }

  /** What counts as a token: words of three letters or more and numbers, except
      the common words; of these only the longer ones need listing. */
  lemma TokensAre(text: string, w: string)
    requires w in Words(text) && w != ""
    ensures |w| >= 3 ==>
      (w in MarketTokens(text) <==> w !in ["and", "are", "for", "the", "will", "win", "winner", "yes"])
    ensures |w| < 3 ==> (w in MarketTokens(text) <==> forall c :: c in w ==> '0' <= c <= '9')
  {
    assert w[0] in w;
    if w in COMMON_TOKENS { CommonAreLetters(w); }
  }
}
