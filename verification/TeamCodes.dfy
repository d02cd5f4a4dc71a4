/**
 Matching concatenated team and player codes: the search loops of
 scripts/comprehensive_matcher.py and scripts/continuous_discovery.py.
 The alias table is a parameter; both scripts look codes up in lower case.
 */
module TeamCodes {
  import opened Text

  type Table = map<string, string>

  function NormTeam(table: Table, t: string): string {
    var lower := Lower(t);
    if lower in table then table[lower] else lower
  }

  /** s[:3] */
  function Three(s: string): string {
    if |s| <= 3 then s else s[..3]
  }

  /** s.startswith(p) */
  predicate StartsWith(s: string, p: string) {
    p == "" || (s != "" && s[0] == p[0] && StartsWith(s[1..], p[1..]))
  }

  lemma {:induction false} StartsWithIsPrefix(s: string, p: string)
    ensures StartsWith(s, p) <==> p <= s
  {
    if p != "" && s != "" {
      StartsWithIsPrefix(s[1..], p[1..]);
      assert p == [p[0]] + p[1..] && s == [s[0]] + s[1..];
    }
  }

  datatype Matcher = Comprehensive | Continuous

  /** The prefix test on one half: the comprehensive matcher lets either side be
      the shorter one, the continuous one wants equal first letters. */
  predicate PartFits(m: Matcher, half: string, code: string) {
    match m
    case Comprehensive => StartsWith(half, Three(code)) || StartsWith(code, Three(half))
    case Continuous => Three(half) == Three(code)
  }

  predicate SplitFits(m: Matcher, a: string, b: string, t1: string, t2: string) {
    || (a == t1 && b == t2) || (a == t2 && b == t1)
    || (|a| >= 2 && |b| >= 2 &&
        ((PartFits(m, a, t1) && PartFits(m, b, t2)) || (PartFits(m, a, t2) && PartFits(m, b, t1))))
  }

  predicate FitsAt(m: Matcher, table: Table, combined: string, t1: string, t2: string, i: nat)
    requires i <= |combined|
  {
    SplitFits(m, NormTeam(table, combined[..i]), NormTeam(table, combined[i..]),
              NormTeam(table, t1), NormTeam(table, t2))
  }

  /** Accepted: some split after at least two letters fits the two teams. */
  predicate Accepts(m: Matcher, table: Table, combined: string, t1: string, t2: string) {
    exists i :: 2 <= i < |combined| && FitsAt(m, table, combined, t1, t2, i)
  }

  function FitTest(m: Matcher, table: Table, combined: string, t1: string, t2: string): int -> bool {
    i => 0 <= i <= |combined| && FitsAt(m, table, combined, t1, t2, i)
  }

  /** The search from split i on. */
  predicate SomeFrom(fits: int -> bool, i: nat, n: nat)
    decreases n - i
  {
    i < n && (fits(i) || SomeFrom(fits, i + 1, n))
  }

  lemma {:induction false} SomeFromFinds(fits: int -> bool, i: nat, n: nat)
    ensures SomeFrom(fits, i, n) <==> exists j :: i <= j < n && fits(j)
    decreases n - i
  {
    if i < n { SomeFromFinds(fits, i + 1, n); }
  }

  lemma SearchDecides(m: Matcher, table: Table, combined: string, t1: string, t2: string)
    ensures SomeFrom(FitTest(m, table, combined, t1, t2), 2, |combined|) <==> Accepts(m, table, combined, t1, t2)
  {
    var fits := FitTest(m, table, combined, t1, t2);
    SomeFromFinds(fits, 2, |combined|);
    forall i | 0 <= i <= |combined| ensures fits(i) <==> FitsAt(m, table, combined, t1, t2, i) {}
  }

  lemma NormLower(table: Table, s: string, i: nat)
    requires i <= |s|
    ensures NormTeam(table, Lower(s)[..i]) == NormTeam(table, s[..i])
    ensures NormTeam(table, Lower(s)[i..]) == NormTeam(table, s[i..])
  {
    assert Lower(Lower(s)[..i]) == Lower(s[..i]);
    assert Lower(Lower(s)[i..]) == Lower(s[i..]);
  }

  /** One round of the loop, on the lowered string `c`. */
  method TestSplit(m: Matcher, table: Table, ghost combined: string, c: string, ghost t1: string, ghost t2: string,
                   n1: string, n2: string, i: nat)
    returns (fits: bool)
    requires c == Lower(combined) && n1 == NormTeam(table, t1) && n2 == NormTeam(table, t2) && i < |c|
    ensures fits <==> FitTest(m, table, combined, t1, t2)(i)
    ensures fits <==> FitsAt(m, table, combined, t1, t2, i)
  {
    NormLower(table, combined, i);
    var a, b := NormTeam(table, c[..i]), NormTeam(table, c[i..]);
    if (a == n1 && b == n2) || (a == n2 && b == n1) { return true; }
    if |a| >= 2 && |b| >= 2 {
      if PartFits(m, a, n1) && PartFits(m, b, n2) { return true; }
      if PartFits(m, a, n2) && PartFits(m, b, n1) { return true; }
    }
    return false;
  }

  /** try_split_teams of either script. */
  method TrySplitTeams(m: Matcher, table: Table, combined: string, t1: string, t2: string) returns (found: bool)
    ensures found <==> Accepts(m, table, combined, t1, t2)
  {
    var c, n1, n2 := Lower(combined), NormTeam(table, t1), NormTeam(table, t2);
    ghost var test := FitTest(m, table, combined, t1, t2);
    SearchDecides(m, table, combined, t1, t2);
    var i: nat := 2;
    while i < |c|
      invariant SomeFrom(test, 2, |combined|) <==> SomeFrom(test, i, |combined|)
    {
      var fits := TestSplit(m, table, combined, c, t1, t2, n1, n2, i);
      if fits { return true; }
      i := i + 1;
    }
    return false;
  }

  /** The order of the two teams does not matter. */
  lemma AcceptsIsSymmetric(m: Matcher, table: Table, combined: string, t1: string, t2: string)
    ensures Accepts(m, table, combined, t1, t2) <==> Accepts(m, table, combined, t2, t1)
  {
    forall i | 2 <= i < |combined|
      ensures FitsAt(m, table, combined, t1, t2, i) <==> FitsAt(m, table, combined, t2, t1, i) {}
  }

  /** Two codes run together, in either order, are recognised. */
  lemma ConcatenationAccepted(m: Matcher, table: Table, t1: string, t2: string)
    ensures |t1| >= 2 && t2 != "" ==> Accepts(m, table, t1 + t2, t1, t2)
    ensures |t2| >= 2 && t1 != "" ==> Accepts(m, table, t2 + t1, t1, t2)
  {
    assert (t1 + t2)[..|t1|] == t1 && (t1 + t2)[|t1|..] == t2;
    assert FitsAt(m, table, t1 + t2, t1, t2, |t1|);
    assert (t2 + t1)[..|t2|] == t2 && (t2 + t1)[|t2|..] == t1;
    assert FitsAt(m, table, t2 + t1, t1, t2, |t2|);
  }

  /** Two spellings of one team: the table gives them the same code, or they differ
      in case alone. */
  predicate SameTeam(table: Table, s: string, t: string) {
    || Lower(s) == Lower(t)
    || (Lower(s) in table && Lower(t) in table && table[Lower(s)] == table[Lower(t)])
    || (Lower(s) in table && Lower(t) !in table && table[Lower(s)] == Lower(t))
    || (Lower(s) !in table && Lower(t) in table && Lower(s) == table[Lower(t)])
  }

  /** Aliases are as good as the names: any two spellings run together, in either
      order, are recognised. */
  lemma AliasesAccepted(m: Matcher, table: Table, s1: string, s2: string, t1: string, t2: string)
    requires SameTeam(table, s1, t1) && SameTeam(table, s2, t2)
    ensures |s1| >= 2 && s2 != "" ==> Accepts(m, table, s1 + s2, t1, t2) && Accepts(m, table, s1 + s2, t2, t1)
  {
    assert (s1 + s2)[..|s1|] == s1 && (s1 + s2)[|s1|..] == s2;
    assert FitsAt(m, table, s1 + s2, t1, t2, |s1|);
    assert FitsAt(m, table, s1 + s2, t2, t1, |s1|);
  }

  lemma UnlikeNeverFits(m: Matcher, half: string, code: string)
    requires Unlike(half, code)
    ensures half != code && !PartFits(m, half, code)
  {
    LooseFit(half, code);
    var j :| 0 <= j < 3 && j < |half| && j < |code| && half[j] != code[j];
    assert Three(half)[j] == half[j] && Three(code)[j] == code[j];
  }

  lemma RejectedHalves(m: Matcher, a: string, b: string, n1: string, n2: string)
    requires || (Unlike(a, n1) && Unlike(a, n2)) || (Unlike(b, n1) && Unlike(b, n2))
             || ((|a| < 2 || |b| < 2) && !(a == n1 && b == n2) && !(a == n2 && b == n1))
    ensures !SplitFits(m, a, b, n1, n2)
  {
    if Unlike(a, n1) { UnlikeNeverFits(m, a, n1); }
    if Unlike(a, n2) { UnlikeNeverFits(m, a, n2); }
    if Unlike(b, n1) { UnlikeNeverFits(m, b, n1); }
    if Unlike(b, n2) { UnlikeNeverFits(m, b, n2); }
  }

  /** A half that differs from both codes within three letters spoils a split; and
      with a half of one letter only the codes themselves will do. */
  lemma RejectedSplit(m: Matcher, table: Table, combined: string, t1: string, t2: string, i: nat)
    requires i <= |combined|
    requires var a, b, n1, n2 := NormTeam(table, combined[..i]), NormTeam(table, combined[i..]),
                                 NormTeam(table, t1), NormTeam(table, t2);
      || (Unlike(a, n1) && Unlike(a, n2)) || (Unlike(b, n1) && Unlike(b, n2))
      || ((|a| < 2 || |b| < 2) && !(a == n1 && b == n2) && !(a == n2 && b == n1))
    ensures !FitsAt(m, table, combined, t1, t2, i)
  {
    RejectedHalves(m, NormTeam(table, combined[..i]), NormTeam(table, combined[i..]),
                   NormTeam(table, t1), NormTeam(table, t2));
  }

  /** Some of the first three letters differ. */
  predicate Unlike(s: string, t: string) {
    exists j :: 0 <= j < 3 && j < |s| && j < |t| && s[j] != t[j]
  }

  /** Only the first three letters matter to the prefix test, and one of the two
      must start with the other: equal once both have three. */
  lemma LooseFit(half: string, code: string)
    ensures PartFits(Comprehensive, half, code) <==> Three(half) <= Three(code) || Three(code) <= Three(half)
    ensures PartFits(Continuous, half, code) ==> PartFits(Comprehensive, half, code)
    ensures |half| >= 3 && |code| >= 3 ==> (PartFits(Comprehensive, half, code) <==> PartFits(Continuous, half, code))
  {
    StartsWithIsPrefix(half, Three(code));
    StartsWithIsPrefix(code, Three(half));
    PrefixOfThree(Three(code), half);
    PrefixOfThree(Three(half), code);
  }

  lemma PrefixOfThree(p: string, s: string)
    requires |p| <= 3
    ensures p <= s <==> p <= Three(s)
  {
    if p <= s { assert forall k :: 0 <= k < |p| ==> p[k] == s[k]; }
    if p <= Three(s) { assert forall k :: 0 <= k < |p| ==> p[k] == Three(s)[k] == s[k]; }
  }

  /** With one alias table, whatever the continuous script accepts the
      comprehensive one accepts too; and it accepts more only at splits where a
      half or a code is shorter than three letters. */
  lemma StricterImpliesLooser(table: Table, combined: string, t1: string, t2: string)
    ensures Accepts(Continuous, table, combined, t1, t2) ==> Accepts(Comprehensive, table, combined, t1, t2)
    ensures Accepts(Comprehensive, table, combined, t1, t2) && !Accepts(Continuous, table, combined, t1, t2) ==>
      |NormTeam(table, t1)| < 3 || |NormTeam(table, t2)| < 3 ||
      exists i :: 2 <= i < |combined| && FitsAt(Comprehensive, table, combined, t1, t2, i) &&
        (|NormTeam(table, combined[..i])| < 3 || |NormTeam(table, combined[i..])| < 3)
  {
    var n1, n2 := NormTeam(table, t1), NormTeam(table, t2);
    forall i | 2 <= i < |combined|
      ensures FitsAt(Continuous, table, combined, t1, t2, i) ==> FitsAt(Comprehensive, table, combined, t1, t2, i)
      ensures |n1| >= 3 && |n2| >= 3 &&
              |NormTeam(table, combined[..i])| >= 3 && |NormTeam(table, combined[i..])| >= 3 ==>
        (FitsAt(Continuous, table, combined, t1, t2, i) <==> FitsAt(Comprehensive, table, combined, t1, t2, i))
    {
      SplitsCompared(NormTeam(table, combined[..i]), NormTeam(table, combined[i..]), n1, n2);
    }
  }

  lemma SplitsCompared(a: string, b: string, t1: string, t2: string)
    ensures SplitFits(Continuous, a, b, t1, t2) ==> SplitFits(Comprehensive, a, b, t1, t2)
    ensures |t1| >= 3 && |t2| >= 3 && |a| >= 3 && |b| >= 3 ==>
      (SplitFits(Continuous, a, b, t1, t2) <==> SplitFits(Comprehensive, a, b, t1, t2))
  {
    LooseFit(a, t1);
    LooseFit(b, t2);
    LooseFit(a, t2);
    LooseFit(b, t1);
  }

  // ----------------------------------------------------------------- players

  predicate PlayersAt(c: string, p1: string, p2: string, i: nat)
    requires i <= |c|
  {
    |Three(c[i..])| >= 2 &&
    ((Three(c[..i]) == p1 && Three(c[i..]) == p2) || (Three(c[..i]) == p2 && Three(c[i..]) == p1))
  }

  predicate PlayersMatch(combined: string, p1: string, p2: string) {
    exists i :: 2 <= i < |combined| && PlayersAt(Lower(combined), Three(Lower(p1)), Three(Lower(p2)), i)
  }

  /** try_match_players */
  method TryMatchPlayers(combined: string, p1: string, p2: string) returns (found: bool)
    ensures found <==> PlayersMatch(combined, p1, p2)
  {
    var c, q1, q2 := Lower(combined), Three(Lower(p1)), Three(Lower(p2));
    var i := 2;
    while i < |c|
      invariant 2 <= i && |c| == |combined| && forall j :: 2 <= j < i && j < |combined| ==> !PlayersAt(c, q1, q2, j)
    {
      var a, b := Three(c[..i]), Three(c[i..]);
      if |b| >= 2 && ((a == q1 && b == q2) || (a == q2 && b == q1)) {
        assert PlayersAt(c, q1, q2, i);
        return true;
      }
      i := i + 1;
    }
    return false;
  }

  /** Both parts count two letters at least, up to three of each. */
  lemma PlayersNeedFour(combined: string, p1: string, p2: string)
    ensures PlayersMatch(combined, p1, p2) ==> |combined| >= 4 && |p1| >= 2 && |p2| >= 2
  {
  }

  /** Symmetric, and true of two codes run together in either order. */
  lemma PlayersRunTogether(combined: string, p1: string, p2: string)
    ensures PlayersMatch(combined, p1, p2) <==> PlayersMatch(combined, p2, p1)
    ensures |p1| >= 2 && |p2| >= 2 ==> PlayersMatch(p1 + p2, p1, p2) && PlayersMatch(p2 + p1, p1, p2)
  {
    forall i | 2 <= i < |combined|
      ensures PlayersAt(Lower(combined), Three(Lower(p1)), Three(Lower(p2)), i) <==>
              PlayersAt(Lower(combined), Three(Lower(p2)), Three(Lower(p1)), i) {}
    if |p1| >= 2 && |p2| >= 2 {
      LowerConcat(p1, p2);
      LowerConcat(p2, p1);
      assert Lower(p1 + p2)[..|p1|] == Lower(p1) && Lower(p1 + p2)[|p1|..] == Lower(p2);
      assert Lower(p2 + p1)[..|p2|] == Lower(p2) && Lower(p2 + p1)[|p2|..] == Lower(p1);
      assert PlayersAt(Lower(p1 + p2), Three(Lower(p1)), Three(Lower(p2)), |p1|);
      assert PlayersAt(Lower(p2 + p1), Three(Lower(p1)), Three(Lower(p2)), |p2|);
    }
  }
}
