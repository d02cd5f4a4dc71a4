/**
 Double loops over two lists of listings, in full and restricted to the pairs an
 index can reach.  Which pairs are wanted, which are reachable and what row a
 pair yields are parameters.
 */
module PairLoops {

  /** The row of a pair, if it is wanted. */
  function RowIf<C>(wanted: bool, row: C): multiset<C> {
    if wanted then multiset{row} else multiset{}
  }

  /** The inner loop over every entry. */
  function AllRows<K, P, C>(wanted: (K, P) -> bool, row: (K, P) -> C, k: K, entries: seq<P>): multiset<C> {
    if entries == [] then multiset{}
    else
      var n := |entries| - 1;
      AllRows(wanted, row, k, entries[..n]) + RowIf(wanted(k, entries[n]), row(k, entries[n]))
  }

  /** The inner loop over the entries whose number is in `among`. */
  function RowsAmong<K, P, C>(wanted: (K, P) -> bool, row: (K, P) -> C, k: K, entries: seq<P>,
                              among: set<nat>): multiset<C>
  {
    if entries == [] then multiset{}
    else
      var n := |entries| - 1;
      RowsAmong(wanted, row, k, entries[..n], among)
      + RowIf(n in among && wanted(k, entries[n]), row(k, entries[n]))
  }

  /** Brute force. */
  function BruteForce<K, P, C>(wanted: (K, P) -> bool, row: (K, P) -> C, ks: seq<K>, entries: seq<P>): multiset<C> {
    if ks == [] then multiset{}
    else
      var n := |ks| - 1;
      BruteForce(wanted, row, ks[..n], entries) + AllRows(wanted, row, ks[n], entries)
  }

  /** The entries a lookup finds. */
  function Found<K, P>(shares: (K, P) -> bool, k: K, entries: seq<P>): set<nat> {
    set j: nat | j < |entries| && shares(k, entries[j])
  }

  /** Through the index. */
  function Indexed<K, P, C>(wanted: (K, P) -> bool, shares: (K, P) -> bool, row: (K, P) -> C,
                            ks: seq<K>, entries: seq<P>): multiset<C>
  {
    if ks == [] then multiset{}
    else
      var n := |ks| - 1;
      Indexed(wanted, shares, row, ks[..n], entries)
      + RowsAmong(wanted, row, ks[n], entries, Found(shares, ks[n], entries))
  }

  // ------------------------------------------------------ what the index misses

  lemma SumsEqual<C>(a: multiset<C>, all: multiset<C>, b: multiset<C>, ball: multiset<C>)
    requires a <= all && b <= ball
    ensures a + b <= all + ball
    ensures a + b == all + ball <==> a == all && b == ball
  {
    if a + b == all + ball {
      forall c ensures a[c] == all[c] && b[c] == ball[c] { assert (a + b)[c] == (all + ball)[c]; }
    }
  }

  lemma RowIfEqual<C>(some: bool, all: bool, row: C)
    requires some ==> all
    ensures RowIf(some, row) <= RowIf(all, row)
    ensures RowIf(some, row) == RowIf(all, row) <==> (all ==> some)
  {
    assert row in multiset{row};
  }

  /** No wanted entry is outside `among`. */
  ghost predicate Covers<K, P>(wanted: (K, P) -> bool, k: K, entries: seq<P>, among: set<nat>) {
    forall j :: 0 <= j < |entries| && wanted(k, entries[j]) ==> j in among
  }

  lemma CoversLast<K, P>(wanted: (K, P) -> bool, k: K, entries: seq<P>, among: set<nat>)
    requires entries != []
    ensures var n := |entries| - 1;
      Covers(wanted, k, entries, among) <==>
      Covers(wanted, k, entries[..n], among) && (wanted(k, entries[n]) ==> n in among)
  {
    var front := entries[..|entries| - 1];
    assert forall j :: 0 <= j < |front| ==> front[j] == entries[j];
  }

  /** Scoring some entries yields all rows exactly when it misses none. */
  lemma {:induction false} SomeRows<K, P, C>(wanted: (K, P) -> bool, row: (K, P) -> C, k: K, entries: seq<P>,
                                             among: set<nat>)
    ensures RowsAmong(wanted, row, k, entries, among) <= AllRows(wanted, row, k, entries)
    ensures RowsAmong(wanted, row, k, entries, among) == AllRows(wanted, row, k, entries) <==>
            Covers(wanted, k, entries, among)
  {
    if entries != [] {
      var n := |entries| - 1;
      var all := wanted(k, entries[n]);
      SomeRows(wanted, row, k, entries[..n], among);
      CoversLast(wanted, k, entries, among);
      RowIfEqual(n in among && all, all, row(k, entries[n]));
      SumsEqual(RowsAmong(wanted, row, k, entries[..n], among), AllRows(wanted, row, k, entries[..n]),
                RowIf(n in among && all, row(k, entries[n])), RowIf(all, row(k, entries[n])));
    }
  }

  /** No pair is wanted and out of the index's reach. */
  ghost predicate NoneMissed<K, P>(wanted: (K, P) -> bool, shares: (K, P) -> bool, ks: seq<K>, entries: seq<P>) {
    forall i, j :: 0 <= i < |ks| && 0 <= j < |entries| && wanted(ks[i], entries[j]) ==> shares(ks[i], entries[j])
  }

  lemma NoneMissedLast<K, P>(wanted: (K, P) -> bool, shares: (K, P) -> bool, ks: seq<K>, entries: seq<P>)
    requires ks != []
    ensures var n := |ks| - 1;
      NoneMissed(wanted, shares, ks, entries) <==>
      NoneMissed(wanted, shares, ks[..n], entries) && Covers(wanted, ks[n], entries, Found(shares, ks[n], entries))
  {
    var front := ks[..|ks| - 1];
    assert forall i :: 0 <= i < |front| ==> front[i] == ks[i];
  }

  /** The index yields the rows of the double loop, each as often, exactly when
      it reaches every wanted pair. */
  lemma {:induction false} IndexedIsBruteForce<K, P, C>(wanted: (K, P) -> bool, shares: (K, P) -> bool,
                                                        row: (K, P) -> C, ks: seq<K>, entries: seq<P>)
    ensures Indexed(wanted, shares, row, ks, entries) <= BruteForce(wanted, row, ks, entries)
    ensures Indexed(wanted, shares, row, ks, entries) == BruteForce(wanted, row, ks, entries) <==>
            NoneMissed(wanted, shares, ks, entries)
  {
    if ks != [] {
      var n := |ks| - 1;
      var found := Found(shares, ks[n], entries);
      IndexedIsBruteForce(wanted, shares, row, ks[..n], entries);
      SomeRows(wanted, row, ks[n], entries, found);
      NoneMissedLast(wanted, shares, ks, entries);
      SumsEqual(Indexed(wanted, shares, row, ks[..n], entries), BruteForce(wanted, row, ks[..n], entries),
                RowsAmong(wanted, row, ks[n], entries, found), AllRows(wanted, row, ks[n], entries));
    }
  }

  // ------------------------------------------------------------ rows and members

  ghost predicate ListedFor<K, P, C>(wanted: (K, P) -> bool, row: (K, P) -> C, k: K, entries: seq<P>, c: C) {
    exists j :: 0 <= j < |entries| && wanted(k, entries[j]) && c == row(k, entries[j])
  }

  lemma {:induction false} AllRowsMembers<K, P, C>(wanted: (K, P) -> bool, row: (K, P) -> C, k: K,
                                                   entries: seq<P>, c: C)
    ensures c in AllRows(wanted, row, k, entries) <==> ListedFor(wanted, row, k, entries, c)
  {
    if entries != [] {
      var n := |entries| - 1;
      AllRowsMembers(wanted, row, k, entries[..n], c);
      assert forall j :: 0 <= j < n ==> entries[..n][j] == entries[j];
    }
  }

  ghost predicate ListedForOne<K, P, C>(wanted: (K, P) -> bool, row: (K, P) -> C, ks: seq<K>, entries: seq<P>, c: C) {
    exists k :: k in ks && ListedFor(wanted, row, k, entries, c)
  }

  lemma ListedForLast<K, P, C>(wanted: (K, P) -> bool, row: (K, P) -> C, front: seq<K>, k: K, entries: seq<P>, c: C)
    ensures ListedForOne(wanted, row, front + [k], entries, c) <==>
            ListedForOne(wanted, row, front, entries, c) || ListedFor(wanted, row, k, entries, c)
  {
    assert forall m :: m in front + [k] <==> m in front || m == k;
  }

  lemma {:induction false} BruteForceListed<K, P, C>(wanted: (K, P) -> bool, row: (K, P) -> C, ks: seq<K>,
                                                     entries: seq<P>, c: C)
    ensures c in BruteForce(wanted, row, ks, entries) <==> ListedForOne(wanted, row, ks, entries, c)
  {
    if ks != [] {
      var n := |ks| - 1;
      BruteForceListed(wanted, row, ks[..n], entries, c);
      AllRowsMembers(wanted, row, ks[n], entries, c);
      ListedForLast(wanted, row, ks[..n], ks[n], entries, c);
      assert ks == ks[..n] + [ks[n]];
    }
  }

  ghost predicate Listed<K, P, C>(wanted: (K, P) -> bool, row: (K, P) -> C, ks: seq<K>, entries: seq<P>, c: C) {
    exists k, p :: k in ks && p in entries && wanted(k, p) && c == row(k, p)
  }

  /** Exactly the rows of the wanted pairs. */
  lemma BruteForceMembers<K, P, C>(wanted: (K, P) -> bool, row: (K, P) -> C, ks: seq<K>, entries: seq<P>, c: C)
    ensures c in BruteForce(wanted, row, ks, entries) <==> Listed(wanted, row, ks, entries, c)
  {
    BruteForceListed(wanted, row, ks, entries, c);
    if k, p :| k in ks && p in entries && wanted(k, p) && c == row(k, p) {
      var j: nat :| j < |entries| && entries[j] == p;
      assert wanted(k, entries[j]) && c == row(k, entries[j]);
      assert ListedFor(wanted, row, k, entries, c);
    }
  }

  // --------------------------------------------------------- one entry at a time

  lemma {:induction false} RowsAmongFewer<K, P, C>(wanted: (K, P) -> bool, row: (K, P) -> C, k: K, entries: seq<P>,
                                                   among: set<nat>, j: nat)
    requires j >= |entries|
    ensures RowsAmong(wanted, row, k, entries, among) == RowsAmong(wanted, row, k, entries, among - {j})
  {
    if entries != [] { RowsAmongFewer(wanted, row, k, entries[..|entries| - 1], among, j); }
  }

  lemma SumSwap<C>(a: multiset<C>, b: multiset<C>, c: multiset<C>)
    ensures a + b + c == a + c + b
  {
  }

  /** Any entry may be scored first. */
  lemma {:induction false} RowsAmongPick<K, P, C>(wanted: (K, P) -> bool, row: (K, P) -> C, k: K, entries: seq<P>,
                                                  among: set<nat>, j: nat)
    requires j in among && j < |entries|
    ensures RowsAmong(wanted, row, k, entries, among) ==
            RowsAmong(wanted, row, k, entries, among - {j}) + RowIf(wanted(k, entries[j]), row(k, entries[j]))
  {
    var n := |entries| - 1;
    var front := entries[..n];
    var mine := RowIf(wanted(k, entries[j]), row(k, entries[j]));
    var last := RowIf(n in among && wanted(k, entries[n]), row(k, entries[n]));
    if j < n {
      RowsAmongPick(wanted, row, k, front, among, j);
      assert front[j] == entries[j];
      assert n in among - {j} <==> n in among;
      calc {
        RowsAmong(wanted, row, k, entries, among);
        RowsAmong(wanted, row, k, front, among) + last;
        RowsAmong(wanted, row, k, front, among - {j}) + mine + last;
        { SumSwap(RowsAmong(wanted, row, k, front, among - {j}), mine, last); }
        RowsAmong(wanted, row, k, front, among - {j}) + last + mine;
        RowsAmong(wanted, row, k, entries, among - {j}) + mine;
      }
    } else {
      RowsAmongFewer(wanted, row, k, front, among, j);
      assert RowsAmong(wanted, row, k, entries, among - {j}) == RowsAmong(wanted, row, k, front, among - {j});
    }
  }

  lemma {:induction false} RowsAmongNone<K, P, C>(wanted: (K, P) -> bool, row: (K, P) -> C, k: K, entries: seq<P>)
    ensures RowsAmong(wanted, row, k, entries, {}) == multiset{}
  {
    if entries != [] { RowsAmongNone(wanted, row, k, entries[..|entries| - 1]); }
  }

  // ----------------------------------------------------------- one row at most

  /** One row for each accepted k, in order; `fits` says which rows will do. */
  ghost predicate OneRowEach<K(!new), C(!new)>(accepted: K -> bool, fits: (K, C) -> bool, ks: seq<K>, rows: seq<C>) {
    if ks == [] then rows == []
    else
      var n, m := |ks| - 1, |rows| - 1;
      if accepted(ks[n]) then rows != [] && fits(ks[n], rows[m]) && OneRowEach(accepted, fits, ks[..n], rows[..m])
      else OneRowEach(accepted, fits, ks[..n], rows)
  }

  lemma OneRowMore<K(!new), C(!new)>(accepted: K -> bool, fits: (K, C) -> bool, ks: seq<K>, rows: seq<C>, k: K, c: C)
    requires OneRowEach(accepted, fits, ks, rows)
    ensures accepted(k) && fits(k, c) ==> OneRowEach(accepted, fits, ks + [k], rows + [c])
    ensures !accepted(k) ==> OneRowEach(accepted, fits, ks + [k], rows)
  {
    assert (ks + [k])[..|ks|] == ks && (rows + [c])[..|rows|] == rows;
  }

  lemma {:induction false} RowFitsSome<K(!new), C(!new)>(accepted: K -> bool, fits: (K, C) -> bool,
                                                         ks: seq<K>, rows: seq<C>, c: C) returns (k: K)
    requires OneRowEach(accepted, fits, ks, rows) && c in rows
    ensures k in ks && fits(k, c)
  {
    var n, m := |ks| - 1, |rows| - 1;
    assert rows == rows[..m] + [rows[m]];
    if !accepted(ks[n]) {
      k := RowFitsSome(accepted, fits, ks[..n], rows, c);
    } else if c in rows[..m] {
      k := RowFitsSome(accepted, fits, ks[..n], rows[..m], c);
    } else {
      k := ks[n];
    }
  }

  lemma {:induction false} SomeRowFits<K(!new), C(!new)>(accepted: K -> bool, fits: (K, C) -> bool,
                                                         ks: seq<K>, rows: seq<C>, k: K) returns (c: C)
    requires OneRowEach(accepted, fits, ks, rows) && k in ks && accepted(k)
    ensures c in rows && fits(k, c)
  {
    var n, m := |ks| - 1, |rows| - 1;
    assert ks == ks[..n] + [ks[n]];
    if !accepted(ks[n]) {
      c := SomeRowFits(accepted, fits, ks[..n], rows, k);
    } else if k in ks[..n] {
      c := SomeRowFits(accepted, fits, ks[..n], rows[..m], k);
    } else {
      c := rows[m];
    }
  }
}
