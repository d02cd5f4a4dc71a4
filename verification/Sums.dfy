/** Sums of map values over a finite set of keys; an absent key counts as 0. */
module Sums {

  function Get(m: map<string, real>, k: string): real {
    if k in m then m[k] else 0.0
  }

  ghost function SumOver(keys: set<string>, m: map<string, real>): real {
    if keys == {} then 0.0
    else
      var k :| k in keys;
      Get(m, k) + SumOver(keys - {k}, m)
  }

  /** The sum does not depend on the order of the keys. */
  lemma {:induction false} SumPick(keys: set<string>, m: map<string, real>, k: string)
    requires k in keys
    ensures SumOver(keys, m) == Get(m, k) + SumOver(keys - {k}, m)
    decreases |keys|
  {
    var first :| first in keys && SumOver(keys, m) == Get(m, first) + SumOver(keys - {first}, m);
    if first != k {
      SumPick(keys - {first}, m, k);
      SumPick(keys - {k}, m, first);
      assert keys - {first} - {k} == keys - {k} - {first};
    }
  }

  /** One more key. */
  lemma SumAdd(keys: set<string>, m: map<string, real>, k: string)
    requires k !in keys
    ensures SumOver(keys + {k}, m) == Get(m, k) + SumOver(keys, m)
  {
    SumPick(keys + {k}, m, k);
    assert keys + {k} - {k} == keys;
  }

  /** Two sums subtract key by key. */
  lemma {:induction false} SumDifference(keys: set<string>, m: map<string, real>,
                                         a: map<string, real>, b: map<string, real>)
    requires forall k :: k in keys ==> Get(m, k) == Get(a, k) - Get(b, k)
    ensures SumOver(keys, m) == SumOver(keys, a) - SumOver(keys, b)
  {
    if keys != {} {
      var k :| k in keys;
      SumPick(keys, m, k);
      SumPick(keys, a, k);
      SumPick(keys, b, k);
      SumDifference(keys - {k}, m, a, b);
    }
  }

  lemma SumSame(keys: set<string>, m: map<string, real>, a: map<string, real>)
    requires forall k :: k in keys ==> Get(m, k) == Get(a, k)
    ensures SumOver(keys, m) == SumOver(keys, a)
  {
    SumZero(keys, map[]);
    SumDifference(keys, m, a, map[]);
  }

  lemma {:induction false} SumZero(keys: set<string>, m: map<string, real>)
    requires forall k :: k in keys ==> Get(m, k) == 0.0
    ensures SumOver(keys, m) == 0.0
  {
    if keys != {} {
      var k :| k in keys;
      SumPick(keys, m, k);
      SumZero(keys - {k}, m);
    }
  }

  lemma {:induction false} SumUnion(x: set<string>, y: set<string>, m: map<string, real>)
    requires x !! y
    ensures SumOver(x + y, m) == SumOver(x, m) + SumOver(y, m)
  {
    if y == {} {
      assert x + y == x;
    } else {
      var k :| k in y;
      SumUnion(x, y - {k}, m);
      SumPick(x + y, m, k);
      SumPick(y, m, k);
      assert x + y - {k} == x + (y - {k});
    }
  }

  /** Keys that hold nothing add nothing. */
  lemma SumAbsent(keys: set<string>, more: set<string>, m: map<string, real>)
    requires forall k :: k in more && k !in keys ==> Get(m, k) == 0.0
    ensures SumOver(keys + more, m) == SumOver(keys, m)
  {
    var extra := more - keys;
    assert keys + more == keys + extra;
    SumUnion(keys, extra, m);
    SumZero(extra, m);
  }
}
