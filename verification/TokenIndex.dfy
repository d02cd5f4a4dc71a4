/** The inverted index the discovery scripts share: token -> document numbers. */
module TokenIndex {

  type Index = map<string, set<nat>>

  predicate Filed(index: Index, t: string, j: nat) {
    t in index && j in index[t]
  }

  /** The index files document j under t exactly when t is one of j's tokens. */
  ghost predicate Indexes(index: Index, docs: seq<set<string>>) {
    forall t, j: nat :: Filed(index, t, j) <==> j < |docs| && t in docs[j]
  }

  /** Files the next document under each of its tokens. */
  method AddDocument(index: Index, ghost docs: seq<set<string>>, j: nat, tokens: set<string>) returns (more: Index)
    requires Indexes(index, docs) && j == |docs|
    ensures Indexes(more, docs + [tokens])
  {
    more := index;
    var todo := tokens;
    while todo != {}
      invariant todo <= tokens
      invariant forall t, i: nat :: Filed(more, t, i) <==> Filed(index, t, i) || (i == j && t in tokens && t !in todo)
    {
      var t :| t in todo;
      ghost var before := more;
      more := more[t := (if t in more then more[t] else {}) + {j}];
      todo := todo - {t};
      forall u, i: nat ensures Filed(more, u, i) <==> Filed(before, u, i) || (i == j && u == t) {}
    }
    ghost var all := docs + [tokens];
    forall t, i: nat ensures Filed(more, t, i) <==> i < |all| && t in all[i] {
      if i < j { assert all[i] == docs[i]; }
      if i == j { assert all[i] == tokens; }
    }
  }

  /** The documents that share a token with the query, one lookup per token. */
  method Lookup(index: Index, ghost docs: seq<set<string>>, query: set<string>) returns (found: set<nat>)
    requires Indexes(index, docs)
    ensures forall j: nat :: j in found <==> j < |docs| && query * docs[j] != {}
  {
    found := {};
    var todo := query;
    while todo != {}
      invariant todo <= query
      invariant forall j: nat :: j in found <==> exists t :: t in query && t !in todo && Filed(index, t, j)
    {
      var t :| t in todo;
      ghost var before := found;
      found := found + if t in index then index[t] else {};
      todo := todo - {t};
      forall j: nat ensures j in found <==> exists u :: u in query && u !in todo && Filed(index, u, j) {
        assert j in found <==> j in before || Filed(index, t, j);
      }
    }
    forall j: nat ensures j in found <==> j < |docs| && query * docs[j] != {} {
      if j in found {
        var t :| t in query && Filed(index, t, j);
        assert t in query * docs[j];
      }
      if j < |docs| && query * docs[j] != {} {
        var t :| t in query * docs[j];
        assert Filed(index, t, j);
      }
    }
  }
}
