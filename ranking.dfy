/**
 * ORDER BY <column> DESC with OFFSET / FETCH, as the handlers' SELECT
 * statements use it. Rows that tie on the ordering column may come back in
 * any order, so the model states the order as a relation (an enumeration of
 * the matching keys whose ranks never increase) and computes one such order
 * by selection.
 */
module Ranking {

  /** `s` lists every key of `keys` exactly once. */
  ghost predicate Enumerates<K(!new)>(s: seq<K>, keys: set<K>) {
    (forall i, j :: 0 <= i < j < |s| ==> s[i] != s[j]) &&
    (forall k :: k in keys <==> k in s)
  }

  /** Every key in `s` is ranked and the ranks never increase along `s`. */
  ghost predicate Descending<K(!new)>(s: seq<K>, rank: map<K, int>) {
    (forall i :: 0 <= i < |s| ==> s[i] in rank) &&
    (forall i, j :: 0 <= i < j < |s| ==> rank[s[i]] >= rank[s[j]])
  }

  /** `s` is a result the database may return for ORDER BY rank DESC over the keys of `rank`. */
  ghost predicate OrderedBy<K(!new)>(s: seq<K>, rank: map<K, int>) {
    Enumerates(s, rank.Keys) && Descending(s, rank)
  }

  /** A finite non-empty set of ranked keys has a key of highest rank. */
  lemma {:induction false} HighestExists<K(!new)>(keys: set<K>, rank: map<K, int>)
    requires keys != {} && keys <= rank.Keys
    ensures exists m :: m in keys && forall k :: k in keys ==> rank[k] <= rank[m]
  {
    var x :| x in keys;
    if keys != {x} {
      HighestExists(keys - {x}, rank);
      var m :| m in keys - {x} && forall k :: k in keys - {x} ==> rank[k] <= rank[m];
      if rank[x] > rank[m] {
        assert forall k :: k in keys ==> rank[k] <= rank[x];
      } else {
        assert forall k :: k in keys ==> rank[k] <= rank[m];
      }
    } else {
      assert forall k :: k in keys ==> rank[k] <= rank[x];
    }
  }

  /** Lists the keys of `rank` with the highest rank first; ties in any order. */
  method SortDescending<K(==,!new)>(rank: map<K, int>) returns (s: seq<K>)
    ensures OrderedBy(s, rank)
  {
    var rest := rank.Keys;
    s := [];
    while rest != {}
      invariant rest <= rank.Keys
      invariant forall k :: k in rank.Keys <==> k in rest || k in s
      invariant forall i :: 0 <= i < |s| ==> s[i] !in rest
      invariant forall i, j :: 0 <= i < j < |s| ==> s[i] != s[j]
      invariant Descending(s, rank)
      invariant forall i, k :: 0 <= i < |s| && k in rest ==> rank[k] <= rank[s[i]]
      decreases |rest|
    {
      HighestExists(rest, rank);
      var m :| m in rest && forall k :: k in rest ==> rank[k] <= rank[m];
      s := s + [m];
      rest := rest - {m};
    }
  }

  /** OFFSET `offset` ROWS FETCH NEXT `count` ROWS ONLY. */
  function Window<K>(s: seq<K>, offset: nat, count: nat): (w: seq<K>)
    ensures |w| <= count
    ensures offset <= |s| ==> w == s[offset..if offset + count <= |s| then offset + count else |s|]
    ensures offset >= |s| ==> w == []
  {
    var lo := if offset <= |s| then offset else |s|;
    var hi := if offset + count <= |s| then offset + count else |s|;
    s[lo..hi]
  }

  /** Any window of an ordered result is still duplicate-free, ranked and in order. */
  lemma {:induction false} WindowOrdered<K(!new)>(s: seq<K>, rank: map<K, int>, offset: nat, count: nat)
    requires OrderedBy(s, rank)
    ensures var w := Window(s, offset, count);
      (forall i, j :: 0 <= i < j < |w| ==> w[i] != w[j]) &&
      (forall k :: k in w ==> k in rank) &&
      Descending(w, rank)
  {
    var w := Window(s, offset, count);
    if offset < |s| {
      var lo := offset;
      forall i | 0 <= i < |w| ensures w[i] == s[lo + i] && w[i] in rank { }
    }
  }
}
