/** Sequences without repetition, and their elements as sets and counts. */
module Collections {
  predicate Distinct<T(==)>(s: seq<T>) {
    forall i, j :: 0 <= i < j < |s| ==> s[i] != s[j]
  }

  function Range(n: nat): (r: seq<nat>)
    ensures |r| == n && forall k :: 0 <= k < n ==> r[k] == k
  {
    seq(n, k => k)
  }

  function Elements<K(!new)>(s: seq<K>): (r: set<K>)
    ensures forall x :: x in r <==> x in s
  {
    if s == [] then {}
    else
      assert s == s[..|s| - 1] + [s[|s| - 1]];
      Elements(s[..|s| - 1]) + {s[|s| - 1]}
  }

  lemma DistinctSnoc<K>(s: seq<K>)
    requires s != []
    ensures Distinct(s) <==> Distinct(s[..|s| - 1]) && s[|s| - 1] !in s[..|s| - 1]
  {
    var front, last := s[..|s| - 1], s[|s| - 1];
    assert forall k :: 0 <= k < |front| ==> front[k] == s[k];
    if last in front {
      var k :| 0 <= k < |front| && front[k] == last;
      assert s[k] == s[|s| - 1];
    }
  }

  lemma {:induction false} DistinctByCount<K(!new)>(s: seq<K>)
    ensures |Elements(s)| <= |s|
    ensures |Elements(s)| == |s| <==> Distinct(s)
  {
    if s != [] {
      DistinctByCount(s[..|s| - 1]);
      DistinctSnoc(s);
    }
  }

  lemma {:induction false} RepeatedMeans<K(!new)>(s: seq<K>)
    ensures (forall k :: k in s ==> multiset(s)[k] == 1) <==> Distinct(s)
  {
    if s != [] {
      var front, last := s[..|s| - 1], s[|s| - 1];
      RepeatedMeans(front);
      DistinctSnoc(s);
      assert s == front + [last];
      assert forall k :: multiset(s)[k] == multiset(front)[k] + if k == last then 1 else 0;
      assert last in front <==> multiset(front)[last] >= 1;
      if last !in front && Distinct(front) {
        forall k | k in s ensures multiset(s)[k] == 1 {
          assert k == last || k in front;
        }
      }
      if forall k :: k in s ==> multiset(s)[k] == 1 {
        assert last in s;
        forall k | k in front ensures multiset(front)[k] == 1 {
          assert k in s;
        }
      }
    }
  }
}
