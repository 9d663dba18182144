/** Sorting keys by a number, as both the session cap and the body cache do. */
module Sorting {

  ghost predicate InOrder<K>(q: seq<K>, key: map<K, real>) {
    && (forall i | 0 <= i < |q| :: q[i] in key)
    && (forall i, j | 0 <= i < j < |q| :: q[i] != q[j] && key[q[i]] <= key[q[j]])
  }

  /** sorted(ids, key=...): the keys once each, ascending; ties fall either way. */
  method Sorted<K(==)>(ids: set<K>, key: map<K, real>) returns (q: seq<K>)
    requires ids <= key.Keys
    ensures InOrder(q, key) && forall id :: id in q <==> id in ids
  {
    q := [];
    var left := ids;
    while left != {}
      invariant left <= ids && InOrder(q, key)
      invariant forall id :: id in q <==> id in ids - left
    {
      var id :| id in left;
      var at := 0;
      while at < |q| && key[q[at]] <= key[id]
        invariant 0 <= at <= |q|
        invariant forall i | 0 <= i < at :: key[q[i]] <= key[id]
      {
        at := at + 1;
      }
      InsertInOrder(q, at, id, key);
      q := q[..at] + [id] + q[at..];
      left := left - {id};
    }
  }

  lemma InsertInOrder<K>(q: seq<K>, at: nat, id: K, key: map<K, real>)
    requires at <= |q| && InOrder(q, key) && id in key && id !in q
    requires forall i | 0 <= i < at :: key[q[i]] <= key[id]
    requires at < |q| ==> key[id] < key[q[at]]
    ensures InOrder(q[..at] + [id] + q[at..], key)
    ensures forall x :: x in q[..at] + [id] + q[at..] <==> x == id || x in q
  {
    assert q == q[..at] + q[at..];
    forall i | at <= i < |q| ensures key[id] <= key[q[i]] {
      assert i > at ==> key[q[at]] <= key[q[i]];
    }
  }

  /** The first `n` of a sorted list. */
  function Oldest<K>(q: seq<K>, n: nat): set<K>
    requires n <= |q|
  {
    set i | 0 <= i < n :: q[i]
  }

  lemma {:induction false} OldestCount<K>(q: seq<K>, key: map<K, real>, n: nat)
    requires n <= |q| && InOrder(q, key)
    ensures |Oldest(q, n)| == n
  {
    if n > 0 {
      OldestCount(q, key, n - 1);
      assert Oldest(q, n) == Oldest(q, n - 1) + {q[n - 1]} && q[n - 1] !in Oldest(q, n - 1);
    }
  }

  lemma OldestFirst<K>(ids: set<K>, key: map<K, real>, q: seq<K>, n: nat)
    requires ids <= key.Keys && InOrder(q, key) && (forall id :: id in q <==> id in ids) && n <= |q|
    ensures |q| == |ids| && Oldest(q, n) <= ids && |Oldest(q, n)| == n
    ensures forall v, s | v in Oldest(q, n) && s in ids - Oldest(q, n) :: key[v] <= key[s]
  {
    OldestCount(q, key, n);
    OldestCount(q, key, |q|);
    assert Oldest(q, |q|) == ids by {
      forall id | id in ids ensures id in Oldest(q, |q|) {
        assert id in q;
      }
    }
    forall v, s | v in Oldest(q, n) && s in ids - Oldest(q, n) ensures key[v] <= key[s] {
      var i :| 0 <= i < n && q[i] == v;
      assert s in q;
      var j :| 0 <= j < |q| && q[j] == s;
      assert j >= n;
    }
  }
}
