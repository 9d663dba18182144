/**
  The bounded ordered dictionary behind the proxy memory (src/sessions.py), the
  routing memory (src/flaresolverr_service.py) and the geo cache (src/geo.py).

  An OrderedDict is a sequence of entries with distinct keys, oldest first.
 */
module RecencyMap {
  import opened Basics

  datatype Entry<K, V> = Entry(key: K, value: V)

  ghost predicate Distinct<K, V>(m: seq<Entry<K, V>>) {
    forall i, j | 0 <= i < j < |m| :: m[i].key != m[j].key
  }

  function Keys<K, V>(m: seq<Entry<K, V>>): set<K> {
    set i | 0 <= i < |m| :: m[i].key
  }

  function Find<K(==), V>(m: seq<Entry<K, V>>, k: K): Option<V> {
    if m == [] then None
    else if m[0].key == k then Some(m[0].value)
    else Find(m[1..], k)
  }

  /** `pop(k, None)`. */
  function Without<K(==), V>(m: seq<Entry<K, V>>, k: K): seq<Entry<K, V>> {
    if m == [] then []
    else if m[0].key == k then m[1..]
    else [m[0]] + Without(m[1..], k)
  }

  /** What repeated `popitem(last=False)` leaves: the `cap` newest entries. */
  function Trimmed<K, V>(m: seq<Entry<K, V>>, cap: nat): seq<Entry<K, V>> {
    if |m| <= cap then m else m[|m| - cap..]
  }

  function Put<K(==), V>(m: seq<Entry<K, V>>, k: K, v: V, cap: nat): seq<Entry<K, V>> {
    Trimmed(Without(m, k) + [Entry(k, v)], cap)
  }

  /** `move_to_end(k)` when present. */
  function Touched<K(==), V>(m: seq<Entry<K, V>>, k: K): seq<Entry<K, V>> {
    match Find(m, k)
    case None => m
    case Some(v) => Without(m, k) + [Entry(k, v)]
  }

  /** The keys newer than `k`: what stands between `k` and being forgotten. */
  function Newer<K(==), V>(m: seq<Entry<K, V>>, k: K): set<K> {
    if m == [] then {}
    else if m[0].key == k then Keys(m[1..])
    else Newer(m[1..], k)
  }

  class Memory<K(==), V> {
    var entries: seq<Entry<K, V>>
    const cap: nat

    ghost predicate Valid()
      reads this
    {
      Distinct(entries) && |entries| <= cap
    }

    constructor (cap: nat)
      ensures Valid() && entries == [] && this.cap == cap
    {
      this.cap := cap;
      entries := [];
    }

    /** _remember_proxy and _remember_engine: pop, insert, evict the oldest while over the cap. */
    method Remember(k: K, v: V)
      requires Valid()
      modifies this
      ensures Valid()
      ensures entries == Put(old(entries), k, v, cap)
    {
      WithoutKeys(entries, k);
      entries := Without(entries, k);
      entries := entries + [Entry(k, v)];
      ghost var full := entries;
      while |entries| > cap
        invariant |entries| <= |full| && (|entries| >= cap || entries == full)
        invariant entries == full[|full| - |entries|..]
        decreases |entries|
      {
        DropOne(full, |full| - |entries|);
        entries := entries[1..];
      }
    }

    /** _recall_proxy: reading counts as use. */
    method Recall(k: K) returns (v: Option<V>)
      requires Valid()
      modifies this
      ensures Valid()
      ensures v == Find(old(entries), k)
      ensures entries == Touched(old(entries), k)
    {
      v := Find(entries, k);
      WithoutKeys(entries, k);
      FindSome(entries, k);
      if v.Some? {
        entries := Without(entries, k) + [Entry(k, v.value)];
      }
    }

    /** _recalled_engine and the geo cache: reading changes nothing. */
    method Peek(k: K) returns (v: Option<V>)
      ensures v == Find(entries, k)
    {
      v := Find(entries, k);
    }

    /** _forget_proxy. */
    method Forget(k: K)
      requires Valid()
      modifies this
      ensures Valid()
      ensures entries == Without(old(entries), k)
    {
      WithoutKeys(entries, k);
      entries := Without(entries, k);
    }
  }

  lemma DropOne<T>(s: seq<T>, n: nat)
    requires n < |s|
    ensures s[n..][1..] == s[n + 1..]
  {
  }

  // ---- what the operations do to lookups ----

  lemma {:induction false} WithoutKeys<K, V>(m: seq<Entry<K, V>>, k: K)
    requires Distinct(m)
    ensures Distinct(Without(m, k))
    ensures Keys(Without(m, k)) == Keys(m) - {k}
    ensures |Without(m, k)| == if k in Keys(m) then |m| - 1 else |m|
  {
    if m == [] {
    } else {
      KeysCons(m);
      if m[0].key != k {
        WithoutKeys(m[1..], k);
        var w := Without(m[1..], k);
        KeysCons([m[0]] + w);
        assert ([m[0]] + w)[1..] == w;
        forall j | 0 <= j < |w| ensures w[j].key != m[0].key {
          assert w[j].key in Keys(w);
        }
      } else {
        forall j | 0 <= j < |m[1..]| ensures m[1..][j].key != k {
          assert m[1..][j] == m[j + 1];
        }
      }
    }
  }

  lemma KeysCons<K, V>(m: seq<Entry<K, V>>)
    requires m != []
    ensures Keys(m) == {m[0].key} + Keys(m[1..])
  {
    forall x | x in Keys(m) ensures x in {m[0].key} + Keys(m[1..]) {
      var i :| 0 <= i < |m| && m[i].key == x;
      if i > 0 { assert m[1..][i - 1].key == x; }
    }
    forall x | x in Keys(m[1..]) ensures x in Keys(m) {
      var i :| 0 <= i < |m[1..]| && m[1..][i].key == x;
      assert m[i + 1].key == x;
    }
  }

  lemma {:induction false} FindSome<K, V>(m: seq<Entry<K, V>>, k: K)
    ensures Find(m, k).Some? <==> k in Keys(m)
  {
    if m != [] {
      KeysCons(m);
      if m[0].key != k { FindSome(m[1..], k); }
    }
  }

  lemma {:induction false} WithoutOther<K, V>(m: seq<Entry<K, V>>, k: K, other: K)
    requires Distinct(m) && other != k
    ensures Find(Without(m, k), other) == Find(m, other)
    ensures Newer(Without(m, k), other) == Newer(m, other) - {k}
  {
    if m != [] {
      var w := Without(m[1..], k);
      if m[0].key == k {
        NewerWithin(m[1..], other);
        assert k !in Keys(m[1..]) by {
          forall j | 0 <= j < |m[1..]| ensures m[1..][j].key != k { assert m[1..][j] == m[j + 1]; }
        }
      } else {
        WithoutOther(m[1..], k, other);
        WithoutKeys(m[1..], k);
        assert ([m[0]] + w)[1..] == w;
      }
    }
  }

  lemma {:induction false} NewerWithin<K, V>(m: seq<Entry<K, V>>, k: K)
    requires Distinct(m)
    ensures Newer(m, k) <= Keys(m) - {k}
  {
    if m != [] {
      KeysCons(m);
      if m[0].key == k {
        forall x | x in Keys(m[1..]) ensures x != k {
          var i :| 0 <= i < |m[1..]| && m[1..][i].key == x;
          assert m[1..][i] == m[i + 1];
        }
      } else {
        NewerWithin(m[1..], k);
      }
    }
  }

  lemma {:induction false} AppendFinds<K, V>(w: seq<Entry<K, V>>, e: Entry<K, V>, k: K)
    requires e.key !in Keys(w)
    ensures Find(w + [e], k) == if k == e.key then Some(e.value) else Find(w, k)
    ensures k == e.key ==> Newer(w + [e], k) == {}
    ensures k != e.key && k in Keys(w) ==> Newer(w + [e], k) == Newer(w, k) + {e.key}
  {
    if w == [] {
      assert w + [e] == [e];
    } else {
      assert (w + [e])[1..] == w[1..] + [e];
      KeysCons(w);
      if w[0].key == k {
        assert Keys(w[1..] + [e]) == Keys(w[1..]) + {e.key} by { KeysAppend(w[1..], e); }
      } else {
        AppendFinds(w[1..], e, k);
      }
    }
  }

  lemma KeysAppend<K, V>(w: seq<Entry<K, V>>, e: Entry<K, V>)
    ensures Keys(w + [e]) == Keys(w) + {e.key}
  {
    var u := w + [e];
    forall x | x in Keys(w) + {e.key} ensures x in Keys(u) {
      if x in Keys(w) {
        var i :| 0 <= i < |w| && w[i].key == x;
        assert u[i].key == x;
      } else {
        assert u[|w|].key == x;
      }
    }
  }

  lemma {:induction false} NewerCount<K, V>(m: seq<Entry<K, V>>, i: nat)
    requires Distinct(m) && i < |m|
    ensures |Newer(m, m[i].key)| == |m| - 1 - i
  {
    if i == 0 {
      KeyCount(m[1..]);
    } else {
      assert m[1..][i - 1] == m[i];
      NewerCount(m[1..], i - 1);
    }
  }

  lemma {:induction false} KeyCount<K, V>(m: seq<Entry<K, V>>)
    requires Distinct(m)
    ensures |Keys(m)| == |m|
  {
    if m != [] {
      KeysCons(m);
      KeyCount(m[1..]);
      assert m[0].key !in Keys(m[1..]) by {
        forall j | 0 <= j < |m[1..]| ensures m[1..][j].key != m[0].key { assert m[1..][j] == m[j + 1]; }
      }
    }
  }

  /** Dropping the oldest `n` entries forgets exactly those keys. */
  lemma {:induction false} DropFinds<K, V>(m: seq<Entry<K, V>>, n: nat, k: K)
    requires Distinct(m) && n <= |m| && k in Keys(m)
    ensures Find(m[n..], k) == if |Newer(m, k)| < |m| - n then Find(m, k) else None
    ensures |Newer(m, k)| < |m| - n ==> Newer(m[n..], k) == Newer(m, k)
  {
    var i :| 0 <= i < |m| && m[i].key == k;
    NewerCount(m, i);
    if n == 0 {
      assert m[0..] == m;
    } else {
      assert m[n..] == m[1..][n - 1..];
      if i == 0 {
        FindSome(m[n..], k);
        assert k !in Keys(m[n..]);
      } else {
        assert m[1..][i - 1].key == k;
        NewerCount(m[1..], i - 1);
        DropFinds(m[1..], n - 1, k);
      }
    }
  }

  /** The list an insertion builds before it evicts anything. */
  lemma Inserted<K, V>(m: seq<Entry<K, V>>, k: K, v: V)
    requires Distinct(m)
    ensures var u := Without(m, k) + [Entry(k, v)];
            Distinct(u) && Keys(u) == Keys(m) + {k} && Find(u, k) == Some(v) && Newer(u, k) == {}
  {
    WithoutKeys(m, k);
    var w := Without(m, k);
    KeysAppend(w, Entry(k, v));
    forall i | 0 <= i < |w| ensures w[i].key != k { assert w[i].key in Keys(w); }
    AppendFinds(w, Entry(k, v), k);
  }

  lemma PutSelf<K, V>(m: seq<Entry<K, V>>, k: K, v: V, cap: nat)
    requires Distinct(m) && cap > 0
    ensures Distinct(Put(m, k, v, cap)) && |Put(m, k, v, cap)| <= cap
    ensures Find(Put(m, k, v, cap), k) == Some(v) && Newer(Put(m, k, v, cap), k) == {}
  {
    Inserted(m, k, v);
    var u := Without(m, k) + [Entry(k, v)];
    assert Put(m, k, v, cap) == Trimmed(u, cap);
    if |u| > cap {
      DropFinds(u, |u| - cap, k);
    }
  }

  /** One insertion seen from another key: it is kept and aged, or it is the one forgotten. */
  lemma PutOther<K, V>(m: seq<Entry<K, V>>, k: K, v: V, cap: nat, other: K)
    requires Distinct(m) && cap > 0 && other != k && other in Keys(m)
    ensures Find(Put(m, k, v, cap), other) == if |Newer(m, other) + {k}| < cap then Find(m, other) else None
    ensures |Newer(m, other) + {k}| < cap ==> Newer(Put(m, k, v, cap), other) == Newer(m, other) + {k}
  {
    var w := Without(m, k);
    var u := w + [Entry(k, v)];
    Inserted(m, k, v);
    WithoutKeys(m, k);
    WithoutOther(m, k, other);
    AppendFinds(w, Entry(k, v), other);
    var aged := Newer(m, other) + {k};
    assert Newer(u, other) == aged;
    assert Put(m, k, v, cap) == Trimmed(u, cap);
    TrimFinds(u, cap, other);
  }

  lemma TrimFinds<K, V>(u: seq<Entry<K, V>>, cap: nat, k: K)
    requires Distinct(u) && k in Keys(u)
    ensures Find(Trimmed(u, cap), k) == if |Newer(u, k)| < cap then Find(u, k) else None
    ensures |Newer(u, k)| < cap ==> Newer(Trimmed(u, cap), k) == Newer(u, k)
  {
    if |u| > cap {
      DropFinds(u, |u| - cap, k);
    } else {
      var i :| 0 <= i < |u| && u[i].key == k;
      NewerCount(u, i);
    }
  }

  lemma PutAbsent<K, V>(m: seq<Entry<K, V>>, k: K, v: V, cap: nat, other: K)
    requires Distinct(m) && other != k && other !in Keys(m)
    ensures other !in Keys(Put(m, k, v, cap))
  {
    Inserted(m, k, v);
    var u := Without(m, k) + [Entry(k, v)];
    if |u| > cap {
      DropKeys(u, |u| - cap);
    }
  }

  lemma DropKeys<K, V>(m: seq<Entry<K, V>>, n: nat)
    requires n <= |m|
    ensures Keys(m[n..]) <= Keys(m)
  {
    var d := m[n..];
    forall x | x in Keys(d) ensures x in Keys(m) {
      var i :| 0 <= i < |d| && d[i].key == x;
      assert m[n + i].key == x;
    }
  }

  lemma TouchSelf<K, V>(m: seq<Entry<K, V>>, k: K)
    requires Distinct(m)
    ensures Distinct(Touched(m, k)) && |Touched(m, k)| == |m| && Keys(Touched(m, k)) == Keys(m)
    ensures Find(Touched(m, k), k) == Find(m, k)
    ensures k in Keys(m) ==> Newer(Touched(m, k), k) == {}
  {
    FindSome(m, k);
    if k in Keys(m) {
      Inserted(m, k, Find(m, k).value);
      WithoutKeys(m, k);
    }
  }

  lemma TouchOther<K, V>(m: seq<Entry<K, V>>, k: K, other: K)
    requires Distinct(m) && other != k && other in Keys(m)
    ensures Find(Touched(m, k), other) == Find(m, other)
    ensures Newer(Touched(m, k), other) <= Newer(m, other) + {k}
  {
    FindSome(m, k);
    if k in Keys(m) {
      WithoutKeys(m, k);
      WithoutOther(m, k, other);
      AppendFinds(Without(m, k), Entry(k, Find(m, k).value), other);
    }
  }

  // ---- the memory as a function of its history ----

  function Replay<K(==), V>(history: seq<Entry<K, V>>, cap: nat): seq<Entry<K, V>> {
    if history == [] then []
    else
      var last := history[|history| - 1];
      Put(Replay(history[..|history| - 1], cap), last.key, last.value, cap)
  }

  /** What the newest event about `k` stored. */
  function LastValue<K(==), V>(history: seq<Entry<K, V>>, k: K): Option<V> {
    if history == [] then None
    else
      var last := history[|history| - 1];
      if last.key == k then Some(last.value) else LastValue(history[..|history| - 1], k)
  }

  /** The other keys stored after the newest event about `k`. */
  function StoredSince<K(==), V>(history: seq<Entry<K, V>>, k: K): set<K> {
    if history == [] then {}
    else
      var last := history[|history| - 1];
      if last.key == k then {} else StoredSince(history[..|history| - 1], k) + {last.key}
  }

  /** A key is recalled, with its newest value, exactly while fewer than `cap` other keys came after it. */
  lemma {:induction false} RecallIsHistory<K, V>(history: seq<Entry<K, V>>, cap: nat, k: K)
    requires cap > 0
    ensures Distinct(Replay(history, cap)) && |Replay(history, cap)| <= cap
    ensures Find(Replay(history, cap), k)
         == (if |StoredSince(history, k)| < cap then LastValue(history, k) else None)
    ensures k in Keys(Replay(history, cap)) ==> Newer(Replay(history, cap), k) == StoredSince(history, k)
  {
    if history != [] {
      var before := history[..|history| - 1];
      var last := history[|history| - 1];
      var m := Replay(before, cap);
      RecallIsHistory(before, cap, k);
      PutSelf(m, last.key, last.value, cap);
      if last.key != k {
        if k in Keys(m) {
          PutOther(m, last.key, last.value, cap, k);
        } else {
          PutAbsent(m, last.key, last.value, cap, k);
        }
      }
      FindSome(m, k);
      FindSome(Replay(history, cap), k);
      if last.key != k && k !in Keys(m) {
        if LastValue(before, k).Some? {
          assert StoredSince(before, k) <= StoredSince(history, k);
          SubsetCount(StoredSince(before, k), StoredSince(history, k));
        }
      }
    }
  }

  lemma {:induction false} SubsetCount<T>(a: set<T>, b: set<T>)
    requires a <= b
    ensures |a| <= |b|
  {
    if a != {} {
      var x :| x in a;
      SubsetCount(a - {x}, b - {x});
    }
  }
}
