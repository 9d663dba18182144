/** The byte-capped cache of solved bodies (src/passthrough.py). */
module PassthroughCache {
  import opened Basics
  import opened Sorting
  import opened Text

  type Path = string
  type Byte = b: int | 0 <= b < 256
  type Body = seq<Byte>

  datatype Cached = Cached(expires: real, status: int, body: Body, contentType: string)

  /** The body bytes held: what the running total has to equal. */
  ghost function Total(m: map<Path, Cached>): nat {
    if m == map[] then 0
    else
      var k :| k in m;
      |m[k].body| + Total(m - {k})
  }

  lemma {:induction false} TotalWithout(m: map<Path, Cached>, k: Path)
    requires k in m
    ensures Total(m) == |m[k].body| + Total(m - {k})
    decreases m
  {
    var first :| first in m && Total(m) == |m[first].body| + Total(m - {first});
    if first != k {
      TotalWithout(m - {first}, k);
      TotalWithout(m - {k}, first);
      assert m - {first} - {k} == m - {k} - {first};
    }
  }

  lemma TotalWith(m: map<Path, Cached>, k: Path, e: Cached)
    requires k !in m
    ensures Total(m[k := e]) == |e.body| + Total(m)
  {
    TotalWithout(m[k := e], k);
    assert m[k := e] - {k} == m;
  }

  /** What survives until room is needed: unexpired entries of other paths. */
  function Live(m: map<Path, Cached>, now: real, path: Path): map<Path, Cached> {
    map k | k in m && m[k].expires > now && k != path :: m[k]
  }

  /** The keys of `m`, each once, soonest expiring first. */
  ghost predicate EvictionOrder(m: map<Path, Cached>, q: seq<Path>) {
    && (forall k :: k in q <==> k in m)
    && (forall i, j | 0 <= i < j < |q| :: q[i] != q[j] && m[q[i]].expires <= m[q[j]].expires)
  }

  function Prefix(q: seq<Path>, n: nat): set<Path>
    requires n <= |q|
  {
    set i | 0 <= i < n :: q[i]
  }

  ghost predicate Fits(m: map<Path, Cached>, size: nat, max: int) {
    max <= 0 || Total(m) + size <= max
  }

  /** The per-body ceiling: a quarter of the cap. */
  predicate Refused(size: nat, max: int) {
    0 < max < 4 * size
  }

  /** `n` is the length of the shortest prefix of `q` whose eviction makes room for `size` more bytes. */
  ghost predicate ShortestPrefix(m: map<Path, Cached>, q: seq<Path>, n: nat, size: nat, max: int) {
    && EvictionOrder(m, q) && n <= |q|
    && Fits(m - Prefix(q, n), size, max)
    && NoneFits(m, q, n, size, max)
  }

  /** No prefix shorter than `n` would do. */
  ghost predicate NoneFits(m: map<Path, Cached>, q: seq<Path>, n: nat, size: nat, max: int)
    requires n <= |q|
  {
    forall k: nat | k < n :: !Fits(m - Prefix(q, k), size, max)
  }

  /** One store, as a relation: a refusal changes nothing, a store evicts only what it must. */
  ghost predicate Stored(max: int, before: map<Path, Cached>, now: real, path: Path, e: Cached,
                         after: map<Path, Cached>, q: seq<Path>, n: nat)
  {
    if Refused(|e.body|, max) then after == before
    else
      var live := Live(before, now, path);
      ShortestPrefix(live, q, n, |e.body|, max) && after == (live - Prefix(q, n))[path := e]
  }

  ghost predicate WithinCap(m: map<Path, Cached>, max: int) {
    max > 0 ==> Total(m) <= max && forall k | k in m :: 4 * |m[k].body| <= max
  }

  lemma StoreKeepsCap(max: int, before: map<Path, Cached>, now: real, path: Path, e: Cached,
                      after: map<Path, Cached>, q: seq<Path>, n: nat)
    requires WithinCap(before, max) && Stored(max, before, now, path, e, after, q, n)
    ensures WithinCap(after, max)
  {
    if !Refused(|e.body|, max) {
      TotalWith(Live(before, now, path) - Prefix(q, n), path, e);
    }
  }

  /**
    A store entry by entry: when it is refused, what stays, what goes for room, and that
    without the last to go there was none.
   */
  lemma StoredMeans(max: int, before: map<Path, Cached>, now: real, path: Path, e: Cached,
                    after: map<Path, Cached>, q: seq<Path>, n: nat)
    requires Stored(max, before, now, path, e, after, q, n)
    ensures 0 < max < 4 * |e.body| ==> after == before
    ensures !(0 < max < 4 * |e.body|) ==>
              var gone := set k | k in before && k != path && before[k].expires > now && k !in after;
              && path in after && after[path] == e
              && (forall k | k in after && k != path :: k in before && after[k] == before[k] && before[k].expires > now)
              && (gone != {} ==> max > 0)
              && (forall k, j | k in gone && j in after && j != path :: before[k].expires <= after[j].expires)
              && (gone != {} ==> exists last :: last in gone && Total(after) + |before[last].body| > max)
  {
    if !Refused(|e.body|, max) {
      var live := Live(before, now, path);
      var kept := live - Prefix(q, n);
      TotalWith(kept, path, e);
      var gone := set k | k in before && k != path && before[k].expires > now && k !in after;
      assert forall k :: k in gone <==> k in live && k in Prefix(q, n);
      forall k, j | k in gone && j in after && j != path ensures before[k].expires <= after[j].expires {
        GoneFirst(live, q, n, k, j);
      }
      if n > 0 { LastToGo(live, q, n, |e.body|, max); }
    }
  }

  lemma GoneFirst(live: map<Path, Cached>, q: seq<Path>, n: nat, k: Path, j: Path)
    requires EvictionOrder(live, q) && n <= |q| && k in Prefix(q, n) && j in live && j !in Prefix(q, n)
    ensures k in live && live[k].expires <= live[j].expires
  {
    assert j in q;
    var x :| 0 <= x < n && q[x] == k;
    var y :| 0 <= y < |q| && q[y] == j;
    assert q[x] in q;
  }

  /** Before the last eviction there was no room. */
  lemma LastToGo(live: map<Path, Cached>, q: seq<Path>, n: nat, size: nat, max: int)
    requires ShortestPrefix(live, q, n, size, max) && n > 0
    ensures max > 0 && q[n - 1] in live && q[n - 1] in Prefix(q, n)
    ensures Total(live - Prefix(q, n)) + |live[q[n - 1]].body| + size > max
  {
    var last := q[n - 1];
    assert q[n - 1] in q && last !in Prefix(q, n - 1);
    assert !Fits(live - Prefix(q, n - 1), size, max);
    TotalWithout(live - Prefix(q, n - 1), last);
    PrefixGrows(live, q, n - 1);
  }

  /** One call of the store, with the order and count its evictions followed. */
  datatype Call = Call(now: real, path: Path, entry: Cached, order: seq<Path>, evicted: nat)

  ghost predicate IsStoreRun(max: int, states: seq<map<Path, Cached>>, calls: seq<Call>) {
    && |states| == |calls| + 1 && states[0] == map[]
    && forall i | 0 <= i < |calls| ::
         var c := calls[i];
         Stored(max, states[i], c.now, c.path, c.entry, states[i + 1], c.order, c.evicted)
  }

  /** After any sequence of stores under one cap, on any clock readings. */
  lemma {:induction false} StoresStayWithinCap(max: int, states: seq<map<Path, Cached>>, calls: seq<Call>, i: nat)
    requires IsStoreRun(max, states, calls) && i <= |calls|
    ensures WithinCap(states[i], max)
  {
    if i > 0 {
      StoresStayWithinCap(max, states, calls, i - 1);
      var c := calls[i - 1];
      StoreKeepsCap(max, states[i - 1], c.now, c.path, c.entry, states[i], c.order, c.evicted);
    }
  }

  class Cache {
    var entries: map<Path, Cached>
    var bytes: int
    const max: int
    const ttl: int

    ghost predicate Valid()
      reads this
    {
      bytes == Total(entries) && WithinCap(entries, max)
    }

    constructor (max: int, ttl: int)
      ensures Valid() && entries == map[] && this.max == max && this.ttl == ttl
    {
      this.max, this.ttl := max, ttl;
      entries, bytes := map[], 0;
    }

    /** _drop: one entry and its bytes leave together. */
    method Drop(k: Path)
      requires bytes == Total(entries)
      modifies this
      ensures entries == old(entries) - {k} && bytes == Total(entries)
    {
      if k in entries {
        TotalWithout(entries, k);
        bytes := bytes - |entries[k].body|;
      }
      assert k !in entries ==> entries - {k} == entries;
      entries := entries - {k};
    }

    method DropAll(ks: set<Path>)
      requires bytes == Total(entries)
      modifies this
      ensures entries == old(entries) - ks && bytes == Total(entries)
    {
      var left := ks;
      while left != {}
        invariant left <= ks && entries == old(entries) - (ks - left) && bytes == Total(entries)
      {
        var k :| k in left;
        Drop(k);
        left := left - {k};
        assert ks - left == ks - (left + {k}) + {k};
      }
    }

    /** sorted(_cache, key=expiry). */
    method SoonestFirst() returns (q: seq<Path>)
      ensures EvictionOrder(entries, q)
    {
      q := Sorted(entries.Keys, map k | k in entries :: entries[k].expires);
    }

    /** _cache_store. */
    method Store(path: Path, status: int, body: Body, contentType: string, ttl: Option<int>, now: real)
      returns (stored: bool, ghost q: seq<Path>, ghost n: nat)
      requires Valid()
      modifies this
      ensures Valid() && (stored <==> !(0 < max < 4 * |body|))
      ensures var e := Cached(now + (if ttl.Some? then ttl.value else this.ttl) as real, status, body, contentType);
              Stored(max, old(entries), now, path, e, entries, q, n)
    {
      var size := |body|;
      q, n := [], 0;
      if 0 < max < 4 * size { return false, q, n; }
      ghost var before := entries;
      var stale := set k | k in entries && entries[k].expires <= now;
      DropAll(stale);
      Drop(path);
      ghost var live := entries;
      assert live == Live(before, now, path);
      q, n := MakeRoom(size);
      var e := Cached(now + (if ttl.Some? then ttl.value else this.ttl) as real, status, body, contentType);
      TotalWith(entries, path, e);
      entries := entries[path := e];
      bytes := bytes + size;
      StoreKeepsCap(max, before, now, path, e, entries, q, n);
      stored := true;
    }

    /** The eviction loop. */
    method MakeRoom(size: nat) returns (ghost order: seq<Path>, ghost n: nat)
      requires bytes == Total(entries) && !Refused(size, max)
      modifies this
      ensures bytes == Total(entries)
      ensures ShortestPrefix(old(entries), order, n, size, max) && entries == old(entries) - Prefix(order, n)
    {
      ghost var was := entries;
      var q := SoonestFirst();
      order, n := q, 0;
      assert was - Prefix(q, 0) == was;
      if max > 0 {
        for i := 0 to |q|
          invariant n == i && order == q
          invariant entries == was - Prefix(q, i) && bytes == Total(entries)
          invariant NoneFits(was, q, i, size, max)
        {
          if bytes + size <= max { return; }
          Drop(q[i]);
          n := i + 1;
          PrefixGrows(was, q, i);
        }
        NothingLeft(was, q);
      }
    }
  }

  lemma NothingLeft(m: map<Path, Cached>, q: seq<Path>)
    requires EvictionOrder(m, q)
    ensures m - Prefix(q, |q|) == map[]
    ensures Total(m - Prefix(q, |q|)) == 0
  {
    assert Total(map[]) == 0;
    forall k | k in m ensures k in Prefix(q, |q|) { assert k in q; }
  }

  lemma PrefixGrows(m: map<Path, Cached>, q: seq<Path>, n: nat)
    requires n < |q|
    ensures m - Prefix(q, n) - {q[n]} == m - Prefix(q, n + 1)
  {
    assert Prefix(q, n + 1) == Prefix(q, n) + {q[n]};
  }

  // ---- how long a body is kept ----

  const SUSPECT_TTL := 60

  /** The body looks like a real page: no marker is asked for, it is not HTML, or it carries the marker. */
  predicate EarnsFullTtl(marker: Body, lower: string -> string, body: Body, contentType: Option<string>) {
    || marker == []
    || !Contains(lower(if contentType.Some? then contentType.value else ""), "html")
    || Contains(body, marker)
  }

  /** _cache_ttl_for: `marker` is the configured string's bytes, and `lower` is str.lower. */
  function TtlFor(ttl: int, marker: Body, lower: string -> string, body: Body, contentType: Option<string>): (r: int)
    ensures r == (if marker != [] && Contains(lower(if contentType.Some? then contentType.value else ""), "html")
                     && !Contains(body, marker) && 60 < ttl then 60 else ttl)
  {
    if EarnsFullTtl(marker, lower, body, contentType) then ttl else MinInt(SUSPECT_TTL, ttl)
  }
}
