/**
  How two pools can come to hold one id on two proxies: the only step that does it, and
  a run from an empty service that takes it.
 */
module EgressRoutes {
  import opened Basics
  import opened RecencyMap
  import opened SessionSections
  import opened Egress

  const EMPTY := World(map[], map[], [])

  /** sessions.create is refused while either pool holds the id; a get is never refused. */
  predicate Commanded(w: World, op: Op) {
    op.Creating? ==> op.id !in w.chrome && op.id !in w.stealth
  }

  function AfterAll(ops: seq<Op>): World {
    if ops == [] then EMPTY else After(AfterAll(ops[..|ops| - 1]), ops[|ops| - 1])
  }

  /** Every world that commands reach from the empty one. */
  ghost predicate AllCommanded(ops: seq<Op>) {
    ops != [] ==> AllCommanded(ops[..|ops| - 1]) && Commanded(AfterAll(ops[..|ops| - 1]), ops[|ops| - 1])
  }

  /** Whoever knows a proxy for the id knows the same one. */
  ghost predicate Agreed(w: World, id: Sid) {
    && (id in w.chrome && id in w.stealth ==> w.chrome[id] == w.stealth[id])
    && (id in w.chrome && Find(w.memory, id) != None ==> w.chrome[id] == Find(w.memory, id).value)
    && (id in w.stealth && Find(w.memory, id) != None ==> w.stealth[id] == Find(w.memory, id).value)
  }

  /** A get that opens an id the memory has forgotten, while the other pool holds it on another proxy. */
  predicate Splits(w: World, op: Op, id: Sid) {
    && op.Getting? && op.id == id && Opens(w, op)
    && Find(w.memory, id) == None
    && id in w.Pool(Other(op.e)) && w.Pool(Other(op.e))[id] != op.proxy
  }

  lemma PutSeen(m: seq<Entry<Sid, Proxy>>, k: Sid, v: Proxy, id: Sid)
    requires Distinct(m)
    ensures Distinct(Put(m, k, v, PROXY_MEMORY)) && |Put(m, k, v, PROXY_MEMORY)| <= PROXY_MEMORY
    ensures var after := Find(Put(m, k, v, PROXY_MEMORY), id);
            if id == k then after == Some(v) else after == None || after == Find(m, id)
  {
    PutSelf(m, k, v, PROXY_MEMORY);
    if id != k {
      FindSome(m, id);
      FindSome(Put(m, k, v, PROXY_MEMORY), id);
      if id in Keys(m) { PutOther(m, k, v, PROXY_MEMORY, id); } else { PutAbsent(m, k, v, PROXY_MEMORY, id); }
    }
  }

  lemma TouchSeen(m: seq<Entry<Sid, Proxy>>, k: Sid, id: Sid)
    requires Distinct(m)
    ensures Distinct(Touched(m, k)) && |Touched(m, k)| == |m| && Find(Touched(m, k), id) == Find(m, id)
  {
    TouchSelf(m, k);
    if id != k {
      FindSome(m, id);
      FindSome(Touched(m, k), id);
      if id in Keys(m) { TouchOther(m, k, id); }
    }
  }

  lemma DropSeen(m: seq<Entry<Sid, Proxy>>, k: Sid, id: Sid)
    requires Distinct(m)
    ensures Distinct(Without(m, k)) && |Without(m, k)| <= |m|
    ensures Find(Without(m, k), id) == None || Find(Without(m, k), id) == Find(m, id)
  {
    WithoutKeys(m, k);
    FindSome(Without(m, k), id);
    if id != k && id in Keys(m) { WithoutOther(m, k, id); }
  }

  lemma CreatingAgrees(w: World, op: Op, id: Sid)
    requires w.Valid() && Agreed(w, id) && Commanded(w, op) && op.Creating?
    ensures After(w, op).Valid() && Agreed(After(w, op), id)
  {
    PutSeen(w.memory, op.id, op.proxy, id);
  }

  lemma GettingAgreesIff(w: World, op: Op, id: Sid)
    requires w.Valid() && Agreed(w, id) && op.Getting?
    ensures After(w, op).Valid() && (Agreed(After(w, op), id) <==> !Splits(w, op, id))
  {
    var own := if op.id in w.Pool(op.e) then w.Pool(op.e)[op.id] else ProxyFor(w, op);
    TouchSeen(w.memory, op.id, id);
    TouchSeen(w.memory, op.id, op.id);
    PutSeen(Touched(w.memory, op.id), op.id, own, id);
  }

  /** That get is the only step that sets two proxies against each other. */
  lemma StaysAgreedIff(w: World, op: Op, id: Sid)
    requires w.Valid() && Agreed(w, id) && Commanded(w, op)
    ensures After(w, op).Valid() && (Agreed(After(w, op), id) <==> !Splits(w, op, id))
  {
    match op
    case Creating(_, _, _, _) => CreatingAgrees(w, op, id);
    case Getting(_, _, _, _, _, _) => GettingAgreesIff(w, op, id);
    case Dropping(_, _) =>
    case Destroying(_, gone) => DropSeen(w.memory, gone, id);
  }

  /** No step so far was such a get of the id. */
  ghost predicate NeverSplit(ops: seq<Op>, id: Sid) {
    ops != [] ==> NeverSplit(ops[..|ops| - 1], id) && !Splits(AfterAll(ops[..|ops| - 1]), ops[|ops| - 1], id)
  }

  lemma {:induction false} CommandsAgree(ops: seq<Op>, id: Sid)
    requires AllCommanded(ops) && NeverSplit(ops, id)
    ensures AfterAll(ops).Valid() && Agreed(AfterAll(ops), id)
  {
    if ops != [] {
      CommandsAgree(ops[..|ops| - 1], id);
      StaysAgreedIff(AfterAll(ops[..|ops| - 1]), ops[|ops| - 1], id);
    }
  }

  /** In every commanded run, an opening is stable exactly when it is not the first get to split its id. */
  lemma CommandedEgressIsStableIff(ops: seq<Op>, op: Op)
    requires AllCommanded(ops + [op]) && Opens(AfterAll(ops), op) && NeverSplit(ops, op.id)
    ensures StableAfter(AfterAll(ops), op) <==> !Splits(AfterAll(ops), op, op.id)
  {
    assert (ops + [op])[..|ops|] == ops;
    CommandsAgree(ops, op.id);
    EgressIsStableIff(AfterAll(ops), op);
  }

  // ---- a run that gets there ----

  const NAME: Sid := "a"
  const HOME: Proxy := Some("socks5://home")

  function Name(i: nat): Sid { seq(i, _ => 'b') }

  /** sessions.create for one id through a proxy, then for `n` others. */
  function Crowded(n: nat): seq<Op> {
    if n == 0 then [Creating(Chrome, NAME, HOME, true)]
    else Crowded(n - 1) + [Creating(Chrome, Name(n), None, true)]
  }

  function Stored(n: nat): seq<Entry<Sid, Proxy>> {
    if n == 0 then [Entry(NAME, HOME)] else Stored(n - 1) + [Entry(Name(n), None)]
  }

  function Names(n: nat): set<Sid> {
    if n == 0 then {} else Names(n - 1) + {Name(n)}
  }

  lemma NamesDiffer(i: nat, j: nat)
    requires i > 0
    ensures Name(i) != NAME && (i != j ==> Name(i) != Name(j))
  {
    assert Name(i)[0] == 'b' && NAME[0] == 'a';
    assert |Name(i)| == i && |Name(j)| == j;
  }

  lemma {:induction false} NotAmong(n: nat, m: nat)
    requires n < m
    ensures Name(m) !in Names(n) && NAME !in Names(n)
  {
    if n > 0 {
      NotAmong(n - 1, m);
      NamesDiffer(n, m);
    }
  }

  lemma {:induction false} NamesCount(n: nat)
    ensures |Names(n)| == n
  {
    if n > 0 {
      NamesCount(n - 1);
      NotAmong(n - 1, n);
    }
  }

  lemma {:induction false} StoredHistory(n: nat)
    ensures LastValue(Stored(n), NAME) == Some(HOME) && StoredSince(Stored(n), NAME) == Names(n)
  {
    if n > 0 {
      StoredHistory(n - 1);
      NamesDiffer(n, 0);
      assert Stored(n)[..|Stored(n)| - 1] == Stored(n - 1);
    } else {
      assert Stored(0)[..0] == [];
    }
  }

  lemma AfterLast(ops: seq<Op>, op: Op)
    ensures AfterAll(ops + [op]) == After(AfterAll(ops), op)
    ensures AllCommanded(ops) && Commanded(AfterAll(ops), op) ==> AllCommanded(ops + [op])
  {
    assert (ops + [op])[..|ops|] == ops;
  }

  lemma ReplayLast(history: seq<Entry<Sid, Proxy>>, e: Entry<Sid, Proxy>)
    ensures Replay(history + [e], PROXY_MEMORY) == Put(Replay(history, PROXY_MEMORY), e.key, e.value, PROXY_MEMORY)
  {
    assert (history + [e])[..|history|] == history;
  }

  /** What the service holds once `ids` have been created next to the first id. */
  ghost predicate Holds(w: World, ids: set<Sid>, history: seq<Entry<Sid, Proxy>>) {
    && w.stealth == map[] && w.chrome.Keys == {NAME} + ids && w.chrome[NAME] == HOME
    && w.memory == Replay(history, PROXY_MEMORY)
  }

  lemma CreateOneMore(w: World, ids: set<Sid>, history: seq<Entry<Sid, Proxy>>, id: Sid)
    requires Holds(w, ids, history) && id !in ids && id != NAME
    ensures var op := Creating(Chrome, id, None, true);
            Commanded(w, op) && Holds(After(w, op), ids + {id}, history + [Entry(id, None)])
  {
    ReplayLast(history, Entry(id, None));
  }

  lemma OneEntry(e: Entry<Sid, Proxy>)
    ensures Put([], e.key, e.value, PROXY_MEMORY) == [e]
    ensures Replay([e], PROXY_MEMORY) == [e]
  {
    ReplayLast([], e);
    assert [] + [e] == [e];
  }

  lemma CreateFirst(id: Sid, proxy: Proxy)
    ensures var op := Creating(Chrome, id, proxy, true);
            AllCommanded([op]) && AfterAll([op]) == World(map[id := proxy], map[], [Entry(id, proxy)])
  {
    var op := Creating(Chrome, id, proxy, true);
    AfterLast([], op);
    OneEntry(Entry(id, proxy));
    assert [] + [op] == [op];
  }

  lemma CrowdedMore(n: nat)
    requires n > 0 && AllCommanded(Crowded(n - 1)) && Holds(AfterAll(Crowded(n - 1)), Names(n - 1), Stored(n - 1))
    ensures AllCommanded(Crowded(n)) && Holds(AfterAll(Crowded(n)), Names(n), Stored(n))
  {
    NotAmong(n - 1, n);
    NamesDiffer(n, 0);
    AfterLast(Crowded(n - 1), Creating(Chrome, Name(n), None, true));
    CreateOneMore(AfterAll(Crowded(n - 1)), Names(n - 1), Stored(n - 1), Name(n));
  }

  lemma {:induction false} CrowdedWorld(n: nat)
    ensures AllCommanded(Crowded(n)) && Holds(AfterAll(Crowded(n)), Names(n), Stored(n))
  {
    if n == 0 {
      CreateFirst(NAME, HOME);
      OneEntry(Entry(NAME, HOME));
    } else {
      CrowdedWorld(n - 1);
      CrowdedMore(n);
    }
  }

  /**
    With its id forgotten after 1024 others, a get that falls back to the other engine
    opens it on the request's proxy; and a later get rebuilds the first browser on the old one.
   */
  lemma ForgottenSessionSplits()
    ensures exists ops, op :: AllCommanded(ops) && Opens(AfterAll(ops), op) && op.Getting?
                              && Splits(AfterAll(ops), op, op.id) && !StableAfter(AfterAll(ops), op)
  {
    var n :| n == PROXY_MEMORY;
    SplitsAfter(n);
  }

  lemma SplitsAfter(n: nat)
    requires n >= 1024
    ensures var ops, op := Crowded(n), Getting(Stealth, NAME, None, false, true, true);
            AllCommanded(ops) && Splits(AfterAll(ops), op, NAME) && !StableAfter(AfterAll(ops), op)
  {
    var ops, op := Crowded(n), Getting(Stealth, NAME, None, false, true, true);
    CrowdedWorld(n);
    StoredHistory(n);
    NamesCount(n);
    RecallIsHistory(Stored(n), PROXY_MEMORY, NAME);
    EgressIsStableIff(AfterAll(ops), op);
  }
}
