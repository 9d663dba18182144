/**
  Which proxy a session's browsers go out through, over sequential runs on both
  engines' pools and the proxy memory they share (src/sessions.py).
 */
module Egress {
  import opened Basics
  import opened RecencyMap
  import opened SessionSections

  const PROXY_MEMORY: nat := 1024

  /** A browser built for an id, and the proxy it was given. */
  datatype Built = Built(sid: Sid, proxy: Proxy)

  /** One call's effect on a pool (the proxy of each stored session) and on the memory. */
  datatype Effect = Effect(pool: map<Sid, Proxy>, memory: seq<Entry<Sid, Proxy>>, built: seq<Built>)

  /** create, with `launches` saying whether the build succeeds. */
  function Create(pool: map<Sid, Proxy>, memory: seq<Entry<Sid, Proxy>>, id: Sid, proxy: Proxy, launches: bool): Effect {
    if id in pool || !launches then Effect(pool, memory, [])
    else Effect(pool[id := proxy], Put(memory, id, proxy, PROXY_MEMORY), [Built(id, proxy)])
  }

  /** get: the remembered proxy wins over the request's, and a rebuild takes the session's own. */
  function Get(pool: map<Sid, Proxy>, memory: seq<Entry<Sid, Proxy>>, id: Sid, proxy: Proxy,
               expires: bool, launches: bool, relaunches: bool): Effect
  {
    var own := match Find(memory, id) case Some(remembered) => remembered case None => proxy;
    var first := Create(pool, Touched(memory, id), id, own, launches);
    if id in pool && expires then Create(pool - {id}, first.memory, id, pool[id], relaunches) else first
  }

  datatype Engine = Chrome | Stealth

  datatype World = World(chrome: map<Sid, Proxy>, stealth: map<Sid, Proxy>, memory: seq<Entry<Sid, Proxy>>)
  {
    function Pool(e: Engine): map<Sid, Proxy> {
      if e.Chrome? then chrome else stealth
    }

    function With(e: Engine, pool: map<Sid, Proxy>, m: seq<Entry<Sid, Proxy>>): World {
      if e.Chrome? then World(pool, stealth, m) else World(chrome, pool, m)
    }

    ghost predicate Valid() {
      Distinct(memory) && |memory| <= PROXY_MEMORY
    }
  }

  datatype Op =
    | Creating(e: Engine, id: Sid, proxy: Proxy, launches: bool)
    | Getting(e: Engine, id: Sid, proxy: Proxy, expires: bool, launches: bool, relaunches: bool)
    | Dropping(e: Engine, ids: set<Sid>)    // reap_idle, enforce_cap, discard
    | Destroying(e: Engine, id: Sid)

  function EffectOf(w: World, op: Op): Effect {
    match op
    case Creating(e, id, proxy, launches) => Create(w.Pool(e), w.memory, id, proxy, launches)
    case Getting(e, id, proxy, expires, launches, relaunches) =>
      Get(w.Pool(e), w.memory, id, proxy, expires, launches, relaunches)
    case Dropping(e, ids) => Effect(w.Pool(e) - ids, w.memory, [])
    case Destroying(e, id) => Effect(w.Pool(e) - {id}, Without(w.memory, id), [])
  }

  function After(w: World, op: Op): World {
    var effect := EffectOf(w, op);
    w.With(op.e, effect.pool, effect.memory)
  }

  function AllBuilt(w: World, ops: seq<Op>): seq<Built>
    decreases |ops|
  {
    if ops == [] then [] else EffectOf(w, ops[0]).built + AllBuilt(After(w, ops[0]), ops[1..])
  }

  predicate Stores(w: World, op: Op) {
    op.Creating? && op.launches && op.id !in w.Pool(op.e)
  }

  /** The other ids used since `id` was last used. */
  function UsedSince(op: Op, id: Sid, used: set<Sid>): set<Sid> {
    if op.Dropping? || op.Destroying? then used
    else if op.id != id then used + {op.id}
    else if op.Getting? then {}
    else used
  }

  /** A run in which `id` is neither destroyed nor created again, and is never left unused too long. */
  ghost predicate Undisturbed(w: World, ops: seq<Op>, id: Sid, used: set<Sid>)
    decreases |ops|
  {
    ops != [] ==>
      var used' := UsedSince(ops[0], id, used);
      && !(ops[0].Destroying? && ops[0].id == id)
      && !(Stores(w, ops[0]) && ops[0].id == id)
      && |used'| < 1024
      && Undisturbed(After(w, ops[0]), ops[1..], id, used')
  }

  ghost predicate AllThrough(built: seq<Built>, id: Sid, proxy: Proxy) {
    forall i | 0 <= i < |built| && built[i].sid == id :: built[i].proxy == proxy
  }

  /** The id is remembered with its proxy, recently enough, and no pool holds it on another one. */
  ghost predicate Settled(w: World, id: Sid, proxy: Proxy, used: set<Sid>) {
    && w.Valid()
    && Find(w.memory, id) == Some(proxy)
    && Newer(w.memory, id) <= used && |used| < PROXY_MEMORY
    && (id in w.chrome ==> w.chrome[id] == proxy)
    && (id in w.stealth ==> w.stealth[id] == proxy)
  }

  /** The memory entry of `id` is in place, with at most `used` between it and being forgotten. */
  ghost predicate Kept(m: seq<Entry<Sid, Proxy>>, id: Sid, proxy: Proxy, used: set<Sid>) {
    Distinct(m) && |m| <= PROXY_MEMORY && Find(m, id) == Some(proxy) && Newer(m, id) <= used
  }

  lemma OtherStored(m: seq<Entry<Sid, Proxy>>, id: Sid, proxy: Proxy, used: set<Sid>, other: Sid, q: Proxy)
    requires Kept(m, id, proxy, used) && other != id && |used + {other}| < PROXY_MEMORY
    ensures Kept(Put(m, other, q, PROXY_MEMORY), id, proxy, used + {other})
  {
    FindSome(m, id);
    PutSelf(m, other, q, PROXY_MEMORY);
    PutOther(m, other, q, PROXY_MEMORY, id);
    SubsetCount(Newer(m, id) + {other}, used + {other});
  }

  lemma OtherTouched(m: seq<Entry<Sid, Proxy>>, id: Sid, proxy: Proxy, used: set<Sid>, other: Sid)
    requires Kept(m, id, proxy, used) && other != id
    ensures Kept(Touched(m, other), id, proxy, used + {other})
  {
    FindSome(m, id);
    TouchSelf(m, other);
    TouchOther(m, other, id);
  }

  lemma OtherGot(w: World, op: Op, id: Sid, proxy: Proxy, used: set<Sid>)
    requires Kept(w.memory, id, proxy, used) && op.Getting? && op.id != id && |used + {op.id}| < PROXY_MEMORY
    ensures Kept(EffectOf(w, op).memory, id, proxy, used + {op.id})
  {
    var touched := Touched(w.memory, op.id);
    OtherTouched(w.memory, id, proxy, used, op.id);
    var pool := w.Pool(op.e);
    assert used + {op.id} + {op.id} == used + {op.id};
    var own := if op.id in pool then pool[op.id]
               else match Find(w.memory, op.id) case Some(q) => q case None => op.proxy;
    OtherStored(touched, id, proxy, used + {op.id}, op.id, own);
    assert EffectOf(w, op).memory == touched || EffectOf(w, op).memory == Put(touched, op.id, own, PROXY_MEMORY);
  }

  lemma SelfGot(w: World, op: Op, proxy: Proxy, used: set<Sid>)
    requires op.Getting? && Settled(w, op.id, proxy, used)
    ensures Kept(EffectOf(w, op).memory, op.id, proxy, {})
    ensures AllThrough(EffectOf(w, op).built, op.id, proxy)
    ensures op.id in EffectOf(w, op).pool ==> EffectOf(w, op).pool[op.id] == proxy
  {
    FindSome(w.memory, op.id);
    TouchSelf(w.memory, op.id);
    PutSelf(Touched(w.memory, op.id), op.id, proxy, PROXY_MEMORY);
  }

  /** One operation never changes the pool entry of another id, nor builds for it. */
  lemma OthersUntouched(w: World, op: Op, id: Sid)
    requires (op.Creating? || op.Getting?) && op.id != id
    ensures (id in EffectOf(w, op).pool <==> id in w.Pool(op.e))
    ensures id in w.Pool(op.e) ==> EffectOf(w, op).pool[id] == w.Pool(op.e)[id]
    ensures forall i | 0 <= i < |EffectOf(w, op).built| :: EffectOf(w, op).built[i].sid == op.id
  {
  }

  lemma StaysSettled(w: World, op: Op, id: Sid, proxy: Proxy, used: set<Sid>)
    requires Settled(w, id, proxy, used) && Undisturbed(w, [op], id, used)
    ensures Settled(After(w, op), id, proxy, UsedSince(op, id, used))
    ensures AllThrough(EffectOf(w, op).built, id, proxy)
  {
    match op
    case Creating(e, other, q, launches) =>
      if other != id {
        OthersUntouched(w, op, id);
        if Stores(w, op) { OtherStored(w.memory, id, proxy, used, other, q); }
      }
    case Getting(e, other, q, expires, launches, relaunches) =>
      if other == id {
        SelfGot(w, op, proxy, used);
      } else {
        OthersUntouched(w, op, id);
        OtherGot(w, op, id, proxy, used);
      }
    case Dropping(e, ids) =>
    case Destroying(e, other) =>
      WithoutKeys(w.memory, other);
      WithoutOther(w.memory, other, id);
  }

  lemma {:induction false} SettledStaysOnItsProxy(w: World, ops: seq<Op>, id: Sid, proxy: Proxy, used: set<Sid>)
    requires Settled(w, id, proxy, used) && Undisturbed(w, ops, id, used)
    ensures AllThrough(AllBuilt(w, ops), id, proxy)
    decreases |ops|
  {
    if ops != [] {
      assert Undisturbed(w, [ops[0]], id, used);
      StaysSettled(w, ops[0], id, proxy, used);
      SettledStaysOnItsProxy(After(w, ops[0]), ops[1..], id, proxy, UsedSince(ops[0], id, used));
    }
  }

  function Other(e: Engine): Engine {
    if e.Chrome? then Stealth else Chrome
  }

  /** The call builds the first browser this pool has for its id: a create, or the create inside a get. */
  predicate Opens(w: World, op: Op) {
    (op.Creating? || op.Getting?) && op.launches && op.id !in w.Pool(op.e)
  }

  /** The proxy that browser gets: in a get the remembered one, and the request's only when there is none. */
  function ProxyFor(w: World, op: Op): Proxy
    requires op.Creating? || op.Getting?
  {
    match Find(w.memory, op.id)
    case Some(remembered) => if op.Getting? then remembered else op.proxy
    case None => op.proxy
  }

  /** Whatever comes after the call, short of a destroy, a new create or too long a disuse. */
  ghost predicate StableAfter(w: World, op: Op)
    requires op.Creating? || op.Getting?
  {
    var w' := After(w, op);
    forall ops | Undisturbed(w', ops, op.id, {}) :: AllThrough(AllBuilt(w', ops), op.id, ProxyFor(w, op))
  }

  lemma OpeningSettles(w: World, op: Op)
    requires w.Valid() && Opens(w, op)
    requires op.id in w.Pool(Other(op.e)) ==> w.Pool(Other(op.e))[op.id] == ProxyFor(w, op)
    ensures Settled(After(w, op), op.id, ProxyFor(w, op), {})
  {
    TouchSelf(w.memory, op.id);
    PutSelf(if op.Getting? then Touched(w.memory, op.id) else w.memory, op.id, ProxyFor(w, op), PROXY_MEMORY);
  }

  lemma RebuildSplits(w: World, op: Op)
    requires w.Valid() && Opens(w, op)
    requires op.id in w.Pool(Other(op.e)) && w.Pool(Other(op.e))[op.id] != ProxyFor(w, op)
    ensures !StableAfter(w, op)
  {
    var w', id, other := After(w, op), op.id, Other(op.e);
    var rebuild := Getting(other, id, None, true, true, true);
    var ops := [rebuild];
    assert Undisturbed(After(w', rebuild), [], id, {});
    assert Undisturbed(w', ops, id, {}) by { assert ops[1..] == []; }
    var built := EffectOf(w', rebuild).built;
    assert built[0] == Built(id, w.Pool(other)[id]);
    assert AllBuilt(w', ops) == built by { assert AllBuilt(After(w', rebuild), ops[1..]) == []; }
    assert !AllThrough(AllBuilt(w', ops), id, ProxyFor(w, op));
  }

  /**
    From the call that opened an id in a pool, every browser built for it goes through
    the proxy that call used: exactly when the other pool does not hold the id on a
    different one.
   */
  lemma EgressIsStableIff(w: World, op: Op)
    requires w.Valid() && Opens(w, op)
    ensures StableAfter(w, op)
       <==> (op.id in w.Pool(Other(op.e)) ==> w.Pool(Other(op.e))[op.id] == ProxyFor(w, op))
  {
    if op.id in w.Pool(Other(op.e)) && w.Pool(Other(op.e))[op.id] != ProxyFor(w, op) {
      RebuildSplits(w, op);
    } else {
      OpeningSettles(w, op);
      var w' := After(w, op);
      forall ops | Undisturbed(w', ops, op.id, {}) ensures AllThrough(AllBuilt(w', ops), op.id, ProxyFor(w, op)) {
        SettledStaysOnItsProxy(w', ops, op.id, ProxyFor(w, op), {});
      }
    }
  }
}
