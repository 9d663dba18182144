/**
  The lock sections of SessionStore (src/sessions.py) as functions of the state
  the lock guards. `R` identifies a session object, and with it the one browser
  it was constructed around.
 */
module SessionSections {
  import opened Basics

  type Sid = string
  /** A proxy dictionary, or no proxy. Its contents are never inspected here. */
  type Proxy = Option<string>

  datatype Rec = Rec(sid: Sid, proxy: Proxy, createdAt: real, lastUsed: real, inUse: nat)

  /** Every session ever constructed, and the ids that currently find one. */
  datatype Store<R> = Store(objs: map<R, Rec>, pool: map<Sid, R>)

  ghost predicate WellFormed<R>(st: Store<R>) {
    forall id | id in st.pool :: st.pool[id] in st.objs
  }

  /** _claim. */
  function Claim<R>(st: Store<R>, r: R, now: real): Store<R>
    requires r in st.objs
  {
    st.(objs := st.objs[r := st.objs[r].(lastUsed := now, inUse := st.objs[r].inUse + 1)])
  }

  /** The first section of create: find, and claim before the lock is released. */
  function FindSection<R>(st: Store<R>, id: Sid, claim: bool, now: real): Store<R>
    requires WellFormed(st)
  {
    if id in st.pool && claim then Claim(st, st.pool[id], now) else st
  }

  /** The second section of create: store the new session, or yield to one stored meanwhile. */
  function StoreSection<R>(st: Store<R>, id: Sid, mine: R, claim: bool, now: real): Store<R>
    requires WellFormed(st) && mine in st.objs
  {
    var stored := if id in st.pool then st else st.(pool := st.pool[id := mine]);
    if claim then Claim(stored, stored.pool[id], now) else stored
  }

  predicate Expires(rec: Rec, isNew: bool, ttl: Option<real>, now: real) {
    ttl.Some? && !isNew && now - rec.createdAt > ttl.value && rec.inUse == 1
  }

  /** The expiry section of get removes by id, not by object. */
  function ExpireSection<R>(st: Store<R>, id: Sid, r: R, isNew: bool, ttl: Option<real>, now: real): Store<R>
    requires r in st.objs
  {
    if Expires(st.objs[r], isNew, ttl, now) then st.(pool := st.pool - {id}) else st
  }

  /** end_use. */
  function EndUseSection<R>(st: Store<R>, r: R, now: real): Store<R>
    requires r in st.objs
  {
    var rec := st.objs[r];
    st.(objs := st.objs[r := rec.(lastUsed := now, inUse := if rec.inUse == 0 then 0 else rec.inUse - 1)])
  }

  /** The ids reap_idle takes: longer idle than the ttl and not in use. */
  function Stale<R>(st: Store<R>, ttl: real, now: real): set<Sid>
    requires WellFormed(st)
  {
    if ttl <= 0.0 then {}
    else set id | id in st.pool && now - st.objs[st.pool[id]].lastUsed > ttl && st.objs[st.pool[id]].inUse == 0
  }

  function IdleIds<R>(st: Store<R>): set<Sid>
    requires WellFormed(st)
  {
    set id | id in st.pool && st.objs[st.pool[id]].inUse == 0
  }

  /**
    What enforce_cap may remove. The oldest-idle order is by last use, and how a
    tie falls is left open.
   */
  ghost predicate CapChoice<R>(st: Store<R>, max: int, victims: set<Sid>)
    requires WellFormed(st)
  {
    if max <= 0 || |st.pool| <= max then victims == {}
    else
      && victims <= IdleIds(st)
      && |victims| == MinInt(|st.pool| - max, |IdleIds(st)|)
      && forall v, s | v in victims && s in IdleIds(st) - victims ::
           st.objs[st.pool[v]].lastUsed <= st.objs[st.pool[s]].lastUsed
  }

  function Remove<R>(st: Store<R>, ids: set<Sid>): Store<R> {
    st.(pool := st.pool - ids)
  }

  /** The sessions found under `ids`: what a removal hands to the thread that closes them. */
  function At<R(==)>(st: Store<R>, ids: set<Sid>): set<R> {
    set id | id in ids && id in st.pool :: st.pool[id]
  }

  // ---- the cap is exact ----

  /** An over-full pool ends at exactly the cap, whenever at most that many sessions are busy. */
  lemma CapIsExact<R>(st: Store<R>, max: int, victims: set<Sid>)
    requires WellFormed(st) && CapChoice(st, max, victims) && 0 < max < |st.pool|
    ensures |Remove(st, victims).pool| == |st.pool| - |victims|
    ensures |st.pool.Keys - IdleIds(st)| <= max <==> |Remove(st, victims).pool| == max
    ensures |Remove(st, victims).pool| >= max
    ensures forall id | id in victims :: st.objs[st.pool[id]].inUse == 0
  {
    var after := Remove(st, victims);
    assert after.pool.Keys == st.pool.Keys - victims;
    assert |st.pool.Keys| == |victims| + |st.pool.Keys - victims| by { SplitCount(st.pool.Keys, victims); }
    assert |st.pool.Keys| == |IdleIds(st)| + |st.pool.Keys - IdleIds(st)| by { SplitCount(st.pool.Keys, IdleIds(st)); }
    assert |after.pool| == |after.pool.Keys| && |st.pool| == |st.pool.Keys|;
  }

  lemma SplitCount<T>(all: set<T>, part: set<T>)
    requires part <= all
    ensures |all| == |part| + |all - part|
  {
    assert all == part + (all - part);
  }
}
