/** SessionStore (src/sessions.py): its lock sections, and create and get run to completion. */
module SessionStore {
  import opened Basics
  import opened RecencyMap
  import opened SessionSections
  import opened Sorting
  import Egress

  class Session {
    const sid: Sid
    const proxy: Proxy
    const createdAt: real
    var lastUsed: real
    var inUse: nat

    constructor (sid: Sid, proxy: Proxy, now: real)
      ensures this.sid == sid && this.proxy == proxy && createdAt == now && lastUsed == now && inUse == 0
    {
      this.sid, this.proxy, this.createdAt := sid, proxy, now;
      lastUsed, inUse := now, 0;
    }

    function Record(): Rec
      reads this
    {
      Rec(sid, proxy, createdAt, lastUsed, inUse)
    }
  }

  class Pool {
    var sessions: map<Sid, Session>
    const memory: Memory<Sid, Proxy>
    /** Every session this pool ever constructed. */
    ghost var known: set<Session>
    /** The sessions whose browser was closed, in order. */
    ghost var closed: seq<Session>
    /** The browsers built, in order. */
    ghost var built: seq<Egress.Built>

    ghost predicate Valid()
      reads this, known, memory
    {
      && (forall id | id in sessions :: sessions[id] in known && sessions[id].sid == id)
      && memory.Valid() && memory.cap == Egress.PROXY_MEMORY
    }

    /** What the lock guards, as the lock-section functions see it. */
    ghost function View(): Store<Session>
      reads this, known
    {
      Store(map s | s in known :: s.Record(), sessions)
    }

    /** The proxy each stored session was built with. */
    ghost function Proxies(): map<Sid, Proxy>
      reads this, sessions.Values
    {
      map id | id in sessions :: sessions[id].proxy
    }

    constructor (memory: Memory<Sid, Proxy>)
      requires memory.Valid() && memory.cap == Egress.PROXY_MEMORY
      ensures Valid() && this.memory == memory && View() == Store(map[], map[]) && closed == [] && built == []
    {
      this.memory := memory;
      sessions, known, closed, built := map[], {}, [], [];
    }

    method Claim(s: Session, now: real)
      requires Valid() && s in known
      modifies s
      ensures Valid() && View() == old(SessionSections.Claim(View(), s, now))
      ensures s.lastUsed == now && s.inUse == old(s.inUse) + 1
    {
      s.lastUsed := now;
      s.inUse := s.inUse + 1;
    }

    method FindOrClaim(id: Sid, claim: bool, now: real) returns (existing: Session?)
      requires Valid()
      modifies sessions.Values
      ensures Valid() && View() == old(FindSection(View(), id, claim, now))
      ensures existing == if id in sessions then sessions[id] else null
      ensures existing != null ==> existing.inUse == old(sessions[id].inUse) + (if claim then 1 else 0)
      ensures existing != null ==> existing.lastUsed == if claim then now else old(sessions[id].lastUsed)
    {
      existing := null;
      if id in sessions {
        existing := sessions[id];
        if claim { Claim(sessions[id], now); }
      }
    }

    method StoreOrYield(mine: Session, claim: bool, now: real) returns (race: Session?)
      requires Valid() && mine in known
      modifies this`sessions, if mine.sid in sessions then {sessions[mine.sid]} else {mine}
      ensures Valid() && View() == old(StoreSection(View(), mine.sid, mine, claim, now))
      ensures race == if mine.sid in old(sessions) then old(sessions)[mine.sid] else null
      ensures race == null ==> sessions == old(sessions)[mine.sid := mine]
      ensures var kept := if race != null then race else mine;
              kept.inUse == old(kept.inUse) + (if claim then 1 else 0) && kept.lastUsed == if claim then now else old(kept.lastUsed)
    {
      race := null;
      if mine.sid in sessions {
        race := sessions[mine.sid];
      } else {
        sessions := sessions[mine.sid := mine];
      }
      if claim { Claim(sessions[mine.sid], now); }
    }

    method DecideExpiry(s: Session, isNew: bool, ttl: Option<real>, now: real) returns (expired: bool)
      requires Valid() && s in known
      modifies this`sessions
      ensures Valid()
      ensures expired <==> ttl.Some? && !isNew && now - s.createdAt > ttl.value && s.inUse == 1
      ensures View() == old(ExpireSection(View(), s.sid, s, isNew, ttl, now))
      ensures sessions == if expired then old(sessions) - {s.sid} else old(sessions)
    {
      expired := ttl.Some? && !isNew && now - s.createdAt > ttl.value && s.inUse == 1;
      if expired { sessions := sessions - {s.sid}; }
    }

    method EndUse(s: Session, now: real)
      requires Valid() && s in known
      modifies s
      ensures Valid() && View() == old(EndUseSection(View(), s, now))
      ensures s.lastUsed == now && s.inUse == if old(s.inUse) == 0 then 0 else old(s.inUse) - 1
    {
      s.inUse := if s.inUse == 0 then 0 else s.inUse - 1;
      s.lastUsed := now;
    }

    /** _teardown. */
    ghost method TearDown(s: Session)
      modifies this`closed
      ensures closed == old(closed) + [s]
    {
      closed := closed + [s];
    }

    method Pop(ids: set<Sid>) returns (popped: seq<Session>)
      requires Valid()
      modifies this`sessions
      ensures Valid() && View() == old(Remove(View(), ids))
      ensures (forall s :: s in popped <==> s in old(At(View(), ids)))
      ensures forall i, j | 0 <= i < j < |popped| :: popped[i] != popped[j]
    {
      popped := [];
      var left := ids;
      ghost var start := sessions;
      while left != {}
        invariant left <= ids && sessions == start - (ids - left) && Valid()
        invariant forall s :: s in popped <==> exists id :: id in ids - left && id in start && start[id] == s
        invariant forall i | 0 <= i < |popped| :: popped[i].sid in ids - left
        invariant forall i, j | 0 <= i < j < |popped| :: popped[i] != popped[j]
      {
        var id :| id in left;
        if id in sessions {
          popped := popped + [sessions[id]];
        }
        sessions := sessions - {id};
        left := left - {id};
        assert ids - left == ids - (left + {id}) + {id};
      }
    }

    method ReapIdle(ttl: real, now: real) returns (popped: seq<Session>)
      requires Valid()
      modifies this`sessions, this`closed
      ensures Valid() && View() == old(Remove(View(), Stale(View(), ttl, now)))
      ensures closed == old(closed) + popped
      ensures forall s :: s in popped <==> s in old(At(View(), Stale(View(), ttl, now)))
      ensures forall id :: id in sessions <==>
                id in old(sessions)
                && !(ttl > 0.0 && now - old(sessions)[id].lastUsed > ttl && old(sessions)[id].inUse == 0)
    {
      if ttl <= 0.0 {
        popped := [];
        assert sessions - Stale(View(), ttl, now) == sessions;
        return;
      }
      var stale := set id | id in sessions && now - sessions[id].lastUsed > ttl && sessions[id].inUse == 0;
      assert stale == Stale(View(), ttl, now);
      popped := Take(stale);
    }

    /** Which sessions the cap takes: a slice of the idle ones, oldest use first. */
    method Victims(max: int) returns (chosen: set<Sid>)
      requires Valid() && 0 < max < |sessions|
      ensures CapChoice(View(), max, chosen)
    {
      var idle := set id | id in sessions && sessions[id].inUse == 0;
      var lastUse := map id | id in sessions :: sessions[id].lastUsed;
      var ordered := Sorted(idle, lastUse);
      chosen := Oldest(ordered, MinInt(|sessions| - max, |ordered|));
      assert idle == IdleIds(View()) && lastUse == LastUse(View());
      OldestIsLegal(View(), max, ordered);
    }

    /** The victims are a legal choice: oldest idle first, never one in use, only as many as needed. */
    method EnforceCap(max: int) returns (removed: seq<Session>, ghost victims: set<Sid>)
      requires Valid()
      modifies this`sessions, this`closed
      ensures CapChoice(old(View()), max, victims)
      ensures Valid() && View() == Remove(old(View()), victims) && closed == old(closed) + removed
      ensures forall s :: s in removed <==> s in At(old(View()), victims)
      ensures var idle := old(set id | id in sessions && sessions[id].inUse == 0);
              && victims <= idle
              && |victims| == (if max <= 0 || |old(sessions)| <= max then 0
                               else if |old(sessions)| - max <= |idle| then |old(sessions)| - max else |idle|)
              && forall v, id | v in victims && id in idle - victims :: old(sessions)[v].lastUsed <= old(sessions)[id].lastUsed
    {
      ghost var before := View();
      ghost var idle := set id | id in sessions && sessions[id].inUse == 0;
      assert IdleIds(before) == idle;
      var chosen := {};
      if 0 < max < |sessions| {
        chosen := Victims(max);
      }
      assert CapChoice(before, max, chosen);
      victims := chosen;
      removed := Take(chosen);
    }

    /** Out of the pool under the lock, closed after it. */
    method Take(ids: set<Sid>) returns (popped: seq<Session>)
      requires Valid()
      modifies this`sessions, this`closed
      ensures Valid() && View() == Remove(old(View()), ids) && closed == old(closed) + popped
      ensures forall s :: s in popped <==> s in At(old(View()), ids)
    {
      popped := Pop(ids);
      closed := closed + popped;
    }

    /** What one sequential call did, in the terms of the egress model. */
    twostate predicate Did(effect: Egress.Effect)
      reads this, sessions.Values, memory
    {
      Proxies() == effect.pool && memory.entries == effect.memory && built == old(built) + effect.built
    }

    /**
      create without interference. `launches` says whether the build succeeds; a
      failed build raises, which is the null result.
     */
    method Create(id: Sid, proxy: Proxy, claim: bool, launches: bool, now: real) returns (s: Session?, isNew: bool)
      requires Valid()
      modifies this`sessions, this`known, this`built, sessions.Values, memory
      ensures Valid() && Did(Egress.Create(old(Proxies()), old(memory.entries), id, proxy, launches))
      ensures s == null <==> id !in old(sessions) && !launches
      ensures isNew <==> id !in old(sessions) && launches
      ensures s != null ==> id in sessions && sessions[id] == s && (!isNew ==> s == old(sessions)[id])
      ensures s != null ==> s.inUse == (if isNew then 0 else old(sessions[id].inUse)) + (if claim then 1 else 0)
      ensures !isNew ==> sessions == old(sessions) && known == old(known)
      ensures isNew ==> fresh(s) && known == old(known) + {s} && sessions == old(sessions)[id := s] && s.createdAt == now
    {
      var existing := FindOrClaim(id, claim, now);
      if existing != null { return existing, false; }
      if !launches { return null, false; }
      s := BuildAndStore(id, proxy, claim, now);
      return s, true;
    }

    /** The rest of create when nothing was found: build, store, remember the proxy. */
    method BuildAndStore(id: Sid, proxy: Proxy, claim: bool, now: real) returns (mine: Session)
      requires Valid() && id !in sessions
      modifies this`sessions, this`known, this`built, memory
      ensures Valid() && fresh(mine) && known == old(known) + {mine} && sessions == old(sessions)[id := mine]
      ensures mine.proxy == proxy && mine.createdAt == now && mine.inUse == if claim then 1 else 0
      ensures memory.entries == Put(old(memory.entries), id, proxy, Egress.PROXY_MEMORY)
      ensures built == old(built) + [Egress.Built(id, proxy)]
    {
      mine := new Session(id, proxy, now);
      built := built + [Egress.Built(id, proxy)];
      known := known + {mine};
      var race := StoreOrYield(mine, claim, now);
      memory.Remember(id, proxy);
    }

    /** The first half of get: the remembered proxy replaces the request's, and create claims. */
    method FindOrBuild(id: Sid, proxy: Proxy, launches: bool, now: real) returns (s: Session?, isNew: bool)
      requires Valid()
      modifies this`sessions, this`known, this`built, sessions.Values, memory
      ensures Valid() && Did(Egress.Get(old(Proxies()), old(memory.entries), id, proxy, false, launches, false))
      ensures s == null <==> id !in old(sessions) && !launches
      ensures isNew <==> id !in old(sessions) && launches
      ensures id in old(sessions) ==> s == old(sessions)[id] && sessions == old(sessions) && s.inUse == old(sessions[id].inUse) + 1
      ensures s != null ==> id in sessions && sessions[id] == s && s.inUse >= 1
      ensures fresh(known - old(known))
    {
      var remembered := memory.Recall(id);
      var own := if remembered.Some? then remembered.value else proxy;
      s, isNew := Create(id, own, true, launches, now);
    }

    /** get without interference: the session comes back claimed, rebuilt if its lifetime is over and nobody has it. */
    method Get(id: Sid, ttl: Option<real>, proxy: Proxy, launches: bool, relaunches: bool, now: real)
      returns (s: Session?, isNew: bool)
      requires Valid()
      modifies this, sessions.Values, memory
      ensures Valid()
      ensures var expires := old(IsOver(id, ttl, now));
              && Did(Egress.Get(old(Proxies()), old(memory.entries), id, proxy, expires, launches, relaunches))
              && closed == old(closed) + (if expires then [old(sessions)[id]] else [])
              && (isNew <==> if expires then relaunches else id !in old(sessions) && launches)
      ensures s != null ==> id in sessions && sessions[id] == s && s.inUse >= 1
    {
      var expired;
      s, isNew, expired := FindAndDecide(id, ttl, proxy, launches, now);
      if expired {
        s, isNew := Rebuild(id, s, relaunches, now);
      }
    }

    /** The mark is held between the two sections, so the count that decides is this request's own. */
    ghost predicate IsOver(id: Sid, ttl: Option<real>, now: real)
      reads this, sessions.Values
    {
      id in sessions && ttl.Some? && now - sessions[id].createdAt > ttl.value && sessions[id].inUse == 0
    }

    /** get up to its decision: what is found or built comes back claimed, or out of the pool with its browser still open. */
    method FindAndDecide(id: Sid, ttl: Option<real>, proxy: Proxy, launches: bool, now: real)
      returns (s: Session?, isNew: bool, expired: bool)
      requires Valid()
      modifies this, sessions.Values, memory
      ensures Valid() && expired == old(IsOver(id, ttl, now)) && closed == old(closed)
      ensures expired ==>
                && s != null && s == old(sessions)[id] && s.proxy == old(Proxies()[id]) && sessions == old(sessions) - {id}
                && Proxies() == old(Proxies()) - {id} && memory.entries == Touched(old(memory.entries), id) && built == old(built)
      ensures !expired ==>
                && Did(Egress.Get(old(Proxies()), old(memory.entries), id, proxy, false, launches, false))
                && (isNew <==> id !in old(sessions) && launches)
                && (s != null ==> id in sessions && sessions[id] == s && s.inUse >= 1)
    {
      ghost var pool := Proxies();
      s, isNew := FindOrBuild(id, proxy, launches, now);
      if s == null { return s, false, false; }
      expired := DecideExpiry(s, isNew, ttl, now);
      if expired { assert Proxies() == pool - {id}; }
    }

    /** What get does with a session past its lifetime: close its browser, and create again on the same proxy. */
    method Rebuild(id: Sid, first: Session, relaunches: bool, now: real) returns (s: Session?, isNew: bool)
      requires Valid() && id !in sessions
      modifies this, sessions.Values, memory
      ensures Valid() && Did(Egress.Create(old(Proxies()), old(memory.entries), id, first.proxy, relaunches))
      ensures closed == old(closed) + [first] && isNew == relaunches
      ensures s != null ==> id in sessions && sessions[id] == s && s.inUse >= 1
    {
      TearDown(first);
      s, isNew := Create(id, first.proxy, true, relaunches, now);
    }

    method Discard(id: Sid) returns (found: bool)
      requires Valid()
      modifies this`sessions, this`closed
      ensures Valid() && sessions == old(sessions) - {id} && (found <==> id in old(sessions))
      ensures closed == old(closed) + (if found then [old(sessions)[id]] else [])
    {
      found := id in sessions;
      if found {
        closed := closed + [sessions[id]];
      }
      sessions := sessions - {id};
    }

    method Destroy(id: Sid) returns (found: bool)
      requires Valid()
      modifies this`sessions, this`closed, memory
      ensures Valid() && sessions == old(sessions) - {id} && (found <==> id in old(sessions))
      ensures memory.entries == Without(old(memory.entries), id)
      ensures closed == old(closed) + (if found then [old(sessions)[id]] else [])
    {
      memory.Forget(id);
      found := Discard(id);
    }
  }

  function LastUse<R>(st: Store<R>): map<Sid, real>
    requires WellFormed(st)
  {
    map id | id in st.pool :: st.objs[st.pool[id]].lastUsed
  }

  lemma OldestIsLegal<R>(st: Store<R>, max: int, q: seq<Sid>)
    requires WellFormed(st) && 0 < max < |st.pool|
    requires InOrder(q, LastUse(st)) && forall id :: id in q <==> id in IdleIds(st)
    ensures CapChoice(st, max, Oldest(q, MinInt(|st.pool| - max, |q|)))
  {
    OldestFirst(IdleIds(st), LastUse(st), q, MinInt(|st.pool| - max, |q|));
  }
}
