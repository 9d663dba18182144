/** When a session was last used, over every run, and what the reaper and a lifetime make of it. */
module SessionClock {
  import opened Basics
  import opened SessionSections
  import opened SessionProtocol
  import opened SessionSafety
  import opened SessionRuns

  /** The clock reading of a step that launches the browser, claims the session or ends a use of it. */
  ghost function Touch(s: State, a: Action, r: Ref): Option<real>
    requires Enabled(s, a)
  {
    match a
    case Launch(_, x, now) => if x == r then Some(now) else None
    case FindStep(t, now) =>
      var want := PcOf(s, t).want;
      if want.claim && want.sid in s.store.pool && s.store.pool[want.sid] == r then Some(now) else None
    case StoreStep(t, now) =>
      var Launched(want, mine) := PcOf(s, t);
      var kept := if want.sid in s.store.pool then s.store.pool[want.sid] else mine;
      if want.claim && kept == r then Some(now) else None
    case EndUse(t, now) => if PcOf(s, t).r == r then Some(now) else None
    case _ => None
  }

  ghost predicate Follows(states: seq<State>, actions: seq<Action>, n: nat) {
    IsRun(states, actions) && n <= |actions| && forall i | 0 <= i < |actions| :: Enabled(states[i], actions[i])
  }

  /** The reading of the newest such step on the session among the first `n`. */
  ghost function LastTouch(states: seq<State>, actions: seq<Action>, n: nat, r: Ref): Option<real>
    requires Follows(states, actions, n)
  {
    if n == 0 then None
    else match Touch(states[n - 1], actions[n - 1], r)
      case Some(now) => Some(now)
      case None => LastTouch(states, actions, n - 1, r)
  }

  lemma RunFollows(states: seq<State>, actions: seq<Action>, n: nat)
    requires IsRun(states, actions) && n <= |actions|
    ensures Follows(states, actions, n)
  {
    forall i | 0 <= i < |actions| ensures Enabled(states[i], actions[i]) {
      assert IsStep(states[i], actions[i], states[i + 1]);
    }
  }

  lemma TouchStamps(s: State, a: Action, s': State, r: Ref)
    requires IsStep(s, a, s') && r in s'.store.objs
    ensures match Touch(s, a, r)
            case Some(now) => s'.store.objs[r].lastUsed == now
            case None => r in s.store.objs && s'.store.objs[r].lastUsed == s.store.objs[r].lastUsed
  {
    assert a.t in s.pcs ==> Cites(s.pcs[a.t]) <= s.store.objs.Keys;
  }

  /** In every run, destroys and discards included: last use is the newest launch, claim or end of use. */
  lemma {:induction false} LastUseIsLastTouch(states: seq<State>, actions: seq<Action>, n: nat, r: Ref)
    requires Follows(states, actions, n) && r in states[n].store.objs
    ensures LastTouch(states, actions, n, r) == Some(states[n].store.objs[r].lastUsed)
  {
    if n > 0 {
      assert IsStep(states[n - 1], actions[n - 1], states[n]);
      TouchStamps(states[n - 1], actions[n - 1], states[n], r);
      if Touch(states[n - 1], actions[n - 1], r).None? { LastUseIsLastTouch(states, actions, n - 1, r); }
    }
  }

  /** Readings that never go back. */
  ghost predicate Ascending(states: seq<State>, actions: seq<Action>, r: Ref)
    requires Follows(states, actions, |actions|)
  {
    forall i, j | 0 <= i < j < |actions| ::
      Touch(states[i], actions[i], r).Some? && Touch(states[j], actions[j], r).Some? ==>
        Touch(states[i], actions[i], r).value <= Touch(states[j], actions[j], r).value
  }

  lemma {:induction false} LastIsATouch(states: seq<State>, actions: seq<Action>, n: nat, r: Ref)
    requires Follows(states, actions, n) && LastTouch(states, actions, n, r).Some?
    ensures exists i :: 0 <= i < n && Touch(states[i], actions[i], r) == LastTouch(states, actions, n, r)
  {
    if Touch(states[n - 1], actions[n - 1], r).None? { LastIsATouch(states, actions, n - 1, r); }
  }

  lemma {:induction false} LastIsLatest(states: seq<State>, actions: seq<Action>, n: nat, r: Ref, i: nat)
    requires Follows(states, actions, |actions|) && Ascending(states, actions, r) && i < n <= |actions|
    requires Touch(states[i], actions[i], r).Some?
    ensures Follows(states, actions, n) && LastTouch(states, actions, n, r).Some?
    ensures Touch(states[i], actions[i], r).value <= LastTouch(states, actions, n, r).value
    decreases n
  {
    assert Follows(states, actions, n);
    if i < n - 1 && Touch(states[n - 1], actions[n - 1], r).None? { LastIsLatest(states, actions, n - 1, r, i); }
  }

  /** The n-th step is a reaper pass over a run without destroys. */
  ghost predicate Reaps(states: seq<State>, actions: seq<Action>, n: nat, ttl: real, now: real) {
    && IsRun(states, actions) && n < |actions| && (forall a | a in actions :: !Removes(a))
    && actions[n].ReapIdle? && actions[n].ttl == ttl && actions[n].now == now
  }

  lemma ReapStep(s: State, t: Tid, ttl: real, now: real, id: Sid)
    requires Inv(s) && Enabled(s, ReapIdle(t, ttl, now)) && id in s.store.pool
    ensures id !in Apply(s, ReapIdle(t, ttl, now)).store.pool <==>
              ttl > 0.0 && Players(s.pcs, Marked, s.store.pool[id]) == {} && now - s.store.objs[s.store.pool[id]].lastUsed > ttl
  {
    assert s.store.objs[s.store.pool[id]].inUse == |Players(s.pcs, Marked, s.store.pool[id])|;
  }

  lemma ReadyToReap(states: seq<State>, actions: seq<Action>, n: nat)
    requires IsRun(states, actions) && n < |actions| && forall a | a in actions :: !Removes(a)
    ensures Inv(states[n]) && IsStep(states[n], actions[n], states[n + 1]) && Follows(states, actions, n)
  {
    var front := actions[..n];
    assert IsRun(states[..n + 1], front) by {
      forall i | 0 <= i < n ensures IsStep(states[..n + 1][i], front[i], states[..n + 1][i + 1]) {
        assert IsStep(states[i], actions[i], states[i + 1]);
      }
    }
    RunInv(states[..n + 1], front);
    assert IsStep(states[n], actions[n], states[n + 1]);
    RunFollows(states, actions, n);
  }

  /** reap_idle takes a session exactly when nobody holds it and its newest launch, claim or end of use is older than the ttl. */
  lemma ReapedIff(states: seq<State>, actions: seq<Action>, n: nat, ttl: real, now: real, id: Sid)
    requires Reaps(states, actions, n, ttl, now) && id in states[n].store.pool
    ensures Follows(states, actions, n)
    ensures var r := states[n].store.pool[id]; var last := LastTouch(states, actions, n, r);
            last.Some? && (id !in states[n + 1].store.pool <==>
                             ttl > 0.0 && Players(states[n].pcs, Marked, r) == {} && now - last.value > ttl)
  {
    ReadyToReap(states, actions, n);
    var r := states[n].store.pool[id];
    LastUseIsLastTouch(states, actions, n, r);
    ReapStep(states[n], actions[n].t, ttl, now, id);
  }

  /** With readings that never go back: exactly when nobody holds it and no such reading at all is within the ttl. */
  lemma ReapedIffUnused(states: seq<State>, actions: seq<Action>, n: nat, ttl: real, now: real, id: Sid)
    requires Reaps(states, actions, n, ttl, now) && id in states[n].store.pool
    requires Follows(states, actions, |actions|) && Ascending(states, actions, states[n].store.pool[id])
    ensures var r := states[n].store.pool[id];
            id !in states[n + 1].store.pool <==>
              && ttl > 0.0 && Players(states[n].pcs, Marked, r) == {}
              && forall i | 0 <= i < n && Touch(states[i], actions[i], r).Some? :: now - Touch(states[i], actions[i], r).value > ttl
  {
    var r := states[n].store.pool[id];
    ReapedIff(states, actions, n, ttl, now, id);
    LastIsATouch(states, actions, n, r);
    forall i | 0 <= i < n && Touch(states[i], actions[i], r).Some?
      ensures Touch(states[i], actions[i], r).value <= LastTouch(states, actions, n, r).value
    {
      LastIsLatest(states, actions, n, r, i);
    }
  }

  // ---- a lifetime runs from the launch ----

  /** A browser's launch is its session's creation, whatever comes after it. */
  lemma {:induction false} CreatedAtLaunch(states: seq<State>, actions: seq<Action>, n: nat, r: Ref)
    requires IsRun(states, actions) && n <= |actions| && r in states[n].store.objs
    ensures exists i :: 0 <= i < n && actions[i].Launch? && actions[i].r == r && actions[i].now == states[n].store.objs[r].createdAt
    decreases n
  {
    var s, a := states[n - 1], actions[n - 1];
    assert IsStep(s, a, states[n]);
    if !(a.Launch? && a.r == r) {
      CreatedAtKept(s, a, r);
      CreatedAtLaunch(states, actions, n - 1, r);
    }
  }

  lemma CreatedAtKept(s: State, a: Action, r: Ref)
    requires Grounded(s) && Enabled(s, a) && r in Apply(s, a).store.objs && !(a.Launch? && a.r == r)
    ensures r in s.store.objs && Apply(s, a).store.objs[r].createdAt == s.store.objs[r].createdAt
  {
    assert a.t in s.pcs ==> Cites(s.pcs[a.t]) <= s.store.objs.Keys;
  }

  /** A get replaces its session exactly when it found it rather than built it, is its only holder, and its lifetime is past the ttl. */
  lemma ExpiredIff(s: State, t: Tid, now: real)
    requires Inv(s) && Enabled(s, ExpireStep(t, now))
    ensures var Found(want, r, isNew) := PcOf(s, t); var s' := Apply(s, ExpireStep(t, now));
            && (PcOf(s', t) == Expired(want, r) <==>
                  want.ttl.Some? && !isNew && now - s.store.objs[r].createdAt > want.ttl.value && Players(s.pcs, Marked, r) == {t})
            && (PcOf(s', t) == Expired(want, r) || PcOf(s', t) == Holding(r))
            && (PcOf(s', t) == Expired(want, r) <==> want.sid !in s'.store.pool)
  {
    var Found(want, r, isNew) := PcOf(s, t);
    MarkedIsCounted(s, t, r);
    assert TagOk(s.store, s.pcs[t]);
  }

  // ---- what create hands to get ----

  /** create's caller: nobody to wait for, a get that has its rebuilt session, or one that still has to judge its age. */
  function Handed(want: Want, r: Ref, isNew: bool): Pc {
    if !want.claim then Idle else if want.rebuild then Holding(r) else Found(want, r, isNew)
  }

  /** A session is new to the thread that stored it, and to no one else: not when found, and not when another stored first. */
  lemma NewOnlyWhenStored(s: State, t: Tid, now: real)
    requires Grounded(s)
    ensures Enabled(s, FindStep(t, now)) ==>
              var want := PcOf(s, t).want;
              PcOf(Apply(s, FindStep(t, now)), t)
                == if want.sid in s.store.pool then Handed(want, s.store.pool[want.sid], false) else Launching(want)
    ensures Enabled(s, StoreStep(t, now)) ==>
              var Launched(want, mine) := PcOf(s, t);
              PcOf(Apply(s, StoreStep(t, now)), t)
                == if want.sid in s.store.pool then Lost(want, mine, s.store.pool[want.sid]) else Handed(want, mine, true)
    ensures Enabled(s, CloseLost(t)) ==>
              var Lost(want, _, race) := PcOf(s, t); PcOf(Apply(s, CloseLost(t)), t) == Handed(want, race, false)
    ensures Enabled(s, CloseExpired(t)) ==>
              var Expired(want, r) := PcOf(s, t);
              PcOf(Apply(s, CloseExpired(t)), t) == Wanting(want.(proxy := s.store.objs[r].proxy, rebuild := true))
  {
  }
}
