/** The pool's theorems over whole runs, and the exact limits of both. */
module SessionRuns {
  import opened Basics
  import opened SessionSections
  import opened SessionProtocol
  import opened SessionSafety

  const START: State := State(Store(map[], map[]), map[], map[], multiset{})

  /** Grounded only makes Apply well defined: StepGrounded shows every step keeps it. */
  ghost predicate IsStep(s: State, a: Action, s': State) {
    Grounded(s) && Enabled(s, a) && s' == Apply(s, a)
  }

  ghost predicate IsRun(states: seq<State>, actions: seq<Action>) {
    && |states| == |actions| + 1
    && states[0] == START
    && forall i | 0 <= i < |actions| :: IsStep(states[i], actions[i], states[i + 1])
  }

  /** A solving request is alone on its browser, counted, and its session is pooled and open. */
  ghost predicate SafelySolving(s: State, t: Tid) {
    PcOf(s, t).Solving? ==>
      var r := PcOf(s, t).r;
      && (forall u | u in s.pcs && u != t :: !Owns(s.pcs[u], r) && !Plays(s.pcs[u], InHand, r))
      && t in Players(s.pcs, Marked, r)
      && Pooled(s.store, r) && s.closed[r] == 0
  }

  lemma StartInv()
    ensures Inv(START)
  {
    forall r: Ref ensures Places(START, r) == One(r in START.store.objs) {
      assert Players(START.pcs, InHand, r) == {};
      assert IdsOf(START.store.pool, r) == {};
    }
  }

  lemma InvIsSafe(s: State, t: Tid)
    requires Inv(s)
    ensures SafelySolving(s, t)
  {
    if PcOf(s, t).Solving? {
      var r := PcOf(s, t).r;
      MarkedIsCounted(s, t, r);
      var id := s.store.objs[r].sid;
      forall u | u in s.pcs && u != t ensures !Owns(s.pcs[u], r) && !Plays(s.pcs[u], InHand, r) {
        assert Owns(s.pcs[t], r) && s.locks[r] == t;
        assert Owns(s.pcs[u], r) <==> r in s.locks && s.locks[r] == u;
        assert s.store.pool[id] == r;
        PooledIsNotInHand(s, id, u);
      }
      PooledIsNotInHand(s, id, t);
    }
  }

  lemma {:induction false} RunInv(states: seq<State>, actions: seq<Action>)
    requires IsRun(states, actions)
    requires forall a | a in actions :: !Removes(a)
    ensures Inv(states[|actions|])
  {
    if actions == [] {
      StartInv();
    } else {
      var n := |actions| - 1;
      assert IsRun(states[..n + 1], actions[..n]) by {
        forall i | 0 <= i < n ensures IsStep(states[..n + 1][i], actions[..n][i], states[..n + 1][i + 1]) {
          assert IsStep(states[i], actions[i], states[i + 1]);
        }
      }
      RunInv(states[..n + 1], actions[..n]);
      assert IsStep(states[n], actions[n], states[n + 1]);
      StepInv(states[n], actions[n]);
    }
  }

  /** Every interleaving of create, get, end_use, reap_idle and enforce_cap. */
  lemma PoolIsSafe(states: seq<State>, actions: seq<Action>, t: Tid)
    requires IsRun(states, actions)
    requires forall a | a in actions :: !Removes(a)
    ensures var s := states[|actions|]; SafelySolving(s, t) && CountsHolders(s) && MarksArePooled(s) && Conserved(s)
  {
    RunInv(states, actions);
    InvIsSafe(states[|actions|], t);
  }

  // ---- conservation with destroy and discard ----

  predicate WithoutTtl(pc: Pc) {
    match pc
    case Wanting(want) => want.ttl.None?
    case Launching(want) => want.ttl.None?
    case Launched(want, _) => want.ttl.None?
    case Lost(want, _, _) => want.ttl.None?
    case Found(want, _, _) => want.ttl.None?
    case Expired(_, _) => false
    case _ => true
  }

  ghost predicate NoTtl(s: State) {
    forall t | t in s.pcs :: WithoutTtl(s.pcs[t])
  }

  lemma StepNoTtl(s: State, a: Action)
    requires Grounded(s) && NoTtl(s) && Enabled(s, a)
    requires a.Call? ==> a.want.ttl.None?
    ensures NoTtl(Apply(s, a)) && ExpiryTakesItsOwn(s, a)
  {
    StepShape(s, a);
    assert WithoutTtl(PcOf(s, a.t));
    assert WithoutTtl(PcOf(Apply(s, a), a.t));
    forall t | t in Apply(s, a).pcs ensures WithoutTtl(Apply(s, a).pcs[t]) {
      if t != a.t { assert Apply(s, a).pcs[t] == s.pcs[t]; }
    }
  }

  /** With destroy and discard anywhere, as long as no get carries a ttl. */
  lemma {:induction false} BrowsersAreConserved(states: seq<State>, actions: seq<Action>)
    requires IsRun(states, actions)
    requires forall a | a in actions :: a.Call? ==> a.want.ttl.None?
    ensures Conserved(states[|actions|]) && NoTtl(states[|actions|])
  {
    if actions == [] {
      StartInv();
    } else {
      var n := |actions| - 1;
      assert IsRun(states[..n + 1], actions[..n]) by {
        forall i | 0 <= i < n ensures IsStep(states[..n + 1][i], actions[..n][i], states[..n + 1][i + 1]) {
          assert IsStep(states[i], actions[i], states[i + 1]);
        }
      }
      BrowsersAreConserved(states[..n + 1], actions[..n]);
      assert IsStep(states[n], actions[n], states[n + 1]);
      StepNoTtl(states[n], actions[n]);
      ConservedStep(states[n], actions[n]);
    }
  }

  /** The expiry step conserves browsers exactly when its id still finds the session it expires. */
  lemma ExpiryConservesIff(s: State, a: Action)
    requires Conserved(s) && Enabled(s, a) && a.ExpireStep?
    ensures Conserved(Apply(s, a)) <==> ExpiryTakesItsOwn(s, a)
  {
    var r := PcOf(s, a.t).r;
    var s' := Apply(s, a);
    if ExpiryTakesItsOwn(s, a) {
      ConservedStep(s, a);
    } else {
      assert Places(s, r) == One(r in s.store.objs);
      assert r in Cites(s.pcs[a.t]);
      PlayersMove(s, a.t, PcOf(s', a.t), InHand, r);
      assert IdsOf(s'.store.pool, r) == IdsOf(s.store.pool, r);
      assert Places(s', r) == 2;
    }
  }

  /** destroy and discard keep the safety invariant exactly when the session they remove is idle. */
  lemma PopIsSafeIff(s: State, t: Tid, id: Sid)
    requires Inv(s) && PcOf(s, t).Idle?
    ensures Inv(Apply(s, Pop(t, id))) <==> (id in s.store.pool ==> s.store.objs[s.store.pool[id]].inUse == 0)
  {
    var a := Pop(t, id);
    var s' := Apply(s, a);
    if id in s.store.pool {
      var r := s.store.pool[id];
      var ps := Players(s.pcs, Marked, r);
      assert s.store.objs[r].sid == id && s.store.objs[r].inUse == |ps|;
      if |ps| > 0 {
        var u :| u in ps;
        assert u in s'.pcs && Plays(s'.pcs[u], Marked, r);
        assert !Pooled(s'.store, r);
      } else {
        IdlePopInv(s, t, id);
      }
    } else {
      IdlePopInv(s, t, id);
    }
  }

  lemma IdlePopInv(s: State, t: Tid, id: Sid)
    requires Inv(s) && PcOf(s, t).Idle?
    requires id in s.store.pool ==> Players(s.pcs, Marked, s.store.pool[id]) == {}
    ensures Inv(Apply(s, Pop(t, id)))
  {
    ConservedStep(s, Pop(t, id));
    StepLocks(s, Pop(t, id));
    IdlePopMarks(s, t, id);
    IdlePopCounts(s, t, id);
    IdlePopTags(s, t, id);
  }

  lemma IdlePopMarks(s: State, t: Tid, id: Sid)
    requires Inv(s) && PcOf(s, t).Idle?
    requires id in s.store.pool ==> Players(s.pcs, Marked, s.store.pool[id]) == {}
    ensures MarksArePooled(Apply(s, Pop(t, id)))
  {
    var s' := Apply(s, Pop(t, id));
    forall u, r | u in s'.pcs && Plays(s'.pcs[u], Marked, r) ensures Pooled(s'.store, r) {
      assert u != t && s'.pcs[u] == s.pcs[u];
      MarkedIsCounted(s, u, r);
    }
  }

  lemma IdlePopCounts(s: State, t: Tid, id: Sid)
    requires Inv(s) && PcOf(s, t).Idle?
    ensures CountsHolders(Apply(s, Pop(t, id)))
  {
    var s' := Apply(s, Pop(t, id));
    forall other | other in s'.store.pool
      ensures var r := s'.store.pool[other];
              r in s'.store.objs && s'.store.objs[r].sid == other && s'.store.objs[r].inUse == |Players(s'.pcs, Marked, r)|
    {
      assert other in s.store.pool && s.store.pool[other] == s'.store.pool[other];
      IdlePopKeepsMarks(s, t, id, s'.store.pool[other]);
    }
  }

  lemma IdlePopKeepsMarks(s: State, t: Tid, id: Sid, r: Ref)
    requires Grounded(s) && PcOf(s, t).Idle?
    ensures |Players(Apply(s, Pop(t, id)).pcs, Marked, r)| == |Players(s.pcs, Marked, r)|
    ensures Apply(s, Pop(t, id)).store == Remove(s.store, {id})
  {
    PlayersMove(s, t, Apply(s, Pop(t, id)).pcs[t], Marked, r);
  }

  lemma IdlePopTags(s: State, t: Tid, id: Sid)
    requires Inv(s) && PcOf(s, t).Idle?
    ensures Tagged(Apply(s, Pop(t, id)))
  {
    var s' := Apply(s, Pop(t, id));
    forall u | u in s'.pcs ensures TagOk(s'.store, s'.pcs[u]) {
      if u != t { assert TagOk(s.store, s.pcs[u]); }
    }
  }

  // ---- concrete runs outside the theorems ----

  ghost predicate Reaches(actions: seq<Action>, s: State) {
    exists states :: IsRun(states, actions) && states[|actions|] == s
  }

  lemma ReachesStart()
    ensures Reaches([], START)
  {
    assert IsRun([START], []);
  }

  lemma ReachesNext(actions: seq<Action>, s: State, a: Action, s': State)
    requires Reaches(actions, s) && IsStep(s, a, s')
    ensures Reaches(actions + [a], s')
  {
    var states :| IsRun(states, actions) && states[|actions|] == s;
    var longer := states + [s'];
    var both := actions + [a];
    forall i | 0 <= i < |both| ensures IsStep(longer[i], both[i], longer[i + 1]) {
      if i < |actions| { assert IsStep(states[i], actions[i], states[i + 1]); }
    }
    assert IsRun(longer, both);
  }

  const CREATE := Want("a", None, false, None, false)
  const GET := Want("a", None, true, None, false)
  const GET_TTL := Want("a", None, true, Some(1.0), false)

  function Made(inUse: nat): Rec { Rec("a", None, 0.0, 0.0, inUse) }

  /** sessions.create has run once on thread 1: browser 0 is pooled and idle. */
  lemma CreatedOnce() returns (actions: seq<Action>, s: State)
    ensures s == State(Store(map[0 := Made(0)], map["a" := 0]), map[1 := Idle], map[], multiset{})
    ensures Reaches(actions, s)
  {
    ReachesStart();
    var s1 := State(Store(map[], map[]), map[1 := Wanting(CREATE)], map[], multiset{});
    ReachesNext([], START, Call(1, CREATE), s1);
    var s2 := s1.(pcs := map[1 := Launching(CREATE)]);
    ReachesNext([] + [Call(1, CREATE)], s1, FindStep(1, 0.0), s2);
    var s3 := State(Store(map[0 := Made(0)], map[]), map[1 := Launched(CREATE, 0)], map[], multiset{});
    actions := [] + [Call(1, CREATE)] + [FindStep(1, 0.0)];
    ReachesNext(actions, s2, Launch(1, 0, 0.0), s3);
    actions := actions + [Launch(1, 0, 0.0)];
    s := State(Store(map[0 := Made(0)], map["a" := 0]), map[1 := Idle], map[], multiset{});
    ReachesNext(actions, s3, StoreStep(1, 0.0), s);
    actions := actions + [StoreStep(1, 0.0)];
  }

  /** Thread 1's get without a ttl has got the session and its lock. */
  lemma SolvingByGet() returns (actions: seq<Action>, s: State)
    ensures s == State(Store(map[0 := Made(1)], map["a" := 0]), map[1 := Solving(0)], map[0 := 1], multiset{})
    ensures Reaches(actions, s)
  {
    var s0;
    actions, s0 := CreatedOnce();
    var s1 := s0.(pcs := map[1 := Wanting(GET)]);
    ReachesNext(actions, s0, Call(1, GET), s1);
    actions := actions + [Call(1, GET)];
    var s2 := State(Store(map[0 := Made(1)], map["a" := 0]), map[1 := Found(GET, 0, false)], map[], multiset{});
    ReachesNext(actions, s1, FindStep(1, 0.0), s2);
    actions := actions + [FindStep(1, 0.0)];
    var s3 := s2.(pcs := map[1 := Holding(0)]);
    ReachesNext(actions, s2, ExpireStep(1, 0.0), s3);
    actions := actions + [ExpireStep(1, 0.0)];
    s := s3.(pcs := map[1 := Solving(0)], locks := map[0 := 1]);
    ReachesNext(actions, s3, Acquire(1), s);
    actions := actions + [Acquire(1)];
  }

  const DESTROY: seq<Action> := [Pop(2, "a"), Close(2, 0)]   // what destroy and discard do with the session

  /** After CreatedOnce and SolvingByGet, thread 2's destroy has taken the session out of the pool. */
  lemma PoppedWhileSolving() returns (actions: seq<Action>, s: State, popped: State)
    ensures Reaches(actions, s) && PcOf(s, 1) == Solving(0) && s.closed == multiset{}
    ensures Reaches(actions + [DESTROY[0]], popped)
    ensures popped == State(Store(map[0 := Made(1)], map[]), map[1 := Solving(0), 2 := Closing({0})], map[0 := 1], multiset{})
  {
    actions, s := SolvingByGet();
    popped := State(Store(map[0 := Made(1)], map[]), map[1 := Solving(0), 2 := Closing({0})], map[0 := 1], multiset{});
    assert At(s.store, {"a"}) == {0} && s.store.pool - {"a"} == map[];
    ReachesNext(actions, s, Pop(2, "a"), popped);
  }

  /** A destroy that meets a solving request closes the browser under it. */
  lemma DestroyCanCloseABusyBrowser()
    ensures exists actions, before, after ::
              && Reaches(actions, before) && PcOf(before, 1) == Solving(0) && before.closed[0] == 0
              && Reaches(actions + DESTROY, after) && PcOf(after, 1) == Solving(0) && after.closed[0] == 1
  {
    var actions, before, popped := PoppedWhileSolving();
    var after := popped.(pcs := map[1 := Solving(0), 2 := Idle], closed := multiset{0});
    assert {0} - {0} == {};
    ReachesNext(actions + [DESTROY[0]], popped, Close(2, 0), after);
    assert actions + [DESTROY[0]] + [Close(2, 0)] == actions + DESTROY;
  }

  /** Thread 1's get has found the session and claimed it. */
  lemma FoundByGet() returns (actions: seq<Action>, s: State)
    ensures s == State(Store(map[0 := Made(1)], map["a" := 0]), map[1 := Found(GET_TTL, 0, false)], map[], multiset{})
    ensures Reaches(actions, s)
  {
    actions, s := CreatedOnce();
    var s1 := s.(pcs := map[1 := Wanting(GET_TTL)]);
    ReachesNext(actions, s, Call(1, GET_TTL), s1);
    actions := actions + [Call(1, GET_TTL)];
    s := State(Store(map[0 := Made(1)], map["a" := 0]), map[1 := Found(GET_TTL, 0, false)], map[], multiset{});
    ReachesNext(actions, s1, FindStep(1, 0.0), s);
    actions := actions + [FindStep(1, 0.0)];
  }

  /** Thread 2 then takes it out of the pool. */
  lemma FoundThenPopped() returns (actions: seq<Action>, s: State)
    ensures s == State(Store(map[0 := Made(1)], map[]), map[1 := Found(GET_TTL, 0, false), 2 := Closing({0})],
                       map[], multiset{})
    ensures Reaches(actions, s)
  {
    var s0;
    actions, s0 := FoundByGet();
    s := State(Store(map[0 := Made(1)], map[]), map[1 := Found(GET_TTL, 0, false), 2 := Closing({0})], map[], multiset{});
    assert At(s0.store, {"a"}) == {0} && s0.store.pool - {"a"} == map[];
    ReachesNext(actions, s0, Pop(2, "a"), s);
    actions := actions + [Pop(2, "a")];
  }

  /** And closes its browser. */
  lemma FoundThenDestroyed() returns (actions: seq<Action>, s: State)
    ensures s == State(Store(map[0 := Made(1)], map[]), map[1 := Found(GET_TTL, 0, false), 2 := Idle], map[], multiset{0})
    ensures Reaches(actions, s)
  {
    var s0;
    actions, s0 := FoundThenPopped();
    s := State(Store(map[0 := Made(1)], map[]), map[1 := Found(GET_TTL, 0, false), 2 := Idle], map[], multiset{0});
    assert {0} - {0} == {};
    ReachesNext(actions, s0, Close(2, 0), s);
    actions := actions + [Close(2, 0)];
  }

  /** A get with a ttl that races a destroy removes a browser it will never close: nobody has it any more. */
  lemma TtlAndDestroyCanLoseABrowser()
    ensures exists actions, s, r :: Reaches(actions, s) && r in s.store.objs && Places(s, r) == 0
  {
    var actions, s := FoundThenDestroyed();
    actions, s := CreatedAgain(actions, s);
    var lost := s.(store := s.store.(pool := map[]), pcs := s.pcs[1 := Expired(GET_TTL, 0)]);
    assert s.store.pool - {"a"} == map[];
    ReachesNext(actions, s, ExpireStep(1, 5.0), lost);
    assert Players(lost.pcs, InHand, 1) == {} && IdsOf(lost.store.pool, 1) == {};
    assert Places(lost, 1) == 0;
    actions := actions + [ExpireStep(1, 5.0)];
    assert Reaches(actions, lost) && 1 in lost.store.objs;
  }

  /** Thread 2 creates the id again while thread 1 still has the closed session in its hands. */
  lemma CreatedAgain(before: seq<Action>, s: State) returns (actions: seq<Action>, s': State)
    requires Reaches(before, s)
    requires s == State(Store(map[0 := Made(1)], map[]), map[1 := Found(GET_TTL, 0, false), 2 := Idle], map[], multiset{0})
    ensures s' == s.(store := Store(map[0 := Made(1), 1 := Made(0)], map["a" := 1]))
    ensures Reaches(actions, s')
  {
    var s1 := s.(pcs := s.pcs[2 := Wanting(CREATE)]);
    ReachesNext(before, s, Call(2, CREATE), s1);
    actions := before + [Call(2, CREATE)];
    var s2 := s.(pcs := s.pcs[2 := Launching(CREATE)]);
    assert s2.pcs == s1.pcs[2 := Launching(CREATE)];
    ReachesNext(actions, s1, FindStep(2, 0.0), s2);
    actions := actions + [FindStep(2, 0.0)];
    var s3 := s.(store := Store(map[0 := Made(1), 1 := Made(0)], map[]), pcs := s.pcs[2 := Launched(CREATE, 1)]);
    assert s3.pcs == s2.pcs[2 := Launched(CREATE, 1)];
    ReachesNext(actions, s2, Launch(2, 1, 0.0), s3);
    actions := actions + [Launch(2, 1, 0.0)];
    s' := s.(store := Store(map[0 := Made(1), 1 := Made(0)], map["a" := 1]));
    assert s'.pcs == s3.pcs[2 := Idle];
    ReachesNext(actions, s3, StoreStep(2, 0.0), s');
    actions := actions + [StoreStep(2, 0.0)];
  }
}
