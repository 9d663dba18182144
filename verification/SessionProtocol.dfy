/**
  The session pool as a concurrent protocol: any number of request threads, API
  threads and reaper passes interleave at the granularity of lock sections
  (src/sessions.py together with the skeleton of both engines' solve).
 */
module SessionProtocol {
  import opened Basics
  import opened SessionSections

  /** A session object and the browser it was built around. */
  type Ref = nat
  type Tid = nat

  /** What a call to create or get is after. Only get passes a ttl, and get always claims. */
  datatype Want = Want(sid: Sid, proxy: Proxy, claim: bool, ttl: Option<real>, rebuild: bool)

  /** Where a thread is between two lock sections. */
  datatype Pc =
    | Idle
    | Wanting(want: Want)                        // create called, first section not yet entered
    | Launching(want: Want)                      // building a browser, outside the lock
    | Launched(want: Want, mine: Ref)            // browser up, second section not yet entered
    | Lost(want: Want, mine: Ref, race: Ref)     // another thread stored first; ours is to be closed
    | Found(want: Want, r: Ref, isNew: bool)     // create returned to get; expiry not yet decided
    | Expired(want: Want, r: Ref)                // taken out of the pool; to be closed
    | Holding(r: Ref)                            // get returned; the session's own lock not yet held
    | Solving(r: Ref)                            // between acquire and release
    | Abandoning(r: Ref, todo: set<Ref>)         // a timed-out solve discarding its session, lock still held
    | Releasing(r: Ref)                          // end_use still due
    | Closing(todo: set<Ref>)                    // removed from the pool; to be closed

  datatype State = State(
    store: Store<Ref>,
    pcs: map<Tid, Pc>,
    locks: map<Ref, Tid>,
    closed: multiset<Ref>)   // one entry per teardown

  datatype Action =
    | Call(t: Tid, want: Want)
    | FindStep(t: Tid, now: real)
    | Launch(t: Tid, r: Ref, now: real)
    | LaunchFails(t: Tid)
    | StoreStep(t: Tid, now: real)
    | CloseLost(t: Tid)
    | ExpireStep(t: Tid, now: real)
    | CloseExpired(t: Tid)
    | Acquire(t: Tid)
    | AcquireTimesOut(t: Tid)
    | Release(t: Tid)
    | EndUse(t: Tid, now: real)
    | ReapIdle(t: Tid, ttl: real, now: real)
    | EnforceCap(t: Tid, max: int, victims: set<Sid>)
    | Pop(t: Tid, id: Sid)          // discard, and destroy
    | PopAfterTimeout(t: Tid)       // the Chrome engine's discard from inside solve
    | Close(t: Tid, r: Ref)

  function PcOf(s: State, t: Tid): Pc {
    if t in s.pcs then s.pcs[t] else Idle
  }

  /** What create hands back to its caller. */
  function Returned(want: Want, r: Ref, isNew: bool): Pc {
    if !want.claim then Idle
    else if want.rebuild then Holding(r)
    else Found(want, r, isNew)
  }

  ghost predicate Enabled(s: State, a: Action) {
    match a
    case Call(t, want) => PcOf(s, t).Idle? && !want.rebuild && (want.ttl.Some? ==> want.claim)
    case FindStep(t, _) => PcOf(s, t).Wanting?
    case Launch(t, r, _) => PcOf(s, t).Launching? && r !in s.store.objs
    case LaunchFails(t) => PcOf(s, t).Launching?
    case StoreStep(t, _) => PcOf(s, t).Launched?
    case CloseLost(t) => PcOf(s, t).Lost?
    case ExpireStep(t, _) => PcOf(s, t).Found?
    case CloseExpired(t) => PcOf(s, t).Expired?
    case Acquire(t) => PcOf(s, t).Holding? && PcOf(s, t).r !in s.locks
    case AcquireTimesOut(t) => PcOf(s, t).Holding?
    case Release(t) => PcOf(s, t).Solving? || (PcOf(s, t).Abandoning? && PcOf(s, t).todo == {})
    case EndUse(t, _) => PcOf(s, t).Releasing?
    case ReapIdle(t, _, _) => PcOf(s, t).Idle?
    case EnforceCap(t, max, victims) => PcOf(s, t).Idle? && WellFormed(s.store) && CapChoice(s.store, max, victims)
    case Pop(t, _) => PcOf(s, t).Idle?
    case PopAfterTimeout(t) => PcOf(s, t).Solving?
    case Close(t, r) => (PcOf(s, t).Closing? || PcOf(s, t).Abandoning?) && r in PcOf(s, t).todo
  }

  function At1(s: State, t: Tid, pc: Pc): State {
    s.(pcs := s.pcs[t := pc])
  }

  function Taking(s: State, t: Tid, ids: set<Sid>): State {
    var todo := At(s.store, ids);
    At1(s.(store := Remove(s.store, ids)), t, if todo == {} then Idle else Closing(todo))
  }

  /** The sessions a thread has in its local variables. */
  function Cites(pc: Pc): set<Ref> {
    match pc
    case Launched(_, mine) => {mine}
    case Lost(_, mine, race) => {mine, race}
    case Found(_, r, _) => {r}
    case Expired(_, r) => {r}
    case Holding(r) => {r}
    case Solving(r) => {r}
    case Abandoning(r, todo) => {r} + todo
    case Releasing(r) => {r}
    case Closing(todo) => todo
    case _ => {}
  }

  ghost predicate Grounded(s: State) {
    && WellFormed(s.store)
    && forall t | t in s.pcs :: Cites(s.pcs[t]) <= s.store.objs.Keys
  }

  ghost function Apply(s: State, a: Action): State
    requires Grounded(s) && Enabled(s, a)
  {
    match a
    case Call(t, want) => At1(s, t, Wanting(want))
    case FindStep(t, now) =>
      var want := PcOf(s, t).want;
      var pc := if want.sid in s.store.pool then Returned(want, s.store.pool[want.sid], false) else Launching(want);
      At1(s.(store := FindSection(s.store, want.sid, want.claim, now)), t, pc)
    case Launch(t, r, now) =>
      var want := PcOf(s, t).want;
      At1(s.(store := s.store.(objs := s.store.objs[r := Rec(want.sid, want.proxy, now, now, 0)])), t, Launched(want, r))
    case LaunchFails(t) => At1(s, t, Idle)
    case StoreStep(t, now) =>
      var Launched(want, mine) := PcOf(s, t);
      var pc := if want.sid in s.store.pool then Lost(want, mine, s.store.pool[want.sid]) else Returned(want, mine, true);
      At1(s.(store := StoreSection(s.store, want.sid, mine, want.claim, now)), t, pc)
    case CloseLost(t) =>
      var Lost(want, mine, race) := PcOf(s, t);
      At1(s.(closed := s.closed + multiset{mine}), t, Returned(want, race, false))
    case ExpireStep(t, now) =>
      var Found(want, r, isNew) := PcOf(s, t);
      var pc := if Expires(s.store.objs[r], isNew, want.ttl, now) then Expired(want, r) else Holding(r);
      At1(s.(store := ExpireSection(s.store, want.sid, r, isNew, want.ttl, now)), t, pc)
    case CloseExpired(t) =>
      var Expired(want, r) := PcOf(s, t);
      At1(s.(closed := s.closed + multiset{r}), t,
          Wanting(want.(proxy := s.store.objs[r].proxy, rebuild := true)))
    case Acquire(t) => At1(s.(locks := s.locks[PcOf(s, t).r := t]), t, Solving(PcOf(s, t).r))
    case AcquireTimesOut(t) => At1(s, t, Releasing(PcOf(s, t).r))
    case Release(t) => At1(s.(locks := s.locks - {PcOf(s, t).r}), t, Releasing(PcOf(s, t).r))
    case EndUse(t, now) => At1(s.(store := EndUseSection(s.store, PcOf(s, t).r, now)), t, Idle)
    case ReapIdle(t, ttl, now) => Taking(s, t, Stale(s.store, ttl, now))
    case EnforceCap(t, _, victims) => Taking(s, t, victims)
    case Pop(t, id) => Taking(s, t, {id})
    case PopAfterTimeout(t) =>
      var r := PcOf(s, t).r;
      var id := s.store.objs[r].sid;
      At1(s.(store := Remove(s.store, {id})), t, Abandoning(r, At(s.store, {id})))
    case Close(t, r) =>
      var pc := PcOf(s, t);
      var left := pc.todo - {r};
      At1(s.(closed := s.closed + multiset{r}), t,
          if pc.Abandoning? then pc.(todo := left) else if left == {} then Idle else Closing(left))
  }

  // ---- the two ways a thread can be attached to a session ----

  datatype Role = InHand | Marked

  /** InHand: the thread alone must store or close the browser. Marked: it counts in in_use. */
  predicate Plays(pc: Pc, role: Role, r: Ref) {
    match role
    case InHand => (
      match pc
      case Launched(_, mine) => r == mine
      case Lost(_, mine, _) => r == mine
      case Expired(_, x) => r == x
      case Closing(todo) => r in todo
      case Abandoning(_, todo) => r in todo
      case _ => false)
    case Marked => (
      match pc
      case Lost(want, _, race) => want.claim && r == race
      case Found(_, x, _) => r == x
      case Holding(x) => r == x
      case Solving(x) => r == x
      case Abandoning(x, _) => r == x
      case Releasing(x) => r == x
      case _ => false)
  }

  function Players(pcs: map<Tid, Pc>, role: Role, r: Ref): set<Tid> {
    set t | t in pcs && Plays(pcs[t], role, r)
  }

  function One(b: bool): nat { if b then 1 else 0 }

  lemma PlayersMove(s: State, t: Tid, pc: Pc, role: Role, r: Ref)
    ensures |Players(s.pcs[t := pc], role, r)|
         == |Players(s.pcs, role, r)| - One(Plays(PcOf(s, t), role, r)) + One(Plays(pc, role, r))
  {
    var before := Players(s.pcs, role, r);
    var after := Players(s.pcs[t := pc], role, r);
    assert after == (before - {t}) + (if Plays(pc, role, r) then {t} else {});
    assert t in before <==> Plays(PcOf(s, t), role, r);
  }

  function IdsOf(pool: map<Sid, Ref>, r: Ref): set<Sid> {
    set id | id in pool && pool[id] == r
  }

  // ---- conservation ----

  /** In how many places a browser is: a thread's hands, a pooled id, closed. */
  function Places(s: State, r: Ref): nat {
    |Players(s.pcs, InHand, r)| + |IdsOf(s.store.pool, r)| + s.closed[r]
  }

  /** Every browser ever built is in exactly one place, and nothing else is anywhere. */
  ghost predicate Conserved(s: State) {
    && Grounded(s)
    && forall r: Ref :: Places(s, r) == One(r in s.store.objs)
  }

  lemma IdsInsert(pool: map<Sid, Ref>, id: Sid, mine: Ref, r: Ref)
    requires id !in pool
    ensures |IdsOf(pool[id := mine], r)| == |IdsOf(pool, r)| + One(r == mine)
  {
    assert IdsOf(pool[id := mine], r) == IdsOf(pool, r) + (if r == mine then {id} else {});
  }

  lemma IdsRemove(st: Store<Ref>, ids: set<Sid>, r: Ref)
    requires |IdsOf(st.pool, r)| <= 1
    ensures |IdsOf(Remove(st, ids).pool, r)| == |IdsOf(st.pool, r)| - One(r in At(st, ids))
  {
    var before := IdsOf(st.pool, r);
    assert IdsOf(Remove(st, ids).pool, r) == before - ids;
    if r in At(st, ids) {
      var id :| id in ids && id in st.pool && st.pool[id] == r;
      assert id in before;
      OnlyMember(before, id);
    } else {
      assert before - ids == before;
    }
  }

  lemma OnlyMember<T>(s: set<T>, x: T)
    requires x in s && |s| <= 1
    ensures s == {x}
  {
    assert |s - {x}| == 0;
  }

  /** The one step that can break conservation: it removes whatever its id finds. */
  ghost predicate ExpiryTakesItsOwn(s: State, a: Action)
    requires Grounded(s) && Enabled(s, a)
  {
    a.ExpireStep? ==>
      var Found(want, r, isNew) := PcOf(s, a.t);
      Expires(s.store.objs[r], isNew, want.ttl, a.now) ==> want.sid in s.store.pool && s.store.pool[want.sid] == r
  }

  /** The store after a step, before the thread moves on. */
  lemma StepShape(s: State, a: Action)
    requires Grounded(s) && Enabled(s, a)
    ensures var s' := Apply(s, a); a.t in s'.pcs && s'.pcs == s.pcs[a.t := s'.pcs[a.t]]
    ensures s.store.objs.Keys <= Apply(s, a).store.objs.Keys
    ensures WellFormed(Apply(s, a).store)
  {
  }

  lemma StepCites(s: State, a: Action)
    requires Grounded(s) && Enabled(s, a)
    ensures Cites(PcOf(Apply(s, a), a.t)) <= Apply(s, a).store.objs.Keys
  {
    if a.t in s.pcs {
      assert Cites(s.pcs[a.t]) <= s.store.objs.Keys;
    }
    if a.ReapIdle? || a.EnforceCap? || a.Pop? || a.PopAfterTimeout? {
      RemovalCites(s, a);
    }
  }

  lemma RemovalCites(s: State, a: Action)
    requires Grounded(s) && Enabled(s, a) && (a.ReapIdle? || a.EnforceCap? || a.Pop? || a.PopAfterTimeout?)
    ensures Cites(PcOf(Apply(s, a), a.t)) <= Apply(s, a).store.objs.Keys
  {
    if a.t in s.pcs {
      assert Cites(s.pcs[a.t]) <= s.store.objs.Keys;
    }
    forall r | r in Cites(PcOf(Apply(s, a), a.t)) ensures r in s.store.objs {
      if a.PopAfterTimeout? && r == PcOf(s, a.t).r {
      } else {
        assert exists id :: id in s.store.pool && s.store.pool[id] == r;
      }
    }
  }

  lemma StepGrounded(s: State, a: Action)
    requires Grounded(s) && Enabled(s, a)
    ensures Grounded(Apply(s, a))
  {
    StepShape(s, a);
    StepCites(s, a);
    var s' := Apply(s, a);
    forall t | t in s'.pcs ensures Cites(s'.pcs[t]) <= s'.store.objs.Keys {
      if t != a.t {
        assert s'.pcs[t] == s.pcs[t];
      }
    }
  }

  /** What leaves one place arrives in another, for the one browser `r`. */
  ghost predicate Balanced(s: State, s': State, t: Tid, r: Ref) {
    && t in s'.pcs && s'.pcs == s.pcs[t := s'.pcs[t]]
    && One(Plays(PcOf(s, t), InHand, r)) + |IdsOf(s.store.pool, r)| + s.closed[r] + One(r in s'.store.objs)
    == One(Plays(s'.pcs[t], InHand, r)) + |IdsOf(s'.store.pool, r)| + s'.closed[r] + One(r in s.store.objs)
  }

  lemma BalancedConserves(s: State, s': State, t: Tid)
    requires Conserved(s) && Grounded(s')
    requires forall r: Ref :: Balanced(s, s', t, r)
    ensures Conserved(s')
  {
    forall r: Ref ensures Places(s', r) == One(r in s'.store.objs) {
      assert Places(s, r) == One(r in s.store.objs);
      assert Balanced(s, s', t, r);
      PlayersMove(s, t, s'.pcs[t], InHand, r);
    }
  }

  predicate TakesFromPool(a: Action) {
    a.ReapIdle? || a.EnforceCap? || a.Pop? || a.PopAfterTimeout?
  }

  /** Removing ids moves exactly the browsers they found into the remover's hands. */
  lemma RemovalBalances(s: State, t: Tid, ids: set<Sid>, pc: Pc, r: Ref)
    requires Conserved(s) && !Plays(PcOf(s, t), InHand, r)
    requires Plays(pc, InHand, r) <==> r in At(s.store, ids)
    ensures Balanced(s, At1(s.(store := Remove(s.store, ids)), t, pc), t, r)
  {
    assert Places(s, r) == One(r in s.store.objs);
    IdsRemove(s.store, ids, r);
  }

  lemma TakingBalances(s: State, t: Tid, ids: set<Sid>, r: Ref)
    requires Conserved(s) && PcOf(s, t).Idle?
    ensures Balanced(s, Taking(s, t, ids), t, r)
  {
    var todo := At(s.store, ids);
    RemovalBalances(s, t, ids, if todo == {} then Idle else Closing(todo), r);
  }

  lemma TimeoutPopBalances(s: State, a: Action, r: Ref)
    requires Conserved(s) && Enabled(s, a) && a.PopAfterTimeout?
    ensures Balanced(s, Apply(s, a), a.t, r)
  {
    var mine := PcOf(s, a.t).r;
    var ids := {s.store.objs[mine].sid};
    RemovalBalances(s, a.t, ids, Abandoning(mine, At(s.store, ids)), r);
  }

  lemma ExpiryBalances(s: State, a: Action, r: Ref)
    requires Conserved(s) && Enabled(s, a) && a.ExpireStep? && ExpiryTakesItsOwn(s, a)
    ensures Balanced(s, Apply(s, a), a.t, r)
  {
    assert Places(s, r) == One(r in s.store.objs);
    StepShape(s, a);
    var want := PcOf(s, a.t).want;
    if PcOf(Apply(s, a), a.t).Expired? {
      IdsRemove(s.store, {want.sid}, r);
      assert At(s.store, {want.sid}) == {PcOf(s, a.t).r};
    }
  }

  lemma StoringBalances(s: State, a: Action, r: Ref)
    requires Conserved(s) && Enabled(s, a) && a.StoreStep?
    ensures Balanced(s, Apply(s, a), a.t, r)
  {
    StepShape(s, a);
    var Launched(want, mine) := PcOf(s, a.t);
    if want.sid !in s.store.pool {
      IdsInsert(s.store.pool, want.sid, mine, r);
    }
  }

  predicate Closes(a: Action) {
    a.CloseLost? || a.CloseExpired? || a.Close?
  }

  lemma CloseBalances(s: State, a: Action, r: Ref)
    requires Conserved(s) && Enabled(s, a) && a.Close?
    ensures Balanced(s, Apply(s, a), a.t, r)
  {
    assert Apply(s, a).closed[r] == s.closed[r] + One(r == a.r);
  }

  lemma CloseOneBalances(s: State, a: Action, r: Ref)
    requires Conserved(s) && Enabled(s, a) && (a.CloseLost? || a.CloseExpired?)
    ensures Balanced(s, Apply(s, a), a.t, r)
  {
  }

  lemma LaunchBalances(s: State, a: Action, r: Ref)
    requires Conserved(s) && Enabled(s, a) && a.Launch?
    ensures Balanced(s, Apply(s, a), a.t, r)
  {
  }

  lemma QuietStepBalances(s: State, a: Action, r: Ref)
    requires Conserved(s) && Enabled(s, a)
    requires !TakesFromPool(a) && !Closes(a) && !a.ExpireStep? && !a.StoreStep? && !a.Launch?
    ensures Balanced(s, Apply(s, a), a.t, r)
  {
  }

  lemma ConservedStep(s: State, a: Action)
    requires Conserved(s) && Enabled(s, a) && ExpiryTakesItsOwn(s, a)
    ensures Conserved(Apply(s, a))
  {
    StepGrounded(s, a);
    forall r: Ref ensures Balanced(s, Apply(s, a), a.t, r) {
      if a.ReapIdle? {
        TakingBalances(s, a.t, Stale(s.store, a.ttl, a.now), r);
      } else if a.EnforceCap? {
        TakingBalances(s, a.t, a.victims, r);
      } else if a.Pop? {
        TakingBalances(s, a.t, {a.id}, r);
      } else if a.PopAfterTimeout? {
        TimeoutPopBalances(s, a, r);
      } else if Closes(a) {
        if a.Close? { CloseBalances(s, a, r); } else { CloseOneBalances(s, a, r); }
      } else if a.Launch? {
        LaunchBalances(s, a, r);
      } else if a.ExpireStep? {
        ExpiryBalances(s, a, r);
      } else if a.StoreStep? {
        StoringBalances(s, a, r);
      } else {
        QuietStepBalances(s, a, r);
      }
    }
    BalancedConserves(s, Apply(s, a), a.t);
  }
}
