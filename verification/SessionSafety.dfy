/**
  What every interleaving of create, get, end_use, reap_idle and enforce_cap
  keeps, and where destroy and discard break it.
 */
module SessionSafety {
  import opened SessionSections
  import opened SessionProtocol

  predicate Owns(pc: Pc, r: Ref) {
    (pc.Solving? || pc.Abandoning?) && pc.r == r
  }

  /** in_use of a pooled session is its number of outstanding holders, and it sits under its own id. */
  ghost predicate CountsHolders(s: State) {
    forall id | id in s.store.pool ::
      var r := s.store.pool[id];
      r in s.store.objs && s.store.objs[r].sid == id && s.store.objs[r].inUse == |Players(s.pcs, Marked, r)|
  }

  ghost predicate Pooled(st: Store<Ref>, r: Ref) {
    r in st.objs && st.objs[r].sid in st.pool && st.pool[st.objs[r].sid] == r
  }

  ghost predicate MarksArePooled(s: State) {
    forall t, r | t in s.pcs && Plays(s.pcs[t], Marked, r) :: Pooled(s.store, r)
  }

  ghost predicate LocksAreHeld(s: State) {
    && (forall t, r | t in s.pcs :: Owns(s.pcs[t], r) <==> r in s.locks && s.locks[r] == t)
    && (forall r | r in s.locks :: s.locks[r] in s.pcs)
  }

  /** A thread's local variables agree with the session they name. */
  ghost predicate TagOk(st: Store<Ref>, pc: Pc) {
    match pc
    case Launched(want, mine) => mine in st.objs && st.objs[mine].sid == want.sid && st.objs[mine].inUse == 0
    case Found(want, r, _) => r in st.objs && st.objs[r].sid == want.sid
    case Lost(want, _, race) => race in st.objs && st.objs[race].sid == want.sid
    case _ => true
  }

  ghost predicate Tagged(s: State) {
    forall t | t in s.pcs :: TagOk(s.store, s.pcs[t])
  }

  ghost predicate Inv(s: State) {
    Conserved(s) && CountsHolders(s) && MarksArePooled(s) && LocksAreHeld(s) && Tagged(s)
  }

  predicate Removes(a: Action) {
    a.Pop? || a.PopAfterTimeout?
  }

  // ---- consequences of conservation ----

  lemma InHandIsNotPooled(s: State, t: Tid, r: Ref)
    requires Conserved(s) && t in s.pcs && Plays(s.pcs[t], InHand, r)
    ensures forall id | id in s.store.pool :: s.store.pool[id] != r
    ensures s.closed[r] == 0
    ensures forall u | u in s.pcs && u != t :: !Plays(s.pcs[u], InHand, r)
  {
    assert Places(s, r) == One(r in s.store.objs);
    var hands := Players(s.pcs, InHand, r);
    assert t in hands && |hands| >= 1;
    OnlyMember(hands, t);
    assert IdsOf(s.store.pool, r) == {};
    forall id | id in s.store.pool ensures s.store.pool[id] != r {
      assert id !in IdsOf(s.store.pool, r);
    }
    forall u | u in s.pcs && u != t ensures !Plays(s.pcs[u], InHand, r) {
      assert u !in hands;
    }
  }

  lemma PooledIsNotInHand(s: State, id: Sid, t: Tid)
    requires Conserved(s) && id in s.store.pool && t in s.pcs
    ensures !Plays(s.pcs[t], InHand, s.store.pool[id])
    ensures s.closed[s.store.pool[id]] == 0
    ensures IdsOf(s.store.pool, s.store.pool[id]) == {id}
  {
    var r := s.store.pool[id];
    assert Places(s, r) == One(r in s.store.objs);
    var ids := IdsOf(s.store.pool, r);
    assert id in ids && |ids| >= 1;
    OnlyMember(ids, id);
    if Plays(s.pcs[t], InHand, r) { InHandIsNotPooled(s, t, r); }
  }

  // ---- each part is kept ----

  lemma StepExpiry(s: State, a: Action)
    requires Inv(s) && Enabled(s, a)
    ensures ExpiryTakesItsOwn(s, a)
  {
    if a.ExpireStep? {
      assert Plays(s.pcs[a.t], Marked, s.pcs[a.t].r);
      assert Pooled(s.store, s.pcs[a.t].r);
      assert TagOk(s.store, s.pcs[a.t]);
    }
  }

  lemma MarkedIsCounted(s: State, t: Tid, r: Ref)
    requires Inv(s) && t in s.pcs && Plays(s.pcs[t], Marked, r)
    ensures Pooled(s.store, r) && t in Players(s.pcs, Marked, r)
    ensures s.store.objs[r].inUse == |Players(s.pcs, Marked, r)| >= 1
    ensures s.store.objs[r].inUse == 1 ==> Players(s.pcs, Marked, r) == {t}
  {
    assert Pooled(s.store, r);
    assert r == s.store.pool[s.store.objs[r].sid];
    var ps := Players(s.pcs, Marked, r);
    assert t in ps;
    if |ps| == 1 { OnlyMember(ps, t); }
  }

  /** A step changes in_use only of a session its thread is marked on, before or after. */
  lemma StepRecords(s: State, a: Action, r: Ref)
    requires Grounded(s) && Enabled(s, a) && r in s.store.objs
    ensures r in Apply(s, a).store.objs && Apply(s, a).store.objs[r].sid == s.store.objs[r].sid
    ensures Apply(s, a).store.objs[r].inUse != s.store.objs[r].inUse ==>
              Plays(PcOf(Apply(s, a), a.t), Marked, r) || Plays(PcOf(s, a.t), Marked, r)
  {
    if a.FindStep? { FindRecords(s, a, r); }
    else if a.StoreStep? { StoreRecords(s, a, r); }
    else if a.ExpireStep? { ExpireRecords(s, a, r); }
    else if a.EndUse? { }
    else { assert r in Apply(s, a).store.objs && Apply(s, a).store.objs[r] == s.store.objs[r]; }
  }

  lemma FindRecords(s: State, a: Action, r: Ref)
    requires Grounded(s) && Enabled(s, a) && r in s.store.objs && a.FindStep?
    ensures r in Apply(s, a).store.objs && Apply(s, a).store.objs[r].sid == s.store.objs[r].sid
    ensures Apply(s, a).store.objs[r].inUse != s.store.objs[r].inUse ==> Plays(PcOf(Apply(s, a), a.t), Marked, r)
  {
  }

  lemma StoreRecords(s: State, a: Action, r: Ref)
    requires Grounded(s) && Enabled(s, a) && r in s.store.objs && a.StoreStep?
    ensures r in Apply(s, a).store.objs && Apply(s, a).store.objs[r].sid == s.store.objs[r].sid
    ensures Apply(s, a).store.objs[r].inUse != s.store.objs[r].inUse ==> Plays(PcOf(Apply(s, a), a.t), Marked, r)
  {
  }

  lemma ExpireRecords(s: State, a: Action, r: Ref)
    requires Grounded(s) && Enabled(s, a) && r in s.store.objs && a.ExpireStep?
    ensures r in Apply(s, a).store.objs && Apply(s, a).store.objs[r].sid == s.store.objs[r].sid
    ensures Apply(s, a).store.objs[r].inUse != s.store.objs[r].inUse ==> Plays(PcOf(s, a.t), Marked, r)
  {
  }

  /** No step takes a session out of the pool from under another thread's mark. */
  lemma OthersKeepTheirs(s: State, a: Action, u: Tid, r: Ref)
    requires Inv(s) && Enabled(s, a) && !Removes(a)
    requires u in s.pcs && u != a.t && Plays(s.pcs[u], Marked, r)
    ensures Pooled(Apply(s, a).store, r)
  {
    MarkedIsCounted(s, u, r);
    StepRecords(s, a, r);
    if a.ExpireStep? { ExpiryLeavesOthers(s, a, u, r); }
  }

  lemma ExpiryLeavesOthers(s: State, a: Action, u: Tid, r: Ref)
    requires Inv(s) && Enabled(s, a) && a.ExpireStep?
    requires u in s.pcs && u != a.t && Plays(s.pcs[u], Marked, r)
    ensures Pooled(Apply(s, a).store, r)
  {
    MarkedIsCounted(s, u, r);
    MarkedIsCounted(s, a.t, s.pcs[a.t].r);
    assert TagOk(s.store, s.pcs[a.t]);
  }

  lemma MoverIsPooled(s: State, a: Action, r: Ref)
    requires Inv(s) && Enabled(s, a) && !Removes(a)
    requires Plays(PcOf(Apply(s, a), a.t), Marked, r)
    ensures Pooled(Apply(s, a).store, r)
  {
    if a.t in s.pcs && Plays(s.pcs[a.t], Marked, r) {
      MarkedStaysPooled(s, a, r);
    } else if a.StoreStep? {
      assert TagOk(s.store, s.pcs[a.t]);
    }
  }

  lemma MarkedStaysPooled(s: State, a: Action, r: Ref)
    requires Inv(s) && Enabled(s, a) && !Removes(a)
    requires a.t in s.pcs && Plays(s.pcs[a.t], Marked, r) && Plays(PcOf(Apply(s, a), a.t), Marked, r)
    ensures Pooled(Apply(s, a).store, r)
  {
    MarkedIsCounted(s, a.t, r);
    StepRecords(s, a, r);
  }

  lemma StepMarks(s: State, a: Action)
    requires Inv(s) && Enabled(s, a) && !Removes(a)
    ensures MarksArePooled(Apply(s, a))
  {
    StepShape(s, a);
    var s' := Apply(s, a);
    forall t, r | t in s'.pcs && Plays(s'.pcs[t], Marked, r) ensures Pooled(s'.store, r) {
      if t == a.t { MoverIsPooled(s, a, r); } else { OthersKeepTheirs(s, a, t, r); }
    }
  }

  /** in_use moves with the mover's mark. */
  ghost predicate CountMoves(s: State, s': State, t: Tid, r: Ref) {
    && r in s.store.objs && r in s'.store.objs
    && s'.store.objs[r].inUse + One(Plays(PcOf(s, t), Marked, r))
    == s.store.objs[r].inUse + One(Plays(PcOf(s', t), Marked, r))
  }

  lemma StoreCount(s: State, a: Action, r: Ref)
    requires Inv(s) && Enabled(s, a) && a.StoreStep? && Pooled(s.store, r)
    ensures CountMoves(s, Apply(s, a), a.t, r)
  {
    InHandIsNotPooled(s, a.t, s.pcs[a.t].mine);
    assert s.store.pool[s.store.objs[r].sid] == r;
  }

  lemma EndUseCount(s: State, a: Action, r: Ref)
    requires Inv(s) && Enabled(s, a) && a.EndUse? && Pooled(s.store, r)
    ensures CountMoves(s, Apply(s, a), a.t, r)
  {
    MarkedIsCounted(s, a.t, s.pcs[a.t].r);
  }

  /** An expiring thread gives its mark up only together with the pooled session. */
  lemma ExpiryCount(s: State, a: Action, r: Ref)
    requires Inv(s) && Enabled(s, a) && a.ExpireStep?
    requires Pooled(s.store, r) && Pooled(Apply(s, a).store, r)
    ensures CountMoves(s, Apply(s, a), a.t, r)
  {
    assert TagOk(s.store, s.pcs[a.t]);
  }

  lemma FindCount(s: State, a: Action, r: Ref)
    requires Inv(s) && Enabled(s, a) && (a.FindStep? || a.Launch?) && r in s.store.objs
    ensures CountMoves(s, Apply(s, a), a.t, r)
  {
  }

  lemma OtherCount(s: State, a: Action, r: Ref)
    requires Inv(s) && Enabled(s, a) && !Removes(a) && r in s.store.objs
    requires !a.StoreStep? && !a.EndUse? && !a.ExpireStep? && !a.FindStep? && !a.Launch?
    ensures CountMoves(s, Apply(s, a), a.t, r)
  {
    assert Apply(s, a).store.objs == s.store.objs;
    SameMark(s, a, r);
  }

  lemma SameMark(s: State, a: Action, r: Ref)
    requires Grounded(s) && Enabled(s, a) && !Removes(a)
    requires !a.StoreStep? && !a.EndUse? && !a.ExpireStep? && !a.FindStep? && !a.Launch?
    ensures Plays(PcOf(Apply(s, a), a.t), Marked, r) <==> Plays(PcOf(s, a.t), Marked, r)
  {
  }

  lemma NewlyPooled(s: State, a: Action, id: Sid)
    requires Inv(s) && Enabled(s, a) && !Removes(a)
    requires id in Apply(s, a).store.pool
    ensures id !in s.store.pool || s.store.pool[id] != Apply(s, a).store.pool[id] ==>
              && a.StoreStep? && PcOf(s, a.t).want.sid == id && id !in s.store.pool
              && Apply(s, a).store.pool[id] == PcOf(s, a.t).mine
  {
  }

  lemma StepCounts(s: State, a: Action)
    requires Inv(s) && Enabled(s, a) && !Removes(a)
    ensures CountsHolders(Apply(s, a))
  {
    StepShape(s, a);
    StepMarks(s, a);
    var s' := Apply(s, a);
    forall id | id in s'.store.pool
      ensures var r := s'.store.pool[id];
              r in s'.store.objs && s'.store.objs[r].sid == id && s'.store.objs[r].inUse == |Players(s'.pcs, Marked, r)|
    {
      var r := s'.store.pool[id];
      NewlyPooled(s, a, id);
      PlayersMove(s, a.t, s'.pcs[a.t], Marked, r);
      if id in s.store.pool && s.store.pool[id] == r {
        StepRecords(s, a, r);
        if a.StoreStep? {
          StoreCount(s, a, r);
        } else if a.EndUse? {
          EndUseCount(s, a, r);
        } else if a.ExpireStep? {
          ExpiryCount(s, a, r);
        } else if a.FindStep? || a.Launch? {
          FindCount(s, a, r);
        } else {
          OtherCount(s, a, r);
        }
      } else {
        assert TagOk(s.store, s.pcs[a.t]);
        UnpooledIsUnmarked(s, r, a.t);
        StoredCount(s, a);
      }
    }
  }

  lemma UnpooledIsUnmarked(s: State, r: Ref, t: Tid)
    requires Inv(s) && t in s.pcs && Plays(s.pcs[t], InHand, r)
    ensures Players(s.pcs, Marked, r) == {}
  {
    InHandIsNotPooled(s, t, r);
    assert !Pooled(s.store, r);
  }

  lemma StoredCount(s: State, a: Action)
    requires Inv(s) && Enabled(s, a) && a.StoreStep? && s.pcs[a.t].want.sid !in s.store.pool
    ensures var s' := Apply(s, a); var mine := s.pcs[a.t].mine;
            && mine in s'.store.objs && s'.store.objs[mine].sid == s.pcs[a.t].want.sid
            && s'.store.objs[mine].inUse == One(Plays(PcOf(s', a.t), Marked, mine))
  {
    assert TagOk(s.store, s.pcs[a.t]);
  }

  /** The lock table changes by exactly what the mover's ownership changes by. */
  lemma LockTableMoves(s: State, a: Action)
    requires Grounded(s) && Enabled(s, a)
    ensures Apply(s, a).locks == (if a.Acquire? then s.locks[s.pcs[a.t].r := a.t]
                                  else if a.Release? then s.locks - {s.pcs[a.t].r} else s.locks)
  {
  }

  lemma OwnershipMoves(s: State, a: Action, r: Ref)
    requires Grounded(s) && Enabled(s, a)
    ensures Owns(PcOf(Apply(s, a), a.t), r) <==>
              !a.Release? && (Owns(PcOf(s, a.t), r) || (a.Acquire? && r == s.pcs[a.t].r))
  {
  }

  lemma LockIsHeld(s: State, a: Action, s': State, t: Tid, r: Ref)
    requires LocksAreHeld(s) && Grounded(s) && Enabled(s, a) && s' == Apply(s, a) && t in s'.pcs
    ensures Owns(s'.pcs[t], r) <==> r in s'.locks && s'.locks[r] == t
  {
    LockTableMoves(s, a);
    if t == a.t { MoversLockIsHeld(s, a, r); } else { OthersLockIsHeld(s, a, t, r); }
  }

  lemma MoversLockIsHeld(s: State, a: Action, r: Ref)
    requires LocksAreHeld(s) && Grounded(s) && Enabled(s, a)
    ensures var s' := Apply(s, a); Owns(PcOf(s', a.t), r) <==> r in s'.locks && s'.locks[r] == a.t
  {
    LockTableMoves(s, a);
    OwnershipMoves(s, a, r);
    if a.t in s.pcs { assert Owns(s.pcs[a.t], r) <==> r in s.locks && s.locks[r] == a.t; }
    if a.Release? { assert Owns(s.pcs[a.t], s.pcs[a.t].r); }
  }

  lemma OthersLockIsHeld(s: State, a: Action, t: Tid, r: Ref)
    requires LocksAreHeld(s) && Grounded(s) && Enabled(s, a) && t in s.pcs && t != a.t
    ensures var s' := Apply(s, a); t in s'.pcs && (Owns(s'.pcs[t], r) <==> r in s'.locks && s'.locks[r] == t)
  {
    StepShape(s, a);
    LockTableMoves(s, a);
    assert Owns(s.pcs[t], r) <==> r in s.locks && s.locks[r] == t;
    if a.Release? { assert Owns(s.pcs[a.t], s.pcs[a.t].r); }
  }

  lemma EachLockIsHeld(s: State, a: Action, s': State)
    requires LocksAreHeld(s) && Grounded(s) && Enabled(s, a) && s' == Apply(s, a)
    ensures forall t, r | t in s'.pcs :: Owns(s'.pcs[t], r) <==> r in s'.locks && s'.locks[r] == t
  {
    forall t, r | t in s'.pcs ensures Owns(s'.pcs[t], r) <==> r in s'.locks && s'.locks[r] == t {
      LockIsHeld(s, a, s', t, r);
    }
  }

  lemma StepLocks(s: State, a: Action)
    requires Inv(s) && Enabled(s, a)
    ensures LocksAreHeld(Apply(s, a))
  {
    EachLockIsHeld(s, a, Apply(s, a));
    HoldersAreThreads(s, a, Apply(s, a));
  }

  lemma HoldersAreThreads(s: State, a: Action, s': State)
    requires LocksAreHeld(s) && Grounded(s) && Enabled(s, a) && s' == Apply(s, a)
    ensures forall r | r in s'.locks :: s'.locks[r] in s'.pcs
  {
    StepShape(s, a);
    LockTableMoves(s, a);
  }

  lemma MoverIsTagged(s: State, a: Action)
    requires Inv(s) && Enabled(s, a) && !Removes(a)
    ensures TagOk(Apply(s, a).store, PcOf(Apply(s, a), a.t))
  {
    if a.t in s.pcs { assert TagOk(s.store, s.pcs[a.t]); }
  }

  lemma StepTags(s: State, a: Action)
    requires Inv(s) && Enabled(s, a) && !Removes(a)
    ensures Tagged(Apply(s, a))
  {
    StepShape(s, a);
    StepMarks(s, a);
    MoverIsTagged(s, a);
    var s' := Apply(s, a);
    forall t | t in s'.pcs ensures TagOk(s'.store, s'.pcs[t]) {
      if t != a.t {
        OthersStayTagged(s, a, t);
      }
    }
  }

  lemma OthersStayTagged(s: State, a: Action, t: Tid)
    requires Inv(s) && Enabled(s, a) && !Removes(a) && t in s.pcs && t != a.t
    requires MarksArePooled(Apply(s, a))
    ensures TagOk(Apply(s, a).store, s.pcs[t])
  {
    assert TagOk(s.store, s.pcs[t]);
    StepShape(s, a);
    match s.pcs[t]
    case Launched(want, mine) =>
      StepRecords(s, a, mine);
      StepExpiry(s, a);
      ConservedStep(s, a);
      InHandIsNotPooled(s, t, mine);
      InHandIsNotPooled(Apply(s, a), t, mine);
    case Found(want, r, _) => StepRecords(s, a, r);
    case Lost(want, _, race) => StepRecords(s, a, race);
    case _ =>
  }

  lemma StepInv(s: State, a: Action)
    requires Inv(s) && Enabled(s, a) && !Removes(a)
    ensures Inv(Apply(s, a))
  {
    StepExpiry(s, a);
    ConservedStep(s, a);
    StepMarks(s, a);
    StepCounts(s, a);
    StepLocks(s, a);
    StepTags(s, a);
  }
}
