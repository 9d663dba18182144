/** Single flight and genuine hits, over every interleaving of handlers. */
module SingleFlightRuns {
  import opened Basics
  import opened PassthroughCache
  import opened SingleFlight

  lemma GenuineGrows(cfg: Config, solves: seq<Solve>, more: seq<Solve>, n: nat, m: nat, path: Path, e: Cached)
    requires Genuine(cfg, solves, n, path, e) && solves <= more && n <= m
    ensures Genuine(cfg, more, m, path, e)
  {
    var i :| 0 <= i < n && i < |solves| && Cacheable(cfg.ttl, solves[i]) && SolvedFor(cfg, solves[i], path)
             && solves[i].answer == Answer(e.status, e.body, e.contentType);
    assert more[i] == solves[i];
  }

  lemma StepCache(cfg: Config, s: State, a: Action, p: Path)
    requires Inv(cfg, s) && Enabled(cfg, s, a) && p in Apply(cfg, s, a).cache
    ensures var s' := Apply(cfg, s, a); Genuine(cfg, s'.solves, |s'.solves|, p, s'.cache[p])
  {
    if p in s.cache && Apply(cfg, s, a).cache[p] == s.cache[p] {
      StepShape(cfg, s, a);
      var s' := Apply(cfg, s, a);
      GenuineGrows(cfg, s.solves, s'.solves, |s.solves|, |s'.solves|, p, s.cache[p]);
    } else {
      assert PcSound(cfg, s, a.t, PcOf(s, a.t));
      if !a.CacheStep? { OnlyStoringMovesTheCache(cfg, s, a); }
      NewEntryIsGenuine(cfg, s, a, p);
    }
  }

  lemma OnlyStoringMovesTheCache(cfg: Config, s: State, a: Action)
    requires Enabled(cfg, s, a) && !a.CacheStep?
    ensures Apply(cfg, s, a).cache == s.cache
  {
  }

  /** An entry the step put in is the page its own solve returned. */
  lemma NewEntryIsGenuine(cfg: Config, s: State, a: Action, p: Path)
    requires Enabled(cfg, s, a) && a.CacheStep? && PcSound(cfg, s, a.t, PcOf(s, a.t))
    requires p in Apply(cfg, s, a).cache && (p !in s.cache || Apply(cfg, s, a).cache[p] != s.cache[p])
    ensures var s' := Apply(cfg, s, a); Genuine(cfg, s'.solves, |s'.solves|, p, s'.cache[p])
  {
    assert Cacheable(cfg.ttl, s.solves[PcOf(s, a.t).solve]) && p == PcOf(s, a.t).path;
  }

  lemma MoverSound(cfg: Config, s: State, a: Action)
    requires Inv(cfg, s) && Enabled(cfg, s, a)
    ensures PcSound(cfg, Apply(cfg, s, a), a.t, PcOf(Apply(cfg, s, a), a.t))
  {
    if a.t in s.pcs { assert PcSound(cfg, s, a.t, s.pcs[a.t]); }
    if a.Decide? {
      var path := PcOf(s, a.t).path;
      if path in s.inflight { assert IsOwned(s, path); }
      DeciderSound(cfg, s, a);
    } else {
      OnwardSound(cfg, s, a);
    }
  }

  lemma OnwardSound(cfg: Config, s: State, a: Action)
    requires Enabled(cfg, s, a) && !a.Decide? && PcSound(cfg, s, a.t, PcOf(s, a.t))
    ensures PcSound(cfg, Apply(cfg, s, a), a.t, PcOf(Apply(cfg, s, a), a.t))
  {
    RoutedOnward(cfg, s, a);
  }

  lemma DeciderSound(cfg: Config, s: State, a: Action)
    requires Enabled(cfg, s, a) && a.Decide? && PcSound(cfg, s, a.t, PcOf(s, a.t))
    requires var path := PcOf(s, a.t).path;
             && (path in s.inflight ==> IsOwned(s, path))
             && (path in s.cache ==> Genuine(cfg, s.solves, |s.solves|, path, s.cache[path]))
    ensures PcSound(cfg, Apply(cfg, s, a), a.t, PcOf(Apply(cfg, s, a), a.t))
  {
  }

  /** A path a thread works on was routable when it arrived. */
  lemma RoutedOnward(cfg: Config, s: State, a: Action)
    requires Enabled(cfg, s, a) && Routed(cfg, PcOf(s, a.t))
    ensures Routed(cfg, PcOf(Apply(cfg, s, a), a.t))
  {
  }

  predicate Routed(cfg: Config, pc: Pc) {
    Attends(pc) || pc.Deciding? ==> cfg.target(pc.path).Some?
  }

  lemma OtherSound(cfg: Config, s: State, a: Action, t: Tid)
    requires Inv(cfg, s) && Enabled(cfg, s, a) && t in s.pcs
    ensures PcSound(cfg, Apply(cfg, s, a), t, s.pcs[t])
  {
    assert PcSound(cfg, s, t, s.pcs[t]);
    StepShape(cfg, s, a);
    var s' := Apply(cfg, s, a);
    match s.pcs[t]
    case Hitting(path, now, entry) => GenuineGrows(cfg, s.solves, s'.solves, |s.solves|, |s'.solves|, path, entry);
    case Waiting(path, k) => StepSlot(cfg, s, a, k);
    case _ =>
  }

  lemma StepAnswer(cfg: Config, s: State, a: Action, k: SlotId)
    requires Inv(cfg, s) && Enabled(cfg, s, a) && k in Apply(cfg, s, a).slots
    ensures AnswerIsSolved(cfg, Apply(cfg, s, a), k)
  {
    if k !in s.slots {
      NewSlotIsUnanswered(cfg, s, a, k);
    } else if a.Publish? && k == PcOf(s, a.t).slot {
      PublishedAnswer(cfg, s, a);
    } else {
      assert AnswerIsSolved(cfg, s, k);
      AnswerUnmoved(cfg, s, a, k);
      AnswerStays(cfg, s, Apply(cfg, s, a), k);
    }
  }

  lemma NewSlotIsUnanswered(cfg: Config, s: State, a: Action, k: SlotId)
    requires Enabled(cfg, s, a) && k in Apply(cfg, s, a).slots && k !in s.slots
    ensures Apply(cfg, s, a).slots[k].answer.None?
  {
  }

  lemma AnswerUnmoved(cfg: Config, s: State, a: Action, k: SlotId)
    requires SlotsSound(s) && Enabled(cfg, s, a) && k in s.slots && !(a.Publish? && k == PcOf(s, a.t).slot)
    ensures var s' := Apply(cfg, s, a);
            && k in s'.slots && s'.slots[k].answer == s.slots[k].answer && s.solves <= s'.solves
            && s'.slots[k].owner == s.slots[k].owner && s'.slots[k].path == s.slots[k].path
  {
    StepShape(cfg, s, a);
    StepSlot(cfg, s, a, k);
  }

  lemma AnswerStays(cfg: Config, s: State, s': State, k: SlotId)
    requires k in s.slots && AnswerIsSolved(cfg, s, k) && k in s'.slots && s.solves <= s'.solves
    requires s'.slots[k].answer == s.slots[k].answer
    requires s'.slots[k].owner == s.slots[k].owner && s'.slots[k].path == s.slots[k].path
    ensures AnswerIsSolved(cfg, s', k)
  {
    if s.slots[k].answer.Some? {
      var i :| 0 <= i < |s.solves| && s.solves[i].owner == s.slots[k].owner && s.solves[i].slot == k
               && s.solves[i].answer == s.slots[k].answer.value && SolvedFor(cfg, s.solves[i], s.slots[k].path);
      assert s'.solves[i] == s.solves[i];
    }
  }

  lemma PublishedAnswer(cfg: Config, s: State, a: Action)
    requires Inv(cfg, s) && Enabled(cfg, s, a) && a.Publish?
    ensures AnswerIsSolved(cfg, Apply(cfg, s, a), PcOf(s, a.t).slot)
  {
    assert AttendsItsSlot(s, a.t, s.pcs[a.t]) && PcSound(cfg, s, a.t, s.pcs[a.t]);
    var s' := Apply(cfg, s, a);
    assert s'.solves[PcOf(s, a.t).solve].answer == s'.slots[PcOf(s, a.t).slot].answer.value;
  }

  lemma StepSolvesSound(cfg: Config, s: State, a: Action)
    requires Inv(cfg, s) && Enabled(cfg, s, a)
    ensures SolvesSound(cfg, Apply(cfg, s, a))
  {
    StepShape(cfg, s, a);
    var s' := Apply(cfg, s, a);
    forall t | t in s'.pcs ensures PcSound(cfg, s', t, s'.pcs[t]) {
      if t == a.t { MoverSound(cfg, s, a); } else { OtherSound(cfg, s, a, t); }
    }
    forall k | k in s'.slots ensures AnswerIsSolved(cfg, s', k) { StepAnswer(cfg, s, a, k); }
    forall p | p in s'.cache ensures Genuine(cfg, s'.solves, |s'.solves|, p, s'.cache[p]) { StepCache(cfg, s, a, p); }
  }

  /** A slot somebody answered from is never written again. */
  lemma OldResponse(cfg: Config, s: State, a: Action, r: Sent)
    requires Inv(cfg, s) && Enabled(cfg, s, a) && ResponseSound(cfg, s, r)
    ensures ResponseSound(cfg, Apply(cfg, s, a), r)
  {
    StepShape(cfg, s, a);
    var s' := Apply(cfg, s, a);
    match r.source
    case FromCache(now, e) => GenuineGrows(cfg, s.solves, s'.solves, r.after, r.after, r.path, e);
    case Coalesced(k) =>
      StepSlot(cfg, s, a, k);
      if a.t in s.pcs { assert AttendsItsSlot(s, a.t, s.pcs[a.t]); }
    case Owned(k) =>
      StepSlot(cfg, s, a, k);
      OwnerIsPastReplying(cfg, s, a, k);
  }

  lemma OwnerIsPastReplying(cfg: Config, s: State, a: Action, k: SlotId)
    requires Inv(cfg, s) && Enabled(cfg, s, a) && k in s.slots
    requires var pc := PcOf(s, s.slots[k].owner); Attends(pc) && pc.slot == k ==> pc.Releasing? || pc.Waking?
    ensures var s' := Apply(cfg, s, a);
            && k in s'.slots && s'.slots[k].answer == s.slots[k].answer
            && (var pc := PcOf(s', s'.slots[k].owner); Attends(pc) && pc.slot == k ==> pc.Releasing? || pc.Waking?)
  {
    if s.slots[k].owner != a.t {
      OtherOwnerUnmoved(cfg, s, a, k);
    } else if a.t in s.pcs {
      assert AttendsItsSlot(s, a.t, s.pcs[a.t]);
      MoverIsPastReplying(cfg, s, a, k);
    }
  }

  lemma OtherOwnerUnmoved(cfg: Config, s: State, a: Action, k: SlotId)
    requires SlotsSound(s) && Enabled(cfg, s, a) && k in s.slots && s.slots[k].owner != a.t
    ensures var s' := Apply(cfg, s, a);
            k in s'.slots && s'.slots[k] == s.slots[k] && PcOf(s', s.slots[k].owner) == PcOf(s, s.slots[k].owner)
  {
    StepSlot(cfg, s, a, k);
    StepShape(cfg, s, a);
  }

  lemma MoverIsPastReplying(cfg: Config, s: State, a: Action, k: SlotId)
    requires Enabled(cfg, s, a) && k in s.slots && s.slots[k].owner == a.t && AttendsItsSlot(s, a.t, PcOf(s, a.t))
    requires var pc := PcOf(s, a.t); Attends(pc) && pc.slot == k ==> pc.Releasing? || pc.Waking?
    ensures var s' := Apply(cfg, s, a);
            && k in s'.slots && s'.slots[k].answer == s.slots[k].answer && s'.slots[k].owner == a.t
            && (var pc := PcOf(s', a.t); Attends(pc) && pc.slot == k ==> pc.Releasing? || pc.Waking?)
  {
  }

  lemma NewResponse(cfg: Config, s: State, a: Action)
    requires Inv(cfg, s) && Enabled(cfg, s, a) && |Apply(cfg, s, a).sent| > |s.sent|
    ensures ResponseSound(cfg, Apply(cfg, s, a), Apply(cfg, s, a).sent[|s.sent|])
  {
    WhoResponds(cfg, s, a);
    assert PcSound(cfg, s, a.t, PcOf(s, a.t));
    assert AttendsItsSlot(s, a.t, PcOf(s, a.t));
    if a.SendHit? { HitResponse(cfg, s, a); }
    else if a.Woken? { WaiterResponse(cfg, s, a); }
    else { OwnerResponse(cfg, s, a); }
  }

  lemma WhoResponds(cfg: Config, s: State, a: Action)
    requires Enabled(cfg, s, a) && |Apply(cfg, s, a).sent| > |s.sent|
    ensures (a.SendHit? || a.Woken? || a.SolveFails? || a.Reply?) && a.t in s.pcs
  {
  }

  lemma HitResponse(cfg: Config, s: State, a: Action)
    requires Enabled(cfg, s, a) && a.SendHit? && PcSound(cfg, s, a.t, PcOf(s, a.t))
    ensures ResponseSound(cfg, Apply(cfg, s, a), Apply(cfg, s, a).sent[|s.sent|])
  {
  }

  lemma WaiterResponse(cfg: Config, s: State, a: Action)
    requires Enabled(cfg, s, a) && a.Woken? && PcSound(cfg, s, a.t, PcOf(s, a.t))
    ensures ResponseSound(cfg, Apply(cfg, s, a), Apply(cfg, s, a).sent[|s.sent|])
  {
  }

  lemma OwnerResponse(cfg: Config, s: State, a: Action)
    requires Enabled(cfg, s, a) && (a.SolveFails? || a.Reply?) && AttendsItsSlot(s, a.t, PcOf(s, a.t))
    ensures ResponseSound(cfg, Apply(cfg, s, a), Apply(cfg, s, a).sent[|s.sent|])
  {
  }

  lemma StepResponses(cfg: Config, s: State, a: Action)
    requires Inv(cfg, s) && Enabled(cfg, s, a)
    ensures ResponsesSound(cfg, Apply(cfg, s, a))
  {
    StepShape(cfg, s, a);
    var s' := Apply(cfg, s, a);
    assert |s'.sent| <= |s.sent| + 1;
    forall i | 0 <= i < |s'.sent| ensures ResponseSound(cfg, s', s'.sent[i]) {
      if i < |s.sent| {
        assert s'.sent[i] == s.sent[i];
        OldResponse(cfg, s, a, s.sent[i]);
      } else {
        NewResponse(cfg, s, a);
      }
    }
  }

  lemma StepInv(cfg: Config, s: State, a: Action)
    requires Inv(cfg, s) && Enabled(cfg, s, a)
    ensures Inv(cfg, Apply(cfg, s, a))
  {
    StepSlotsSound(cfg, s, a);
    StepSolvesSound(cfg, s, a);
    StepResponses(cfg, s, a);
  }

  // ---- runs ----

  const START: State := State(map[], map[], map[], map[], [], [])

  ghost predicate IsStep(cfg: Config, s: State, a: Action, s': State) {
    Enabled(cfg, s, a) && s' == Apply(cfg, s, a)
  }

  ghost predicate IsRun(cfg: Config, states: seq<State>, actions: seq<Action>) {
    && |states| == |actions| + 1 && states[0] == START
    && forall i | 0 <= i < |actions| :: IsStep(cfg, states[i], actions[i], states[i + 1])
  }

  lemma {:induction false} RunInv(cfg: Config, states: seq<State>, actions: seq<Action>, n: nat)
    requires IsRun(cfg, states, actions) && n <= |actions|
    ensures Inv(cfg, states[n])
  {
    if n > 0 {
      RunInv(cfg, states, actions, n - 1);
      assert IsStep(cfg, states[n - 1], actions[n - 1], states[n]);
      StepInv(cfg, states[n - 1], actions[n - 1]);
    }
  }

  /** At most one thread per path is between taking and releasing the slot. */
  lemma SingleOwner(cfg: Config, states: seq<State>, actions: seq<Action>, n: nat, t: Tid, u: Tid)
    requires IsRun(cfg, states, actions) && n <= |actions|
    ensures var s := states[n];
            Owns(PcOf(s, t)) && Owns(PcOf(s, u)) && PcOf(s, t).path == PcOf(s, u).path ==> t == u
  {
    RunInv(cfg, states, actions, n);
    var s := states[n];
    if Owns(PcOf(s, t)) && Owns(PcOf(s, u)) && PcOf(s, t).path == PcOf(s, u).path {
      assert AttendsItsSlot(s, t, s.pcs[t]) && AttendsItsSlot(s, u, s.pcs[u]);
    }
  }

  /** How many of its own steps an owner is from having released and woken its slot. */
  function Remaining(pc: Pc): nat {
    match pc
    case Solving(_, _) => 6
    case Solved(_, _, _) => 5
    case Publishing(_, _, _) => 4
    case Replying(_, _) => 3
    case Releasing(_, _) => 2
    case Waking(_, _) => 1
    case _ => 0
  }

  lemma OwnerGetsCloser(cfg: Config, s: State, a: Action)
    requires Attends(PcOf(s, a.t)) && Enabled(cfg, s, a)
    ensures Remaining(PcOf(Apply(cfg, s, a), a.t)) < Remaining(PcOf(s, a.t))
  {
  }

  lemma OwnerCanStep(cfg: Config, s: State, t: Tid) returns (a: Action)
    requires Attends(PcOf(s, t)) && PcOf(s, t).slot in s.slots
    ensures a.t == t && Enabled(cfg, s, a)
  {
    var pc := PcOf(s, t);
    a := if pc.Solving? then SolveFails(t) else if pc.Releasing? then Release(t)
         else if pc.Waking? then Wake(t) else Crash(t);
  }

  /** A slot that is not woken has an owner still on its way, and every step of that owner brings it closer. */
  lemma SlotIsReleasedAndWoken(cfg: Config, states: seq<State>, actions: seq<Action>, n: nat, k: SlotId)
    requires IsRun(cfg, states, actions) && n <= |actions| && k in states[n].slots
    ensures var s := states[n]; var slot := s.slots[k]; var pc := PcOf(s, slot.owner);
            if slot.woken then !(slot.path in s.inflight && s.inflight[slot.path] == k)
            else
              && Remaining(pc) > 0 && pc.slot == k
              && (exists a: Action :: a.t == slot.owner && Enabled(cfg, s, a))
              && (forall a: Action | a.t == slot.owner && Enabled(cfg, s, a) ::
                    Remaining(PcOf(Apply(cfg, s, a), slot.owner)) < Remaining(pc))
  {
    RunInv(cfg, states, actions, n);
    var s := states[n];
    var slot := s.slots[k];
    var t := slot.owner;
    assert IsAttended(s, k);
    if Attends(PcOf(s, t)) { assert AttendsItsSlot(s, t, s.pcs[t]); }
    if slot.woken {
      assert slot.path in s.inflight ==> IsOwned(s, slot.path);
    } else {
      var a := OwnerCanStep(cfg, s, t);
      forall b: Action | b.t == t && Enabled(cfg, s, b)
        ensures Remaining(PcOf(Apply(cfg, s, b), t)) < Remaining(PcOf(s, t))
      {
        OwnerGetsCloser(cfg, s, b);
      }
    }
  }

  /** A waiter woken by the event gets what the slot's owner got for the same target, or a 502. */
  lemma WaiterGetsTheOwnersAnswer(cfg: Config, states: seq<State>, actions: seq<Action>, n: nat, i: nat)
    requires IsRun(cfg, states, actions) && n <= |actions|
    requires i < |states[n].sent| && states[n].sent[i].source.Coalesced?
    ensures var s := states[n]; var r := s.sent[i]; var k := r.source.slot;
            && k in s.slots
            && (r.answer.Some? ==> exists j :: 0 <= j < |s.solves| && s.solves[j].slot == k && s.solves[j].owner == s.slots[k].owner
                                     && s.solves[j].answer == r.answer.value && SolvedFor(cfg, s.solves[j], r.path))
            && (forall o | 0 <= o < |s.sent| && s.sent[o].source == Owned(k) :: s.sent[o].answer == r.answer)
  {
    RunInv(cfg, states, actions, n);
    var s := states[n];
    assert ResponseSound(cfg, s, s.sent[i]);
    assert AnswerIsSolved(cfg, s, s.sent[i].source.slot);
    forall o | 0 <= o < |s.sent| && s.sent[o].source == Owned(s.sent[i].source.slot)
      ensures s.sent[o].answer == s.sent[i].answer
    {
      assert ResponseSound(cfg, s, s.sent[o]);
    }
  }

  /** Every body sent on a hit is an earlier 2xx, unchallenged solve of the same path's target, not yet expired. */
  lemma HitsAreGenuine(cfg: Config, states: seq<State>, actions: seq<Action>, n: nat, i: nat)
    requires IsRun(cfg, states, actions) && n <= |actions|
    requires i < |states[n].sent| && states[n].sent[i].source.FromCache?
    ensures var s := states[n]; var r := s.sent[i];
            && r.source.entry.expires > r.source.now
            && exists j :: 0 <= j < r.after && j < |s.solves| && r.answer == Some(s.solves[j].answer)
                 && 200 <= s.solves[j].answer.status < 300 && !s.solves[j].challenged && SolvedFor(cfg, s.solves[j], r.path)
  {
    RunInv(cfg, states, actions, n);
    var s := states[n];
    var r := s.sent[i];
    assert ResponseSound(cfg, s, r);
    var j :| 0 <= j < r.after && j < |s.solves| && Cacheable(cfg.ttl, s.solves[j]) && SolvedFor(cfg, s.solves[j], r.path)
             && s.solves[j].answer == Answer(r.source.entry.status, r.source.entry.body, r.source.entry.contentType);
    assert s.solves[j].answer == r.answer.value;
  }
}
