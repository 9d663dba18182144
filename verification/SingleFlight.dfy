/**
  The passthrough handlers as a concurrent protocol (src/passthrough.py, _handle):
  any number of threads share one cache and one in-flight slot per path.
 */
module SingleFlight {
  import opened Basics
  import opened PassthroughCache

  type Tid = nat
  type SlotId = nat

  /** `target` is the routing rule: PassthroughRouting.Target for the deployment's own Routing. */
  datatype Config = Config(target: Path -> Option<string>, ttl: int, max: int)

  datatype Answer = Answer(status: int, body: Body, contentType: string)

  /** A solve that returned, as the log of this model. */
  datatype Solve = Solve(owner: Tid, slot: SlotId, target: string, answer: Answer, challenged: bool)

  /** _Pending: `answer` is None until published, and stays None when the solve failed. */
  datatype Slot = Slot(owner: Tid, path: Path, woken: bool, answer: Option<Answer>)

  datatype Source = FromCache(now: real, entry: Cached) | Coalesced(slot: SlotId) | Owned(slot: SlotId)

  /** A response: None is the 502. `after` counts the solves that had returned by then. */
  datatype Sent = Sent(path: Path, source: Source, answer: Option<Answer>, after: nat)

  datatype Pc =
    | Idle
    | Deciding(path: Path, now: real)
    | Hitting(path: Path, now: real, entry: Cached)
    | Waiting(path: Path, slot: SlotId)
    | Solving(path: Path, slot: SlotId)
    | Solved(path: Path, slot: SlotId, solve: nat)      // returned; cache decision due
    | Publishing(path: Path, slot: SlotId, solve: nat)  // cache decided; the slot's fields due
    | Replying(path: Path, slot: SlotId)                // slot published; own response due
    | Releasing(path: Path, slot: SlotId)               // the finally block: slot still listed
    | Waking(path: Path, slot: SlotId)                  // slot unlisted; event still to be set

  datatype State = State(
    cache: map<Path, Cached>,
    inflight: map<Path, SlotId>,
    slots: map<SlotId, Slot>,
    pcs: map<Tid, Pc>,
    solves: seq<Solve>,
    sent: seq<Sent>)

  datatype Action =
    | Arrive(t: Tid, path: Path, now: real)
    | Decide(t: Tid, slot: SlotId)
    | SendHit(t: Tid)
    | SolveFails(t: Tid)
    | SolveReturns(t: Tid, answer: Answer, challenged: bool)
    | CacheStep(t: Tid, now: real, ttl: real, cache: map<Path, Cached>, order: seq<Path>, evicted: nat)
    | Publish(t: Tid)
    | Reply(t: Tid)
    | Crash(t: Tid)       // any exception after the solve returned
    | Release(t: Tid)
    | Wake(t: Tid)
    | Woken(t: Tid)       // a waiter whose event is set
    | GiveUp(t: Tid)      // a waiter whose wait ran out

  /** What the first lock section decides. */
  datatype Decision<S> = Hit(entry: Cached) | Join(slot: S) | Own

  function Decided<S>(cache: map<Path, Cached>, inflight: map<Path, S>, path: Path, now: real, ttl: int): Decision<S> {
    if path in cache && ttl > 0 && cache[path].expires > now then Hit(cache[path])
    else if path in inflight then Join(inflight[path])
    else Own
  }

  predicate Cacheable(ttl: int, s: Solve) {
    ttl > 0 && 200 <= s.answer.status < 300 && !s.challenged
  }

  function PcOf(s: State, t: Tid): Pc {
    if t in s.pcs then s.pcs[t] else Idle
  }

  predicate Owns(pc: Pc) {
    pc.Solving? || pc.Solved? || pc.Publishing? || pc.Replying? || pc.Releasing?
  }

  predicate Attends(pc: Pc) {
    Owns(pc) || pc.Waking?
  }

  function At(s: State, t: Tid, pc: Pc): State {
    s.(pcs := s.pcs[t := pc])
  }

  function Respond(s: State, t: Tid, source: Source, answer: Option<Answer>, pc: Pc): State
    requires !PcOf(s, t).Idle?
  {
    At(s.(sent := s.sent + [Sent(PcOf(s, t).path, source, answer, |s.solves|)]), t, pc)
  }

  ghost predicate Enabled(cfg: Config, s: State, a: Action) {
    match a
    case Arrive(t, path, _) => PcOf(s, t).Idle? && cfg.target(path).Some?
    case Decide(t, slot) => PcOf(s, t).Deciding? && slot !in s.slots
    case SendHit(t) => PcOf(s, t).Hitting?
    case SolveFails(t) => PcOf(s, t).Solving?
    case SolveReturns(t, _, _) => PcOf(s, t).Solving?
    case CacheStep(t, now, ttl, cache, order, evicted) =>
      && PcOf(s, t).Solved? && PcOf(s, t).solve < |s.solves|
      && var solve := s.solves[PcOf(s, t).solve];
         if Cacheable(cfg.ttl, solve) then
           Stored(cfg.max, s.cache, now, PcOf(s, t).path,
                  Cached(now + ttl, solve.answer.status, solve.answer.body, solve.answer.contentType), cache, order, evicted)
         else cache == s.cache
    case Publish(t) => PcOf(s, t).Publishing? && PcOf(s, t).solve < |s.solves| && PcOf(s, t).slot in s.slots
    case Reply(t) => PcOf(s, t).Replying? && PcOf(s, t).slot in s.slots
    case Crash(t) => PcOf(s, t).Solved? || PcOf(s, t).Publishing? || PcOf(s, t).Replying?
    case Release(t) => PcOf(s, t).Releasing?
    case Wake(t) => PcOf(s, t).Waking? && PcOf(s, t).slot in s.slots
    case Woken(t) => PcOf(s, t).Waiting? && PcOf(s, t).slot in s.slots && s.slots[PcOf(s, t).slot].woken
    case GiveUp(t) => PcOf(s, t).Waiting?
  }

  ghost function Apply(cfg: Config, s: State, a: Action): State
    requires Enabled(cfg, s, a)
  {
    var pc := PcOf(s, a.t);
    match a
    case Arrive(t, path, now) => At(s, t, Deciding(path, now))
    case Decide(t, slot) => (
      match Decided(s.cache, s.inflight, pc.path, pc.now, cfg.ttl)
      case Hit(entry) => At(s, t, Hitting(pc.path, pc.now, entry))
      case Join(other) => At(s, t, Waiting(pc.path, other))
      case Own =>
        At(s.(inflight := s.inflight[pc.path := slot], slots := s.slots[slot := Slot(t, pc.path, false, None)]),
           t, Solving(pc.path, slot)))
    case SendHit(t) =>
      Respond(s, t, FromCache(pc.now, pc.entry),
              Some(Answer(pc.entry.status, pc.entry.body, pc.entry.contentType)), Idle)
    case SolveFails(t) => Respond(s, t, Owned(pc.slot), None, Releasing(pc.path, pc.slot))
    case SolveReturns(t, answer, challenged) =>
      var target := match cfg.target(pc.path) case Some(u) => u case None => "";
      At(s.(solves := s.solves + [Solve(t, pc.slot, target, answer, challenged)]), t, Solved(pc.path, pc.slot, |s.solves|))
    case CacheStep(t, _, _, cache, _, _) => At(s.(cache := cache), t, Publishing(pc.path, pc.slot, pc.solve))
    case Publish(t) =>
      var published := s.slots[pc.slot].(answer := Some(s.solves[pc.solve].answer));
      At(s.(slots := s.slots[pc.slot := published]), t, Replying(pc.path, pc.slot))
    case Reply(t) => Respond(s, t, Owned(pc.slot), s.slots[pc.slot].answer, Releasing(pc.path, pc.slot))
    case Crash(t) => At(s, t, Releasing(pc.path, pc.slot))
    case Release(t) => At(s.(inflight := s.inflight - {pc.path}), t, Waking(pc.path, pc.slot))
    case Wake(t) => At(s.(slots := s.slots[pc.slot := s.slots[pc.slot].(woken := true)]), t, Idle)
    case Woken(t) => Respond(s, t, Coalesced(pc.slot), s.slots[pc.slot].answer, Idle)
    case GiveUp(t) => At(s, t, Idle)
  }

  // ---- what every interleaving keeps ----

  /** An attending thread has its own slot, listed until it is released and not woken before the end. */
  ghost predicate AttendsItsSlot(s: State, t: Tid, pc: Pc) {
    Attends(pc) ==>
      && pc.slot in s.slots && s.slots[pc.slot].owner == t && s.slots[pc.slot].path == pc.path
      && !s.slots[pc.slot].woken
      && (Owns(pc) <==> pc.path in s.inflight && s.inflight[pc.path] == pc.slot)
      && (pc.Solving? || pc.Solved? || pc.Publishing? ==> s.slots[pc.slot].answer.None?)
  }

  /** A slot is woken, or its owner is still on the way to waking it. */
  ghost predicate IsAttended(s: State, k: SlotId)
    requires k in s.slots
  {
    s.slots[k].woken ||
    (var pc := PcOf(s, s.slots[k].owner); Attends(pc) && pc.slot == k)
  }

  ghost predicate IsOwned(s: State, p: Path)
    requires p in s.inflight
  {
    var k := s.inflight[p];
    k in s.slots && s.slots[k].path == p &&
    (var pc := PcOf(s, s.slots[k].owner); Owns(pc) && pc.slot == k)
  }

  ghost predicate SlotsSound(s: State) {
    && (forall t | t in s.pcs :: AttendsItsSlot(s, t, s.pcs[t]))
    && (forall k | k in s.slots :: IsAttended(s, k))
    && (forall p | p in s.inflight :: IsOwned(s, p))
  }

  predicate SolvedFor(cfg: Config, s: Solve, path: Path) {
    cfg.target(path) == Some(s.target)
  }

  /** A published answer is what the slot's owner got for the slot's own target. */
  ghost predicate AnswerIsSolved(cfg: Config, s: State, k: SlotId)
    requires k in s.slots
  {
    s.slots[k].answer.Some? ==>
      exists i :: 0 <= i < |s.solves| && s.solves[i].owner == s.slots[k].owner && s.solves[i].slot == k
                  && s.solves[i].answer == s.slots[k].answer.value && SolvedFor(cfg, s.solves[i], s.slots[k].path)
  }

  /** The entry is a 2xx, unchallenged solve of the path's own target, among the first `n`. */
  ghost predicate Genuine(cfg: Config, solves: seq<Solve>, n: nat, path: Path, e: Cached) {
    exists i :: 0 <= i < n && i < |solves| && Cacheable(cfg.ttl, solves[i]) && SolvedFor(cfg, solves[i], path)
                && solves[i].answer == Answer(e.status, e.body, e.contentType)
  }

  ghost predicate PcSound(cfg: Config, s: State, t: Tid, pc: Pc) {
    match pc
    case Idle => true
    case Hitting(path, now, entry) => entry.expires > now && Genuine(cfg, s.solves, |s.solves|, path, entry)
    case Solved(path, k, i) => i < |s.solves| && s.solves[i].owner == t && s.solves[i].slot == k && SolvedFor(cfg, s.solves[i], path)
    case Publishing(path, k, i) => i < |s.solves| && s.solves[i].owner == t && s.solves[i].slot == k && SolvedFor(cfg, s.solves[i], path)
    case Waiting(path, k) => k in s.slots && s.slots[k].path == path
    case _ => cfg.target(pc.path).Some?
  }

  ghost predicate SolvesSound(cfg: Config, s: State) {
    && (forall t | t in s.pcs :: PcSound(cfg, s, t, s.pcs[t]))
    && (forall k | k in s.slots :: AnswerIsSolved(cfg, s, k))
    && (forall p | p in s.cache :: Genuine(cfg, s.solves, |s.solves|, p, s.cache[p]))
  }

  /** Every response sent: a genuine, unexpired hit, or exactly what the slot holds for good. */
  ghost predicate ResponseSound(cfg: Config, s: State, r: Sent) {
    match r.source
    case FromCache(now, e) =>
      && e.expires > now && Genuine(cfg, s.solves, r.after, r.path, e)
      && r.answer == Some(Answer(e.status, e.body, e.contentType))
    case Coalesced(k) => k in s.slots && s.slots[k].path == r.path && s.slots[k].woken && r.answer == s.slots[k].answer
    case Owned(k) =>
      && k in s.slots && s.slots[k].path == r.path && r.answer == s.slots[k].answer
      && (var pc := PcOf(s, s.slots[k].owner); Attends(pc) && pc.slot == k ==> pc.Releasing? || pc.Waking?)
  }

  ghost predicate ResponsesSound(cfg: Config, s: State) {
    forall i | 0 <= i < |s.sent| :: ResponseSound(cfg, s, s.sent[i])
  }

  ghost predicate Inv(cfg: Config, s: State) {
    SlotsSound(s) && SolvesSound(cfg, s) && ResponsesSound(cfg, s)
  }

  // ---- steps ----

  lemma StepShape(cfg: Config, s: State, a: Action)
    requires Enabled(cfg, s, a)
    ensures var s' := Apply(cfg, s, a); a.t in s'.pcs && s'.pcs == s.pcs[a.t := s'.pcs[a.t]]
    ensures var s' := Apply(cfg, s, a); s.solves <= s'.solves && s.sent <= s'.sent && s.slots.Keys <= s'.slots.Keys
  {
  }

  /** A slot only changes under its attending owner's hand; path and owner never do. */
  lemma StepSlot(cfg: Config, s: State, a: Action, k: SlotId)
    requires SlotsSound(s) && Enabled(cfg, s, a) && k in s.slots
    ensures var s' := Apply(cfg, s, a);
            && k in s'.slots && s'.slots[k].owner == s.slots[k].owner && s'.slots[k].path == s.slots[k].path
            && (s'.slots[k] != s.slots[k] ==> Attends(PcOf(s, a.t)) && PcOf(s, a.t).slot == k && s.slots[k].owner == a.t)
  {
    if a.t in s.pcs { assert AttendsItsSlot(s, a.t, s.pcs[a.t]); }
  }

  lemma StepInflight(cfg: Config, s: State, a: Action, p: Path)
    requires Enabled(cfg, s, a)
    ensures var s' := Apply(cfg, s, a);
            (p in s'.inflight && p in s.inflight && s'.inflight[p] == s.inflight[p])
            || (p !in s'.inflight && p !in s.inflight)
            || (a.Decide? && p == PcOf(s, a.t).path && p !in s.inflight && p in s'.inflight && s'.inflight[p] == a.slot)
            || (a.Release? && p == PcOf(s, a.t).path && p !in s'.inflight)
  {
  }

  lemma MoverAttends(cfg: Config, s: State, a: Action)
    requires SlotsSound(s) && Enabled(cfg, s, a)
    ensures AttendsItsSlot(Apply(cfg, s, a), a.t, PcOf(Apply(cfg, s, a), a.t))
  {
    if Attends(PcOf(s, a.t)) {
      assert AttendsItsSlot(s, a.t, s.pcs[a.t]);
      OwnerMoves(cfg, s, a);
    } else {
      BecomesOwner(cfg, s, a);
    }
  }

  /** An attending thread stays with its slot, or ends by waking it. */
  lemma OwnerMoves(cfg: Config, s: State, a: Action)
    requires SlotsSound(s) && Enabled(cfg, s, a) && Attends(PcOf(s, a.t))
    requires AttendsItsSlot(s, a.t, PcOf(s, a.t))
    ensures var s' := Apply(cfg, s, a);
            && AttendsItsSlot(s', a.t, PcOf(s', a.t))
            && (if a.Wake? then !Attends(PcOf(s', a.t)) && s'.slots[PcOf(s, a.t).slot].woken
                else Attends(PcOf(s', a.t)) && PcOf(s', a.t).slot == PcOf(s, a.t).slot)
  {
  }

  lemma BecomesOwner(cfg: Config, s: State, a: Action)
    requires Enabled(cfg, s, a) && !Attends(PcOf(s, a.t))
    ensures AttendsItsSlot(Apply(cfg, s, a), a.t, PcOf(Apply(cfg, s, a), a.t))
    ensures forall k | k in Apply(cfg, s, a).slots && k !in s.slots ::
              Attends(PcOf(Apply(cfg, s, a), a.t)) && PcOf(Apply(cfg, s, a), a.t).slot == k
              && Apply(cfg, s, a).slots[k].owner == a.t
  {
    if a.Decide? {
      DeciderBecomesOwner(cfg, s, a);
    } else {
      assert Apply(cfg, s, a).slots == s.slots && !Attends(PcOf(Apply(cfg, s, a), a.t));
    }
  }

  lemma DeciderBecomesOwner(cfg: Config, s: State, a: Action)
    requires Enabled(cfg, s, a) && a.Decide?
    ensures var s' := Apply(cfg, s, a);
            if s'.slots == s.slots then !Attends(PcOf(s', a.t))
            else AttendsItsSlot(s', a.t, PcOf(s', a.t)) && Attends(PcOf(s', a.t)) && PcOf(s', a.t).slot == a.slot
                 && a.slot !in s.slots && s'.slots == s.slots[a.slot := Slot(a.t, PcOf(s, a.t).path, false, None)]
  {
  }

  lemma OtherAttends(cfg: Config, s: State, a: Action, t: Tid)
    requires SlotsSound(s) && Enabled(cfg, s, a) && t in s.pcs && t != a.t
    ensures AttendsItsSlot(Apply(cfg, s, a), t, s.pcs[t])
  {
    var pc := s.pcs[t];
    assert AttendsItsSlot(s, t, pc);
    if Attends(pc) {
      StepSlot(cfg, s, a, pc.slot);
      StepInflight(cfg, s, a, pc.path);
      if a.Release? { assert AttendsItsSlot(s, a.t, s.pcs[a.t]); }
    }
  }

  lemma StepAttended(cfg: Config, s: State, a: Action, k: SlotId)
    requires SlotsSound(s) && Enabled(cfg, s, a) && k in Apply(cfg, s, a).slots
    ensures IsAttended(Apply(cfg, s, a), k)
  {
    StepShape(cfg, s, a);
    if Attends(PcOf(s, a.t)) {
      assert AttendsItsSlot(s, a.t, s.pcs[a.t]);
      OwnerMoves(cfg, s, a);
    } else {
      BecomesOwner(cfg, s, a);
    }
    if k in s.slots {
      assert IsAttended(s, k);
      StepSlot(cfg, s, a, k);
    }
  }

  lemma StepOwned(cfg: Config, s: State, a: Action, p: Path)
    requires SlotsSound(s) && Enabled(cfg, s, a) && p in Apply(cfg, s, a).inflight
    ensures IsOwned(Apply(cfg, s, a), p)
  {
    StepInflight(cfg, s, a, p);
    if p in s.inflight {
      StaysOwned(cfg, s, a, p);
    } else {
      DeciderBecomesOwner(cfg, s, a);
    }
  }

  lemma StaysOwned(cfg: Config, s: State, a: Action, p: Path)
    requires SlotsSound(s) && Enabled(cfg, s, a) && p in s.inflight && p in Apply(cfg, s, a).inflight
    requires Apply(cfg, s, a).inflight[p] == s.inflight[p]
    ensures IsOwned(Apply(cfg, s, a), p)
  {
    assert IsOwned(s, p);
    StepSlot(cfg, s, a, s.inflight[p]);
    if s.slots[s.inflight[p]].owner == a.t {
      assert AttendsItsSlot(s, a.t, s.pcs[a.t]);
      OwnerMoves(cfg, s, a);
    } else {
      StepShape(cfg, s, a);
    }
  }

  lemma StepSlotsSound(cfg: Config, s: State, a: Action)
    requires SlotsSound(s) && Enabled(cfg, s, a)
    ensures SlotsSound(Apply(cfg, s, a))
  {
    StepShape(cfg, s, a);
    var s' := Apply(cfg, s, a);
    forall t | t in s'.pcs ensures AttendsItsSlot(s', t, s'.pcs[t]) {
      if t == a.t { MoverAttends(cfg, s, a); } else { OtherAttends(cfg, s, a, t); }
    }
    forall k | k in s'.slots ensures IsAttended(s', k) { StepAttended(cfg, s, a, k); }
    forall p | p in s'.inflight ensures IsOwned(s', p) { StepOwned(cfg, s, a, p); }
  }
}
