/** What a handler does with what it finds: a live entry is served, an eligible page is kept. */
module SingleFlightHits {
  import opened Basics
  import opened PassthroughCache
  import opened SingleFlight
  import opened SingleFlightRuns

  /** The first lock section, case by case. */
  lemma DecidesBy(cfg: Config, s: State, t: Tid, slot: SlotId)
    requires Enabled(cfg, s, Decide(t, slot))
    ensures var Deciding(path, now) := PcOf(s, t); var s' := Apply(cfg, s, Decide(t, slot));
            && s'.cache == s.cache && s'.sent == s.sent && s'.solves == s.solves
            && (if path in s.cache && cfg.ttl > 0 && s.cache[path].expires > now
                then PcOf(s', t) == Hitting(path, now, s.cache[path]) && s'.inflight == s.inflight && s'.slots == s.slots
                else if path in s.inflight
                then PcOf(s', t) == Waiting(path, s.inflight[path]) && s'.inflight == s.inflight && s'.slots == s.slots
                else PcOf(s', t) == Solving(path, slot) && s'.inflight == s.inflight[path := slot])
  {
  }

  /** A thread with a hit in hand can only send it, and always can. */
  lemma HitIsSent(cfg: Config, s: State, a: Action)
    requires PcOf(s, a.t).Hitting?
    ensures Enabled(cfg, s, SendHit(a.t))
    ensures Enabled(cfg, s, a) ==> a == SendHit(a.t)
    ensures var Hitting(path, now, e) := PcOf(s, a.t);
            var s' := Apply(cfg, s, SendHit(a.t));
            && s'.sent == s.sent + [Sent(path, FromCache(now, e), Some(Answer(e.status, e.body, e.contentType)), |s.solves|)]
            && PcOf(s', a.t) == Idle && s'.cache == s.cache && s'.inflight == s.inflight
  {
  }

  lemma {:induction false} Untouched(cfg: Config, states: seq<State>, actions: seq<Action>, n: nat, m: nat, t: Tid)
    requires IsRun(cfg, states, actions) && n <= m <= |actions|
    requires forall i | n <= i < m :: actions[i].t != t
    ensures PcOf(states[m], t) == PcOf(states[n], t)
    decreases m
  {
    if n < m {
      Untouched(cfg, states, actions, n, m - 1, t);
      assert IsStep(cfg, states[m - 1], actions[m - 1], states[m]);
      StepShape(cfg, states[m - 1], actions[m - 1]);
    }
  }

  /**
    In every interleaving: a thread that decides while the path has a live entry takes that
    entry, whatever becomes of the cache, and the next thing it does is send its body.
   */
  lemma LiveEntryIsServed(cfg: Config, states: seq<State>, actions: seq<Action>, n: nat, m: nat)
    requires IsRun(cfg, states, actions) && n < m < |actions| && actions[n].Decide?
    requires actions[m].t == actions[n].t && forall i | n < i < m :: actions[i].t != actions[n].t
    requires PcOf(states[n], actions[n].t).Deciding?
    requires var Deciding(path, now) := PcOf(states[n], actions[n].t);
             path in states[n].cache && cfg.ttl > 0 && states[n].cache[path].expires > now
    ensures var Deciding(path, now) := PcOf(states[n], actions[n].t);
            var e := states[n].cache[path];
            && PcOf(states[n + 1], actions[n].t) == Hitting(path, now, e)
            && actions[m].SendHit? && |states[m + 1].sent| == |states[m].sent| + 1
            && states[m + 1].sent[|states[m].sent|].path == path
            && states[m + 1].sent[|states[m].sent|].answer == Some(Answer(e.status, e.body, e.contentType))
  {
    var t := actions[n].t;
    assert IsStep(cfg, states[n], actions[n], states[n + 1]) && IsStep(cfg, states[m], actions[m], states[m + 1]);
    DecidesBy(cfg, states[n], t, actions[n].slot);
    Untouched(cfg, states, actions, n + 1, m, t);
    HitIsSent(cfg, states[m], actions[m]);
  }

  /** A solve is kept exactly when caching is on, it was a 2xx, it did not look challenged, and it is no more than a quarter of the cap. */
  lemma EligibleIsCached(cfg: Config, s: State, a: Action)
    requires Enabled(cfg, s, a) && a.CacheStep?
    ensures var solve := s.solves[PcOf(s, a.t).solve]; var answer := solve.answer; var path := PcOf(s, a.t).path;
            var s' := Apply(cfg, s, a);
            if cfg.ttl > 0 && 200 <= answer.status < 300 && !solve.challenged && (cfg.max <= 0 || 4 * |answer.body| <= cfg.max)
            then path in s'.cache
                 && s'.cache[path] == Cached(a.now + a.ttl, answer.status, answer.body, answer.contentType)
            else s'.cache == s.cache
  {
  }
}
