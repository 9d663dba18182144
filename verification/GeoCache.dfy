/**
  The timezone and language cache, one entry per exit (src/geo.py:169-204). The egress
  lookup runs outside the lock, so a slow failing one can land after a fast good one.
 */
module GeoCache {
  import opened Basics
  import opened RecencyMap

  type Key = string
  type Tid = nat

  datatype Pair = Pair(zone: string, language: string)
  datatype Exit = Exit(expires: real, pair: Pair, complete: bool)

  /** What one egress lookup answered; None or an empty string for what it could not tell. */
  datatype Lookup = Lookup(key: Key, zone: Option<string>, language: Option<string>)

  const CAP := 512
  const FAILURE_TTL := 60.0
  const MIN_TTL := 300.0
  const DEFAULT_LANGUAGE := "en-US"

  /** _cache_seconds. */
  function CompleteTtl(sessionMinutes: int): real {
    MaxReal(MIN_TTL, (sessionMinutes * 60) as real)
  }

  predicate Known(o: Option<string>) { o != None && o.value != "" }

  predicate Complete(l: Lookup) { Known(l.zone) && Known(l.language) }

  function OrElse(o: Option<string>, fallback: string): string {
    if Known(o) then o.value else fallback
  }

  function PairOf(l: Lookup, containerZone: string): Pair {
    Pair(OrElse(l.zone, containerZone), OrElse(l.language, DEFAULT_LANGUAGE))
  }

  /** The first lock section: an unexpired entry, complete or not. */
  function Hit(cache: seq<Entry<Key, Exit>>, key: Key, now: real): Option<Pair> {
    match Find(cache, key)
    case Some(e) => if e.expires > now then Some(e.pair) else None
    case None => None
  }

  predicate Good(cache: seq<Entry<Key, Exit>>, key: Key, now: real) {
    var e := Find(cache, key);
    e != None && e.value.complete && e.value.expires > now
  }

  /** What the second lock section leaves in the cache: `checked` and `stored` are its two clock readings. */
  function Settled(cache: seq<Entry<Key, Exit>>, l: Lookup, containerZone: string, ttl: real, checked: real, stored: real)
    : seq<Entry<Key, Exit>>
  {
    if !Complete(l) && Good(cache, l.key, checked) then cache
    else Put(cache, l.key,
             Exit(stored + if Complete(l) then ttl else FAILURE_TTL, PairOf(l, containerZone), Complete(l)), CAP)
  }

  /** And the pair it hands back. */
  function Answered(cache: seq<Entry<Key, Exit>>, l: Lookup, containerZone: string, checked: real): Pair {
    if !Complete(l) && Good(cache, l.key, checked) then Find(cache, l.key).value.pair else PairOf(l, containerZone)
  }

  /** The two lock sections of _resolved, over the module's cache. */
  class Exits {
    const cache: Memory<Key, Exit>
    const ttl: real

    constructor (sessionMinutes: int)
      ensures cache.Valid() && cache.entries == [] && cache.cap == CAP && fresh(cache)
      ensures ttl == CompleteTtl(sessionMinutes)
    {
      cache := new Memory(CAP);
      ttl := CompleteTtl(sessionMinutes);
    }

    method Cached(key: Key, now: real) returns (pair: Option<Pair>)
      ensures pair == Hit(cache.entries, key, now)
    {
      var cached := cache.Peek(key);
      if cached != None && cached.value.expires > now {
        return Some(cached.value.pair);
      }
      return None;
    }

    method Store(l: Lookup, containerZone: string, checked: real, stored: real) returns (pair: Pair)
      requires cache.Valid() && cache.cap == CAP
      modifies cache
      ensures cache.Valid()
      ensures cache.entries == Settled(old(cache.entries), l, containerZone, ttl, checked, stored)
      ensures pair == Answered(old(cache.entries), l, containerZone, checked)
    {
      var complete := Known(l.zone) && Known(l.language);
      var zone, language := OrElse(l.zone, containerZone), OrElse(l.language, DEFAULT_LANGUAGE);
      var cached := cache.Peek(l.key);
      if !complete && cached != None && cached.value.complete && cached.value.expires > checked {
        return cached.value.pair;
      }
      var lasts := if complete then ttl else FAILURE_TTL;
      cache.Remember(l.key, Exit(stored + lasts, Pair(zone, language), complete));
      return Pair(zone, language);
    }
  }

  // ---- what one lookup leaves, spelled out ----

  predicate Whole(l: Lookup) {
    l.zone.Some? && l.zone.value != "" && l.language.Some? && l.language.value != ""
  }

  /** What stands in for whatever the lookup could not tell. */
  lemma PairIs(l: Lookup, containerZone: string)
    ensures PairOf(l, containerZone).zone == if l.zone.Some? && l.zone.value != "" then l.zone.value else containerZone
    ensures PairOf(l, containerZone).language == if l.language.Some? && l.language.value != "" then l.language.value else "en-US"
  {
  }

  /** A pair is served until its time is up: the session lifetime, five minutes at least, for a whole one, and a minute for a fallback. */
  lemma PairIsServed(cache: seq<Entry<Key, Exit>>, l: Lookup, containerZone: string, minutes: int, checked: real, stored: real, now: real)
    requires Distinct(cache)
    requires Whole(l) || !(Find(cache, l.key).Some? && Find(cache, l.key).value.complete && Find(cache, l.key).value.expires > checked)
    ensures var lasts := if !Whole(l) then 60.0 else if minutes >= 5 then (60 * minutes) as real else 300.0;
            var after := Settled(cache, l, containerZone, CompleteTtl(minutes), checked, stored);
            Hit(after, l.key, now) == if now < stored + lasts then Some(Answered(cache, l, containerZone, checked)) else None
    ensures Answered(cache, l, containerZone, checked) == PairOf(l, containerZone)
  {
    LifetimeIs(minutes);
    PutSelf(cache, l.key, Exit(stored + if Complete(l) then CompleteTtl(minutes) else FAILURE_TTL, PairOf(l, containerZone), Complete(l)), CAP);
  }

  lemma LifetimeIs(minutes: int)
    ensures CompleteTtl(minutes) == if minutes >= 5 then (60 * minutes) as real else 300.0
  {
  }

  /** A lookup that failed while a whole pair is live hands that pair back and leaves the cache alone. */
  lemma LivePairWins(cache: seq<Entry<Key, Exit>>, l: Lookup, containerZone: string, ttl: real, checked: real, stored: real)
    requires !Whole(l) && Find(cache, l.key).Some? && Find(cache, l.key).value.complete && Find(cache, l.key).value.expires > checked
    ensures Settled(cache, l, containerZone, ttl, checked, stored) == cache
    ensures Answered(cache, l, containerZone, checked) == Find(cache, l.key).value.pair
  {
  }

  // ---- any number of calls at once ----

  datatype Pc = Idle | Looking(key: Key)

  datatype State = State(cache: seq<Entry<Key, Exit>>, clock: real, pcs: map<Tid, Pc>, lookups: seq<Lookup>)

  datatype Action =
    | Ask(t: Tid, key: Key, now: real)
    | Land(t: Tid, found: Lookup, containerZone: string, checked: real, stored: real)

  function PcOf(s: State, t: Tid): Pc {
    if t in s.pcs then s.pcs[t] else Idle
  }

  predicate Enabled(s: State, a: Action) {
    match a
    case Ask(t, _, now) => PcOf(s, t).Idle? && now >= s.clock
    case Land(t, l, _, checked, stored) => PcOf(s, t) == Looking(l.key) && s.clock <= checked <= stored
  }

  function Apply(ttl: real, s: State, a: Action): State {
    match a
    case Ask(t, key, now) =>
      s.(clock := now, pcs := s.pcs[t := if Hit(s.cache, key, now).Some? then Idle else Looking(key)])
    case Land(t, l, zone, checked, stored) =>
      State(Settled(s.cache, l, zone, ttl, checked, stored), stored, s.pcs[t := Idle], s.lookups + [l])
  }

  /** The exit the action is about, and the time by which its lock section judges entries. */
  function KeyOf(a: Action): Key {
    match a case Ask(_, key, _) => key case Land(_, l, _, _, _) => l.key
  }

  function JudgedAt(a: Action): real {
    match a case Ask(_, _, now) => now case Land(_, _, _, checked, _) => checked
  }

  /** What the action's call returns, when this is its last lock section. */
  function Answer(s: State, a: Action): Option<Pair> {
    match a
    case Ask(_, key, now) => Hit(s.cache, key, now)
    case Land(_, l, zone, checked, _) => Some(Answered(s.cache, l, zone, checked))
  }

  ghost predicate Looked(lookups: seq<Lookup>, key: Key, pair: Pair) {
    exists i :: 0 <= i < |lookups| && lookups[i].key == key && Complete(lookups[i])
                && pair == Pair(lookups[i].zone.value, lookups[i].language.value)
  }

  ghost predicate EntrySound(ttl: real, s: State, key: Key) {
    var e := Find(s.cache, key);
    e != None && e.value.complete ==> Looked(s.lookups, key, e.value.pair) && e.value.expires <= s.clock + ttl
  }

  ghost predicate Inv(ttl: real, s: State) {
    Distinct(s.cache) && |s.cache| <= CAP && forall key :: EntrySound(ttl, s, key)
  }

  predicate Steps(ttl: real, s: State, a: Action, s': State) {
    Enabled(s, a) && s' == Apply(ttl, s, a)
  }

  ghost predicate IsRun(ttl: real, run: seq<State>, actions: seq<Action>) {
    && |run| == |actions| + 1
    && run[0].cache == [] && run[0].pcs == map[] && run[0].lookups == []
    && forall i | 0 <= i < |actions| :: Steps(ttl, run[i], actions[i], run[i + 1])
  }

  // ---- one store, seen from each key ----

  lemma PutSeen(cache: seq<Entry<Key, Exit>>, k: Key, e: Exit, key: Key)
    requires Distinct(cache)
    ensures Distinct(Put(cache, k, e, CAP)) && |Put(cache, k, e, CAP)| <= CAP
    ensures var after := Find(Put(cache, k, e, CAP), key);
            if key == k then after == Some(e) else after == None || after == Find(cache, key)
    ensures key != k && Find(cache, key) != None && |Newer(cache, key) + {k}| < CAP ==>
              Find(Put(cache, k, e, CAP), key) == Find(cache, key)
              && Newer(Put(cache, k, e, CAP), key) == Newer(cache, key) + {k}
    ensures Newer(Put(cache, k, e, CAP), k) == {}
  {
    PutSelf(cache, k, e, CAP);
    if key != k {
      FindSome(cache, key);
      FindSome(Put(cache, k, e, CAP), key);
      if key in Keys(cache) { PutOther(cache, k, e, CAP, key); } else { PutAbsent(cache, k, e, CAP, key); }
    }
  }

  lemma StepInv(ttl: real, s: State, a: Action)
    requires Inv(ttl, s) && Enabled(s, a)
    ensures Inv(ttl, Apply(ttl, s, a)) && Apply(ttl, s, a).clock >= s.clock
  {
    var s' := Apply(ttl, s, a);
    forall key ensures EntrySound(ttl, s', key) && Distinct(s'.cache) && |s'.cache| <= CAP {
      assert EntrySound(ttl, s, key);
      match a
      case Ask(_, _, _) =>
      case Land(_, l, zone, checked, stored) => LandSound(ttl, s, l, zone, checked, stored, s', key);
    }
    assert EntrySound(ttl, s', "");
  }

  lemma LandSound(ttl: real, s: State, l: Lookup, zone: string, checked: real, stored: real, s': State, key: Key)
    requires Inv(ttl, s) && s.clock <= checked <= stored
    requires s'.cache == Settled(s.cache, l, zone, ttl, checked, stored) && s'.clock == stored && s'.lookups == s.lookups + [l]
    ensures EntrySound(ttl, s', key) && Distinct(s'.cache) && |s'.cache| <= CAP
  {
    assert EntrySound(ttl, s, key);
    var before := Find(s.cache, key);
    if before != None && before.value.complete { LookedMore(s.lookups, l, key, before.value.pair); }
    if Complete(l) { LookedLast(s.lookups, l, zone); }
    if Complete(l) || !Good(s.cache, l.key, checked) {
      PutSeen(s.cache, l.key,
              Exit(stored + if Complete(l) then ttl else FAILURE_TTL, PairOf(l, zone), Complete(l)), key);
    }
  }

  lemma LookedMore(lookups: seq<Lookup>, l: Lookup, key: Key, pair: Pair)
    requires Looked(lookups, key, pair)
    ensures Looked(lookups + [l], key, pair)
  {
    var i :| 0 <= i < |lookups| && lookups[i].key == key && Complete(lookups[i])
             && pair == Pair(lookups[i].zone.value, lookups[i].language.value);
    assert (lookups + [l])[i] == lookups[i];
  }

  lemma LookedLast(lookups: seq<Lookup>, l: Lookup, zone: string)
    requires Complete(l)
    ensures Looked(lookups + [l], l.key, PairOf(l, zone))
  {
    assert (lookups + [l])[|lookups|] == l;
  }

  // ---- every run ----

  lemma {:induction false} RunInv(ttl: real, run: seq<State>, actions: seq<Action>, n: nat)
    requires IsRun(ttl, run, actions) && n < |run|
    ensures Inv(ttl, run[n])
  {
    if n > 0 {
      RunInv(ttl, run, actions, n - 1);
      assert Steps(ttl, run[n - 1], actions[n - 1], run[n]);
      StepInv(ttl, run[n - 1], actions[n - 1]);
    }
  }

  /** The cache never holds more than its cap while the lock is free. */
  lemma NeverOverfull(ttl: real, run: seq<State>, actions: seq<Action>, n: nat)
    requires IsRun(ttl, run, actions) && n < |run|
    ensures |run[n].cache| <= 512 && Distinct(run[n].cache)
  {
    RunInv(ttl, run, actions, n);
  }

  /** A call that ends while its exit has a good entry answers with what some complete lookup of that exit found. */
  lemma GoodEntryIsAnswered(ttl: real, run: seq<State>, actions: seq<Action>, n: nat)
    requires IsRun(ttl, run, actions) && n < |actions|
    requires Good(run[n].cache, KeyOf(actions[n]), JudgedAt(actions[n]))
    ensures Answer(run[n], actions[n]) != None
    ensures Looked(run[n + 1].lookups, KeyOf(actions[n]), Answer(run[n], actions[n]).value)
  {
    var s, a := run[n], actions[n];
    RunInv(ttl, run, actions, n);
    assert Steps(ttl, s, a, run[n + 1]) && EntrySound(ttl, s, KeyOf(a));
    match a
    case Ask(_, _, _) =>
    case Land(_, l, zone, _, _) =>
      LookedMore(s.lookups, l, l.key, Find(s.cache, l.key).value.pair);
      if Complete(l) { LookedLast(s.lookups, l, zone); }
  }

  /** The exit an action may store. */
  function StoredBy(a: Action): set<Key> {
    match a case Ask(_, _, _) => {} case Land(_, l, _, _, _) => {l.key}
  }

  /** One step keeps a good entry good, unless it is the 512th other exit that pushes it out. */
  lemma StepKeepsGood(ttl: real, s: State, a: Action, key: Key)
    requires Inv(ttl, s) && Enabled(s, a) && Good(s.cache, key, JudgedAt(a))
    ensures var s' := Apply(ttl, s, a);
            var after, before := Find(s'.cache, key), Find(s.cache, key);
            && (after != None ==> after.value.complete && after.value.expires >= before.value.expires)
            && (|Newer(s.cache, key) + (StoredBy(a) - {key})| < CAP ==>
                  after != None && Newer(s'.cache, key) <= Newer(s.cache, key) + (StoredBy(a) - {key}))
  {
    if a.Land? {
      assert EntrySound(ttl, s, key);
      if a.found.key == key {
        LandKeepsOwn(ttl, s.cache, a.found, a.containerZone, a.checked, a.stored);
      } else {
        LandKeepsOther(ttl, s.cache, a.found, a.containerZone, a.checked, a.stored, key);
        assert {a.found.key} - {key} == {a.found.key};
      }
    }
  }

  lemma LandKeepsOwn(ttl: real, cache: seq<Entry<Key, Exit>>, l: Lookup, zone: string, checked: real, stored: real)
    requires Distinct(cache) && Good(cache, l.key, checked)
    ensures var after := Find(Settled(cache, l, zone, ttl, checked, stored), l.key);
            after != None && after.value.complete
            && (after == Find(cache, l.key) || after.value.expires == stored + ttl)
    ensures Newer(Settled(cache, l, zone, ttl, checked, stored), l.key) <= Newer(cache, l.key)
  {
    if Complete(l) {
      PutSeen(cache, l.key, Exit(stored + ttl, PairOf(l, zone), true), l.key);
    }
  }

  lemma LandKeepsOther(ttl: real, cache: seq<Entry<Key, Exit>>, l: Lookup, zone: string, checked: real, stored: real, key: Key)
    requires Distinct(cache) && Find(cache, key) != None && key != l.key
    ensures var after := Settled(cache, l, zone, ttl, checked, stored);
            && (Find(after, key) == None || Find(after, key) == Find(cache, key))
            && (|Newer(cache, key) + {l.key}| < CAP ==>
                  Find(after, key) != None && Newer(after, key) <= Newer(cache, key) + {l.key})
  {
    PutSeen(cache, l.key,
            Exit(stored + if Complete(l) then ttl else FAILURE_TTL, PairOf(l, zone), Complete(l)), key);
  }

  /** A complete entry for `key` that lasts at least until `expires`, with only the exits of `crowd` newer than it. */
  ghost predicate Holds(cache: seq<Entry<Key, Exit>>, key: Key, expires: real, crowd: set<Key>) {
    && Find(cache, key) != None && Find(cache, key).value.complete && Find(cache, key).value.expires >= expires
    && Newer(cache, key) <= crowd
  }

  lemma KeptOnce(ttl: real, s: State, a: Action, s': State, key: Key, expires: real, crowd: set<Key>)
    requires Inv(ttl, s) && Steps(ttl, s, a, s') && Holds(s.cache, key, expires, crowd)
    requires s'.clock < expires && StoredBy(a) <= crowd + {key} && |crowd| < CAP
    ensures Holds(s'.cache, key, expires, crowd)
  {
    SubsetCount(Newer(s.cache, key) + (StoredBy(a) - {key}), crowd);
    StepKeepsGood(ttl, s, a, key);
  }

  lemma BeforeStep(ttl: real, run: seq<State>, actions: seq<Action>, n: nat)
    requires IsRun(ttl, run, actions) && n < |actions|
    ensures Inv(ttl, run[n]) && Steps(ttl, run[n], actions[n], run[n + 1]) && run[n].clock <= run[n + 1].clock
  {
    RunInv(ttl, run, actions, n);
    assert Steps(ttl, run[n], actions[n], run[n + 1]);
    StepInv(ttl, run[n], actions[n]);
  }

  /**
    A good entry stays good until it expires, as long as the exits newer than it to begin
    with and those stored since are fewer than 512: no fallback pair ever takes its place,
    however the calls interleave.
   */
  lemma {:induction false} GoodEntryIsKept(ttl: real, run: seq<State>, actions: seq<Action>, p: nat, n: nat,
                                           key: Key, expires: real, crowd: set<Key>)
    requires IsRun(ttl, run, actions) && p <= n <= |actions| && |crowd| < 512
    requires Holds(run[p].cache, key, expires, crowd) && run[n].clock < expires
    requires forall i | p <= i < n :: StoredBy(actions[i]) <= crowd + {key}
    ensures Holds(run[n].cache, key, expires, crowd)
    decreases n
  {
    if n > p {
      BeforeStep(ttl, run, actions, n - 1);
      GoodEntryIsKept(ttl, run, actions, p, n - 1, key, expires, crowd);
      KeptOnce(ttl, run[n - 1], actions[n - 1], run[n], key, expires, crowd);
    }
  }
}
