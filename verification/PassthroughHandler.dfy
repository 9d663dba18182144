/** The lock sections of _handle and the owner's path through it (src/passthrough.py). */
module PassthroughHandler {
  import opened Basics
  import opened PassthroughCache
  import opened SingleFlight

  /** Where an exception leaves the owner's path: judging the page, after storing it, or writing to the client. */
  datatype Crash = Never | InJudging | InStoring | InSending

  datatype Reply = Nothing | BadGateway | Page(answer: Answer)

  /** _Pending. */
  class Pending {
    var woken: bool
    var failed: bool
    var answer: Option<Answer>

    constructor ()
      ensures !woken && !failed && answer.None?
    {
      woken, failed, answer := false, false, None;
    }
  }

  class Handlers {
    const cache: Cache
    var inflight: map<Path, Pending>

    constructor (cache: Cache)
      ensures this.cache == cache && inflight == map[]
    {
      this.cache, inflight := cache, map[];
    }

    /** The first section: a hit is copied out, otherwise the path's slot is joined or taken. */
    method Decide(path: Path, now: real) returns (d: Decision<Pending>, pending: Pending?)
      modifies this`inflight
      ensures d == Decided(cache.entries, old(inflight), path, now, cache.ttl)
      ensures (path in cache.entries && cache.ttl > 0 && cache.entries[path].expires > now) <==> d.Hit?
      ensures d.Hit? ==> d == Hit(cache.entries[path]) && inflight == old(inflight)
      ensures !d.Hit? && path in old(inflight) ==>
                d == Join(old(inflight)[path]) && pending == old(inflight)[path] && inflight == old(inflight)
      ensures !d.Hit? && path !in old(inflight) ==>
                d == Own && pending != null && fresh(pending) && !pending.woken && pending.answer.None?
                && inflight == old(inflight)[path := pending]
    {
      pending := null;
      if path in cache.entries && cache.ttl > 0 && cache.entries[path].expires > now {
        return Hit(cache.entries[path]), null;
      }
      if path in inflight {
        return Join(inflight[path]), inflight[path];
      }
      pending := new Pending();
      inflight := inflight[path := pending];
      d := Own;
    }

    /** The finally block: the slot is unlisted under the lock, then its waiters are woken. */
    method Finish(path: Path, pending: Pending)
      modifies this`inflight, pending`woken
      ensures inflight == old(inflight) - {path} && pending.woken
    {
      inflight := inflight - {path};
      pending.woken := true;
    }

    /**
      The owner's path: `solved` is None when the solve raises, and `crash` says where
      anything after it does. Whatever happens the slot is released and woken, and a
      waiter reading it then answers as the owner did, or with a 502.
     */
    method SolveAndPublish(path: Path, pending: Pending, solved: Option<Solve>, crash: Crash, ttl: int, now: real)
      returns (reply: Reply, ghost order: seq<Path>, ghost evicted: nat)
      requires cache.Valid() && pending.answer.None?
      modifies this`inflight, pending, cache
      ensures cache.Valid() && inflight == old(inflight) - {path} && pending.woken
      ensures reply == if solved.None? then BadGateway else if crash == Never then Page(solved.value.answer) else Nothing
      ensures pending.answer == if solved.Some? && (crash == Never || crash == InSending) then Some(solved.value.answer) else None
      ensures pending.failed <==> solved.None?
      ensures if solved.Some? && crash != InJudging && cache.ttl > 0 && 200 <= solved.value.answer.status < 300
                 && !solved.value.challenged then
                var a := solved.value.answer;
                Stored(cache.max, old(cache.entries), now, path,
                       Cached(now + ttl as real, a.status, a.body, a.contentType), cache.entries, order, evicted)
              else cache.entries == old(cache.entries)
    {
      reply, order, evicted := Nothing, [], 0;
      pending.failed := solved.None?;
      if solved.None? {
        reply := BadGateway;
      } else if crash != InJudging {
        var a := solved.value.answer;
        if cache.ttl > 0 && 200 <= a.status < 300 && !solved.value.challenged {
          var kept;
          kept, order, evicted := cache.Store(path, a.status, a.body, a.contentType, Some(ttl), now);
        }
        if crash != InStoring {
          pending.answer := Some(a);
          reply := if crash == Never then Page(a) else Nothing;
        }
      }
      Finish(path, pending);
    }

    /** A waiter whose event is set: the slot's answer, or a 502 (None). */
    method ReadSlot(pending: Pending) returns (response: Option<Answer>)
      ensures response == if pending.failed then None else pending.answer
    {
      if pending.failed || pending.answer.None? {
        response := None;
      } else {
        response := pending.answer;
      }
    }
  }
}
