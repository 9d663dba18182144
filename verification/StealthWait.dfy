/**
  The stealth engine's wait for a challenge to clear (src/engines/stealth_engine.py:684-736).
  Every page read, press and delay is taken from an arbitrary sequence of passes.
 */
module StealthWait {
  import opened Basics

  const COOLDOWN := 4.0
  const POLL := 1.5
  const CONFIRM := 1.0

  /** What a look at the page says; a read that raised twice is Raised. */
  datatype Kind = Denied | Challenge | Clear | Raised
  datatype Answer = Yes | No | Failed

  /** One pass as the page, the browser and the scheduler make it go. The title is read for the debug log only. */
  datatype Pass = Pass(kind: Kind, hasWidget: bool, lookTook: Duration,
                       titleRaises: bool, titleTook: Duration,
                       token: Answer, tokenTook: Duration,
                       interstitial: Answer, interstitialTook: Duration,
                       landed: Answer, pressTook: Duration,
                       confirm: Kind, confirmOverslept: Duration, confirmTook: Duration,
                       pollOverslept: Duration)

  datatype Press = Press(from: real, to: real)

  /** What one pass did and when: `looked` is when its look was answered, `end` when it was over. */
  datatype Record = Record(pass: Pass, start: real, looked: real,
                           press: Option<Press>, confirmed: Option<real>, end: real)

  datatype Result = Cleared | StillUp | Blocked | Error

  /** The pass comes to ask for the widget's token. */
  predicate Prompts(p: Pass) { p.kind == Challenge && !p.titleRaises && p.hasWidget }

  /** When the token has been asked for. */
  function AskedAt(r: Record): real { r.looked + r.pass.titleTook + r.pass.tokenTook }

  /** The pass ends the wait, and how. */
  predicate Clears(p: Pass) {
    (p.kind == Clear && (p.confirm == Clear || p.confirm == Denied))
    || (Prompts(p) && p.token == Yes && p.interstitial == No)
  }

  predicate Errs(r: Record) {
    r.pass.kind == Raised
    || (r.pass.kind == Challenge && r.pass.titleRaises)
    || (r.pass.kind == Clear && r.pass.confirm == Raised)
    || (Prompts(r.pass) && (r.pass.token == Failed || (r.pass.token == Yes && r.pass.interstitial == Failed)))
    || (r.press != None && r.pass.landed == Failed)
  }

  predicate Undecided(r: Record) {
    !Clears(r.pass) && r.pass.kind != Denied && !Errs(r)
  }

  predicate Lands(r: Record) { r.press != None && r.pass.landed == Yes }

  /** When the last of the first `n` passes to land a press had finished it; the clock's zero before any. */
  function LastLanded(log: seq<Record>, n: nat): real
    requires n <= |log|
  {
    if n == 0 then 0.0
    else if Lands(log[n - 1]) then log[n - 1].press.value.to
    else LastLanded(log, n - 1)
  }

  /** The k-th record keeps the code's rules of timing and pressing. */
  predicate Keeps(log: seq<Record>, k: nat)
    requires k < |log|
  {
    var r := log[k];
    && r.start <= r.looked <= r.end
    && (k > 0 ==> r.start == log[k - 1].end + POLL + log[k - 1].pass.pollOverslept)
    && (r.press != None <==>
          Prompts(r.pass) && r.pass.token == No && AskedAt(r) - LastLanded(log, k) >= COOLDOWN)
    && (r.press != None ==> r.press.value == Press(AskedAt(r), AskedAt(r) + r.pass.pressTook) && r.press.value.to <= r.end)
    && (r.confirmed != None <==> r.pass.kind == Clear)
    && (r.confirmed != None ==> r.confirmed.value == r.looked + CONFIRM + r.pass.confirmOverslept <= r.end)
  }

  predicate AllKeep(log: seq<Record>) {
    forall k | 0 <= k < |log| :: Keeps(log, k)
  }

  /** How many more passes can start before the deadline. */
  function Polls(now: real, deadline: real): nat {
    if now < deadline then Ceil((deadline - now) / POLL) else 0
  }

  lemma PollsFall(end: real, next: real, deadline: real)
    requires end < deadline && next >= end + POLL
    ensures Polls(next, deadline) < Polls(end, deadline)
  {
    assert (deadline - next) / POLL <= (deadline - end) / POLL - 1.0;
    assert (deadline - end) / POLL > 0.0;
  }

  lemma PollsShrink(a: real, b: real, deadline: real)
    requires a <= b
    ensures Polls(b, deadline) <= Polls(a, deadline)
  {
    if b < deadline { assert (deadline - b) / POLL <= (deadline - a) / POLL; }
  }

  lemma {:induction false} LastLandedPrefix(log: seq<Record>, r: Record, n: nat)
    requires n <= |log|
    ensures LastLanded(log + [r], n) == LastLanded(log, n)
  {
    if n > 0 { LastLandedPrefix(log, r, n - 1); }
  }

  lemma AllKeepAppend(log: seq<Record>, r: Record)
    requires AllKeep(log)
    requires r.start <= r.looked <= r.end
    requires log != [] ==> r.start == log[|log| - 1].end + POLL + log[|log| - 1].pass.pollOverslept
    requires r.press != None <==> Prompts(r.pass) && r.pass.token == No
                                  && AskedAt(r) - LastLanded(log, |log|) >= COOLDOWN
    requires r.press != None ==> r.press.value == Press(AskedAt(r), AskedAt(r) + r.pass.pressTook) && r.press.value.to <= r.end
    requires r.confirmed != None <==> r.pass.kind == Clear
    requires r.confirmed != None ==> r.confirmed.value == r.looked + CONFIRM + r.pass.confirmOverslept <= r.end
    ensures AllKeep(log + [r])
    ensures LastLanded(log + [r], |log| + 1) == if Lands(r) then r.press.value.to else LastLanded(log, |log|)
  {
    var all := log + [r];
    forall k | 0 <= k < |all| ensures Keeps(all, k) {
      LastLandedPrefix(log, r, k);
      if k < |log| { assert Keeps(log, k); }
    }
    LastLandedPrefix(log, r, |log|);
  }

  /** One look at the page and what follows from it, up to the deadline check. */
  method MakePass(p: Pass, started: real, lastClick: real) returns (r: Record, result: Option<Result>, clicked: real)
    ensures r.pass == p && r.start == started && started <= r.looked <= r.end
    ensures r.press != None <==> Prompts(p) && p.token == No && AskedAt(r) - lastClick >= COOLDOWN
    ensures r.press != None ==> r.press.value == Press(AskedAt(r), AskedAt(r) + p.pressTook) && r.press.value.to <= r.end
    ensures r.confirmed != None <==> p.kind == Clear
    ensures r.confirmed != None ==> r.confirmed.value == r.looked + CONFIRM + p.confirmOverslept <= r.end
    ensures clicked == if Lands(r) then r.press.value.to else lastClick
    ensures result == Some(Cleared) <==> Clears(p)
    ensures result == Some(Blocked) <==> p.kind == Denied
    ensures result == Some(Error) <==> Errs(r)
    ensures result != Some(StillUp)
  {
    var now := started + p.lookTook;
    clicked := lastClick;
    r := Record(p, started, now, None, None, now);
    if p.kind == Raised {
      return r, Some(Error), clicked;
    }
    if p.kind == Denied {
      return r, Some(Blocked), clicked;
    }
    if p.kind == Challenge {
      now := now + p.titleTook;
      r := r.(end := now);
      if p.titleRaises {
        return r, Some(Error), clicked;
      }
      if p.hasWidget {
        now := now + p.tokenTook;
        r := r.(end := now);
        if p.token == Failed {
          return r, Some(Error), clicked;
        }
        if p.token == Yes {
          r := r.(end := now + p.interstitialTook);
          if p.interstitial == Failed {
            return r, Some(Error), clicked;
          }
          if p.interstitial == No {
            return r, Some(Cleared), clicked;
          }
        }
        if p.token == No && now - lastClick >= COOLDOWN {
          var pressed := now + p.pressTook;
          r := r.(press := Some(Press(now, pressed)), end := pressed);
          if p.landed == Failed {
            return r, Some(Error), clicked;
          }
          if p.landed == Yes {
            clicked := pressed;
          }
        }
      }
    } else {
      var again := now + CONFIRM + p.confirmOverslept;
      r := r.(confirmed := Some(again), end := again + p.confirmTook);
      if p.confirm == Raised {
        return r, Some(Error), clicked;
      }
      if p.confirm != Challenge {
        return r, Some(Cleared), clicked;
      }
    }
    result := None;
  }

  /**
    How a wait can end. The log says what each pass saw and did; the pass that decides is
    the last one, and none before it could have.
   */
  ghost predicate IsWait(start: real, deadline: real, passes: nat -> Pass, result: Result, log: seq<Record>) {
    && 0 < |log| <= Polls(start, deadline) + 1
    && (forall k | 0 <= k < |log| :: log[k].pass == passes(k))
    && log[0].start == start && AllKeep(log)
    && (forall k | 0 <= k < |log| - 1 :: Undecided(log[k]) && log[k].end < deadline)
    && var last := log[|log| - 1];
    && (result == Cleared <==> Clears(last.pass))
    && (result == Blocked <==> last.pass.kind == Denied)
    && (result == Error <==> Errs(last))
    && (result == StillUp ==> last.end >= deadline)
  }

  /** Waits until the challenge clears or the deadline passes. */
  method WaitUntilCleared(start: real, deadline: real, passes: nat -> Pass) returns (result: Result, log: seq<Record>)
    ensures IsWait(start, deadline, passes, result, log)
  {
    log := [];
    var now := start;
    var lastClick := 0.0;
    while true
      invariant AllKeep(log) && lastClick == LastLanded(log, |log|)
      invariant |log| + Polls(now, deadline) <= Polls(start, deadline)
      invariant forall k | 0 <= k < |log| :: log[k].pass == passes(k) && Undecided(log[k]) && log[k].end < deadline
      invariant if log == [] then now == start
                else log[0].start == start && now == log[|log| - 1].end + POLL + log[|log| - 1].pass.pollOverslept
      decreases Polls(now, deadline)
    {
      var p := passes(|log|);
      var r, decided, clicked := MakePass(p, now, lastClick);
      AllKeepAppend(log, r);
      log, lastClick := log + [r], clicked;
      if decided != None {
        return decided.value, log;
      }
      PollsShrink(now, r.end, deadline);
      if r.end >= deadline {
        return StillUp, log;
      }
      var next := r.end + POLL + p.pollOverslept;
      PollsFall(r.end, next, deadline);
      now := next;
    }
  }

  // ---- what the log's rules come to over a whole wait ----

  lemma {:induction false} EndsAscend(log: seq<Record>, i: nat, j: nat)
    requires AllKeep(log) && i < j < |log|
    ensures log[i].end + POLL <= log[j].start
  {
    assert Keeps(log, j) && Keeps(log, j - 1);
    if i < j - 1 { EndsAscend(log, i, j - 1); }
  }

  lemma {:induction false} LandedBefore(log: seq<Record>, i: nat, n: nat)
    requires AllKeep(log) && i < n <= |log| && Lands(log[i])
    ensures log[i].press.value.to <= LastLanded(log, n)
  {
    assert Keeps(log, i);
    if !Lands(log[n - 1]) {
      LandedBefore(log, i, n - 1);
    } else if i < n - 1 {
      assert Keeps(log, n - 1);
      EndsAscend(log, i, n - 1);
    }
  }

  /** Landed presses leave the verification alone for the cooldown: any press starts at least 4 s after each landed one ended. */
  lemma PressesAreSpaced(log: seq<Record>, i: nat, j: nat)
    requires AllKeep(log) && i < j < |log|
    requires Lands(log[i]) && log[j].press != None
    ensures log[j].press.value.from >= log[i].press.value.to + 4.0
  {
    LandedBefore(log, i, j);
    assert Keeps(log, j);
  }

  /** No press goes over a token, and a box without one is pressed whenever no landed press is still cooling down. */
  lemma {:induction false} PressedExactlyWhen(log: seq<Record>, k: nat)
    requires AllKeep(log) && k < |log|
    requires forall i | 0 <= i < |log| :: log[i].press != None ==> log[i].press.value.from >= 0.0
    ensures log[k].press != None ==> log[k].pass.token == No
    ensures Prompts(log[k].pass) && log[k].pass.token == No ==>
              (log[k].press == None <==>
               AskedAt(log[k]) < 4.0
               || exists i | 0 <= i < k :: Lands(log[i])
                    && AskedAt(log[k]) < log[i].press.value.to + 4.0)
  {
    assert Keeps(log, k);
    var at := AskedAt(log[k]);
    LastLandedIs(log, k);
    if at < LastLanded(log, k) + COOLDOWN {
      if LastLanded(log, k) != 0.0 {
        var i :| 0 <= i < k && Lands(log[i]) && LastLanded(log, k) == log[i].press.value.to;
      }
    } else {
      forall i | 0 <= i < k && Lands(log[i]) ensures at >= log[i].press.value.to + COOLDOWN {
        LandedBefore(log, i, k);
      }
    }
  }

  lemma {:induction false} LastLandedIs(log: seq<Record>, n: nat)
    requires AllKeep(log) && n <= |log|
    requires forall i | 0 <= i < |log| :: log[i].press != None ==> log[i].press.value.from >= 0.0
    ensures LastLanded(log, n) >= 0.0
    ensures LastLanded(log, n) != 0.0 ==> exists i | 0 <= i < n :: Lands(log[i]) && LastLanded(log, n) == log[i].press.value.to
  {
    if n > 0 {
      assert Keeps(log, n - 1);
      LastLandedIs(log, n - 1);
    }
  }

  // ---- how it ends and how long it takes, spelled out ----

  /**
    Cleared: a clear look, and a second one that is no challenge and was answered; or a
    widget with a token on a page with no interstitial. Blocked: a denied look. An error:
    a read or a press that raised, on the way that was taken.
   */
  lemma WaitEndsBy(start: real, deadline: real, passes: nat -> Pass, result: Result, log: seq<Record>)
    requires IsWait(start, deadline, passes, result, log)
    ensures var r := log[|log| - 1]; var p := r.pass;
            var asks := p.kind == Challenge && !p.titleRaises && p.hasWidget;
            && (result == Cleared <==>
                  (p.kind == Clear && p.confirm != Challenge && p.confirm != Raised)
                  || (asks && p.token == Yes && p.interstitial == No))
            && (result == Blocked <==> p.kind == Denied)
            && (result == Error <==>
                  || p.kind == Raised
                  || (p.kind == Clear && p.confirm == Raised)
                  || (p.kind == Challenge && p.titleRaises)
                  || (asks && p.token == Failed)
                  || (asks && p.token == Yes && p.interstitial == Failed)
                  || (r.press != None && p.landed == Failed))
            && (result == StillUp ==> r.end >= deadline)
    ensures forall k | 0 <= k < |log| - 1 ::
              var p := log[k].pass;
              && log[k].end < deadline && p.kind != Denied && p.kind != Raised
              && (p.kind == Clear ==> p.confirm == Challenge)
              && (p.kind == Challenge && !p.titleRaises && p.hasWidget && p.token == Yes ==> p.interstitial == Yes)
  {
    forall k | 0 <= k < |log| - 1 ensures Undecided(log[k]) { }
  }

  /** The second look starts a second after the first, and a pass a second and a half after the one before it. */
  lemma WaitTakes(start: real, deadline: real, passes: nat -> Pass, result: Result, log: seq<Record>, k: nat)
    requires IsWait(start, deadline, passes, result, log) && k < |log|
    ensures log[k].pass.kind == Clear <==> log[k].confirmed.Some?
    ensures log[k].pass.kind == Clear ==> log[k].confirmed.value == log[k].looked + 1.0 + log[k].pass.confirmOverslept
    ensures k > 0 ==> log[k].start == log[k - 1].end + 1.5 + log[k - 1].pass.pollOverslept
    ensures start < deadline ==> |log| <= Ceil((deadline - start) / 1.5) + 1
    ensures start >= deadline ==> |log| == 1
  {
    assert Keeps(log, k);
  }

  // ---- the second look accepts whatever is no challenge ----

  /** What the pass saw of the page last. */
  function LastLook(p: Pass): Kind {
    if p.kind == Clear then p.confirm else p.kind
  }

  /** A wait reports cleared with the page last seen denied exactly when the second look is the one that saw it. */
  lemma ClearedWhileDeniedIff(start: real, deadline: real, passes: nat -> Pass, result: Result, log: seq<Record>)
    requires IsWait(start, deadline, passes, result, log)
    ensures var last := log[|log| - 1].pass;
            result == Cleared && LastLook(last) == Denied <==> last.kind == Clear && last.confirm == Denied
  {
  }

  /** A page that turns away on the second look of the first pass is always reported cleared. */
  lemma DeniedSecondLookClears(start: real, deadline: real, passes: nat -> Pass)
    requires passes(0).kind == Clear && passes(0).confirm == Denied
    ensures forall result: Result, log: seq<Record> | IsWait(start, deadline, passes, result, log) :: result == Cleared && |log| == 1
    ensures exists log :: IsWait(start, deadline, passes, Cleared, log)
  {
    forall result: Result, log: seq<Record> | IsWait(start, deadline, passes, result, log) ensures result == Cleared && |log| == 1 {
      assert log[0].pass == passes(0) && !Undecided(log[0]);
    }
    var looked := start + passes(0).lookTook;
    var again := looked + CONFIRM + passes(0).confirmOverslept;
    var r := Record(passes(0), start, looked, None, Some(again), again);
    assert Keeps([r], 0);
    assert IsWait(start, deadline, passes, Cleared, [r]);
  }
}
