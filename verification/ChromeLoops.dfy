/** The Chrome engine's two timed loops: pressing the checkbox, and waiting for a page to settle. */
module ChromeLoops {
  import opened Basics

  // ---- _get_turnstile_token (src/engines/chrome_engine.py:543-591) ----

  /** The token input as a pass leaves it: None when it cannot be read. */
  datatype Attempt = Attempt(handover: Duration, pressTook: Duration, raised: bool,
                             input: Option<string>, overslept: Duration, thenTook: Duration)

  /** An empty token is no token. */
  function TokenValue(input: Option<string>): (t: Option<string>)
    ensures t == None <==> input == None || input == Some("")
    ensures t != None ==> t == input
  {
    if input != None && input.value == "" then None else input
  }

  /** A pass: the clock when the loop checked it, when it started, and when it was over. */
  datatype Pass = Pass(attempt: Attempt, checked: real, started: real, ended: real) {
    function Took(): real { ended - started }
  }

  datatype Pressed = Token(value: string) | NoToken | Error

  /** How long the pass before the k-th took; nothing before the first. */
  function Before(log: seq<Pass>, k: nat): real
    requires k <= |log|
  {
    if k == 0 then 0.0 else log[k - 1].Took()
  }

  /** The k-th pass was started because one as long as the last still fitted. */
  predicate Fitted(log: seq<Pass>, k: nat, deadline: real)
    requires k < |log|
  {
    && log[k].checked + Before(log, k) < deadline
    && log[k].checked <= log[k].started == log[k].checked + log[k].attempt.handover
    && log[k].started <= log[k].ended
    && (k > 0 ==> log[k - 1].ended <= log[k].checked)
  }

  predicate AllFitted(log: seq<Pass>, deadline: real) {
    forall k | 0 <= k < |log| :: Fitted(log, k, deadline)
  }

  /** Failed passes that can still start: each takes at least its own second. */
  function Room(now: real, deadline: real): nat {
    if now < deadline then Ceil(deadline - now) else 0
  }

  lemma RoomFalls(now: real, next: real, deadline: real)
    requires now < deadline && next >= now + 1.0
    ensures Room(next, deadline) < Room(now, deadline)
  {
  }

  lemma AllFittedAppend(log: seq<Pass>, p: Pass, deadline: real)
    requires AllFitted(log, deadline)
    requires p.checked + Before(log, |log|) < deadline
    requires p.checked <= p.started == p.checked + p.attempt.handover && p.started <= p.ended
    requires log != [] ==> log[|log| - 1].ended <= p.checked
    ensures AllFitted(log + [p], deadline)
  {
    forall k | 0 <= k < |log + [p]| ensures Fitted(log + [p], k, deadline) {
      if k < |log| { assert Fitted(log, k, deadline); }
    }
  }

  /**
    Presses until the token changes or no pass fits. The first pass runs only when the
    deadline has not already been reached, whatever the docstring says.
   */
  method GetTurnstileToken(before: Option<string>, start: real, deadline: real, attempts: nat -> Attempt)
    returns (result: Pressed, log: seq<Pass>)
    ensures |log| <= Room(start, deadline) && (log != [] <==> start < deadline)
    ensures forall k | 0 <= k < |log| :: log[k].attempt == attempts(k)
    ensures log != [] ==> log[0].checked == start
    ensures AllFitted(log, deadline)
    ensures forall k | 0 <= k < |log| - 1 ::
              && !log[k].attempt.raised && log[k].ended == log[k].started + log[k].attempt.pressTook + 1.0 + log[k].attempt.overslept
              && (log[k].attempt.input == None || log[k].attempt.input == Some("") || log[k].attempt.input == before)
    ensures result.Token? <==> log != [] && !log[|log| - 1].attempt.raised
                               && log[|log| - 1].attempt.input != None && log[|log| - 1].attempt.input != Some("")
                               && log[|log| - 1].attempt.input != before
    ensures result.Token? ==> log[|log| - 1].attempt.input == Some(result.value)
    ensures result.Error? <==> log != [] && log[|log| - 1].attempt.raised
    ensures result.NoToken? && log != [] ==>
              var last := log[|log| - 1];
              && last.ended == last.started + last.attempt.pressTook + 1.0 + last.attempt.overslept
              && last.ended + last.attempt.thenTook + last.Took() >= deadline
  {
    log := [];
    var initial := TokenValue(before);
    var now, passSeconds := start, 0.0;
    while now + passSeconds < deadline
      invariant passSeconds == Before(log, |log|) >= 0.0 && AllFitted(log, deadline)
      invariant |log| + Room(now, deadline) <= Room(start, deadline)
      invariant forall k | 0 <= k < |log| :: log[k].attempt == attempts(k)
      invariant forall k | 0 <= k < |log| ::
        && !log[k].attempt.raised && log[k].ended == log[k].started + log[k].attempt.pressTook + 1.0 + log[k].attempt.overslept
        && (log[k].attempt.input == None || log[k].attempt.input == Some("") || log[k].attempt.input == before)
      invariant if log == [] then now == start
                else log[0].checked == start < deadline && now == log[|log| - 1].ended + log[|log| - 1].attempt.thenTook
      decreases Room(now, deadline)
    {
      var a := attempts(|log|);
      var started := now + a.handover;
      var tried := started + a.pressTook;
      if a.raised {
        var p := Pass(a, now, started, tried);
        AllFittedAppend(log, p, deadline);
        return Error, log + [p];
      }
      var token := TokenValue(a.input);
      if token != None {
        if token != initial {
          var p := Pass(a, now, started, tried);
          AllFittedAppend(log, p, deadline);
          return Token(token.value), log + [p];
        }
      }
      var ended := tried + 1.0 + a.overslept;
      var p := Pass(a, now, started, ended);
      AllFittedAppend(log, p, deadline);
      RoomFalls(now, ended + a.thenTook, deadline);
      log, now := log + [p], ended + a.thenTook;
      passSeconds := ended - started;
    }
    return NoToken, log;
  }

  /** What a pass runs past the deadline is at most what it grew by on the one before, and the handover between clock readings. */
  lemma OverrunIsGrowth(log: seq<Pass>, k: nat, deadline: real)
    requires AllFitted(log, deadline) && k < |log|
    ensures log[k].ended < deadline + log[k].attempt.handover + (log[k].Took() - Before(log, k))
    ensures log[k].attempt.handover == 0.0 ==> log[k].ended < deadline + MaxReal(0.0, log[k].Took() - Before(log, k))
  {
    assert Fitted(log, k, deadline);
  }

  /** Where the bound without the handover would put the end of a pass. */
  function GrowthBound(before: real, took: real, deadline: real): real {
    deadline + MaxReal(0.0, took - before)
  }

  /**
    Without the handover the bound holds for a pass of whatever length exactly when the
    loop's own guard still held at the pass's start.
   */
  lemma GrowthBoundsEveryLengthIff(started: real, before: Duration, deadline: real)
    ensures (forall took: Duration :: started + took < GrowthBound(before, took, deadline)) <==> started + before < deadline
  {
    if started + before < deadline {
      forall took: Duration ensures started + took < GrowthBound(before, took, deadline) {
      }
    } else {
      assert !(started + before < GrowthBound(before, before, deadline));
    }
  }

  /** And for one pass of a run exactly when the shorter of it and the one before would have ended in time from its start. */
  lemma GrowthBoundsAPassIff(log: seq<Pass>, k: nat, deadline: real)
    requires AllFitted(log, deadline) && k < |log|
    ensures log[k].ended < GrowthBound(Before(log, k), log[k].Took(), deadline)
       <==> log[k].started + (if log[k].Took() < Before(log, k) then log[k].Took() else Before(log, k)) < deadline
  {
    assert Fitted(log, k, deadline);
  }

  /** A first pass whose handover uses up the time left runs past that bound. */
  lemma HandoverCanOverrun(deadline: real)
    ensures exists log: seq<Pass> :: |log| == 1 && AllFitted(log, deadline) && log[0].attempt.handover > 0.0
                          && log[0].ended > GrowthBound(Before(log, 0), log[0].Took(), deadline)
  {
    var attempt := Attempt(2.0, 1.0, false, None, 0.0, 0.0);
    var log := [Pass(attempt, deadline - 1.0, deadline + 1.0, deadline + 3.0)];
    assert Fitted(log, 0, deadline);
    assert AllFitted(log, deadline);
    assert log[0].ended > GrowthBound(Before(log, 0), log[0].Took(), deadline);
  }

  /** So passes that never grow end in time, all but the first. */
  lemma SteadyPassesEndInTime(log: seq<Pass>, k: nat, deadline: real)
    requires AllFitted(log, deadline) && k < |log|
    requires log[k].attempt.handover == 0.0
    ensures k > 0 && log[k].Took() <= log[k - 1].Took() ==> log[k].ended < deadline
    ensures k == 0 ==> log[k].ended < deadline + log[k].Took()
  {
    OverrunIsGrowth(log, k, deadline);
  }

  // ---- _settle (src/engines/chrome_engine.py:351-372) ----

  const MAX_POLLS := 50
  const QUIET_POLLS := 5
  const POLL_SECONDS := 0.1

  datatype PageState = PageState(href: string, ready: string, origin: real, resources: int)

  /** One poll's read; None when the script failed or returned nothing. */
  datatype Read = Read(state: Option<PageState>, took: Duration, overslept: Duration)

  datatype Exit = Quiet | AtDeadline | Capped

  /** The clock when poll `k` starts. */
  function Clock(start: real, polls: nat -> Read, k: nat): real {
    if k == 0 then start
    else Clock(start, polls, k - 1) + polls(k - 1).took + POLL_SECONDS + polls(k - 1).overslept
  }

  /** A tenth of a second between polls, besides what the reads take. */
  lemma PollsAreSpaced(start: real, polls: nat -> Read, k: nat)
    ensures Clock(start, polls, 0) == start
    ensures Clock(start, polls, k + 1) == Clock(start, polls, k) + polls(k).took + 0.1 + polls(k).overslept
  {
  }

  /** The last six reads, up to the k-th, all succeeded, are identical and are complete. */
  predicate QuietAt(polls: nat -> Read, k: nat) {
    && k >= QUIET_POLLS
    && polls(k).state != None
    && polls(k).state.value.ready == "complete"
    && forall j: nat | k - QUIET_POLLS <= j <= k :: polls(j).state == polls(k).state
  }

  /** How many reads in a row, up to the k-th, repeated the one before on a complete page. */
  function Repeats(polls: nat -> Read, k: nat): nat {
    if k > 0 && polls(k).state != None && polls(k).state == polls(k - 1).state && polls(k).state.value.ready == "complete"
    then Repeats(polls, k - 1) + 1 else 0
  }

  lemma {:induction false} RepeatsCount(polls: nat -> Read, k: nat, n: nat)
    ensures Repeats(polls, k) >= n > 0 ==>
              n <= k && polls(k).state != None && polls(k).state.value.ready == "complete"
              && forall j: nat | k - n <= j <= k :: polls(j).state == polls(k).state
    ensures n <= k && polls(k).state != None && polls(k).state.value.ready == "complete"
            && (forall j: nat | k - n <= j <= k :: polls(j).state == polls(k).state)
            ==> Repeats(polls, k) >= n
  {
    if k > 0 && n > 1 {
      RepeatsCount(polls, k - 1, n - 1);
      if Repeats(polls, k) >= n {
        assert polls(k - 1).state == polls(k).state;
      }
      if n <= k && polls(k).state != None && polls(k).state.value.ready == "complete"
         && (forall j: nat | k - n <= j <= k :: polls(j).state == polls(k).state) {
        assert polls(k - 1).state == polls(k).state;
        assert forall j: nat | k - 1 - (n - 1) <= j <= k - 1 :: polls(j).state == polls(k - 1).state;
      }
    }
  }

  lemma QuietIsFiveRepeats(polls: nat -> Read, k: nat)
    ensures QuietAt(polls, k) <==> Repeats(polls, k) >= QUIET_POLLS
  {
    RepeatsCount(polls, k, QUIET_POLLS);
  }

  /** The same, counted from the reads made. */
  lemma LastSixReads(polls: nat -> Read, n: nat)
    requires n > 0
    ensures QuietAt(polls, n - 1) <==>
              n >= 6 && polls(n - 1).state != None && polls(n - 1).state.value.ready == "complete"
              && forall j: nat | n - 6 <= j < n :: polls(j).state == polls(n - 1).state
  {
  }

  lemma NoneQuiet(polls: nat -> Read, n: nat)
    requires forall j: nat | j < n :: Repeats(polls, j) < QUIET_POLLS
    ensures forall j: nat | j < n :: !QuietAt(polls, j)
  {
    forall j: nat | j < n ensures !QuietAt(polls, j) {
      QuietIsFiveRepeats(polls, j);
    }
  }

  /** Leaves at exactly the first quiet poll, or else at the deadline or the cap. */
  method Settle(start: real, deadline: real, polls: nat -> Read) returns (exit: Exit, n: nat)
    ensures n <= 50
    ensures forall j: nat | j < n :: Clock(start, polls, j) < deadline
    ensures forall j: nat | j < n - 1 :: !QuietAt(polls, j)
    ensures exit == Quiet <==>
              n >= 6 && polls(n - 1).state != None && polls(n - 1).state.value.ready == "complete"
              && forall j: nat | n - 6 <= j < n :: polls(j).state == polls(n - 1).state
    ensures exit == AtDeadline ==> n < 50 && Clock(start, polls, n) >= deadline
    ensures exit == Capped ==> n == 50
  {
    var last: Option<PageState>, quiet, now := None, 0, start;
    n := 0;
    while n < MAX_POLLS
      invariant n <= MAX_POLLS && now == Clock(start, polls, n)
      invariant last == if n == 0 then None else polls(n - 1).state
      invariant 0 <= quiet < QUIET_POLLS && quiet == if n == 0 then 0 else Repeats(polls, n - 1)
      invariant forall j: nat | j < n :: Clock(start, polls, j) < deadline && Repeats(polls, j) < QUIET_POLLS
    {
      if now >= deadline {
        NoneQuiet(polls, n);
        if n > 0 { LastSixReads(polls, n); }
        return AtDeadline, n;
      }
      var state := polls(n).state;
      if state != None && state == last && state.value.ready == "complete" {
        quiet := quiet + 1;
        if quiet >= QUIET_POLLS {
          NoneQuiet(polls, n);
          QuietIsFiveRepeats(polls, n);
          LastSixReads(polls, n + 1);
          return Quiet, n + 1;
        }
      } else {
        quiet := 0;
      }
      last := state;
      now := now + polls(n).took + POLL_SECONDS + polls(n).overslept;
      n := n + 1;
    }
    NoneQuiet(polls, n);
    LastSixReads(polls, n);
    return Capped, n;
  }
}
