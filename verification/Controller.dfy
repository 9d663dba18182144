/** _resolve_challenge (src/flaresolverr_service.py): one budget, a list of engines, one answer. */
module Controller {
  import opened Basics
  import opened Budget
  import RecencyMap

  const MAX_REMEMBERED_HOSTS: nat := 500

  /** What an engine's solve comes to. */
  datatype Outcome = Failed(error: string) | Page(page: string, challenged: bool)

  datatype Result = Raised(error: string) | Answered(page: string, clean: bool)

  const NO_ENGINE := "All engines failed to solve the challenge."

  predicate Clean(o: Outcome) { o.Page? && !o.challenged }

  predicate Challenged(o: Outcome) { o.Page? && o.challenged }

  /** Among the first `n` outcomes. */
  function FirstClean(o: seq<Outcome>, n: nat): (r: Option<nat>)
    requires n <= |o|
    ensures r.Some? ==> r.value < n && Clean(o[r.value]) && forall j | 0 <= j < r.value :: !Clean(o[j])
    ensures r.None? ==> forall j | 0 <= j < n :: !Clean(o[j])
  {
    if n == 0 then None
    else match FirstClean(o, n - 1)
      case Some(i) => Some(i)
      case None => if Clean(o[n - 1]) then Some(n - 1) else None
  }

  function LatestChallenged(o: seq<Outcome>, n: nat): (r: Option<nat>)
    requires n <= |o|
    ensures r.Some? ==> r.value < n && Challenged(o[r.value]) && forall j | r.value < j < n :: !Challenged(o[j])
    ensures r.None? ==> forall j | 0 <= j < n :: !Challenged(o[j])
  {
    if n == 0 then None
    else if Challenged(o[n - 1]) then Some(n - 1)
    else LatestChallenged(o, n - 1)
  }

  /** The ranking of `n` engines: the first clean page, else the latest challenged one, else the last error. */
  function Verdict(o: seq<Outcome>, n: nat): Result
    requires n <= |o|
  {
    match FirstClean(o, n)
    case Some(i) => Answered(o[i].page, true)
    case None =>
      match LatestChallenged(o, n)
      case Some(i) => Answered(o[i].page, false)
      case None => if n == 0 then Raised(NO_ENGINE) else Raised(o[n - 1].error)
  }

  /** What the routing memory learns: the host's engine exactly when a page was cleared. */
  function Learned(memory: seq<RecencyMap.Entry<string, string>>, host: string, order: seq<string>, o: seq<Outcome>, n: nat)
    : seq<RecencyMap.Entry<string, string>>
    requires n <= |o| == |order|
  {
    match FirstClean(o, n)
    case Some(i) => if host == "" then memory else RecencyMap.Put(memory, host, order[i], MAX_REMEMBERED_HOSTS)
    case None => memory
  }

  /** The loop stops at a clean page and otherwise runs every engine the budget reaches. */
  function Tried(o: seq<Outcome>, reached: nat): nat
    requires reached <= |o|
  {
    match FirstClean(o, reached) case Some(i) => i + 1 case None => reached
  }

  /**
    `outcomes[i]` is what engine `i` would return or raise, `readings[i]` the clock
    when the loop comes to it.
   */
  method ResolveChallenge(order: seq<string>, outcomes: seq<Outcome>, readings: seq<real>, deadline: real,
                          host: string, memory: RecencyMap.Memory<string, string>)
    returns (result: Result, shares: seq<real>)
    requires |order| == |outcomes| == |readings|
    requires memory.Valid() && memory.cap == MAX_REMEMBERED_HOSTS
    modifies memory
    ensures memory.Valid()
    ensures result == Verdict(outcomes, Reached(readings, deadline, 0))
    ensures memory.entries == Learned(old(memory.entries), host, order, outcomes, Reached(readings, deadline, 0))
    ensures |shares| == Tried(outcomes, Reached(readings, deadline, 0))
    ensures forall i | 0 <= i < |shares| :: shares[i] == Share(deadline, readings[i], |order|, i)
  {
    var n := |order|;
    ghost var reached := Reached(readings, deadline, 0);
    var lastError: Option<string>, lastPage: Option<string> := None, None;
    shares := [];
    var i := 0;
    while i < n
      invariant 0 <= i <= reached <= n && reached == Reached(readings, deadline, i)
      invariant |shares| == i && forall j | 0 <= j < i :: shares[j] == Share(deadline, readings[j], n, j)
      invariant memory.Valid() && memory.entries == old(memory.entries)
      invariant Kept(outcomes, i, lastError, lastPage)
      invariant i == n > 0 ==> lastPage.Some?
    {
      var remaining := deadline - readings[i];
      if i > 0 && remaining < MIN_ENGINE_SECONDS {
        break;
      }
      var isLast := i == n - 1;
      shares := shares + [Share(deadline, readings[i], n, i)];
      match outcomes[i] {
        case Failed(error) =>
          KeepError(outcomes, i, lastError, lastPage);
          lastError := Some(error);
          if isLast && lastPage.None? {
            return Raised(error), shares;
          }
        case Page(page, challenged) =>
          if !isLast && challenged {
            var error := Some("Engine returned an unsolved challenge page");
            KeepPage(outcomes, i, lastError, lastPage, error);
            lastError := error;
            lastPage := Some(page);
          } else if challenged {
            return Answered(page, false), shares;
          } else {
            CleanEnds(outcomes, i, reached);
            if host != "" {
              memory.Remember(host, order[i]);
            }
            return Answered(page, true), shares;
          }
      }
      i := i + 1;
    }
    if lastPage.Some? {
      return Answered(lastPage.value, false), shares;
    }
    result := Raised(if lastError.Some? then lastError.value else NO_ENGINE);
  }

  /** What the loop's two variables remember of the first `n` engines, none of which cleared the page. */
  ghost predicate Kept(o: seq<Outcome>, n: nat, lastError: Option<string>, lastPage: Option<string>)
    requires n <= |o|
  {
    && FirstClean(o, n).None?
    && Verdict(o, n) == if lastPage.Some? then Answered(lastPage.value, false)
                        else Raised(if lastError.Some? then lastError.value else NO_ENGINE)
  }

  lemma KeepError(o: seq<Outcome>, i: nat, lastError: Option<string>, lastPage: Option<string>)
    requires i < |o| && Kept(o, i, lastError, lastPage) && o[i].Failed?
    ensures Kept(o, i + 1, Some(o[i].error), lastPage)
  {
  }

  lemma KeepPage(o: seq<Outcome>, i: nat, lastError: Option<string>, lastPage: Option<string>, error: Option<string>)
    requires i < |o| && Kept(o, i, lastError, lastPage) && Challenged(o[i])
    ensures Kept(o, i + 1, error, Some(o[i].page))
  {
  }

  lemma {:induction false} CleanEnds(o: seq<Outcome>, i: nat, n: nat)
    requires i < n <= |o| && FirstClean(o, i).None? && Clean(o[i])
    ensures FirstClean(o, n) == Some(i)
  {
    if i + 1 < n { CleanEnds(o, i, n - 1); }
  }

  // ---- the answer, outcome by outcome ----

  /** None of the first `n` engines returned a page that is no challenge. */
  ghost predicate NoneClean(o: seq<Outcome>, n: nat)
    requires n <= |o|
  {
    forall j | 0 <= j < n :: o[j].Failed? || o[j].challenged
  }

  lemma {:induction false} NoFirstClean(o: seq<Outcome>, n: nat)
    requires n <= |o| && NoneClean(o, n)
    ensures FirstClean(o, n) == None
  {
    if n > 0 { NoFirstClean(o, n - 1); }
  }

  lemma {:induction false} FirstCleanIs(o: seq<Outcome>, n: nat, i: nat)
    requires i < n <= |o| && NoneClean(o, i) && o[i].Page? && !o[i].challenged
    ensures FirstClean(o, n) == Some(i)
  {
    if i == n - 1 { NoFirstClean(o, i); } else { FirstCleanIs(o, n - 1, i); }
  }

  lemma {:induction false} LatestIs(o: seq<Outcome>, n: nat, i: nat)
    requires i < n <= |o| && o[i].Page? && o[i].challenged && forall j | i < j < n :: o[j].Failed?
    ensures LatestChallenged(o, n) == Some(i)
  {
    if i < n - 1 { LatestIs(o, n - 1, i); }
  }

  lemma {:induction false} NoLatest(o: seq<Outcome>, n: nat)
    requires n <= |o| && forall j | 0 <= j < n :: o[j].Failed?
    ensures LatestChallenged(o, n) == None
  {
    if n > 0 { NoLatest(o, n - 1); }
  }

  /** The first page that is no challenge, whatever came before or comes after it. */
  lemma CleanPageIsAnswered(o: seq<Outcome>, n: nat, i: nat)
    requires i < n <= |o| && NoneClean(o, i) && o[i].Page? && !o[i].challenged
    ensures Verdict(o, n) == Answered(o[i].page, true)
  {
    FirstCleanIs(o, n, i);
  }

  /** Else the latest challenged page, even if engines after it failed. */
  lemma ChallengedPageIsAnswered(o: seq<Outcome>, n: nat, i: nat)
    requires i < n <= |o| && NoneClean(o, n) && o[i].Page? && forall j | i < j < n :: o[j].Failed?
    ensures Verdict(o, n) == Answered(o[i].page, false)
  {
    NoFirstClean(o, n);
    LatestIs(o, n, i);
  }

  /** Else the error of the last engine tried, and the fixed message when none was. */
  lemma LastErrorIsRaised(o: seq<Outcome>, n: nat)
    requires n <= |o| && forall j | 0 <= j < n :: o[j].Failed?
    ensures n > 0 ==> Verdict(o, n) == Raised(o[n - 1].error)
    ensures n == 0 ==> Verdict(o, n) == Raised("All engines failed to solve the challenge.")
  {
    NoFirstClean(o, n);
    NoLatest(o, n);
  }

  /** The routing memory learns the engine of the first such page, and nothing otherwise. */
  lemma LearnsTheClearing(memory: seq<RecencyMap.Entry<string, string>>, host: string, order: seq<string>, o: seq<Outcome>, n: nat)
    requires n <= |o| == |order|
    ensures NoneClean(o, n) || host == "" ==> Learned(memory, host, order, o, n) == memory
    ensures forall i | 0 <= i < n && NoneClean(o, i) && o[i].Page? && !o[i].challenged ::
              Tried(o, n) == i + 1 && (host != "" ==> Learned(memory, host, order, o, n) == RecencyMap.Put(memory, host, order[i], 500))
    ensures NoneClean(o, n) ==> Tried(o, n) == n
  {
    if NoneClean(o, n) { NoFirstClean(o, n); }
    forall i | 0 <= i < n && NoneClean(o, i) && o[i].Page? && !o[i].challenged ensures FirstClean(o, n) == Some(i) {
      FirstCleanIs(o, n, i);
    }
  }

  // ---- more engines never make the answer worse ----

  function Grade(r: Result): nat {
    match r
    case Raised(_) => 0
    case Answered(_, clean) => if clean then 2 else 1
  }

  lemma {:induction false} LongerIsNoWorse(o: seq<Outcome>, p: seq<Outcome>, n: nat, m: nat)
    requires o <= p && n <= |o| && n <= m <= |p|
    ensures Grade(Verdict(o, n)) <= Grade(Verdict(p, m))
    ensures Grade(Verdict(o, n)) == 2 ==> Verdict(p, m) == Verdict(o, n)
  {
    if n < m {
      LongerIsNoWorse(o, p, n, m - 1);
    } else {
      SamePrefix(o, p, n);
    }
  }

  lemma {:induction false} SamePrefix(o: seq<Outcome>, p: seq<Outcome>, n: nat)
    requires o <= p && n <= |o|
    ensures FirstClean(o, n) == FirstClean(p, n) && LatestChallenged(o, n) == LatestChallenged(p, n)
  {
    if n > 0 { SamePrefix(o, p, n - 1); }
  }

  lemma {:induction false} ReachedExtends(readings: seq<real>, more: real, deadline: real, i: nat)
    requires i <= |readings|
    ensures Reached(readings, deadline, i) <= Reached(readings + [more], deadline, i)
    decreases |readings| - i
  {
    if i < |readings| && !(i > 0 && deadline - readings[i] < MIN_ENGINE_SECONDS) {
      ReachedExtends(readings, more, deadline, i + 1);
    }
  }

  /** With outcomes and clock held fixed, appending an engine to the plan never lowers the answer. */
  lemma AppendingNeverLowers(outcomes: seq<Outcome>, readings: seq<real>, deadline: real, o: Outcome, at: real)
    requires |outcomes| == |readings|
    ensures var before := Verdict(outcomes, Reached(readings, deadline, 0));
            var after := Verdict(outcomes + [o], Reached(readings + [at], deadline, 0));
            Grade(before) <= Grade(after) && (Grade(before) == 2 ==> after == before)
  {
    ReachedExtends(readings, at, deadline, 0);
    LongerIsNoWorse(outcomes, outcomes + [o], Reached(readings, deadline, 0), Reached(readings + [at], deadline, 0));
  }
}
