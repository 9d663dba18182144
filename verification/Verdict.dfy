/** The verdict about a page, and its settled form (src/pipeline.py:68-131). */
module Verdict {
  import opened Basics
  import opened Kernels

  datatype Kind = Denied | Challenge | Clean

  /** (verdict, is_turnstile, reason). */
  datatype Found = Found(kind: Kind, turnstile: bool, reason: Option<string>)

  /** The lists of detection.py, str.lower, and the engine's capability. */
  datatype Rules = Rules(deniedTitles: seq<string>, denied: seq<string>, widgets: seq<string>,
                         challengeTitles: seq<string>, challenges: seq<string>,
                         lower: string -> string, canPress: bool)

  // ---- the generator, by where it is suspended ----

  datatype Kernel =
    | AtTitle
    | AtDenied(title: string, i: nat)
    | AtWidget(title: string, i: nat)
    | AtChallenge(title: string, i: nat)

  type Ask = Next<Kernel, Found>

  function FirstPrefix(titles: seq<string>, title: string, i: nat): Option<string>
    requires i <= |titles|
    decreases |titles| - i
  {
    if i == |titles| then None else if titles[i] <= title then Some(titles[i]) else FirstPrefix(titles, title, i + 1)
  }

  predicate IsChallengeTitle(r: Rules, title: string) {
    exists i | 0 <= i < |r.challengeTitles| :: r.lower(r.challengeTitles[i]) == r.lower(title)
  }

  function AskDenied(r: Rules, title: string, i: nat): Ask {
    if i < |r.denied| then Yield(Selector(r.denied[i]), AtDenied(title, i)) else AskWidget(r, title, 0)
  }

  function AskWidget(r: Rules, title: string, i: nat): Ask {
    if r.canPress && i < |r.widgets| then Yield(Selector(r.widgets[i]), AtWidget(title, i))
    else if IsChallengeTitle(r, title) then Return(Found(Challenge, false, Some(title)))
    else AskChallenge(r, title, 0)
  }

  function AskChallenge(r: Rules, title: string, i: nat): Ask {
    if i < |r.challenges| then Yield(Selector(r.challenges[i]), AtChallenge(title, i))
    else Return(Found(Clean, false, None))
  }

  /** generator.send. */
  function Send(r: Rules): (Kernel, Answer) -> Ask {
    (k: Kernel, a: Answer) => Resume(r, k, a)
  }

  function Resume(r: Rules, k: Kernel, a: Answer): Ask {
    match k
    case AtTitle =>
      var title := if a.Text? then a.text else "";
      (match FirstPrefix(r.deniedTitles, title, 0)
       case Some(d) => Return(Found(Denied, false, Some(d)))
       case None => AskDenied(r, title, 0))
    case AtDenied(title, i) =>
      if a == Seen(true) && i < |r.denied| then Return(Found(Denied, false, Some(r.denied[i])))
      else AskDenied(r, title, i + 1)
    case AtWidget(title, i) =>
      if a == Seen(true) && i < |r.widgets| then Return(Found(Challenge, true, Some(r.widgets[i])))
      else AskWidget(r, title, i + 1)
    case AtChallenge(title, i) =>
      if a == Seen(true) && i < |r.challenges| then Return(Found(Challenge, false, Some(r.challenges[i])))
      else AskChallenge(r, title, i + 1)
  }

  const START: Ask := Yield(Title, AtTitle)

  function Rest(n: nat, i: nat): nat { if i < n then n - i - 1 else 0 }

  /** The looks still to come after the one a kernel is suspended at. */
  function Left(r: Rules): Kernel -> nat {
    (k: Kernel) =>
      match k
      case AtTitle => 1 + |r.denied| + |r.widgets| + |r.challenges|
      case AtDenied(_, i) => Rest(|r.denied|, i) + |r.widgets| + |r.challenges|
      case AtWidget(_, i) => Rest(|r.widgets|, i) + |r.challenges|
      case AtChallenge(_, i) => Rest(|r.challenges|, i)
  }

  lemma KernelEnds(r: Rules)
    ensures Ends(Send(r), Left(r))
  {
  }

  // ---- the rule, stated without the kernel ----

  function Pressable(r: Rules): seq<string> { if r.canPress then r.widgets else [] }

  /** Every selector that may be looked at, in the order of looking. */
  function Plan(r: Rules): seq<string> { r.denied + Pressable(r) + r.challenges }

  function WidgetsEnd(r: Rules): nat { |r.denied| + |Pressable(r)| }

  /** The first selector from the i-th on that the page shows when it is looked at. */
  function FirstShown(page: Page, css: seq<string>, at: nat, i: nat): (h: nat)
    requires i <= |css|
    ensures i <= h <= |css|
    ensures h < |css| ==> page.shows(at + h, css[h])
    ensures forall j | i <= j < h :: !page.shows(at + j, css[j])
    decreases |css| - i
  {
    if i == |css| || page.shows(at + i, css[i]) then i else FirstShown(page, css, at, i + 1)
  }

  /** What selector `h`, the first one shown, makes of a page with this title; `h` past the plan is no selector. */
  function Decided(r: Rules, title: string, h: nat): Found {
    var plan := Plan(r);
    if h < |r.denied| then Found(Denied, false, Some(plan[h]))
    else if h < WidgetsEnd(r) then Found(Challenge, true, Some(plan[h]))
    else if IsChallengeTitle(r, title) then Found(Challenge, false, Some(title))
    else if h < |plan| then Found(Challenge, false, Some(plan[h]))
    else Found(Clean, false, None)
  }

  /** How many selectors have been looked at by then: none after the one that decided. */
  function Looks(r: Rules, title: string, h: nat): (n: nat)
    ensures n <= |Plan(r)|
  {
    if h < WidgetsEnd(r) then h + 1
    else if IsChallengeTitle(r, title) then WidgetsEnd(r)
    else MinInt(h + 1, |Plan(r)|)
  }

  /** The verdict on a page whose title is read as the run's `from`-th step. */
  function Rule(r: Rules, page: Page, from: nat): Found {
    match FirstPrefix(r.deniedTitles, page.title(from), 0)
    case Some(d) => Found(Denied, false, Some(d))
    case None => Decided(r, page.title(from), FirstShown(page, Plan(r), from + 1, 0))
  }

  function LooksMade(r: Rules, page: Page, from: nat): (n: nat)
    ensures n <= |Plan(r)|
  {
    if FirstPrefix(r.deniedTitles, page.title(from), 0).Some? then 0
    else Looks(r, page.title(from), FirstShown(page, Plan(r), from + 1, 0))
  }

  function Selectors(css: seq<string>, i: nat, n: nat): seq<Step>
    requires n <= |css|
    decreases n - i
  {
    if i >= n then [] else [Selector(css[i])] + Selectors(css, i + 1, n)
  }

  function Asked(r: Rules, page: Page, from: nat): seq<Step> {
    [Title] + Selectors(Plan(r), 0, LooksMade(r, page, from))
  }

  // ---- the kernel agrees with the rule ----

  ghost function Driven(r: Rules, next: Ask, page: Page, n: nat): Outcome<Found> {
    KernelEnds(r);
    Drive(next, Send(r), Left(r), page, n)
  }

  ghost function Ruled(r: Rules, page: Page, title: string, from: nat, p: nat): Outcome<Found>
    requires p <= |Plan(r)|
  {
    var h := FirstShown(page, Plan(r), from + 1, p);
    Outcome(Decided(r, title, h), Selectors(Plan(r), p, Looks(r, title, h)))
  }

  lemma DriveOne(r: Rules, next: Ask, page: Page, n: nat)
    requires next.Yield?
    ensures var rest := Driven(r, Resume(r, next.resume, Handle(page, n, next.step)), page, n + 1);
            Driven(r, next, page, n) == Outcome(rest.value, [next.step] + rest.steps)
  {
    KernelEnds(r);
  }

  lemma DriveEnd(r: Rules, found: Found, page: Page, n: nat)
    ensures Driven(r, Return(found), page, n) == Outcome(found, [])
  {
    KernelEnds(r);
  }

  /** The rule takes the plan one selector at a time: the first one shown decides. */
  lemma RuledOne(r: Rules, page: Page, title: string, from: nat, p: nat)
    requires p < |Plan(r)| && (p < WidgetsEnd(r) || !IsChallengeTitle(r, title))
    ensures page.shows(from + 1 + p, Plan(r)[p]) ==>
              Ruled(r, page, title, from, p) == Outcome(Decided(r, title, p), [Selector(Plan(r)[p])])
    ensures !page.shows(from + 1 + p, Plan(r)[p]) ==>
              var rest := Ruled(r, page, title, from, p + 1);
              Ruled(r, page, title, from, p) == Outcome(rest.value, [Selector(Plan(r)[p])] + rest.steps)
  {
    if page.shows(from + 1 + p, Plan(r)[p]) {
      assert FirstShown(page, Plan(r), from + 1, p) == p;
      assert Selectors(Plan(r), p + 1, p + 1) == [];
    }
  }

  lemma {:induction false} ChallengesAgree(r: Rules, page: Page, title: string, from: nat, p: nat)
    requires WidgetsEnd(r) <= p <= |Plan(r)| && !IsChallengeTitle(r, title)
    ensures Driven(r, AskChallenge(r, title, p - WidgetsEnd(r)), page, from + 1 + p) == Ruled(r, page, title, from, p)
    decreases |Plan(r)| - p
  {
    var i := p - WidgetsEnd(r);
    KernelEnds(r);
    if i < |r.challenges| {
      assert Plan(r)[p] == r.challenges[i];
      DriveOne(r, AskChallenge(r, title, i), page, from + 1 + p);
      RuledOne(r, page, title, from, p);
      if page.shows(from + 1 + p, r.challenges[i]) {
        DriveEnd(r, Decided(r, title, p), page, from + 2 + p);
      } else {
        ChallengesAgree(r, page, title, from, p + 1);
      }
    }
  }

  lemma {:induction false} WidgetsAgree(r: Rules, page: Page, title: string, from: nat, p: nat)
    requires |r.denied| <= p <= WidgetsEnd(r)
    ensures Driven(r, AskWidget(r, title, p - |r.denied|), page, from + 1 + p) == Ruled(r, page, title, from, p)
    decreases WidgetsEnd(r) - p
  {
    var i := p - |r.denied|;
    KernelEnds(r);
    if i < |Pressable(r)| {
      assert Plan(r)[p] == r.widgets[i];
      DriveOne(r, AskWidget(r, title, i), page, from + 1 + p);
      RuledOne(r, page, title, from, p);
      if page.shows(from + 1 + p, r.widgets[i]) {
        DriveEnd(r, Decided(r, title, p), page, from + 2 + p);
      } else {
        WidgetsAgree(r, page, title, from, p + 1);
      }
    } else if !IsChallengeTitle(r, title) {
      ChallengesAgree(r, page, title, from, p);
    }
  }

  lemma {:induction false} DeniedAgree(r: Rules, page: Page, title: string, from: nat, p: nat)
    requires p <= |r.denied|
    ensures Driven(r, AskDenied(r, title, p), page, from + 1 + p) == Ruled(r, page, title, from, p)
    decreases |r.denied| - p
  {
    KernelEnds(r);
    if p < |r.denied| {
      assert Plan(r)[p] == r.denied[p];
      DriveOne(r, AskDenied(r, title, p), page, from + 1 + p);
      RuledOne(r, page, title, from, p);
      if page.shows(from + 1 + p, r.denied[p]) {
        DriveEnd(r, Decided(r, title, p), page, from + 2 + p);
      } else {
        DeniedAgree(r, page, title, from, p + 1);
      }
    } else {
      WidgetsAgree(r, page, title, from, p);
    }
  }

  /** Whatever the lists and the page, driving the kernel gives the rule's verdict, after the title and a prefix of the plan. */
  lemma VerdictIsRule(r: Rules, page: Page, from: nat)
    ensures Driven(r, START, page, from) == Outcome(Rule(r, page, from), Asked(r, page, from))
  {
    KernelEnds(r);
    DriveOne(r, START, page, from);
    if FirstPrefix(r.deniedTitles, page.title(from), 0).None? {
      DeniedAgree(r, page, page.title(from), from, 0);
    }
  }
}
