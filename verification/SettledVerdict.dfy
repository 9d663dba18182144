/** What the verdict means on a page that holds still, and the verdict taken again after a settle. */
module SettledVerdict {
  import opened Basics
  import opened Kernels
  import opened Verdict

  // ---- the two capability settings on one page ----

  /** A snapshot: the page answers every look the same way, whenever it is asked. */
  ghost predicate Still(page: Page) {
    && (forall n :: page.title(n) == page.title(0))
    && (forall n, css :: page.shows(n, css) == page.shows(0, css))
  }

  ghost predicate Shown(page: Page, css: seq<string>) {
    exists i | 0 <= i < |css| :: page.shows(0, css[i])
  }

  ghost predicate IsDenied(r: Rules, page: Page) {
    (exists i | 0 <= i < |r.deniedTitles| :: r.deniedTitles[i] <= page.title(0)) || Shown(page, r.denied)
  }

  ghost predicate IsChallenged(r: Rules, page: Page) {
    IsChallengeTitle(r, page.title(0)) || Shown(page, r.challenges)
  }

  lemma {:induction false} FirstPrefixFinds(titles: seq<string>, title: string, i: nat)
    requires i <= |titles|
    ensures FirstPrefix(titles, title, i).Some? <==> exists j | i <= j < |titles| :: titles[j] <= title
    decreases |titles| - i
  {
    if i < |titles| && !(titles[i] <= title) {
      FirstPrefixFinds(titles, title, i + 1);
    }
  }

  /** On a still page the first selector shown does not depend on when looking starts. */
  lemma FirstShownIs(page: Page, css: seq<string>, at: nat, h: nat)
    requires Still(page) && h <= |css|
    requires h < |css| ==> page.shows(0, css[h])
    requires forall j | 0 <= j < h :: !page.shows(0, css[j])
    ensures FirstShown(page, css, at, 0) == h
  {
    var k := FirstShown(page, css, at, 0);
    forall j | 0 <= j < k ensures !page.shows(0, css[j]) {
      assert !page.shows(at + j, css[j]);
    }
  }

  function First(page: Page, css: seq<string>): nat { FirstShown(page, css, 0, 0) }

  lemma FirstIsShown(page: Page, css: seq<string>)
    requires Still(page)
    ensures First(page, css) < |css| <==> Shown(page, css)
    ensures First(page, css) < |css| ==> page.shows(0, css[First(page, css)])
    ensures forall j | 0 <= j < First(page, css) :: !page.shows(0, css[j])
  {
    forall j | 0 <= j < First(page, css) ensures !page.shows(0, css[j]) {
      assert !page.shows(0 + j, css[j]);
    }
  }

  /** The first selector shown in three lists one after the other. */
  lemma FirstOfThree(page: Page, a: seq<string>, b: seq<string>, c: seq<string>, at: nat)
    requires Still(page)
    ensures FirstShown(page, a + b + c, at, 0)
         == if Shown(page, a) then First(page, a)
            else if Shown(page, b) then |a| + First(page, b)
            else |a| + |b| + First(page, c)
  {
    var all := a + b + c;
    FirstIsShown(page, a);
    FirstIsShown(page, b);
    FirstIsShown(page, c);
    var h := if Shown(page, a) then First(page, a)
             else if Shown(page, b) then |a| + First(page, b)
             else |a| + |b| + First(page, c);
    forall j | 0 <= j < h ensures !page.shows(0, all[j]) {
      if j < |a| { assert all[j] == a[j]; }
      else if j < |a| + |b| { assert all[j] == b[j - |a|]; }
      else { assert all[j] == c[j - |a| - |b|]; }
    }
    FirstShownIs(page, all, at, h);
  }

  /** What is found on a still page, list by list and without any order of looking. */
  ghost function Finding(r: Rules, page: Page): Found {
    var css := Pressable(r);
    match FirstPrefix(r.deniedTitles, page.title(0), 0)
    case Some(d) => Found(Denied, false, Some(d))
    case None =>
      if First(page, r.denied) < |r.denied| then Found(Denied, false, Some(r.denied[First(page, r.denied)]))
      else if First(page, css) < |css| then Found(Challenge, true, Some(css[First(page, css)]))
      else if IsChallengeTitle(r, page.title(0)) then Found(Challenge, false, Some(page.title(0)))
      else if First(page, r.challenges) < |r.challenges|
      then Found(Challenge, false, Some(r.challenges[First(page, r.challenges)]))
      else Found(Clean, false, None)
  }

  lemma RuleFinds(r: Rules, page: Page, from: nat)
    requires Still(page)
    ensures Rule(r, page, from) == Finding(r, page)
  {
    assert page.title(from) == page.title(0);
    FirstOfThree(page, r.denied, Pressable(r), r.challenges, from + 1);
    FirstIsShown(page, r.denied);
    FirstIsShown(page, Pressable(r));
    FirstIsShown(page, r.challenges);
  }

  lemma VerdictMeans(r: Rules, page: Page, from: nat)
    requires Still(page)
    ensures Rule(r, page, from).kind
         == (if IsDenied(r, page) then Denied
             else if (r.canPress && Shown(page, r.widgets)) || IsChallenged(r, page) then Challenge else Clean)
    ensures Rule(r, page, from).turnstile <==> !IsDenied(r, page) && r.canPress && Shown(page, r.widgets)
  {
    RuleFinds(r, page, from);
    FirstPrefixFinds(r.deniedTitles, page.title(0), 0);
    FirstIsShown(page, r.denied);
    FirstIsShown(page, Pressable(r));
    FirstIsShown(page, r.challenges);
  }

  /**
    The capability changes what is found exactly when the page is not denied and shows a
    widget; and it changes the verdict exactly when, besides, nothing else challenges.
   */
  lemma CapabilityMatters(r: Rules, page: Page, from: nat)
    requires Still(page)
    ensures var with, without := Rule(r.(canPress := true), page, from), Rule(r.(canPress := false), page, from);
            && (with != without <==> !IsDenied(r, page) && Shown(page, r.widgets))
            && (with.kind != without.kind <==>
                  !IsDenied(r, page) && Shown(page, r.widgets) && !IsChallenged(r, page))
  {
    var on, off := r.(canPress := true), r.(canPress := false);
    VerdictMeans(on, page, from);
    VerdictMeans(off, page, from);
    if IsDenied(r, page) || !Shown(page, r.widgets) { SameFinding(r, page, from); }
  }

  lemma SameFinding(r: Rules, page: Page, from: nat)
    requires Still(page) && (IsDenied(r, page) || !Shown(page, r.widgets))
    ensures Rule(r.(canPress := true), page, from) == Rule(r.(canPress := false), page, from)
  {
    RuleFinds(r.(canPress := true), page, from);
    RuleFinds(r.(canPress := false), page, from);
    FirstPrefixFinds(r.deniedTitles, page.title(0), 0);
    FirstIsShown(page, r.denied);
    FirstIsShown(page, r.widgets);
  }

  // ---- settled_verdict ----

  datatype Twice = FirstPass(k: Kernel) | Settling | SecondPass(k: Kernel)

  type Again = Next<Twice, Found>

  /** The first pass inside the settled kernel: a clean end becomes a settle. */
  function InFirst(next: Ask): Again {
    match next
    case Yield(step, k) => Yield(step, FirstPass(k))
    case Return(found) => if found.kind == Clean then Yield(Settle, Settling) else Return(found)
  }

  function InSecond(next: Ask): Again {
    match next
    case Yield(step, k) => Yield(step, SecondPass(k))
    case Return(found) => Return(found)
  }

  function ResumeTwice(r: Rules, k: Twice, a: Answer): Again {
    match k
    case FirstPass(one) => InFirst(Resume(r, one, a))
    case Settling => InSecond(START)
    case SecondPass(two) => InSecond(Resume(r, two, a))
  }

  function SendTwice(r: Rules): (Twice, Answer) -> Again {
    (k: Twice, a: Answer) => ResumeTwice(r, k, a)
  }

  function LeftIn(r: Rules, k: Twice): nat {
    match k
    case FirstPass(one) => Left(r)(one) + Left(r)(AtTitle) + 2
    case Settling => Left(r)(AtTitle) + 1
    case SecondPass(two) => Left(r)(two)
  }

  function LeftTwice(r: Rules): Twice -> nat {
    (k: Twice) => LeftIn(r, k)
  }

  lemma ResumeEnds(r: Rules, k: Kernel, a: Answer)
    ensures Resume(r, k, a).Yield? ==> Left(r)(Resume(r, k, a).resume) < Left(r)(k)
  {
    KernelEnds(r);
    assert Send(r)(k, a) == Resume(r, k, a);
  }

  lemma TwiceEndsAt(r: Rules, k: Twice, a: Answer)
    ensures var next := SendTwice(r)(k, a); next.Yield? ==> LeftIn(r, next.resume) < LeftIn(r, k)
  {
    match k
    case FirstPass(one) => ResumeEnds(r, one, a);
    case Settling => assert ResumeTwice(r, k, a) == Yield(Title, SecondPass(AtTitle));
    case SecondPass(two) => ResumeEnds(r, two, a);
  }

  lemma TwiceEnds(r: Rules)
    ensures Ends(SendTwice(r), LeftTwice(r))
  {
    forall k, a | SendTwice(r)(k, a).Yield?
      ensures LeftTwice(r)(SendTwice(r)(k, a).resume) < LeftTwice(r)(k)
    {
      TwiceEndsAt(r, k, a);
    }
  }

  ghost function DrivenTwice(r: Rules, next: Again, page: Page, n: nat): Outcome<Found> {
    TwiceEnds(r);
    Drive(next, SendTwice(r), LeftTwice(r), page, n)
  }

  lemma DriveTwiceOne(r: Rules, next: Again, page: Page, n: nat)
    requires next.Yield?
    ensures var rest := DrivenTwice(r, ResumeTwice(r, next.resume, Handle(page, n, next.step)), page, n + 1);
            DrivenTwice(r, next, page, n) == Outcome(rest.value, [next.step] + rest.steps)
  {
    TwiceEnds(r);
  }

  lemma DriveTwiceEnd(r: Rules, found: Found, page: Page, n: nat)
    ensures DrivenTwice(r, Return(found), page, n) == Outcome(found, [])
  {
    TwiceEnds(r);
  }

  lemma Shorter(r: Rules, next: Ask, a: Answer)
    requires next.Yield?
    ensures StepsLeft(Resume(r, next.resume, a), Left(r)) < StepsLeft(next, Left(r))
  {
    ResumeEnds(r, next.resume, a);
  }

  lemma {:induction false} SecondPassIsAVerdict(r: Rules, next: Ask, page: Page, n: nat)
    ensures DrivenTwice(r, InSecond(next), page, n) == Driven(r, next, page, n)
    decreases StepsLeft(next, Left(r))
  {
    match next
    case Return(found) =>
      DriveTwiceEnd(r, found, page, n);
      DriveEnd(r, found, page, n);
    case Yield(step, k) =>
      var a := Handle(page, n, step);
      Shorter(r, next, a);
      DriveTwiceOne(r, InSecond(next), page, n);
      DriveOne(r, next, page, n);
      SecondPassIsAVerdict(r, Resume(r, k, a), page, n + 1);
  }

  /** A whole settled run, from what its first pass came to. */
  ghost function AfterFirst(r: Rules, first: Outcome<Found>, page: Page, n: nat): Outcome<Found> {
    if first.value.kind != Clean then first
    else
      var second := Driven(r, START, page, n + |first.steps| + 1);
      Outcome(second.value, first.steps + [Settle] + second.steps)
  }

  lemma {:induction false} FirstPassIsAVerdict(r: Rules, next: Ask, page: Page, n: nat)
    ensures DrivenTwice(r, InFirst(next), page, n) == AfterFirst(r, Driven(r, next, page, n), page, n)
    decreases StepsLeft(next, Left(r))
  {
    match next
    case Return(found) =>
      DriveEnd(r, found, page, n);
      if found.kind == Clean {
        DriveTwiceOne(r, InFirst(next), page, n);
        SecondPassIsAVerdict(r, START, page, n + 1);
        assert [] + [Settle] == [Settle];
      } else {
        DriveTwiceEnd(r, found, page, n);
      }
    case Yield(step, k) =>
      var a := Handle(page, n, step);
      Shorter(r, next, a);
      DriveTwiceOne(r, InFirst(next), page, n);
      DriveOne(r, next, page, n);
      FirstPassIsAVerdict(r, Resume(r, k, a), page, n + 1);
      PassGrows(r, Driven(r, Resume(r, k, a), page, n + 1), step, page, n);
  }

  lemma PassGrows(r: Rules, rest: Outcome<Found>, step: Step, page: Page, n: nat)
    ensures AfterFirst(r, Outcome(rest.value, [step] + rest.steps), page, n)
         == Outcome(AfterFirst(r, rest, page, n + 1).value, [step] + AfterFirst(r, rest, page, n + 1).steps)
  {
    if rest.value.kind == Clean {
      var second := Driven(r, START, page, n + 1 + |rest.steps| + 1);
      assert n + |[step] + rest.steps| + 1 == n + 1 + |rest.steps| + 1;
      assert ([step] + rest.steps) + [Settle] + second.steps == [step] + (rest.steps + [Settle] + second.steps);
    }
  }

  /** The settled verdict is the verdict, taken again on the settled page exactly when the first look is clean. */
  lemma SettledIsRule(r: Rules, page: Page)
    ensures var once, asked := Rule(r, page, 0), Asked(r, page, 0);
            DrivenTwice(r, InFirst(START), page, 0)
            == (if once.kind != Clean then Outcome(once, asked)
                else Outcome(Rule(r, page, |asked| + 1), asked + [Settle] + Asked(r, page, |asked| + 1)))
  {
    FirstPassIsAVerdict(r, START, page, 0);
    VerdictIsRule(r, page, 0);
    VerdictIsRule(r, page, |Asked(r, page, 0)| + 1);
  }

  lemma {:induction false} NoSettleInSelectors(css: seq<string>, i: nat, n: nat)
    requires n <= |css|
    ensures Settle !in Selectors(css, i, n)
    decreases n - i
  {
    if i < n { NoSettleInSelectors(css, i + 1, n); }
  }

  function Settles(steps: seq<Step>): nat { multiset(steps)[Settle] }

  lemma SettlesAppend(a: seq<Step>, b: seq<Step>)
    ensures Settles(a + b) == Settles(a) + Settles(b)
  {
  }

  lemma AskedNeverSettles(r: Rules, page: Page, from: nat)
    ensures Settles(Asked(r, page, from)) == 0
  {
    NoSettleInSelectors(Plan(r), 0, LooksMade(r, page, from));
    assert Settle !in Asked(r, page, from);
  }

  /** It settles once when the first look finds nothing, and otherwise never. */
  lemma SettlesAtMostOnce(r: Rules, page: Page)
    ensures Settles(DrivenTwice(r, InFirst(START), page, 0).steps) == if Rule(r, page, 0).kind == Clean then 1 else 0
  {
    SettledIsRule(r, page);
    var asked := Asked(r, page, 0);
    var again := Asked(r, page, |asked| + 1);
    AskedNeverSettles(r, page, 0);
    AskedNeverSettles(r, page, |asked| + 1);
    SettlesAppend(asked + [Settle], again);
    SettlesAppend(asked, [Settle]);
  }

  /** The engines' calls: run with the verdict kernel, and with the settled one. */
  method Detect(r: Rules, page: Page) returns (found: Found, steps: seq<Step>)
    ensures found == Rule(r, page, 0) && steps == Asked(r, page, 0)
  {
    KernelEnds(r);
    found, steps := Run(START, Send(r), Left(r), page);
    VerdictIsRule(r, page, 0);
  }

  method DetectSettled(r: Rules, page: Page) returns (found: Found, steps: seq<Step>)
    ensures var once, asked := Rule(r, page, 0), Asked(r, page, 0);
            (if once.kind != Clean then found == once && steps == asked
             else found == Rule(r, page, |asked| + 1) && steps == asked + [Settle] + Asked(r, page, |asked| + 1))
  {
    TwiceEnds(r);
    found, steps := Run(InFirst(START), SendTwice(r), LeftTwice(r), page);
    SettledIsRule(r, page);
  }
}
