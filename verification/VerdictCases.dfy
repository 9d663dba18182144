/** The verdict case by case, on a page that may change between looks: what decides it, and with which reason. */
module VerdictCases {
  import opened Basics
  import opened Kernels
  import opened Verdict

  // ---- what has not decided ----

  /** The title read first starts with none of the denied titles. */
  ghost predicate TitleNotDenied(r: Rules, page: Page, from: nat) {
    forall i | 0 <= i < |r.deniedTitles| :: !(r.deniedTitles[i] <= page.title(from))
  }

  /** None of the first `n` denied selectors is there when it is looked for, one look after the other. */
  ghost predicate NoneDenied(r: Rules, page: Page, from: nat, n: nat)
    requires n <= |r.denied|
  {
    TitleNotDenied(r, page, from) && forall j | 0 <= j < n :: !page.shows(from + 1 + j, r.denied[j])
  }

  /** Nor, if the engine can press one, any of the first `n` widgets. */
  ghost predicate NoWidget(r: Rules, page: Page, from: nat, n: nat)
    requires n <= |r.widgets|
  {
    NoneDenied(r, page, from, |r.denied|) &&
    (r.canPress ==> forall j | 0 <= j < n :: !page.shows(from + 1 + |r.denied| + j, r.widgets[j]))
  }

  /** The challenge selectors come after the denied ones and, if the engine can press one, the widgets. */
  function ChallengesFrom(r: Rules, from: nat): nat {
    from + 1 + |r.denied| + if r.canPress then |r.widgets| else 0
  }

  /** No widget, no listed title whatever its case, and none of the first `n` challenge selectors. */
  ghost predicate NoChallenge(r: Rules, page: Page, from: nat, n: nat)
    requires n <= |r.challenges|
  {
    && NoWidget(r, page, from, |r.widgets|)
    && (forall i | 0 <= i < |r.challengeTitles| :: r.lower(r.challengeTitles[i]) != r.lower(page.title(from)))
    && forall j | 0 <= j < n :: !page.shows(ChallengesFrom(r, from) + j, r.challenges[j])
  }

  // ---- the first selector shown ----

  lemma {:induction false} LeastShown(page: Page, css: seq<string>, at: nat, i: nat, h: nat)
    requires i <= h <= |css|
    requires h < |css| ==> page.shows(at + h, css[h])
    requires forall j | i <= j < h :: !page.shows(at + j, css[j])
    ensures FirstShown(page, css, at, i) == h
    decreases h - i
  {
    if i < h { LeastShown(page, css, at, i + 1, h); }
  }

  lemma {:induction false} LeastPrefix(titles: seq<string>, title: string, i: nat, k: nat)
    requires i <= k <= |titles|
    requires k < |titles| ==> titles[k] <= title
    requires forall j | i <= j < k :: !(titles[j] <= title)
    ensures FirstPrefix(titles, title, i) == if k < |titles| then Some(titles[k]) else None
    decreases k - i
  {
    if i < k { LeastPrefix(titles, title, i + 1, k); }
  }

  lemma PlanAt(r: Rules, j: nat)
    requires j < |Plan(r)|
    ensures var d, b := |r.denied|, |r.denied| + if r.canPress then |r.widgets| else 0;
            Plan(r)[j] == if j < d then r.denied[j] else if j < b then r.widgets[j - d] else r.challenges[j - b]
    ensures |Plan(r)| == |r.denied| + (if r.canPress then |r.widgets| else 0) + |r.challenges|
  {
  }

  lemma PlanSize(r: Rules)
    ensures |Plan(r)| == |r.denied| + (if r.canPress then |r.widgets| else 0) + |r.challenges|
  {
  }

  // ---- the cases ----

  lemma DeniedTitleDecides(r: Rules, page: Page, from: nat, k: nat)
    requires k < |r.deniedTitles| && r.deniedTitles[k] <= page.title(from)
    requires forall j | 0 <= j < k :: !(r.deniedTitles[j] <= page.title(from))
    ensures Rule(r, page, from) == Found(Denied, false, Some(r.deniedTitles[k])) && LooksMade(r, page, from) == 0
  {
    LeastPrefix(r.deniedTitles, page.title(from), 0, k);
  }

  lemma DeniedSelectorDecides(r: Rules, page: Page, from: nat, k: nat)
    requires k < |r.denied| && NoneDenied(r, page, from, k) && page.shows(from + 1 + k, r.denied[k])
    ensures Rule(r, page, from) == Found(Denied, false, Some(r.denied[k])) && LooksMade(r, page, from) == k + 1
  {
    LeastPrefix(r.deniedTitles, page.title(from), 0, |r.deniedTitles|);
    PlanSize(r);
    forall j | 0 <= j < k ensures !page.shows(from + 1 + j, Plan(r)[j]) { PlanAt(r, j); }
    PlanAt(r, k);
    LeastShown(page, Plan(r), from + 1, 0, k);
  }

  lemma WidgetDecides(r: Rules, page: Page, from: nat, k: nat)
    requires r.canPress && k < |r.widgets| && NoWidget(r, page, from, k)
    requires page.shows(from + 1 + |r.denied| + k, r.widgets[k])
    ensures Rule(r, page, from) == Found(Challenge, true, Some(r.widgets[k]))
    ensures LooksMade(r, page, from) == |r.denied| + k + 1
  {
    var h := |r.denied| + k;
    LeastPrefix(r.deniedTitles, page.title(from), 0, |r.deniedTitles|);
    PlanSize(r);
    forall j | 0 <= j < h ensures !page.shows(from + 1 + j, Plan(r)[j]) {
      PlanAt(r, j);
      if j >= |r.denied| { assert !page.shows(from + 1 + |r.denied| + (j - |r.denied|), r.widgets[j - |r.denied|]); }
    }
    PlanAt(r, h);
    LeastShown(page, Plan(r), from + 1, 0, h);
  }

  /** With nothing denied and no widget pressable, the first selector shown is past both lists. */
  lemma PastWidgets(r: Rules, page: Page, from: nat)
    requires NoWidget(r, page, from, |r.widgets|)
    ensures FirstPrefix(r.deniedTitles, page.title(from), 0) == None
    ensures FirstShown(page, Plan(r), from + 1, 0) >= WidgetsEnd(r)
  {
    LeastPrefix(r.deniedTitles, page.title(from), 0, |r.deniedTitles|);
    PlanSize(r);
    var h := FirstShown(page, Plan(r), from + 1, 0);
    if h < WidgetsEnd(r) {
      PlanAt(r, h);
      NotShownYet(r, page, from, h);
      assert false;
    }
  }

  lemma NotShownYet(r: Rules, page: Page, from: nat, h: nat)
    requires NoWidget(r, page, from, |r.widgets|) && h < WidgetsEnd(r)
    ensures !page.shows(from + 1 + h, Plan(r)[h])
  {
    PlanSize(r);
    PlanAt(r, h);
    if h >= |r.denied| { assert !page.shows(from + 1 + |r.denied| + (h - |r.denied|), r.widgets[h - |r.denied|]); }
  }

  /** Any of the listed titles makes the page a challenge, whatever its case and whatever selector shows after it. */
  lemma TitleDecides(r: Rules, page: Page, from: nat, k: nat)
    requires NoWidget(r, page, from, |r.widgets|)
    requires k < |r.challengeTitles| && r.lower(r.challengeTitles[k]) == r.lower(page.title(from))
    ensures Rule(r, page, from) == Found(Challenge, false, Some(page.title(from)))
    ensures LooksMade(r, page, from) == |r.denied| + if r.canPress then |r.widgets| else 0
  {
    PastWidgets(r, page, from);
  }

  lemma ChallengesShownAt(r: Rules, page: Page, from: nat, n: nat)
    requires n <= |r.challenges| && NoChallenge(r, page, from, n)
    requires n < |r.challenges| ==> page.shows(ChallengesFrom(r, from) + n, r.challenges[n])
    ensures FirstShown(page, Plan(r), from + 1, 0) == WidgetsEnd(r) + n
  {
    var h := WidgetsEnd(r) + n;
    PlanSize(r);
    forall j | 0 <= j < h ensures !page.shows(from + 1 + j, Plan(r)[j]) {
      PlanAt(r, j);
      if j < WidgetsEnd(r) {
        NotShownYet(r, page, from, j);
      } else {
        assert !page.shows(ChallengesFrom(r, from) + (j - WidgetsEnd(r)), r.challenges[j - WidgetsEnd(r)]);
      }
    }
    if n < |r.challenges| { PlanAt(r, h); }
    LeastShown(page, Plan(r), from + 1, 0, h);
  }

  lemma ChallengeSelectorDecides(r: Rules, page: Page, from: nat, k: nat)
    requires k < |r.challenges| && NoChallenge(r, page, from, k)
    requires page.shows(ChallengesFrom(r, from) + k, r.challenges[k])
    ensures Rule(r, page, from) == Found(Challenge, false, Some(r.challenges[k]))
  {
    PastWidgets(r, page, from);
    ChallengesShownAt(r, page, from, k);
    PlanSize(r);
    PlanAt(r, WidgetsEnd(r) + k);
  }

  /** Nothing denied, no widget to press, no listed title and no challenge selector: the page is clean, and every selector was looked for. */
  lemma OtherwiseClean(r: Rules, page: Page, from: nat)
    requires NoChallenge(r, page, from, |r.challenges|)
    ensures Rule(r, page, from) == Found(Clean, false, None)
    ensures LooksMade(r, page, from) == |r.denied| + (if r.canPress then |r.widgets| else 0) + |r.challenges|
  {
    PastWidgets(r, page, from);
    ChallengesShownAt(r, page, from, |r.challenges|);
    PlanSize(r);
  }
}
