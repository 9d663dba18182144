/**
  Generators driven to their end (src/pipeline.py, run and run_async). A kernel is a
  step machine: `send` resumes it with an answer, and it asks for the next step or returns.
 */
module Kernels {
  datatype Step = Title | Selector(css: string) | Settle

  /** The page as the engine's handlers answer for it: the n-th step of the run may find it changed. */
  datatype Page = Page(title: nat -> string, shows: (nat, string) -> bool)

  datatype Answer = Text(text: string) | Seen(seen: bool) | Nothing

  datatype Next<K, R> = Yield(step: Step, resume: K) | Return(value: R)

  function Handle(page: Page, n: nat, step: Step): Answer {
    match step
    case Title => Text(page.title(n))
    case Selector(css) => Seen(page.shows(n, css))
    case Settle => Nothing
  }

  /** How many more steps a kernel may ask for; every answer brings it closer to its end. */
  ghost predicate Ends<K(!new), R(!new)>(send: (K, Answer) -> Next<K, R>, left: K -> nat) {
    forall k, a :: send(k, a).Yield? ==> left(send(k, a).resume) < left(k)
  }

  function StepsLeft<K, R>(next: Next<K, R>, left: K -> nat): nat {
    match next case Yield(_, k) => left(k) + 1 case Return(_) => 0
  }

  datatype Outcome<R> = Outcome(value: R, steps: seq<Step>)

  /** What driving a kernel from `next` comes to, its next step being the run's n-th. */
  ghost function Drive<K(!new), R(!new)>(next: Next<K, R>, send: (K, Answer) -> Next<K, R>, left: K -> nat,
                                         page: Page, n: nat): Outcome<R>
    requires Ends(send, left)
    decreases StepsLeft(next, left)
  {
    match next
    case Return(value) => Outcome(value, [])
    case Yield(step, k) =>
      var rest := Drive(send(k, Handle(page, n, step)), send, left, page, n + 1);
      Outcome(rest.value, [step] + rest.steps)
  }

  /** The loop of run. */
  method Run<K(!new), R(!new)>(first: Next<K, R>, send: (K, Answer) -> Next<K, R>, ghost left: K -> nat, page: Page)
    returns (value: R, steps: seq<Step>)
    requires Ends(send, left)
    ensures Outcome(value, steps) == Drive(first, send, left, page, 0)
  {
    var next := first;
    steps := [];
    while next.Yield?
      invariant var rest := Drive(next, send, left, page, |steps|);
                Outcome(rest.value, steps + rest.steps) == Drive(first, send, left, page, 0)
      decreases StepsLeft(next, left)
    {
      var answer := Handle(page, |steps|, next.step);
      ghost var rest := Drive(next, send, left, page, |steps|).steps;
      ghost var after := Drive(send(next.resume, answer), send, left, page, |steps| + 1).steps;
      assert steps + rest == (steps + [next.step]) + after;
      steps, next := steps + [next.step], send(next.resume, answer);
    }
    value := next.value;
    assert steps + [] == steps;
  }
}
