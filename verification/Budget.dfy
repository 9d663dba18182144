/** How a request's time is divided over its engines (src/budget.py, src/flaresolverr_service.py). */
module Budget {
  import opened Basics

  const SOLVE_MARGIN := 3.0
  const MIN_ENGINE_SECONDS := 5.0

  /** solve_deadline. */
  function SolveDeadline(started: real, timeout: real): real {
    started + MaxReal(1.0, timeout - SOLVE_MARGIN)
  }

  /** remaining_share, `elapsed` after the share was handed over. */
  function RemainingShare(timeout: real, elapsed: real): real {
    MaxReal(1.0, timeout - elapsed)
  }

  /** What engine `i` of `n` is granted at the clock reading `now`. */
  function Share(deadline: real, now: real, n: nat, i: nat): (share: real)
    requires i < n
    ensures share * (n - i) as real == deadline - now
  {
    var remaining := deadline - now;
    if i == n - 1 then remaining else remaining / (n - i) as real
  }

  /** How many engines the loop reaches before too little is left for another. */
  function Reached(readings: seq<real>, deadline: real, i: nat): (m: nat)
    requires i <= |readings|
    ensures i <= m <= |readings|
    ensures forall j | i <= j < m && j > 0 :: deadline - readings[j] >= 5.0
    ensures m < |readings| ==> m > 0 && deadline - readings[m] < 5.0
    decreases |readings| - i
  {
    if i == |readings| || (i > 0 && deadline - readings[i] < MIN_ENGINE_SECONDS) then i
    else Reached(readings, deadline, i + 1)
  }

  /**
    A request's clock: `at[i]` is when engine `i` starts, and `at[i + 1]` when it is
    over. Engine `i` overruns its share by at most `d`.
   */
  ghost predicate Spends(at: seq<real>, deadline: real, n: nat, m: nat, d: real) {
    && m <= n && m < |at|
    && forall i | 0 <= i < m :: at[i + 1] <= at[i] + Share(deadline, at[i], n, i) + d
  }

  lemma ShareLeaves(a: real, b: real, r: real, n: nat, k: nat)
    requires n > 0 && k > 0
    requires a * n as real >= r * k as real && b >= a - a / k as real
    ensures b * n as real >= r * (k - 1) as real
  {
    var x, y := n as real, k as real;
    assert (k - 1) as real == y - 1.0;
    var share := a / y;
    assert share * y == a;
    assert (a - share) == share * (y - 1.0);
    assert (share * x) * y == a * x;
    assert (share * x) * y >= r * y;
    assert share * x >= r;
    assert (share * x) * (y - 1.0) >= r * (y - 1.0);
    assert (a - share) * x == (share * x) * (y - 1.0);
    assert b * x >= (a - share) * x;
  }

  /** While every engine stays inside its share, the time left shrinks no faster than evenly. */
  lemma {:induction false} EvenlyLeft(at: seq<real>, deadline: real, n: nat, i: nat)
    requires n > 0 && i <= n && i < |at| && Spends(at, deadline, n, i, 0.0)
    ensures (deadline - at[i]) * n as real >= (deadline - at[0]) * (n - i) as real
  {
    if i > 0 {
      EvenlyLeft(at, deadline, n, i - 1);
      ShareLeaves(deadline - at[i - 1], deadline - at[i], deadline - at[0], n, n - (i - 1));
    }
  }

  /** Each engine is granted at least an even share of the whole budget, and the request ends in time. */
  lemma SharesAreFair(at: seq<real>, deadline: real, n: nat, i: nat)
    requires n > 0 && i <= n && i < |at| && Spends(at, deadline, n, i, 0.0)
    requires deadline >= at[0]
    ensures i < n ==> Share(deadline, at[i], n, i) >= (deadline - at[0]) / n as real
    ensures i < n && deadline - at[0] >= 5.0 * n as real ==> deadline - at[i] >= 5.0
    ensures at[i] <= deadline
  {
    EvenlyLeft(at, deadline, n, i);
    var left, all, x, y := deadline - at[i], deadline - at[0], n as real, (n - i) as real;
    NotNegative(left, all, x, y);
    if i < n {
      DivideAcross(left, all, x, y);
      if all >= MIN_ENGINE_SECONDS * x {
        EnoughLeft(left, all, x, y);
      }
    }
  }

  lemma NotNegative(left: real, all: real, x: real, y: real)
    requires x > 0.0 && y >= 0.0 && all >= 0.0 && left * x >= all * y
    ensures left >= 0.0
  {
    assert all * y >= 0.0;
    assert left < 0.0 ==> left * x < 0.0;
  }

  lemma EnoughLeft(left: real, all: real, x: real, y: real)
    requires x > 0.0 && y >= 1.0 && left / y >= all / x && all >= MIN_ENGINE_SECONDS * x
    ensures left >= MIN_ENGINE_SECONDS
  {
    var p, q := left / y, all / x;
    assert q * x == all;
    assert q < MIN_ENGINE_SECONDS ==> q * x < MIN_ENGINE_SECONDS * x;
    assert p * y == left && p * y >= MIN_ENGINE_SECONDS * y;
  }

  lemma DivideAcross(left: real, all: real, x: real, y: real)
    requires x > 0.0 && y > 0.0 && left * x >= all * y
    ensures left / y >= all / x
  {
    var p, q := left / y, all / x;
    assert p * y == left && q * x == all;
    assert p * y * x >= q * x * y;
    assert (p - q) * (x * y) >= 0.0;
    assert p < q ==> (p - q) * (x * y) < 0.0;
  }

  /** None is skipped when the budget allows five seconds each. */
  lemma NoneIsSkipped(at: seq<real>, deadline: real, n: nat)
    requires n > 0 && |at| == n + 1 && Spends(at, deadline, n, n, 0.0)
    requires deadline - at[0] >= 5.0 * n as real
    ensures Reached(at[..n], deadline, 0) == n
  {
    var m := Reached(at[..n], deadline, 0);
    if m < n {
      SharesAreFair(at, deadline, n, m);
    }
  }

  /**
    Counted from the request's own start: the plan is built between setting the deadline
    and the loop's first clock reading, and that gap comes off every share alike.
   */
  lemma SharesFromTheStart(started: real, timeout: real, at: seq<real>, n: nat, i: nat)
    requires n > 0 && i <= n && i < |at| && Spends(at, started + timeout, n, i, 0.0)
    requires started <= at[0] <= started + timeout
    ensures i < n ==> Share(started + timeout, at[i], n, i) >= (timeout - (at[0] - started)) / n as real
    ensures i < n && timeout - (at[0] - started) >= 5.0 * n as real ==>
              started + timeout - at[i] >= 5.0
    ensures at[i] <= started + timeout
  {
    SharesAreFair(at, started + timeout, n, i);
  }

  /** So timeout/n itself is granted whatever the engines then spend exactly when that gap is nothing. */
  lemma FullSharesIff(started: real, timeout: real, first: real, n: nat)
    requires n > 0 && started <= first <= started + timeout
    ensures (forall at: seq<real>, i: nat | |at| == n + 1 && at[0] == first && i < n && Spends(at, started + timeout, n, i, 0.0) ::
               Share(started + timeout, at[i], n, i) >= timeout / n as real)
       <==> first == started
  {
    if first == started {
      forall at: seq<real>, i: nat | |at| == n + 1 && at[0] == first && i < n && Spends(at, started + timeout, n, i, 0.0)
        ensures Share(started + timeout, at[i], n, i) >= timeout / n as real
      {
        SharesFromTheStart(started, timeout, at, n, i);
      }
    } else {
      var at := seq(n + 1, _ => first);
      assert Spends(at, started + timeout, n, 0, 0.0);
      SmallerShare(started + timeout - first, timeout, n);
      assert Share(started + timeout, at[0], n, 0) < timeout / n as real;
    }
  }

  lemma SmallerShare(left: real, all: real, n: nat)
    requires n > 0 && left < all
    ensures left / n as real < all / n as real
  {
    var p, q, x := left / n as real, all / n as real, n as real;
    assert p * x == left && q * x == all;
    assert p >= q ==> p * x >= q * x;
  }

  /** Solving stops early enough to leave three seconds for the response exactly when the share has room for them and a second. */
  lemma MarginIsKeptIff(started: real, timeout: real)
    ensures SolveDeadline(started, timeout) == started + if timeout >= 4.0 then timeout - 3.0 else 1.0
    ensures SolveDeadline(started, timeout) + 3.0 <= started + timeout <==> timeout >= 4.0
  {
  }

  /** Launch and lock wait come out of the share in full, down to a second. */
  lemma WaitIsCounted(timeout: real, elapsed: Duration)
    ensures RemainingShare(timeout, elapsed) == if elapsed <= timeout - 1.0 then timeout - elapsed else 1.0
    ensures RemainingShare(timeout, elapsed) + elapsed == timeout <==> elapsed <= timeout - 1.0
  {
  }

  /** If each engine overruns its share by at most `d`, so does the request: overruns do not add up. */
  lemma OverrunsDoNotAddUp(at: seq<real>, deadline: real, n: nat, m: nat, d: real)
    requires n > 0 && d >= 0.0 && Spends(at, deadline, n, m, d) && deadline >= at[0]
    requires Reached(at[..m], deadline, 0) == m
    ensures at[m] <= deadline + d
  {
    if m > 0 {
      var i := m - 1;
      assert deadline - at[i] >= 0.0 by {
        if i > 0 { assert deadline - at[..m][i] >= MIN_ENGINE_SECONDS; }
      }
      var left, k := deadline - at[i], (n - i) as real;
      assert left / k <= left by {
        var p := left / k;
        assert p * k == left && k >= 1.0;
        assert p > left ==> p * k >= p * 1.0;
      }
      assert at[m] <= at[i] + left / k + d;
    }
  }

  /** An engine that counts launch and lock wait against its share ends within the share, or a second after them. */
  lemma EngineEndsInItsShare(share: real, waited: Duration, solving: Duration)
    requires solving <= RemainingShare(share, waited)
    ensures waited + solving <= MaxReal(share, waited + 1.0)
  {
  }

  /** So a request overruns by no more than the slowest launch exceeds its share, plus a second. */
  lemma RequestOverrun(at: seq<real>, deadline: real, n: nat, m: nat, waited: seq<Duration>, solving: seq<Duration>, d: real)
    requires n > 0 && d >= 0.0 && m <= n && |at| == m + 1 && |waited| == m && |solving| == m && deadline >= at[0]
    requires Reached(at[..m], deadline, 0) == m
    requires forall i | 0 <= i < m ::
               && at[i + 1] == at[i] + waited[i] + solving[i]
               && solving[i] <= RemainingShare(Share(deadline, at[i], n, i), waited[i])
               && waited[i] + 1.0 <= Share(deadline, at[i], n, i) + d
    ensures at[m] <= deadline + d
  {
    forall i | 0 <= i < m ensures at[i + 1] <= at[i] + Share(deadline, at[i], n, i) + d {
      EngineEndsInItsShare(Share(deadline, at[i], n, i), waited[i], solving[i]);
    }
    OverrunsDoNotAddUp(at, deadline, n, m, d);
  }
}
