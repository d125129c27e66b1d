/** The fixed-window limit on one client's control messages. Times are nanoseconds. */
module FixedWindow {

  const SECOND := 1_000_000_000

  datatype State = State(window: int, count: nat)

  /** One message: a window lasts a second, and counts its messages whether or not they are let through. */
  function Decide(limit: int, s: State, now: int): (bool, State) {
    var count := (if now - s.window >= SECOND then 0 else s.count) + 1;
    (count <= limit, State(if now - s.window >= SECOND then now else s.window, count))
  }

  class MessageRateLimiter {
    const limit: int
    var window: int
    var count: nat

    constructor (perSecond: int, now: int)
      ensures limit == perSecond && State(window, count) == State(now, 0)
    {
      limit, window, count := perSecond, now, 0;
    }

    method Allow(now: int) returns (ok: bool)
      modifies this
      ensures (ok, State(window, count)) == Decide(limit, old(State(window, count)), now)
    {
      if now - window >= SECOND {
        window := now;
        count := 0;
      }
      count := count + 1;
      return count <= limit;
    }
  }

  // ---------------------------------------------------------------- the bound over a whole run

  /** The state after messages at these times, for a limiter made at time start. */
  function After(limit: int, start: int, times: seq<int>): State {
    if times == [] then State(start, 0)
    else Decide(limit, After(limit, start, times[..|times| - 1]), times[|times| - 1]).1
  }

  /** The times of the messages let through. */
  function Granted(limit: int, start: int, times: seq<int>): seq<int> {
    if times == [] then []
    else
      var front, now := times[..|times| - 1], times[|times| - 1];
      Granted(limit, start, front) + if Decide(limit, After(limit, start, front), now).0 then [now] else []
  }

  /** How many of the times lie in the half-open interval from lo to hi. */
  function Between(times: seq<int>, lo: int, hi: int): nat {
    if times == [] then 0
    else Between(times[..|times| - 1], lo, hi) + if lo <= times[|times| - 1] < hi then 1 else 0
  }

  ghost predicate ClockRuns(start: int, times: seq<int>) {
    && (forall i :: 0 <= i < |times| ==> start <= times[i])
    && (forall i, j :: 0 <= i <= j < |times| ==> times[i] <= times[j])
  }

  function Last(start: int, times: seq<int>): int { if times == [] then start else times[|times| - 1] }

  function Cap(limit: int): nat { if limit > 0 then limit else 0 }

  lemma BetweenSnoc(times: seq<int>, t: int, lo: int, hi: int)
    ensures Between(times + [t], lo, hi) == Between(times, lo, hi) + if lo <= t < hi then 1 else 0
  {
    assert (times + [t])[..|times|] == times;
  }

  /** A wider interval counts at least as much, and an interval can be cut in two. */
  lemma {:induction false} BetweenCut(times: seq<int>, lo: int, mid: int, hi: int)
    requires lo <= mid <= hi
    ensures Between(times, lo, hi) == Between(times, lo, mid) + Between(times, mid, hi)
  {
    if times != [] {
      BetweenCut(times[..|times| - 1], lo, mid, hi);
    }
  }

  ghost predicate SecondOk(limit: int, granted: seq<int>, t: int) {
    Between(granted, t, t + SECOND) <= 2 * Cap(limit)
  }

  predicate AllBy(times: seq<int>, last: int) { forall i :: 0 <= i < |times| ==> times[i] <= last }

  lemma {:induction false} NoneAfter(times: seq<int>, last: int, lo: int, hi: int)
    requires AllBy(times, last) && last < lo
    ensures Between(times, lo, hi) == 0
  {
    if times != [] {
      NoneAfter(times[..|times| - 1], last, lo, hi);
    }
  }

  /** What was let through in the current window and in the second before it. */
  ghost predicate Inv(limit: int, s: State, granted: seq<int>, last: int) {
    && AllBy(granted, last)
    && s.window <= last < s.window + SECOND
    && Between(granted, s.window, last + 1) == (if s.count <= limit then s.count else Cap(limit))
    && Between(granted, s.window - SECOND, s.window) <= Cap(limit)
    && forall t :: SecondOk(limit, granted, t)
  }

  /** The state in which the next message is counted: the window was renewed if it had to be. */
  lemma Renewed(limit: int, s: State, granted: seq<int>, last: int, now: int)
    requires Inv(limit, s, granted, last) && last <= now
    ensures var s' := if now - s.window >= SECOND then State(now, 0) else s;
            && s'.window <= now < s'.window + SECOND
            && Between(granted, s'.window, now + 1) == (if s'.count <= limit then s'.count else Cap(limit))
            && Between(granted, s'.window - SECOND, s'.window) <= Cap(limit)
  {
    hide Between;
    NoneAfter(granted, last, last + 1, now + 1);
    BetweenCut(granted, s.window, last + 1, now + 1);
    if now - s.window >= SECOND {
      NoneAfter(granted, last, now, now + 1);
      BetweenCut(granted, s.window, now - SECOND, now);
      BetweenCut(granted, s.window, now, now + 1);
    }
  }

  /** A second that ends after now meets at most the current window and the second before it. */
  lemma AtMostTwoWindows(granted: seq<int>, window: int, now: int, t: int)
    requires window <= now < window + SECOND && t <= now < t + SECOND && AllBy(granted, now)
    ensures Between(granted, t, t + SECOND)
         <= Between(granted, window - SECOND, window) + Between(granted, window, now + 1)
  {
    hide Between;
    NoneAfter(granted, now, now + 1, t + SECOND);
    BetweenCut(granted, t, now + 1, t + SECOND);
    if t < window {
      BetweenCut(granted, t, window, now + 1);
      BetweenCut(granted, window - SECOND, t, window);
    } else {
      BetweenCut(granted, window, t, now + 1);
    }
  }

  lemma OneMore(limit: int, s: State, granted: seq<int>, last: int, now: int)
    requires Inv(limit, s, granted, last) && last <= now
    ensures var (ok, s') := Decide(limit, s, now);
            Inv(limit, s', granted + if ok then [now] else [], now)
  {
    hide Between;
    Renewed(limit, s, granted, last, now);
    var (ok, s') := Decide(limit, s, now);
    if ok {
      BetweenSnoc(granted, now, s'.window, now + 1);
      BetweenSnoc(granted, now, s'.window - SECOND, s'.window);
      forall t ensures SecondOk(limit, granted + [now], t) {
        assert SecondOk(limit, granted, t);
        BetweenSnoc(granted, now, t, t + SECOND);
        if t <= now < t + SECOND {
          AtMostTwoWindows(granted, s'.window, now, t);
        }
      }
    } else {
      assert granted + [] == granted;
    }
  }

  lemma {:induction false} RunInv(limit: int, start: int, times: seq<int>)
    requires ClockRuns(start, times)
    ensures Inv(limit, After(limit, start, times), Granted(limit, start, times), Last(start, times))
    decreases |times|
  {
    hide Decide, Inv;
    if times == [] {
      StartInv(limit, start);
    } else {
      var front := times[..|times| - 1];
      RunInv(limit, start, front);
      OneMore(limit, After(limit, start, front), Granted(limit, start, front), Last(start, front), times[|times| - 1]);
    }
  }

  lemma StartInv(limit: int, start: int)
    ensures Inv(limit, State(start, 0), [], start)
  {}

  /** Any half-open second, wherever it starts, contains at most twice the limit. */
  lemma AtMostTwiceTheLimit(limit: int, start: int, times: seq<int>, t: int)
    requires ClockRuns(start, times)
    ensures Between(Granted(limit, start, times), t, t + SECOND) <= 2 * Cap(limit)
  {
    RunInv(limit, start, times);
    assert SecondOk(limit, Granted(limit, start, times), t);
  }

  /**
   * Exactly when a message is denied: when the limit has been let through since its window began, which was
   * less than a second ago. So nothing is denied before the limit was let through in the second up to it.
   */
  lemma DeniedExactly(limit: int, start: int, times: seq<int>, now: int)
    requires ClockRuns(start, times) && Last(start, times) <= now
    ensures var (ok, s') := Decide(limit, After(limit, start, times), now);
            var granted := Granted(limit, start, times);
            && s'.window <= now < s'.window + SECOND
            && (!ok <==> Between(granted, s'.window, now + 1) >= limit)
            && (!ok ==> Between(granted, now - SECOND + 1, now + 1) >= limit)
  {
    hide Between;
    RunInv(limit, start, times);
    var s, granted := After(limit, start, times), Granted(limit, start, times);
    Renewed(limit, s, granted, Last(start, times), now);
    BetweenCut(granted, now - SECOND + 1, Decide(limit, s, now).1.window, now + 1);
  }

  // ---------------------------------------------------------------- the bound is reached

  function Repeated(t: int, n: nat): (r: seq<int>)
    ensures |r| == n && forall i :: 0 <= i < n ==> r[i] == t
  {
    seq(n, _ => t)
  }

  /** As many messages as the limit in the last nanosecond of a window, then n at the start of the next. */
  function Burst(limit: nat, n: nat): seq<int> { Repeated(SECOND - 1, limit) + Repeated(SECOND, n) }

  lemma {:induction false} FirstHalf(limit: nat, n: nat)
    requires n <= limit
    ensures After(limit, 0, Repeated(SECOND - 1, n)) == State(0, n)
    ensures Granted(limit, 0, Repeated(SECOND - 1, n)) == Repeated(SECOND - 1, n)
    ensures Between(Repeated(SECOND - 1, n), SECOND - 1, 2 * SECOND - 1) == n
  {
    if n > 0 {
      assert Repeated(SECOND - 1, n)[..n - 1] == Repeated(SECOND - 1, n - 1);
      FirstHalf(limit, n - 1);
    }
  }

  lemma {:induction false} SecondHalf(limit: nat, n: nat)
    requires n <= limit
    ensures After(limit, 0, Burst(limit, n)) == if n == 0 then State(0, limit) else State(SECOND, n)
    ensures Granted(limit, 0, Burst(limit, n)) == Burst(limit, n)
    ensures Between(Burst(limit, n), SECOND - 1, 2 * SECOND - 1) == limit + n
  {
    if n == 0 {
      assert Burst(limit, 0) == Repeated(SECOND - 1, limit);
      FirstHalf(limit, limit);
    } else {
      assert Burst(limit, n)[..limit + n - 1] == Burst(limit, n - 1);
      assert Burst(limit, n)[limit + n - 1] == SECOND;
      SecondHalf(limit, n - 1);
    }
  }

  /** The bound is reached for every limit: twice the limit can be let through within two nanoseconds. */
  lemma TwiceTheLimitHappens(limit: nat)
    ensures ClockRuns(0, Burst(limit, limit)) && Granted(limit, 0, Burst(limit, limit)) == Burst(limit, limit)
    ensures Between(Granted(limit, 0, Burst(limit, limit)), SECOND - 1, SECOND - 1 + SECOND) == 2 * limit
  {
    SecondHalf(limit, limit);
  }
}
