/**
 * Sliding-window limits, as the query quota and the HTTP rate limiter share them: at most `limit`
 * admissions of a key in a minute. Times are nanoseconds.
 */
module SlidingWindow {

  const MINUTE := 60_000_000_000

  /** The times after a cutoff, in order. */
  function Recent(times: seq<int>, cutoff: int): (r: seq<int>)
    ensures |r| <= |times|
  {
    if times == [] then []
    else
      var last := times[|times| - 1];
      Recent(times[..|times| - 1], cutoff) + if last > cutoff then [last] else []
  }

  function WindowOf(windows: map<string, seq<int>>, key: string): seq<int> {
    if key in windows then windows[key] else []
  }

  /** One call: the decision and the stored windows afterwards. A limit of zero or less is no limit. */
  function Decide(limit: int, windows: map<string, seq<int>>, key: string, now: int): (bool, map<string, seq<int>>) {
    if limit <= 0 then (true, windows)
    else
      var kept := Recent(WindowOf(windows, key), now - MINUTE);
      if |kept| >= limit then (false, windows[key := kept]) else (true, windows[key := kept + [now]])
  }

  // ---------------------------------------------------------------- the class, filtering in place

  /** Moves the recent times to the front of the buffer; no entry is overwritten before it is read. */
  method KeepRecent(buf: array<int>, len: nat, cutoff: int) returns (kept: nat)
    requires len <= buf.Length
    modifies buf
    ensures kept <= len && buf[..kept] == Recent(old(buf[..len]), cutoff)
  {
    kept := 0;
    var i := 0;
    while i < len
      invariant kept <= i <= len
      invariant buf[..kept] == Recent(old(buf[..i]), cutoff)
      invariant buf[i..len] == old(buf[i..len])
    {
      var ts := buf[i];
      assert ts == old(buf[i..len])[0] == old(buf[i]);
      assert old(buf[..i + 1]) == old(buf[..i]) + [ts];
      assert buf[i + 1..len] == buf[i..len][1..] == old(buf[i..len])[1..] == old(buf[i + 1..len]);
      if ts > cutoff {
        buf[kept] := ts;
        kept := kept + 1;
      }
      i := i + 1;
    }
  }

  /** A key's backing array is only reachable through its map entry, so the entry is kept as its contents. */
  class Limiter {
    const limit: int
    var windows: map<string, seq<int>>

    constructor (limit: int)
      ensures this.limit == limit && windows == map[]
    {
      this.limit, windows := limit, map[];
    }

    method Allow(key: string, now: int) returns (ok: bool)
      modifies this
      ensures (ok, windows) == Decide(limit, old(windows), key, now)
    {
      hide Recent;
      if limit <= 0 {
        return true;
      }
      var cutoff := now - MINUTE;
      var window := if key in windows then windows[key] else [];
      var buf := new int[|window|](i requires 0 <= i < |window| => window[i]);
      assert buf[..|window|] == window;
      var kept := KeepRecent(buf, |window|, cutoff);
      if kept >= limit {
        windows := windows[key := buf[..kept]];
        return false;
      }
      windows := windows[key := buf[..kept] + [now]];
      return true;
    }
  }

  // ---------------------------------------------------------------- against the full history

  datatype Call = Call(key: string, now: int)

  function Windows(limit: int, calls: seq<Call>): map<string, seq<int>> {
    if calls == [] then map[]
    else
      var last := calls[|calls| - 1];
      Decide(limit, Windows(limit, calls[..|calls| - 1]), last.key, last.now).1
  }

  /** Every admission of a key ever, if each call counts all of them that fall in the last minute. */
  function Admitted(limit: int, calls: seq<Call>, key: string): seq<int> {
    if calls == [] then []
    else
      var before, last := Admitted(limit, calls[..|calls| - 1], key), calls[|calls| - 1];
      if last.key == key && |Recent(before, last.now - MINUTE)| < limit then before + [last.now] else before
  }

  ghost predicate ClockRuns(calls: seq<Call>) {
    forall i, j :: 0 <= i <= j < |calls| ==> calls[i].now <= calls[j].now
  }

  lemma {:induction false} RecentOfRecent(times: seq<int>, c: int, c': int)
    requires c <= c'
    ensures Recent(Recent(times, c), c') == Recent(times, c')
  {
    if times != [] {
      var front, last := times[..|times| - 1], times[|times| - 1];
      RecentOfRecent(front, c, c');
      if last > c {
        RecentSnoc(Recent(front, c), last, c');
      } else {
        assert Recent(front, c) + [] == Recent(front, c);
      }
    }
  }

  lemma RecentSnoc(times: seq<int>, t: int, c: int)
    ensures Recent(times + [t], c) == Recent(times, c) + if t > c then [t] else []
  {
    assert (times + [t])[..|times|] == times;
  }

  /** From a cutoff on, the stored window and the full history show the same times. */
  ghost predicate SameFrom(window: seq<int>, history: seq<int>, from: int) {
    forall c :: from <= c ==> Recent(window, c) == Recent(history, c)
  }

  lemma DecideTracks(limit: int, windows: map<string, seq<int>>, history: seq<int>, key: string, call: Call, from: int)
    requires limit > 0 && from <= call.now - MINUTE
    requires |WindowOf(windows, key)| <= limit && SameFrom(WindowOf(windows, key), history, from)
    ensures var w := WindowOf(Decide(limit, windows, call.key, call.now).1, key);
            var counted := call.key == key && |Recent(history, call.now - MINUTE)| < limit;
            var h := if counted then history + [call.now] else history;
            |w| <= limit && SameFrom(w, h, call.now - MINUTE)
  {
    hide Recent;
    var cutoff := call.now - MINUTE;
    if call.key == key {
      var window := WindowOf(windows, key);
      var kept := Recent(window, cutoff);
      forall c | cutoff <= c ensures Recent(kept, c) == Recent(history, c) {
        RecentOfRecent(window, cutoff, c);
      }
      forall c | cutoff <= c ensures Recent(kept + [call.now], c) == Recent(history + [call.now], c) {
        RecentSnoc(kept, call.now, c);
        RecentSnoc(history, call.now, c);
      }
    }
  }

  lemma {:induction false} WindowsTrack(limit: int, calls: seq<Call>, key: string)
    requires limit > 0 && ClockRuns(calls) && calls != []
    ensures |WindowOf(Windows(limit, calls), key)| <= limit
    ensures SameFrom(WindowOf(Windows(limit, calls), key), Admitted(limit, calls, key), calls[|calls| - 1].now - MINUTE)
  {
    hide Decide, SameFrom, Recent;
    var n := |calls| - 1;
    var front, last := calls[..n], calls[n];
    if front == [] {
      assert SameFrom([], [], last.now - MINUTE) by { NothingYet(last.now - MINUTE); }
      DecideTracks(limit, map[], [], key, last, last.now - MINUTE);
    } else {
      WindowsTrack(limit, front, key);
      assert front[n - 1].now <= last.now;
      DecideTracks(limit, Windows(limit, front), Admitted(limit, front, key), key, last, front[n - 1].now - MINUTE);
    }
  }

  lemma NothingYet(from: int)
    ensures SameFrom([], [], from)
  {}

  /**
   * The window refines the full history: with a clock that does not go back, each call is decided as
   * counting every past admission of its key in the last minute would, and no stored window outgrows
   * the limit.
   */
  lemma DecidesAsFullHistory(limit: int, calls: seq<Call>, key: string, now: int)
    requires limit > 0 && ClockRuns(calls + [Call(key, now)])
    ensures Decide(limit, Windows(limit, calls), key, now).0
        <==> |Recent(Admitted(limit, calls, key), now - MINUTE)| < limit
    ensures |WindowOf(Windows(limit, calls), key)| <= limit
  {
    hide Recent, Decide;
    DecideByWindow(limit, Windows(limit, calls), key, now);
    if calls != [] {
      var all := calls + [Call(key, now)];
      assert forall i :: 0 <= i < |calls| ==> all[i] == calls[i];
      assert all[|calls| - 1].now <= all[|calls|].now;
      WindowsTrack(limit, calls, key);
    }
  }

  lemma DecideByWindow(limit: int, windows: map<string, seq<int>>, key: string, now: int)
    requires limit > 0
    ensures Decide(limit, windows, key, now).0 <==> |Recent(WindowOf(windows, key), now - MINUTE)| < limit
  {}

  // ---------------------------------------------------------------- the bound

  /** The times at which a key was actually let through. */
  function Granted(limit: int, calls: seq<Call>, key: string): seq<int> {
    if calls == [] then []
    else
      var front, last := calls[..|calls| - 1], calls[|calls| - 1];
      Granted(limit, front, key)
      + if last.key == key && Decide(limit, Windows(limit, front), key, last.now).0 then [last.now] else []
  }

  lemma {:induction false} GrantedIsAdmitted(limit: int, calls: seq<Call>, key: string)
    requires limit > 0 && ClockRuns(calls)
    ensures Granted(limit, calls, key) == Admitted(limit, calls, key)
  {
    hide Decide, Recent, Windows;
    if calls != [] {
      var front, last := calls[..|calls| - 1], calls[|calls| - 1];
      GrantedIsAdmitted(limit, front, key);
      if last.key == key {
        assert front + [Call(key, last.now)] == calls;
        DecidesAsFullHistory(limit, front, key, last.now);
      }
    }
  }

  /** Admissions in the half-open minute that ends at t. */
  function InMinute(times: seq<int>, t: int): nat {
    if times == [] then 0
    else InMinute(times[..|times| - 1], t) + if t - MINUTE < times[|times| - 1] <= t then 1 else 0
  }

  lemma {:induction false} InMinuteAtMostRecent(times: seq<int>, t: int, cutoff: int)
    requires cutoff <= t - MINUTE
    ensures InMinute(times, t) <= |Recent(times, cutoff)|
  {
    if times != [] {
      InMinuteAtMostRecent(times[..|times| - 1], t, cutoff);
    }
  }

  lemma {:induction false} AdmittedFitsAnyMinute(limit: int, calls: seq<Call>, key: string, t: int)
    requires limit > 0
    ensures InMinute(Admitted(limit, calls, key), t) <= limit
  {
    hide Recent;
    if calls != [] {
      var n := |calls| - 1;
      AdmittedFitsAnyMinute(limit, calls[..n], key, t);
      var before, now := Admitted(limit, calls[..n], key), calls[n].now;
      if calls[n].key == key && |Recent(before, now - MINUTE)| < limit {
        assert (before + [now])[..|before|] == before;
        if t - MINUTE < now <= t {
          InMinuteAtMostRecent(before, t, now - MINUTE);
        }
      }
    }
  }

  /** No half-open minute, wherever it lies, sees more calls of a key let through than the limit. */
  lemma NeverOverLimit(limit: int, calls: seq<Call>, key: string, t: int)
    requires limit > 0 && ClockRuns(calls)
    ensures InMinute(Granted(limit, calls, key), t) <= limit
  {
    GrantedIsAdmitted(limit, calls, key);
    AdmittedFitsAnyMinute(limit, calls, key, t);
  }

  // ---------------------------------------------------------------- no limit

  function TimesOf(calls: seq<Call>, key: string): seq<int> {
    if calls == [] then []
    else
      var last := calls[|calls| - 1];
      TimesOf(calls[..|calls| - 1], key) + if last.key == key then [last.now] else []
  }

  /** A limit of zero or less lets every call through and stores nothing. */
  lemma {:induction false} NoLimitGrantsAll(limit: int, calls: seq<Call>, key: string)
    requires limit <= 0
    ensures Granted(limit, calls, key) == TimesOf(calls, key) && Windows(limit, calls) == map[]
  {
    if calls != [] {
      NoLimitGrantsAll(limit, calls[..|calls| - 1], key);
    }
  }
}
