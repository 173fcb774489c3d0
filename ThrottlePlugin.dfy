/** ThrottleOut: an outgoing filter that lets a line through only when more than
    `interval` milliseconds have passed since the last line it let through. The
    clock is a parameter: `now` is the value getMillis() returned for the call. */
module Throttle {

  const ThrottleName: string := "throttle_out"
  const DefaultInterval: int := 5000

  /** One filterOutgoing call on the clock reading `now`: whether the line goes out,
      and lastSent afterwards. */
  function Step(interval: int, lastSent: int, now: int): (r: (bool, int))
    ensures r.0 <==> now - lastSent > interval
    ensures r.1 == if r.0 then now else lastSent
  {
    if now - lastSent > interval then (true, now) else (false, lastSent)
  }

  class ThrottleOut {
    const interval: int
    var lastSent: int

    constructor (interval: int)
      ensures this.interval == interval && lastSent == 0
    {
      this.interval := interval;
      lastSent := 0;
    }

    /** filterOutgoing: the message text plays no part, only the clock does. */
    method FilterOutgoing(message: string, now: int) returns (accepted: bool)
      modifies this
      ensures (accepted, lastSent) == Step(interval, old(lastSent), now)
    {
      accepted := now - lastSent > interval;
      if accepted {
        lastSent := now;
      }
    }
  }

  /** lastSent after a run of filterOutgoing calls at the clock readings `nows`. */
  function LastSent(interval: int, start: int, nows: seq<int>): int {
    if |nows| == 0 then start
    else Step(interval, LastSent(interval, start, nows[..|nows| - 1]), nows[|nows| - 1]).1
  }

  /** Whether the j-th call of such a run let its line through. */
  predicate Accepted(interval: int, start: int, nows: seq<int>, j: nat)
    requires j < |nows|
  {
    Step(interval, LastSent(interval, start, nows[..j]), nows[j]).0
  }

  /** The clock never runs backwards and never reads before the initial lastSent. */
  predicate Clock(start: int, nows: seq<int>) {
    && (|nows| > 0 ==> start <= nows[0])
    && (forall i, j :: 0 <= i < j < |nows| ==> nows[i] <= nows[j])
  }

  /** lastSent is always a reading already taken, so it never exceeds the latest one. */
  lemma {:induction false} LastSentBelowNow(interval: int, start: int, nows: seq<int>, m: nat)
    requires Clock(start, nows) && 0 < m <= |nows|
    ensures LastSent(interval, start, nows[..m]) <= nows[m - 1]
    decreases m
  {
    assert nows[..m][..m - 1] == nows[..m - 1];
    if m > 1 {
      LastSentBelowNow(interval, start, nows, m - 1);
    }
  }

  /** lastSent only moves forward. */
  lemma {:induction false} LastSentGrows(interval: int, start: int, nows: seq<int>, m: nat, n: nat)
    requires Clock(start, nows) && m <= n <= |nows|
    ensures LastSent(interval, start, nows[..m]) <= LastSent(interval, start, nows[..n])
    decreases n - m
  {
    if m < n {
      LastSentGrows(interval, start, nows, m, n - 1);
      assert nows[..n][..n - 1] == nows[..n - 1];
      if n > 1 {
        LastSentBelowNow(interval, start, nows, n - 1);
      }
    }
  }

  /** With a clock that never runs backwards, any two lines that go out are more than
      `interval` apart. */
  lemma SpacedApart(interval: int, start: int, nows: seq<int>, i: nat, j: nat)
    requires Clock(start, nows) && i < j < |nows|
    requires Accepted(interval, start, nows, i) && Accepted(interval, start, nows, j)
    ensures nows[j] - nows[i] > interval
  {
    assert nows[..i + 1][..i] == nows[..i];
    assert LastSent(interval, start, nows[..i + 1]) == nows[i];
    LastSentGrows(interval, start, nows, i + 1, j);
  }
}
