/** The process-wide sliding-window rate limiter (src/utils/rateLimiter.js):
    at most maxRequests grants in any timeWindow milliseconds. Time is passed
    in as `now`, the value Date.now() would give; a timer set for w
    milliseconds is taken to fire exactly w milliseconds later. */
module RateLimiting {

  /** requests.filter((time) => now - time < timeWindow) */
  function Prune(requests: seq<nat>, now: nat, timeWindow: nat): (kept: seq<nat>)
    ensures |kept| <= |requests|
    ensures forall t :: t in kept ==> t in requests && now - t < timeWindow
    ensures forall t :: t in requests && now - t < timeWindow ==> t in kept
  {
    if requests == [] then []
    else (if now - requests[0] < timeWindow then [requests[0]] else []) + Prune(requests[1..], now, timeWindow)
  }

  ghost predicate Sorted(s: seq<nat>) {
    forall i, j :: 0 <= i <= j < |s| ==> s[i] <= s[j]
  }

  function Sum(s: seq<nat>): nat {
    if s == [] then 0 else s[0] + Sum(s[1..])
  }

  lemma {:induction false} PruneAppend(a: seq<nat>, b: seq<nat>, now: nat, timeWindow: nat)
    ensures Prune(a + b, now, timeWindow) == Prune(a, now, timeWindow) + Prune(b, now, timeWindow)
  {
    if a != [] {
      var head := if now - a[0] < timeWindow then [a[0]] else [];
      assert (a + b)[0] == a[0] && (a + b)[1..] == a[1..] + b;
      assert Prune(a + b, now, timeWindow) == head + Prune(a[1..] + b, now, timeWindow);
      PruneAppend(a[1..], b, now, timeWindow);
      assert head + (Prune(a[1..], now, timeWindow) + Prune(b, now, timeWindow))
          == (head + Prune(a[1..], now, timeWindow)) + Prune(b, now, timeWindow);
    } else {
      assert a + b == b;
    }
  }

  lemma {:induction false} PruneAllExpired(s: seq<nat>, now: nat, timeWindow: nat)
    requires forall i :: 0 <= i < |s| ==> now - s[i] >= timeWindow
    ensures Prune(s, now, timeWindow) == []
  {
    if s != [] {
      PruneAllExpired(s[1..], now, timeWindow);
    }
  }

  lemma {:induction false} PruneNoneExpired(s: seq<nat>, now: nat, timeWindow: nat)
    requires forall i :: 0 <= i < |s| ==> now - s[i] < timeWindow
    ensures Prune(s, now, timeWindow) == s
  {
    if s != [] {
      PruneNoneExpired(s[1..], now, timeWindow);
      assert [s[0]] + s[1..] == s;
    }
  }

  /** On a time-ordered list, pruning drops a prefix of expired timestamps and
      keeps the rest in order, so the first survivor is the oldest one. */
  lemma {:induction false} PruneSortedSuffix(s: seq<nat>, now: nat, timeWindow: nat)
    requires Sorted(s)
    ensures Prune(s, now, timeWindow) == s[|s| - |Prune(s, now, timeWindow)|..]
    ensures forall i :: 0 <= i < |s| - |Prune(s, now, timeWindow)| ==> now - s[i] >= timeWindow
  {
    if s != [] {
      if now - s[0] < timeWindow {
        PruneNoneExpired(s, now, timeWindow);
      } else {
        PruneSortedSuffix(s[1..], now, timeWindow);
      }
    }
  }

  /** Pruning again at a later time is the same as pruning once then. */
  lemma {:induction false} PruneLater(s: seq<nat>, t1: nat, t2: nat, timeWindow: nat)
    requires t1 <= t2
    ensures Prune(Prune(s, t1, timeWindow), t2, timeWindow) == Prune(s, t2, timeWindow)
  {
    if s != [] {
      var head := if t1 - s[0] < timeWindow then [s[0]] else [];
      PruneAppend(head, Prune(s[1..], t1, timeWindow), t2, timeWindow);
      PruneLater(s[1..], t1, t2, timeWindow);
    }
  }

  /** The state the limiter keeps between calls, for a clock that never runs
      backwards: `requests` is the tail of the full grant history `grants`,
      every grant older than that tail had expired by the latest time seen,
      and the tail holds at most maxRequests timestamps. */
  ghost predicate Window(requests: seq<nat>, grants: seq<nat>, clock: nat, maxRequests: nat, timeWindow: nat) {
    && |requests| <= maxRequests
    && Sorted(grants)
    && |requests| <= |grants|
    && requests == grants[|grants| - |requests|..]
    && (forall i :: 0 <= i < |grants| ==> grants[i] <= clock)
    && (forall i :: 0 <= i < |grants| - |requests| ==> clock - grants[i] >= timeWindow)
  }

  /** At any time from the latest one seen on, the trailing window holds at
      most maxRequests of all the grants ever made. */
  lemma WindowBound(requests: seq<nat>, grants: seq<nat>, clock: nat, maxRequests: nat, timeWindow: nat, t: nat)
    requires Window(requests, grants, clock, maxRequests, timeWindow) && clock <= t
    ensures |Prune(grants, t, timeWindow)| <= maxRequests
  {
    var k := |grants| - |requests|;
    assert grants == grants[..k] + requests;
    PruneAppend(grants[..k], requests, t, timeWindow);
    PruneAllExpired(grants[..k], t, timeWindow);
  }

  /** A suffix of a time-ordered list is time-ordered. */
  lemma SortedSuffix(grants: seq<nat>, k: nat)
    requires Sorted(grants) && k <= |grants|
    ensures Sorted(grants[k..])
  {
    var r := grants[k..];
    forall i, j | 0 <= i <= j < |r| ensures r[i] <= r[j] {
      assert r[i] == grants[k + i] && r[j] == grants[k + j];
    }
  }

  /** Appending a time no earlier than the latest one seen keeps a history
      time-ordered. */
  lemma SortedAppend(grants: seq<nat>, clock: nat, t: nat)
    requires Sorted(grants) && clock <= t
    requires forall i :: 0 <= i < |grants| ==> grants[i] <= clock
    ensures Sorted(grants + [t])
  {
    var g' := grants + [t];
    forall i, j | 0 <= i <= j < |g'| ensures g'[i] <= g'[j] {
      if j < |grants| {
        assert g'[i] == grants[i] && g'[j] == grants[j];
      } else if i < |grants| {
        assert g'[i] == grants[i];
      }
    }
  }

  /** After a grant at t, the kept tail plus t is still the tail of the
      history. */
  lemma GrantTail(grants: seq<nat>, requests: seq<nat>, p: seq<nat>, t: nat)
    requires |requests| <= |grants| && requests == grants[|grants| - |requests|..]
    requires |p| <= |requests| && p == requests[|requests| - |p|..]
    ensures (grants + [t])[|grants| - |p|..] == p + [t]
  {
    assert (grants + [t])[|grants| - |p|..] == grants[|grants| - |p|..] + [t];
    assert grants[|grants| - |p|..] == requests[|requests| - |p|..];
  }

  /** Every grant before the kept tail had expired by t. */
  lemma GrantExpired(grants: seq<nat>, requests: seq<nat>, p: seq<nat>, clock: nat, timeWindow: nat, t: nat)
    requires |requests| <= |grants| && requests == grants[|grants| - |requests|..]
    requires |p| <= |requests| && clock <= t
    requires forall i :: 0 <= i < |grants| - |requests| ==> clock - grants[i] >= timeWindow
    requires forall i :: 0 <= i < |requests| - |p| ==> t - requests[i] >= timeWindow
    ensures forall i :: 0 <= i < |grants| - |p| ==> t - grants[i] >= timeWindow
  {
    var k := |grants| - |requests|;
    forall i | 0 <= i < |grants| - |p| ensures t - grants[i] >= timeWindow {
      if i >= k {
        assert grants[i] == requests[i - k];
      }
    }
  }

  /** Recording a grant at t, after pruning at t has left room, keeps the
      window state. */
  lemma GrantKeepsWindow(requests: seq<nat>, grants: seq<nat>, clock: nat, maxRequests: nat, timeWindow: nat, t: nat)
    requires Window(requests, grants, clock, maxRequests, timeWindow) && clock <= t
    requires |Prune(requests, t, timeWindow)| < maxRequests
    ensures Window(Prune(requests, t, timeWindow) + [t], grants + [t], t, maxRequests, timeWindow)
  {
    var p := Prune(requests, t, timeWindow);
    var g' := grants + [t];
    PruneSortedSuffix(requests, t, timeWindow) by {
      SortedSuffix(grants, |grants| - |requests|);
    }
    SortedAppend(grants, clock, t);
    GrantTail(grants, requests, p, t);
    GrantExpired(grants, requests, p, clock, timeWindow, t);
    forall i | 0 <= i < |g'| ensures g'[i] <= t {
      if i < |grants| { assert g'[i] == grants[i]; }
    }
    forall i | 0 <= i < |g'| - |p| - 1 ensures t - g'[i] >= timeWindow {
      assert g'[i] == grants[i];
    }
  }

  class RateLimiter {
    const maxRequests: nat
    const timeWindow: nat
    var requests: seq<nat>
    /** Every timestamp recorded since construction or the last reset, in order. */
    ghost var grants: seq<nat>
    /** The latest time the limiter has seen. */
    ghost var clock: nat

    ghost predicate Valid()
      reads this
    {
      maxRequests >= 1 && |requests| <= maxRequests
    }

    /** The window state, kept as long as the clock never runs backwards. */
    ghost predicate Steady()
      reads this
    {
      Window(requests, grants, clock, maxRequests, timeWindow)
    }

    /** new RateLimiter(): ten requests per minute unless told otherwise. */
    constructor (maxRequests: nat := 10, timeWindow: nat := 60000)
      requires maxRequests >= 1
      ensures Valid() && Steady()
      ensures this.maxRequests == maxRequests && this.timeWindow == timeWindow
      ensures requests == [] && grants == [] && clock == 0
    {
      this.maxRequests := maxRequests;
      this.timeWindow := timeWindow;
      requests := [];
      grants := [];
      clock := 0;
    }

    /** canMakeRequest: prune, and while the window is full wait until its
        oldest grant expires and decide again from scratch; then record the
        grant. Returns true, the time of the grant and the waits taken. When
        the clock has not run backwards since the last call, the trailing
        window then holds at most maxRequests grants and no wait exceeds
        timeWindow. */
    method CanMakeRequest(now: nat) returns (granted: bool, grantedAt: nat, waits: seq<nat>)
      requires Valid()
      modifies this
      ensures Valid() && granted
      ensures grantedAt == now + Sum(waits)
      ensures waits == [] <==> |Prune(old(requests), now, timeWindow)| < maxRequests
      ensures |waits| <= 1 && forall i :: 0 <= i < |waits| ==> 0 < waits[i]
      ensures waits != [] ==> waits[0] == timeWindow - (now - Prune(old(requests), now, timeWindow)[0])
      ensures |Prune(old(requests), grantedAt, timeWindow)| < maxRequests
      ensures requests == Prune(old(requests), grantedAt, timeWindow) + [grantedAt]
      ensures grants == old(grants) + [grantedAt] && clock == grantedAt
      ensures old(Steady()) && old(clock) <= now ==>
                && Steady()
                && |Prune(grants, grantedAt, timeWindow)| <= maxRequests
                && forall i :: 0 <= i < |waits| ==> waits[i] <= timeWindow
    {
      var t := now;
      waits := [];
      requests := Prune(requests, t, timeWindow);
      while |requests| >= maxRequests
        invariant grants == old(grants) && clock == old(clock)
        invariant now <= t && t == now + Sum(waits)
        invariant requests == Prune(old(requests), t, timeWindow) && |requests| <= maxRequests
        invariant old(Steady()) && old(clock) <= now ==> forall x :: x in requests ==> x <= now
        invariant waits == [] ==> t == now
        invariant waits != [] ==> |waits| == 1 && |requests| < maxRequests
        invariant waits != [] ==> |Prune(old(requests), now, timeWindow)| >= maxRequests
        invariant waits != [] ==> 0 < waits[0]
        invariant waits != [] && old(Steady()) && old(clock) <= now ==> waits[0] <= timeWindow
        invariant waits != [] ==> waits[0] == timeWindow - (now - Prune(old(requests), now, timeWindow)[0])
        decreases |requests|
      {
        var oldest := requests[0];
        var wait: nat := timeWindow - (t - oldest);
        t := t + wait;
        waits := waits + [wait];
        assert Sum(waits) == wait;
        PruneLater(old(requests), now, t, timeWindow);
        assert |Prune(requests, t, timeWindow)| < |requests| by {
          assert requests == [oldest] + requests[1..];
          PruneAppend([oldest], requests[1..], t, timeWindow);
        }
        requests := Prune(requests, t, timeWindow);
      }
      if old(Steady()) && old(clock) <= now {
        GrantKeepsWindow(old(requests), grants, clock, maxRequests, timeWindow, t);
      }
      requests := requests + [t];
      grants := grants + [t];
      clock := t;
      if old(Steady()) && old(clock) <= now {
        WindowBound(requests, grants, clock, maxRequests, timeWindow, t);
      }
      granted, grantedAt := true, t;
    }

    /** reset: forget every recorded request. */
    method Reset()
      requires Valid()
      modifies this
      ensures Valid() && Steady() && requests == [] && grants == [] && clock == old(clock)
    {
      requests := [];
      grants := [];
    }
  }
}
