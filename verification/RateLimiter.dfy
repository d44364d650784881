/** The sliding-window limiter of the rerank comparison script. */
module RateLimiter {

  /** A monotone clock whose sleep lasts at least as long as asked. */
  class Clock {
    var now: real
    ghost var slept: real  // the sum of all requested sleeps

    constructor ()
    {
      now := 0.0;
      slept := 0.0;
    }

    method Monotonic() returns (t: real)
      modifies this
      ensures t == now >= old(now) && slept == old(slept)
    {
      var d: real :| d >= 0.0;
      now := now + d;
      t := now;
    }

    method Sleep(seconds: real)
      requires seconds >= 0.0
      modifies this
      ensures now >= old(now) + seconds && slept == old(slept) + seconds
    {
      var d: real :| d >= 0.0;
      now := now + seconds + d;
      slept := slept + seconds;
    }
  }

  ghost predicate Rising(g: seq<real>) { forall i, k | 0 <= i < k < |g| :: g[i] <= g[k] }

  /** Grants that are `limit` apart in the history are a window apart in time. */
  ghost predicate Spaced(g: seq<real>, limit: nat, window: real) {
    forall i | 0 <= i < |g| - limit :: g[i + limit] - g[i] >= window
  }

  /**
    `calls` is the tail of the history of grants; what it has forgotten is either paired with a
    later grant already or out of the window.
   */
  ghost predicate Remembers(limit: nat, window: real, calls: seq<real>, grants: seq<real>, now: real) {
    && |calls| <= |grants| && |calls| <= limit
    && calls == grants[|grants| - |calls|..]
    && Rising(grants)
    && Spaced(grants, limit, window)
    && (forall i | 0 <= i < |grants| :: grants[i] <= now)
    && (forall i | 0 <= i < |grants| - |calls| :: i + limit < |grants| || now - grants[i] > window)
  }

  /** Dropping an entry that is out of the window. */
  lemma Expire(limit: nat, window: real, calls: seq<real>, grants: seq<real>, now: real)
    requires Remembers(limit, window, calls, grants, now) && calls != [] && now - calls[0] > window
    ensures Remembers(limit, window, calls[1..], grants, now)
  {
    assert calls[0] == grants[|grants| - |calls|];
  }

  /** A grant that is far enough from the one `limit` places back. */
  lemma GrantKeeps(limit: nat, window: real, calls: seq<real>, grants: seq<real>, now: real, t: real)
    requires limit > 0 && Remembers(limit, window, calls, grants, now) && now <= t
    requires |calls| == limit ==> t - calls[0] >= window
    ensures var kept := if |calls| == limit then calls[1..] else calls;
      Remembers(limit, window, kept + [t], grants + [t], t)
  {
    var n := |grants|;
    if n >= limit {
      if |calls| == limit {
        assert calls[0] == grants[n - limit];
      }
      assert t - grants[n - limit] >= window;
    }
    var g := grants + [t];
    forall i | 0 <= i < |g| - limit
      ensures g[i + limit] - g[i] >= window
    {
    }
  }

  class Limiter {
    const limit: nat
    const window: real
    var calls: seq<real>
    ghost var grants: seq<real>  // every grant ever made

    ghost predicate Valid(now: real)
      reads this
    {
      if limit == 0 then calls == [] && grants == [] else Remembers(limit, window, calls, grants, now)
    }

    constructor (limit: nat, window: real)
      ensures this.limit == limit && this.window == window && grants == []
      ensures forall now :: Valid(now)
    {
      this.limit, this.window := limit, window;
      calls, grants := [], [];
    }

    method Acquire(clock: Clock) returns (waited: real)
      requires Valid(clock.now)
      modifies this, clock
      ensures Valid(clock.now) && clock.now >= old(clock.now)
      ensures grants == old(grants) + (if limit == 0 then [] else [clock.now])
      ensures waited >= 0.0 && clock.slept == old(clock.slept) + waited
      ensures waited > 0.0 ==>
        0 < limit <= |old(grants)| && waited <= window - (old(clock.now) - old(grants)[|old(grants)| - limit])
    {
      if limit == 0 {
        return 0.0;
      }
      hide Rising, Spaced;
      var now := clock.Monotonic();
      while calls != [] && now - calls[0] > window
        invariant clock.slept == old(clock.slept)
        invariant clock.now == now && Remembers(limit, window, calls, grants, now) && grants == old(grants)
        decreases |calls|
      {
        Expire(limit, window, calls, grants, now);
        calls := calls[1..];
      }
      waited := 0.0;
      ghost var queued := calls;
      if |calls| >= limit {
        waited := if window - (now - calls[0]) > 0.0 then window - (now - calls[0]) else 0.0;
        if waited > 0.0 {
          clock.Sleep(waited);
        }
        calls := calls[1..];
      }
      var granted := clock.Monotonic();
      GrantKeeps(limit, window, queued, grants, now, granted);
      calls := calls + [granted];
      grants := grants + [granted];
    }

    /** Any sequence of calls leaves the whole history spaced. */
    method AcquireMany(clock: Clock, n: nat)
      requires Valid(clock.now)
      modifies this, clock
      ensures Valid(clock.now)
      ensures |grants| == |old(grants)| + (if limit == 0 then 0 else n)
      ensures limit > 0 ==> Rising(grants) && Spaced(grants, limit, window)
    {
      for i := 0 to n
        invariant Valid(clock.now)
        invariant |grants| == |old(grants)| + (if limit == 0 then 0 else i)
      {
        var _ := Acquire(clock);
      }
    }
  }

  /** The grants that fall into [from, from + window). */
  ghost function InWindow(g: seq<real>, from: real, window: real): set<int> {
    set i | 0 <= i < |g| && from <= g[i] < from + window
  }

  /** In a spaced history no half-open window, wherever it starts, holds more than `limit` grants. */
  lemma {:induction false} WindowHoldsLimit(g: seq<real>, limit: nat, window: real, from: real)
    requires limit > 0 && Rising(g) && Spaced(g, limit, window)
    ensures |InWindow(g, from, window)| <= limit
  {
    var s := InWindow(g, from, window);
    if i :| i in s {
      var least := Least(s);
      assert least + limit < |g| ==> g[least + limit] - g[least] >= window;
      Bounded(s, least, limit);
    } else {
      assert s == {};
    }
  }

  lemma {:induction false} Least(s: set<int>) returns (m: int)
    requires exists i :: i in s
    ensures m in s && forall i | i in s :: m <= i
  {
    var x: int :| x in s;
    var rest := s - {x};
    m := x;
    if i :| i in rest {
      var n := Least(rest);
      m := if n < x then n else x;
      forall i | i in s
        ensures m <= i
      {
        assert i == x || i in rest;
      }
    } else {
      assert forall i | i in s :: i == x || i in rest;
    }
  }

  lemma {:induction false} Bounded(s: set<int>, least: int, n: nat)
    requires forall i | i in s :: least <= i < least + n
    ensures |s| <= n
  {
    if n == 0 {
      assert forall i :: i !in s;
      assert s == {};
    } else {
      Bounded(s - {least + n - 1}, least, n - 1);
    }
  }
}
