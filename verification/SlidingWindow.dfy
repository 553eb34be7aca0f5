/** The sliding-window rate limit over a Redis sorted set, whose members are named after their timestamps alone. The
    commands of one call run without others in between; the clock reading is a parameter. */
module SlidingWindow {

  /** The stored key: its timestamps and when it expires. */
  datatype Key = Key(entries: set<real>, expiresAt: real)

  const NO_KEY := Key({}, 0.0)

  /** The time to live set on every call: one and a half windows, cut to whole seconds. */
  function Ttl(window: nat): nat {
    3 * window / 2
  }

  /** One call: the key as stored at `now`, with old members removed, the new one added and its expiry renewed. */
  function Attempt(window: nat, k: Key, now: real): Key {
    var live := if now >= k.expiresAt then {} else k.entries;
    var kept := set t | t in live && !(0.0 <= t <= now - window as real);
    Key(if Ttl(window) == 0 then {} else kept + {now}, now + Ttl(window) as real)
  }

  class Limiter {
    const window: nat
    var entries: set<real>
    var expiresAt: real

    function Look(): Key
      reads this
    {
      Key(entries, expiresAt)
    }

    constructor (window: nat)
      ensures this.window == window && Look() == NO_KEY
    {
      this.window := window;
      entries, expiresAt := {}, 0.0;
    }

    method Incr(now: real, limit: int) returns (count: nat, allowed: bool)
      modifies this
      ensures Look() == Attempt(window, old(Look()), now)
      ensures count == |entries| && (allowed <==> count <= limit)
    {
      if now >= expiresAt {
        entries := {};
      }
      var windowStart := now - window as real;
      entries := set t | t in entries && !(0.0 <= t <= windowStart);
      entries := entries + {now};
      expiresAt := now + Ttl(window) as real;
      if Ttl(window) == 0 {
        entries := {};
      }
      count := |entries|;
      allowed := count <= limit;
    }
  }

  // ----- the plain log -----

  /** The key after a log of attempts, refused ones included. */
  function Stored(window: nat, log: seq<real>): Key {
    if log == [] then NO_KEY else Attempt(window, Stored(window, log[..|log| - 1]), log[|log| - 1])
  }

  ghost predicate Clock(log: seq<real>) {
    && (forall i :: 0 <= i < |log| ==> log[i] >= 0.0)
    && (forall i, j :: 0 <= i < j < |log| ==> log[i] <= log[j])
  }

  /** The attempts up to number `n` that lie in the trailing window of attempt `n`. */
  ghost function Recent(window: nat, log: seq<real>, n: nat): set<nat>
    requires n < |log|
  {
    set i: nat | i <= n && log[i] > log[n] - window as real
  }

  ghost function Times(log: seq<real>, s: set<nat>): set<real>
    requires forall i :: i in s ==> i < |log|
  {
    set i | i in s :: log[i]
  }

  ghost predicate Distinct(log: seq<real>, s: set<nat>)
    requires forall i :: i in s ==> i < |log|
  {
    forall i, j :: i in s && j in s && i != j ==> log[i] != log[j]
  }

  /** One more attempt: the window moves on, and the new timestamp joins what is left of the old ones. */
  lemma WindowMoves(window: nat, log: seq<real>, n: nat, t: real)
    requires window >= 1 && Clock(log) && 0 < n < |log|
    ensures t in Times(log, Recent(window, log, n))
       <==> t == log[n] || (t in Times(log, Recent(window, log, n - 1)) && t > log[n] - window as real)
  {
    assert n in Recent(window, log, n);
    if t in Times(log, Recent(window, log, n)) && t != log[n] {
      var i: nat :| i in Recent(window, log, n) && log[i] == t;
      assert i in Recent(window, log, n - 1);
    }
    if t in Times(log, Recent(window, log, n - 1)) && t > log[n] - window as real {
      var i: nat :| i in Recent(window, log, n - 1) && log[i] == t;
      assert i in Recent(window, log, n);
    }
  }

  lemma TimesArePast(window: nat, log: seq<real>, n: nat, t: real)
    requires Clock(log) && n < |log| && t in Times(log, Recent(window, log, n))
    ensures 0.0 <= t <= log[n]
  {
    var i: nat :| i in Recent(window, log, n) && log[i] == t;
  }

  /** What a call finds later than `last`, the attempt that set the expiry: the key outlives its window. */
  lemma AttemptKeeps(window: nat, before: set<real>, last: real, now: real, t: real)
    requires window >= 1 && last <= now
    requires t in before ==> 0.0 <= t <= last
    ensures t in Attempt(window, Key(before, last + Ttl(window) as real), now).entries
       <==> t == now || (t in before && t > now - window as real)
  {
    assert Ttl(window) >= window;
  }

  lemma FirstAttempt(window: nat, log: seq<real>)
    requires window >= 1 && Clock(log) && log != []
    ensures Stored(window, log[..1]) == Key(Times(log, Recent(window, log, 0)), log[0] + Ttl(window) as real)
  {
    assert log[..1][..0] == [];
    assert Recent(window, log, 0) == {0};
    assert Times(log, {0}) == {log[0]};
    assert Stored(window, log[..1]).entries == {log[0]};
  }

  lemma NextAttempt(window: nat, log: seq<real>, n: nat)
    requires window >= 1 && Clock(log) && 0 < n < |log|
    ensures Attempt(window, Key(Times(log, Recent(window, log, n - 1)), log[n - 1] + Ttl(window) as real), log[n])
         == Key(Times(log, Recent(window, log, n)), log[n] + Ttl(window) as real)
  {
    var before, recent := Times(log, Recent(window, log, n - 1)), Times(log, Recent(window, log, n));
    var after := Attempt(window, Key(before, log[n - 1] + Ttl(window) as real), log[n]).entries;
    forall t ensures t in recent <==> t in after {
      if t in before {
        TimesArePast(window, log, n - 1, t);
      }
      WindowMoves(window, log, n, t);
      AttemptKeeps(window, before, log[n - 1], log[n], t);
    }
    assert after == recent;
  }

  lemma StoredStep(window: nat, log: seq<real>, n: nat)
    requires n < |log|
    ensures Stored(window, log[..n + 1]) == Attempt(window, Stored(window, log[..n]), log[n])
  {
    assert log[..n + 1][..n] == log[..n];
  }

  /** Pruning and expiry refine the plain log: with a clock that does not run backwards, what is stored after attempt
      `n` is exactly the timestamps of its trailing window, however long the key was left alone before. */
  lemma {:induction false} StoredIsTrailingWindow(window: nat, log: seq<real>, n: nat)
    requires window >= 1 && Clock(log) && n < |log|
    ensures Stored(window, log[..n + 1]) == Key(Times(log, Recent(window, log, n)), log[n] + Ttl(window) as real)
    decreases n
  {
    if n == 0 {
      FirstAttempt(window, log);
    } else {
      StoredIsTrailingWindow(window, log, n - 1);
      StoredStep(window, log, n);
      NextAttempt(window, log, n);
    }
  }

  lemma {:induction false} TimesCount(log: seq<real>, s: set<nat>)
    requires forall i :: i in s ==> i < |log|
    ensures |Times(log, s)| <= |s| && (|Times(log, s)| == |s| <==> Distinct(log, s))
    decreases |s|
  {
    if s == {} {
      assert Times(log, s) == {};
    } else if Distinct(log, s) {
      var x :| x in s;
      TimesCount(log, s - {x});
      assert Times(log, s) == Times(log, s - {x}) + {log[x]};
    } else {
      var x, y :| x in s && y in s && x != y && log[x] == log[y];
      TimesCount(log, s - {x});
      assert y in s - {x};
      assert Times(log, s) == Times(log, s - {x});
    }
  }

  /** What the call number `n` of a log is told. */
  ghost predicate Allowed(window: nat, limit: int, log: seq<real>, n: nat)
    requires n < |log|
  {
    |Stored(window, log[..n + 1]).entries| <= limit
  }

  /** Exactly when the limiter counts attempts: the count of a call is the number of attempts in its trailing window if
      and only if no two of those attempts share a timestamp; otherwise it is too small. */
  lemma CountsAttemptsIff(window: nat, log: seq<real>, n: nat)
    requires window >= 1 && Clock(log) && n < |log|
    ensures var count := |Stored(window, log[..n + 1]).entries|;
            && count <= |Recent(window, log, n)|
            && (count == |Recent(window, log, n)| <==> Distinct(log, Recent(window, log, n)))
  {
    StoredIsTrailingWindow(window, log, n);
    TimesCount(log, Recent(window, log, n));
  }

  /** With distinct timestamps a call is allowed if and only if fewer than `limit` earlier attempts, refused ones
      included, lie in its trailing window. */
  lemma AllowedIff(window: nat, limit: int, log: seq<real>, n: nat)
    requires window >= 1 && Clock(log) && n < |log| && Distinct(log, Recent(window, log, n))
    ensures Allowed(window, limit, log, n) <==> |Recent(window, log, n) - {n}| < limit
  {
    CountsAttemptsIff(window, log, n);
    assert n in Recent(window, log, n);
  }

  /** The allowed calls of a half-open interval. */
  ghost function AllowedIn(window: nat, limit: int, log: seq<real>, from: real, to: real): set<nat> {
    set n: nat | n < |log| && from < log[n] <= to && Allowed(window, limit, log, n)
  }

  lemma {:induction false} Greatest(s: set<nat>) returns (m: nat)
    requires s != {}
    ensures m in s && forall i :: i in s ==> i <= m
    decreases |s|
  {
    var x :| x in s;
    var rest := s - {x};
    m := x;
    if rest != {} {
      var k := Greatest(rest);
      m := if k > x then k else x;
      forall i | i in s ensures i <= m {
        if i != x {
          assert i in rest;
        }
      }
    } else {
      assert s == {x};
    }
  }

  lemma SubsetCount(a: set<nat>, b: set<nat>)
    requires a <= b
    ensures |a| <= |b|
  {
    assert b == a + (b - a);
  }

  /** Whenever timestamps are distinct, no window of that length holds more than `limit` allowed calls. */
  lemma NoWindowOverLimit(window: nat, limit: nat, log: seq<real>, from: real)
    requires window >= 1 && Clock(log) && forall i, j :: 0 <= i < j < |log| ==> log[i] != log[j]
    ensures |AllowedIn(window, limit, log, from, from + window as real)| <= limit
  {
    var allowed := AllowedIn(window, limit, log, from, from + window as real);
    if allowed != {} {
      var m := Greatest(allowed);
      CountsAttemptsIff(window, log, m);
      SubsetCount(allowed, Recent(window, log, m));
    }
  }

  /** The limit is not kept when the clock stands still: any number of calls at one instant are all counted as one. */
  lemma EqualTimestampsCollapse(window: nat, log: seq<real>, n: nat)
    requires window >= 1 && Clock(log) && n < |log| && forall i :: 0 <= i <= n ==> log[i] == log[n]
    ensures Allowed(window, 1, log, n) && |Stored(window, log[..n + 1]).entries| == 1
  {
    StoredIsTrailingWindow(window, log, n);
    assert n in Recent(window, log, n);
    assert Times(log, Recent(window, log, n)) == {log[n]};
  }
}
