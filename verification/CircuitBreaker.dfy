/** The circuit breaker between the primary and the fallback model: `Breaker` is the object, a `View` the value of its
    fields. Runs are histories of consultations and reports of concurrent calls; the clock reading is a parameter. */
module CircuitBreaker {

  datatype State = Closed | Open | HalfOpen

  datatype Config = Config(primary: string, fallback: string, threshold: int, coolDown: real)

  datatype View = View(state: State, failures: nat, openedAt: real, probing: bool,
                       totalFailures: nat, totalSuccesses: nat, fallbackUsed: nat)

  datatype Grant = Primary | Fallback

  const INITIAL := View(Closed, 0, 0.0, false, 0, 0, 0)

  /** What a consultation answers. */
  function Granted(c: Config, v: View, now: real): Grant {
    match v.state
    case Closed => Primary
    case Open => if now - v.openedAt >= c.coolDown then Primary else Fallback
    case HalfOpen => if v.probing then Fallback else Primary
  }

  function Consult(c: Config, v: View, now: real): View {
    if Granted(c, v, now) == Fallback then v.(fallbackUsed := v.fallbackUsed + 1)
    else if v.state == Open then v.(state := HalfOpen, probing := true)
    else if v.state == HalfOpen then v.(probing := true)
    else v
  }

  function Succeed(c: Config, v: View, model: string): View {
    var w := v.(totalSuccesses := v.totalSuccesses + 1, failures := 0,
                state := if v.state == HalfOpen then Closed else v.state,
                probing := if v.state == HalfOpen then false else v.probing);
    if model == c.fallback && w.state == Closed then w.(fallbackUsed := w.fallbackUsed + 1) else w
  }

  function Fail(c: Config, v: View, now: real): View {
    var w := v.(totalFailures := v.totalFailures + 1, failures := v.failures + 1);
    if v.state == HalfOpen then w.(state := Open, openedAt := now, probing := false)
    else if v.state == Closed && w.failures >= c.threshold then w.(state := Open, openedAt := now)
    else w
  }

  class Breaker {
    const cfg: Config
    var state: State
    var consecutiveFailures: nat
    var openedAt: real
    var halfOpenInFlight: bool
    var totalFailures: nat
    var totalSuccesses: nat
    var fallbackUsedCount: nat

    function Look(): View
      reads this
    {
      View(state, consecutiveFailures, openedAt, halfOpenInFlight, totalFailures, totalSuccesses, fallbackUsedCount)
    }

    constructor (cfg: Config)
      ensures this.cfg == cfg && Look() == INITIAL
    {
      this.cfg := cfg;
      state, consecutiveFailures, openedAt, halfOpenInFlight := Closed, 0, 0.0, false;
      totalFailures, totalSuccesses, fallbackUsedCount := 0, 0, 0;
    }

    method ModelToCall(now: real) returns (model: string)
      modifies this
      ensures Look() == Consult(cfg, old(Look()), now)
      ensures model == if Granted(cfg, old(Look()), now) == Primary then cfg.primary else cfg.fallback
      ensures cfg.threshold >= 1 ==> forall h :: Run(cfg, h) == old(Look()) ==>
                model == if PrimaryDue(cfg, h, now) then cfg.primary else cfg.fallback
    {
      forall h | cfg.threshold >= 1 && Run(cfg, h) == Look()
        ensures PrimaryDue(cfg, h, now) <==> Granted(cfg, Look(), now) == Primary
      {
        PrimaryIff(cfg, h, now);
      }
      if state == Closed {
        return cfg.primary;
      }
      if state == Open {
        if now - openedAt >= cfg.coolDown {
          state := HalfOpen;
          halfOpenInFlight := true;
          return cfg.primary;
        }
        fallbackUsedCount := fallbackUsedCount + 1;
        return cfg.fallback;
      }
      if halfOpenInFlight {
        fallbackUsedCount := fallbackUsedCount + 1;
        return cfg.fallback;
      }
      halfOpenInFlight := true;
      return cfg.primary;
    }

    method RecordSuccess(modelUsed: string)
      modifies this
      ensures Look() == Succeed(cfg, old(Look()), modelUsed)
    {
      totalSuccesses := totalSuccesses + 1;
      consecutiveFailures := 0;
      if state == HalfOpen {
        state := Closed;
        halfOpenInFlight := false;
      }
      if modelUsed == cfg.fallback && state == Closed {
        fallbackUsedCount := fallbackUsedCount + 1;
      }
    }

    method RecordFailure(modelUsed: string, now: real)
      modifies this
      ensures Look() == Fail(cfg, old(Look()), now)
    {
      totalFailures := totalFailures + 1;
      consecutiveFailures := consecutiveFailures + 1;
      if state == HalfOpen {
        state := Open;
        openedAt := now;
        halfOpenInFlight := false;
        return;
      }
      if state == Closed && consecutiveFailures >= cfg.threshold {
        state := Open;
        openedAt := now;
      }
    }

    method Reset()
      modifies this
      ensures Look() == INITIAL
    {
      state := Closed;
      consecutiveFailures := 0;
      openedAt := 0.0;
      halfOpenInFlight := false;
      totalFailures := 0;
      totalSuccesses := 0;
      fallbackUsedCount := 0;
    }
  }

  // ----- runs -----

  datatype Event = Consulted(at: real) | Succeeded(at: real, model: string) | Failed(at: real)

  function Step(c: Config, v: View, e: Event): View {
    match e
    case Consulted(at) => Consult(c, v, at)
    case Succeeded(_, model) => Succeed(c, v, model)
    case Failed(at) => Fail(c, v, at)
  }

  /** The breaker after a history. */
  function Run(c: Config, h: seq<Event>): View {
    if h == [] then INITIAL else Step(c, Run(c, h[..|h| - 1]), h[|h| - 1])
  }

  ghost predicate Monotone(h: seq<Event>) {
    forall i, j :: 0 <= i < j < |h| ==> h[i].at <= h[j].at
  }

  /** How many failures were reported since the last success. */
  function FailureSuffix(h: seq<Event>): nat {
    if h == [] then 0
    else
      match h[|h| - 1]
      case Consulted(_) => FailureSuffix(h[..|h| - 1])
      case Succeeded(_, _) => 0
      case Failed(_) => FailureSuffix(h[..|h| - 1]) + 1
  }

  /** The consultation `n` of the history was answered with `g`. */
  ghost predicate Answered(c: Config, h: seq<Event>, n: nat, g: Grant) {
    n < |h| && h[n].Consulted? && Granted(c, Run(c, h[..n]), h[n].at) == g
  }

  /** The report `n` is a success of the fallback model that leaves the circuit closed. */
  ghost predicate ClosedFallbackSuccess(c: Config, h: seq<Event>, n: nat) {
    n < |h| && h[n].Succeeded? && h[n].model == c.fallback && Run(c, h[..n + 1]).state == Closed
  }

  ghost function FallbackGrants(c: Config, h: seq<Event>): set<nat> {
    set n: nat | n < |h| && Answered(c, h, n, Fallback)
  }

  ghost function ClosedFallbackSuccesses(c: Config, h: seq<Event>): set<nat> {
    set n: nat | n < |h| && ClosedFallbackSuccess(c, h, n)
  }

  function CountFailures(h: seq<Event>): nat {
    if h == [] then 0 else CountFailures(h[..|h| - 1]) + if h[|h| - 1].Failed? then 1 else 0
  }

  function CountSuccesses(h: seq<Event>): nat {
    if h == [] then 0 else CountSuccesses(h[..|h| - 1]) + if h[|h| - 1].Succeeded? then 1 else 0
  }

  /** In every reachable state: HALF_OPEN holds exactly when a probe is marked in flight, so a consultation never
      finds HALF_OPEN without one; the failure counter is the failure suffix of the reports; and it is below the
      threshold while the circuit is closed. */
  lemma {:induction false} ReachableInvariant(c: Config, h: seq<Event>)
    requires c.threshold >= 1
    ensures var v := Run(c, h);
            && (v.state == HalfOpen <==> v.probing)
            && v.failures == FailureSuffix(h)
            && (v.state == Closed ==> v.failures < c.threshold)
            && v.totalFailures + v.totalSuccesses <= |h|
  {
    if h != [] {
      ReachableInvariant(c, h[..|h| - 1]);
    }
  }

  lemma {:induction false} TotalsCount(c: Config, h: seq<Event>)
    ensures Run(c, h).totalFailures == CountFailures(h) && Run(c, h).totalSuccesses == CountSuccesses(h)
  {
    if h != [] {
      TotalsCount(c, h[..|h| - 1]);
    }
  }

  lemma OneMore(all: set<nat>, before: set<nat>, last: nat, more: bool)
    requires last !in before && (last in all <==> more) && forall n: nat :: n != last ==> (n in all <==> n in before)
    ensures |all| == |before| + if more then 1 else 0
  {
    assert all == before + if more then {last} else {};
  }

  lemma GrantBefore(c: Config, h: seq<Event>, n: nat)
    requires n < |h| - 1
    ensures Answered(c, h, n, Fallback) <==> Answered(c, h[..|h| - 1], n, Fallback)
  {
    assert h[..|h| - 1][..n] == h[..n];
  }

  lemma GrantsGrow(c: Config, h: seq<Event>)
    requires h != []
    ensures |FallbackGrants(c, h)|
         == |FallbackGrants(c, h[..|h| - 1])| + (if Answered(c, h, |h| - 1, Fallback) then 1 else 0)
  {
    var last := |h| - 1;
    var all, before := FallbackGrants(c, h), FallbackGrants(c, h[..last]);
    forall n: nat | n < last ensures n in all <==> n in before {
      GrantBefore(c, h, n);
    }
    OneMore(all, before, last, Answered(c, h, last, Fallback));
  }

  lemma SuccessBefore(c: Config, h: seq<Event>, n: nat)
    requires n < |h| - 1
    ensures ClosedFallbackSuccess(c, h, n) <==> ClosedFallbackSuccess(c, h[..|h| - 1], n)
  {
    assert h[..|h| - 1][..n + 1] == h[..n + 1];
  }

  lemma SuccessesGrow(c: Config, h: seq<Event>)
    requires h != []
    ensures |ClosedFallbackSuccesses(c, h)|
         == |ClosedFallbackSuccesses(c, h[..|h| - 1])| + (if ClosedFallbackSuccess(c, h, |h| - 1) then 1 else 0)
  {
    var last := |h| - 1;
    var all, before := ClosedFallbackSuccesses(c, h), ClosedFallbackSuccesses(c, h[..last]);
    forall n: nat | n < last ensures n in all <==> n in before {
      SuccessBefore(c, h, n);
    }
    OneMore(all, before, last, ClosedFallbackSuccess(c, h, last));
  }

  /** The fallback counter counts fallback answers and fallback successes recorded in CLOSED, nothing else. */
  lemma {:induction false} FallbackCounterIsExact(c: Config, h: seq<Event>)
    ensures Run(c, h).fallbackUsed == |FallbackGrants(c, h)| + |ClosedFallbackSuccesses(c, h)|
  {
    if h == [] {
      assert FallbackGrants(c, h) == {} && ClosedFallbackSuccesses(c, h) == {};
    } else {
      FallbackCounterIsExact(c, h[..|h| - 1]);
      GrantsGrow(c, h);
      SuccessesGrow(c, h);
      assert h[..|h| - 1 + 1] == h;
    }
  }

  // ----- probing -----

  /** The circuit is not closed anywhere after event `i` up to and including the state before event `j`. */
  ghost predicate NotClosedBetween(c: Config, h: seq<Event>, i: nat, j: nat)
    requires i < j <= |h|
  {
    forall k :: i < k <= j ==> Run(c, h[..k]).state != Closed
  }

  /** Event `i` opens the circuit, or is a probe: primary granted while the circuit is not closed. */
  ghost predicate OpensOrProbes(c: Config, h: seq<Event>, i: nat) {
    i < |h| && (Probes(c, h, i) || (Run(c, h[..i]).state != Open && Run(c, h[..i + 1]).state == Open))
  }

  ghost predicate Probes(c: Config, h: seq<Event>, i: nat) {
    Answered(c, h, i, Primary) && Run(c, h[..i]).state != Closed
  }

  lemma RunStep(c: Config, h: seq<Event>, n: nat)
    requires n < |h|
    ensures Run(c, h[..n + 1]) == Step(c, Run(c, h[..n]), h[n])
  {
    assert h[..n + 1][..n] == h[..n];
  }

  /** The circuit is probed, or was last opened at `t` or later. */
  ghost predicate OpenSince(v: View, t: real) {
    v.state == HalfOpen || (v.state == Open && v.openedAt >= t)
  }

  lemma StaysOpenSince(c: Config, v: View, e: Event, t: real)
    requires OpenSince(v, t) && e.at >= t && Step(c, v, e).state != Closed
    ensures OpenSince(Step(c, v, e), t)
  {
  }

  /** While the circuit does not close, the time of the last opening does not fall behind. */
  lemma {:induction false} OpenedAtHolds(c: Config, h: seq<Event>, i: nat, n: nat)
    requires c.threshold >= 1 && Monotone(h) && OpensOrProbes(c, h, i) && i < n <= |h| && NotClosedBetween(c, h, i, n)
    ensures OpenSince(Run(c, h[..n]), h[i].at)
    decreases n
  {
    if n > i + 1 {
      OpenedAtHolds(c, h, i, n - 1);
      RunStep(c, h, n - 1);
      StaysOpenSince(c, Run(c, h[..n - 1]), h[n - 1], h[i].at);
    } else {
      OpenedAt(c, h, i);
    }
  }

  lemma OpenedAt(c: Config, h: seq<Event>, i: nat)
    requires c.threshold >= 1 && OpensOrProbes(c, h, i) && Run(c, h[..i + 1]).state != Closed
    ensures OpenSince(Run(c, h[..i + 1]), h[i].at)
  {
    RunStep(c, h, i);
    ReachableInvariant(c, h[..i]);
  }

  /** Between an opening and the next closing primary is granted only as probes, each at least the cool-down after
      the opening and after the probe before it. */
  lemma ProbesAreSpaced(c: Config, h: seq<Event>, i: nat, j: nat)
    requires c.threshold >= 1 && Monotone(h) && OpensOrProbes(c, h, i) && i < j < |h|
    requires NotClosedBetween(c, h, i, j) && Answered(c, h, j, Primary)
    ensures Probes(c, h, j) && h[j].at - h[i].at >= c.coolDown
  {
    OpenedAtHolds(c, h, i, j);
    ReachableInvariant(c, h[..j]);
    assert Run(c, h[..j]).state != Closed;
  }

  /** Time alone never ends HALF_OPEN: until some call reports, every consultation is answered with the fallback,
      however late it comes. So probes are single, and a probe that is never reported blocks the primary until another
      call reports. */
  lemma {:induction false} ProbeIsSingle(c: Config, h: seq<Event>, i: nat, n: nat)
    requires c.threshold >= 1 && Probes(c, h, i) && i < n < |h|
    requires forall k :: i < k <= n ==> h[k].Consulted?
    ensures Run(c, h[..n]).state == HalfOpen && Answered(c, h, n, Fallback)
    decreases n
  {
    RunStep(c, h, n - 1);
    ReachableInvariant(c, h[..n]);
    if n > i + 1 {
      ProbeIsSingle(c, h, i, n - 1);
    } else {
      ReachableInvariant(c, h[..i]);
    }
  }

  /** Between two probes some call reports. */
  lemma ReportBetweenProbes(c: Config, h: seq<Event>, i: nat, j: nat)
    requires c.threshold >= 1 && Probes(c, h, i) && Probes(c, h, j) && i < j
    ensures exists k :: i < k < j && !h[k].Consulted?
  {
    if forall k :: i < k < j ==> h[k].Consulted? {
      assert h[j].Consulted?;
      ProbeIsSingle(c, h, i, j);
    }
  }

  /** One report of any kind leaves HALF_OPEN. The circuit closes exactly on a success reported in HALF_OPEN,
      whichever model it came from; it opens exactly on a failure in HALF_OPEN or at the threshold. */
  lemma ReportTransitions(c: Config, h: seq<Event>, n: nat)
    requires c.threshold >= 1 && n < |h| && !h[n].Consulted?
    ensures var before, after := Run(c, h[..n]).state, Run(c, h[..n + 1]).state;
            && after != HalfOpen
            && (before != Closed && after == Closed <==> before == HalfOpen && h[n].Succeeded?)
            && (before != Open && after == Open <==>
                  h[n].Failed? && (before == HalfOpen
                    || (before == Closed && FailureSuffix(h[..n + 1]) == c.threshold)))
  {
    RunStep(c, h, n);
    ReachableInvariant(c, h[..n]);
    ReachableInvariant(c, h[..n + 1]);
    assert h[..n + 1][..n] == h[..n];
  }

  /** A new breaker is closed, and a consultation changes the state in one case only: the circuit is open and primary is
      granted; then it is HALF_OPEN. */
  lemma ConsultTransitions(c: Config, h: seq<Event>, n: nat)
    requires c.threshold >= 1 && n < |h| && h[n].Consulted?
    ensures Run(c, []).state == Closed
    ensures var before, after := Run(c, h[..n]).state, Run(c, h[..n + 1]).state;
            if before == Open && PrimaryDue(c, h[..n], h[n].at) then after == HalfOpen else after == before
  {
    RunStep(c, h, n);
    ReachableInvariant(c, h[..n]);
    PrimaryIff(c, h[..n], h[n].at);
  }

  // ----- what a consultation answers -----

  /** Event `i` opened the circuit, and it has been open ever since. */
  ghost predicate OpenedBy(c: Config, h: seq<Event>, i: nat) {
    i < |h| && Run(c, h[..i]).state != Open && forall k :: i < k <= |h| ==> Run(c, h[..k]).state == Open
  }

  /** Primary is due: the circuit is closed, or it is open and the cool-down has passed since it was opened. */
  ghost predicate PrimaryDue(c: Config, h: seq<Event>, now: real) {
    Run(c, h).state == Closed || exists i: nat :: OpenedBy(c, h, i) && now - h[i].at >= c.coolDown
  }

  /** An open circuit was opened by a failure, at the time it remembers. */
  lemma {:induction false} OpenSinceEvent(c: Config, h: seq<Event>) returns (i: nat)
    requires c.threshold >= 1 && Run(c, h).state == Open
    ensures OpenedBy(c, h, i) && h[i].Failed? && Run(c, h).openedAt == h[i].at
    decreases |h|
  {
    var n := |h| - 1;
    var front := h[..n];
    assert h[..|h|] == h;
    if Run(c, front).state == Open {
      i := OpenSinceEvent(c, front);
      assert front[..i] == h[..i];
      forall k | i < k <= |h| ensures Run(c, h[..k]).state == Open {
        if k <= n {
          assert front[..k] == h[..k];
        }
      }
    } else {
      i := n;
      ReachableInvariant(c, front);
    }
  }

  lemma OpenedByOne(c: Config, h: seq<Event>, i: nat, j: nat)
    requires OpenedBy(c, h, i) && OpenedBy(c, h, j)
    ensures i == j
  {
    if i < j {
      OpenBehind(c, h, i, j);
    } else if j < i {
      OpenBehind(c, h, j, i);
    }
  }

  lemma OpenBehind(c: Config, h: seq<Event>, i: nat, k: nat)
    requires OpenedBy(c, h, i) && i < k <= |h|
    ensures Run(c, h[..k]).state == Open
  {
  }

  /** Exactly when primary is granted, over every history: when the circuit is closed, or open with the cool-down over
      since the failure that opened it. In HALF_OPEN it never is. */
  lemma PrimaryIff(c: Config, h: seq<Event>, now: real)
    requires c.threshold >= 1
    ensures Granted(c, Run(c, h), now) == Primary <==> PrimaryDue(c, h, now)
  {
    ReachableInvariant(c, h);
    assert h[..|h|] == h;
    if Run(c, h).state == Open {
      var i := OpenSinceEvent(c, h);
      forall j: nat | OpenedBy(c, h, j) ensures j == i {
        OpenedByOne(c, h, i, j);
      }
    }
  }

  function Failures(n: nat): seq<Event> {
    seq(n, _ => Failed(0.0))
  }

  lemma {:induction false} FailuresOpen(c: Config, n: nat)
    requires n <= c.threshold && c.threshold >= 1
    ensures var v := Run(c, Failures(n));
            v.failures == n && v.state == (if n < c.threshold then Closed else Open)
            && (n == c.threshold ==> v.openedAt == 0.0)
    decreases n
  {
    if n > 0 {
      FailuresOpen(c, n - 1);
      assert Failures(n)[..n - 1] == Failures(n - 1);
    }
  }

  lemma RunMore(c: Config, h: seq<Event>, e: Event)
    ensures Run(c, h + [e]) == Step(c, Run(c, h), e)
  {
    assert (h + [e])[..|h|] == h;
  }

  /** The documented rule that HALF_OPEN closes when its probe succeeds is not what the code keeps, whatever the
      threshold: a fallback call begun while the circuit was open closes it by succeeding during the probe, with the
      probe still unreported. */
  lemma FallbackSuccessCloses(c: Config)
    requires c.threshold >= 1 && c.coolDown > 0.0
    ensures var broken := Failures(c.threshold);
            var asked := broken + [Consulted(0.0)];
            var probed := asked + [Consulted(c.coolDown)];
            && Granted(c, Run(c, broken), 0.0) == Fallback
            && Granted(c, Run(c, asked), c.coolDown) == Primary && Run(c, probed).state == HalfOpen
            && Run(c, probed + [Succeeded(c.coolDown, c.fallback)]).state == Closed
  {
    var broken := Failures(c.threshold);
    var asked := broken + [Consulted(0.0)];
    var probed := asked + [Consulted(c.coolDown)];
    FailuresOpen(c, c.threshold);
    RunMore(c, broken, Consulted(0.0));
    RunMore(c, asked, Consulted(c.coolDown));
    RunMore(c, probed, Succeeded(c.coolDown, c.fallback));
  }
}
