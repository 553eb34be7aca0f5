/** The client around the breaker: `complete` split at its await into the part that picks the model and the part
    that reports. Any number of calls may be between the two. */
module LlmClient {
  import opened Wrappers
  import opened CircuitBreaker

  /** What came back for a call: no usable response, a response whose body cannot be read, or an answer, which may
      name the model that gave it. */
  datatype Outcome = TransportError | BadBody | Answer(model: Option<string>)

  /** The report a call makes: a body that cannot be read raises past both reporting lines. */
  function ReportOf(target: string, outcome: Outcome, now: real): Option<Event> {
    match outcome
    case TransportError => Some(Failed(now))
    case BadBody => None
    case Answer(model) => Some(Succeeded(now, if model.Some? then model.value else target))
  }

  class Client {
    const breaker: Breaker
    constructor (breaker: Breaker)
      ensures this.breaker == breaker
    {
      this.breaker := breaker;
    }

    method Begin(override: Option<string>, now: real) returns (target: string)
      modifies breaker
      ensures override.Some? ==> target == override.value && breaker.Look() == old(breaker.Look())
      ensures override.None? ==> breaker.Look() == Consult(breaker.cfg, old(breaker.Look()), now)
      ensures override.None? ==> target == TargetOf(breaker.cfg, old(breaker.Look()), now)
      ensures override.None? && breaker.cfg.threshold >= 1 ==>
                forall h :: Run(breaker.cfg, h) == old(breaker.Look()) ==>
                  target == if PrimaryDue(breaker.cfg, h, now) then breaker.cfg.primary else breaker.cfg.fallback
    {
      if override.Some? {
        return override.value;
      }
      target := breaker.ModelToCall(now);
    }

    method Finish(target: string, outcome: Outcome, now: real)
      modifies breaker
      ensures var e := ReportOf(target, outcome, now);
              breaker.Look() == (if e.Some? then Step(breaker.cfg, old(breaker.Look()), e.value)
                                 else old(breaker.Look()))
      ensures match outcome
              case TransportError => breaker.Look() == Fail(breaker.cfg, old(breaker.Look()), now)
              case BadBody => breaker.Look() == old(breaker.Look())
              case Answer(None) => breaker.Look() == Succeed(breaker.cfg, old(breaker.Look()), target)
              case Answer(Some(model)) => breaker.Look() == Succeed(breaker.cfg, old(breaker.Look()), model)
    {
      match outcome
      case TransportError => breaker.RecordFailure(target, now);
      case BadBody =>
      case Answer(model) => breaker.RecordSuccess(if model.Some? then model.value else target);
    }
  }

  function TargetOf(c: Config, v: View, now: real): string {
    if Granted(c, v, now) == Primary then c.primary else c.fallback
  }

  // ----- interleavings -----

  /** One turn of the event loop: a call picks its model, or a call in flight gets its outcome. */
  datatype Turn = Begins(call: nat, override: Option<string>, at: real) | Ends(call: nat, outcome: Outcome, at: real)

  /** Calls waiting for their response, every call begun, and the breaker events with the call that caused each. */
  datatype World = World(inFlight: map<nat, string>, begun: set<nat>, log: seq<(nat, Event)>)

  function Events(log: seq<(nat, Event)>): seq<Event> {
    seq(|log|, i requires 0 <= i < |log| => log[i].1)
  }

  /** A call begins once, and ends only while in flight; other turns do not happen. */
  function Turned(c: Config, w: World, t: Turn): World {
    match t
    case Begins(call, override, at) =>
      if call in w.begun then w
      else if override.Some? then World(w.inFlight[call := override.value], w.begun + {call}, w.log)
      else World(w.inFlight[call := TargetOf(c, Run(c, Events(w.log)), at)], w.begun + {call},
                 w.log + [(call, Consulted(at))])
    case Ends(call, outcome, at) =>
      if call !in w.inFlight then w
      else
        var e := ReportOf(w.inFlight[call], outcome, at);
        World(w.inFlight - {call}, w.begun, if e.Some? then w.log + [(call, e.value)] else w.log)
  }

  function Turns(c: Config, ts: seq<Turn>): World {
    if ts == [] then World(map[], {}, []) else Turned(c, Turns(c, ts[..|ts| - 1]), ts[|ts| - 1])
  }

  /** Two breaker events of one call are its consultation and, later, its report. */
  ghost predicate ConsultsThenReports(log: seq<(nat, Event)>, i: nat, j: nat)
    requires i < j < |log|
  {
    log[i].0 == log[j].0 ==> log[i].1.Consulted? && !log[j].1.Consulted?
  }

  /** Over every interleaving a call consults at most once and reports at most once, never before it consulted, and
      not at all while it is in flight. */
  lemma {:induction false} ReportsAtMostOnce(c: Config, ts: seq<Turn>)
    ensures var w := Turns(c, ts);
            && w.inFlight.Keys <= w.begun
            && (forall i :: 0 <= i < |w.log| ==> w.log[i].0 in w.begun)
            && (forall i :: 0 <= i < |w.log| && w.log[i].0 in w.inFlight ==> w.log[i].1.Consulted?)
            && (forall i, j :: 0 <= i < j < |w.log| ==> ConsultsThenReports(w.log, i, j))
  {
    if ts != [] {
      ReportsAtMostOnce(c, ts[..|ts| - 1]);
      var before, w := Turns(c, ts[..|ts| - 1]), Turns(c, ts);
      forall i, j | 0 <= i < j < |w.log| ensures ConsultsThenReports(w.log, i, j) {
        if j < |before.log| {
          assert ConsultsThenReports(before.log, i, j);
        } else {
          assert w.log[i] == before.log[i];
        }
      }
    }
  }

  // ----- whose report closes the circuit -----

  function Onward(c: Config, w: World, ts: seq<Turn>): World {
    if ts == [] then w else Turned(c, Onward(c, w, ts[..|ts| - 1]), ts[|ts| - 1])
  }

  function StateAt(c: Config, log: seq<(nat, Event)>): State {
    Run(c, Events(log)).state
  }

  lemma EventsMore(log: seq<(nat, Event)>, e: (nat, Event))
    ensures Events(log + [e]) == Events(log) + [e.1]
  {
  }

  lemma LogMore(c: Config, log: seq<(nat, Event)>, e: (nat, Event))
    ensures Run(c, Events(log + [e])) == Step(c, Run(c, Events(log)), e.1)
  {
    EventsMore(log, e);
    RunMore(c, Events(log), e.1);
  }

  /** The call whose consultation turned the circuit to HALF_OPEN, while it is there. */
  function Prober(c: Config, log: seq<(nat, Event)>): Option<nat> {
    if log == [] || StateAt(c, log) != HalfOpen then None
    else if StateAt(c, log[..|log| - 1]) != HalfOpen then Some(log[|log| - 1].0)
    else Prober(c, log[..|log| - 1])
  }

  /** In HALF_OPEN there always is one: the call of the last consultation that was granted primary as a probe. */
  lemma {:induction false} ProberAsked(c: Config, log: seq<(nat, Event)>) returns (i: nat)
    requires c.threshold >= 1 && StateAt(c, log) == HalfOpen
    ensures i < |log| && Prober(c, log) == Some(log[i].0) && Probes(c, Events(log), i)
    ensures forall k :: i < k < |log| ==> log[k].1.Consulted?
    decreases |log|
  {
    var n := |log| - 1;
    var front := log[..n];
    assert log == front + [log[n]];
    LogMore(c, front, log[n]);
    EventsMore(front, log[n]);
    ReachableInvariant(c, Events(front));
    if StateAt(c, front) == HalfOpen {
      i := ProberAsked(c, front);
      assert Events(log)[..i] == Events(front)[..i];
    } else {
      i := n;
      assert Events(log)[..n] == Events(front);
    }
  }

  /** Event `n` closes the circuit from HALF_OPEN. */
  ghost predicate Closes(c: Config, log: seq<(nat, Event)>, n: nat) {
    n < |log| && StateAt(c, log[..n]) == HalfOpen && StateAt(c, log[..n + 1]) == Closed
  }

  /** Whatever closes the circuit after `w` is the probe's own report. */
  ghost predicate ClosedByProbe(c: Config, w: World, ts: seq<Turn>) {
    var log := Onward(c, w, ts).log;
    forall n :: |w.log| <= n < |log| && Closes(c, log, n) ==> Prober(c, log[..n]) == Some(log[n].0)
  }

  ghost predicate NoBegins(ts: seq<Turn>) {
    forall i :: 0 <= i < |ts| ==> ts[i].Ends?
  }

  /** Without new calls, only calls in flight report, and the log grows by reports alone. */
  lemma {:induction false} OnlyReports(c: Config, w: World, ts: seq<Turn>)
    requires NoBegins(ts)
    ensures var v := Onward(c, w, ts);
            && w.log <= v.log && v.inFlight.Keys <= w.inFlight.Keys
            && forall n :: |w.log| <= n < |v.log| ==> v.log[n].0 in w.inFlight && !v.log[n].1.Consulted?
    decreases |ts|
  {
    if ts != [] {
      OnlyReports(c, w, ts[..|ts| - 1]);
    }
  }

  /** The circuit is never in HALF_OPEN right after a report. */
  lemma ReportsLeave(c: Config, log: seq<(nat, Event)>, n: nat)
    requires c.threshold >= 1 && n < |log| && !log[n].1.Consulted?
    ensures StateAt(c, log[..n + 1]) != HalfOpen
  {
    var front := log[..n];
    assert log[..n + 1] == front + [log[n]];
    LogMore(c, front, log[n]);
    ReachableInvariant(c, Events(front));
  }

  lemma OnlyFirst(c: Config, log: seq<(nat, Event)>, m: nat, n: nat)
    requires c.threshold >= 1 && m <= n <= |log| && forall i :: m <= i < |log| ==> !log[i].1.Consulted?
    ensures n > m ==> StateAt(c, log[..n]) != HalfOpen
  {
    if n > m {
      ReportsLeave(c, log, n - 1);
    }
  }

  /** Exactly when a probe decides: as long as no new call begins, the circuit can only be closed by the probe's own
      report if and only if no other call is in flight. */
  lemma ProbeDecidesIff(c: Config, w: World)
    requires c.threshold >= 1 && StateAt(c, w.log) == HalfOpen
    ensures Prober(c, w.log).Some?
    ensures (forall ts | NoBegins(ts) :: ClosedByProbe(c, w, ts)) <==> w.inFlight.Keys <= {Prober(c, w.log).value}
  {
    var _ := ProberAsked(c, w.log);
    var p := Prober(c, w.log).value;
    if w.inFlight.Keys <= {p} {
      forall ts | NoBegins(ts) ensures ClosedByProbe(c, w, ts) {
        AloneDecides(c, w, ts);
      }
    } else {
      var q :| q in w.inFlight && q != p;
      OtherCloses(c, w, q);
      assert NoBegins([Ends(q, Answer(None), 0.0)]);
    }
  }

  lemma AloneDecides(c: Config, w: World, ts: seq<Turn>)
    requires c.threshold >= 1 && StateAt(c, w.log) == HalfOpen && Prober(c, w.log).Some?
    requires NoBegins(ts) && w.inFlight.Keys <= {Prober(c, w.log).value}
    ensures ClosedByProbe(c, w, ts)
  {
    OnlyReports(c, w, ts);
    var log := Onward(c, w, ts).log;
    forall n | |w.log| <= n < |log| && Closes(c, log, n) ensures Prober(c, log[..n]) == Some(log[n].0) {
      OnlyFirst(c, log, |w.log|, n);
      assert log[..n] == w.log;
    }
  }

  lemma OtherCloses(c: Config, w: World, q: nat)
    requires c.threshold >= 1 && StateAt(c, w.log) == HalfOpen && q in w.inFlight && Prober(c, w.log) != Some(q)
    ensures !ClosedByProbe(c, w, [Ends(q, Answer(None), 0.0)])
  {
    var turn, e := Ends(q, Answer(None), 0.0), (q, Succeeded(0.0, w.inFlight[q]));
    var log := w.log + [e];
    assert [turn][..0] == [];
    assert Onward(c, w, [turn]) == Turned(c, w, turn);
    assert Onward(c, w, [turn]).log == log;
    LogMore(c, w.log, e);
    assert log[..|w.log|] == w.log && log[..|w.log| + 1] == log;
    assert Closes(c, log, |w.log|);
  }

  lemma {:induction false} FreshCall(calls: set<nat>) returns (q: nat)
    ensures forall x :: x in calls ==> x < q
    decreases |calls|
  {
    if calls == {} {
      q := 0;
    } else {
      var x :| x in calls;
      var r := FreshCall(calls - {x});
      q := if x < r then r else x + 1;
      forall y | y in calls ensures y < q {
        if y != x {
          assert y in calls - {x};
        }
      }
    }
  }

  /** And that no new call begins matters: from every reachable HALF_OPEN, whoever is in flight, one more call gets the
      fallback and closes the circuit by succeeding, though the probe has not reported. */
  lemma AnyCallMayClose(c: Config, ts: seq<Turn>, at: real)
    requires c.threshold >= 1 && StateAt(c, Turns(c, ts).log) == HalfOpen
    ensures exists q ::
              && q !in Turns(c, ts).begun && Prober(c, Turns(c, ts).log) != Some(q)
              && Turned(c, Turns(c, ts), Begins(q, None, at)).inFlight == Turns(c, ts).inFlight[q := c.fallback]
              && StateAt(c, Onward(c, Turns(c, ts), [Begins(q, None, at), Ends(q, Answer(None), at)]).log) == Closed
  {
    var w := Turns(c, ts);
    var p := Prober(c, w.log);
    var q := FreshCall(w.begun + if p.Some? then {p.value} else {});
    ReachableInvariant(c, Events(w.log));
    var begun := Turned(c, w, Begins(q, None, at));
    LogMore(c, w.log, (q, Consulted(at)));
    assert begun.log == w.log + [(q, Consulted(at))];
    assert begun.inFlight == w.inFlight[q := c.fallback];
    var turns := [Begins(q, None, at), Ends(q, Answer(None), at)];
    assert turns[..1][..0] == [] && turns[..1] == [Begins(q, None, at)];
    assert Onward(c, w, turns[..1]) == begun;
    LogMore(c, begun.log, (q, Succeeded(at, c.fallback)));
    assert Onward(c, w, turns).log == begun.log + [(q, Succeeded(at, c.fallback))];
  }
}
