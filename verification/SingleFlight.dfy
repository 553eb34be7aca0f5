/** The token refresh of the browser client: requests that come back unauthorized share one refresh. The client runs on
    an event loop, so a step is what happens between two awaits, and steps of different requests interleave freely. */
module SingleFlight {
  import opened Wrappers

  /** One call of the refresh endpoint: the token it submitted, and whether it succeeded once it has ended. */
  datatype Flight = Flight(submitted: string, outcome: Option<bool>)

  /** A request that waited for flight `flight` and was told `refreshed`. */
  datatype Answer = Answer(caller: nat, flight: nat, refreshed: bool)

  /** The module variables of the client; what it has sent (`flights`), who waits for which flight, what the waiting
      requests were told; and every refresh token that the server has issued. */
  datatype State = State(
    access: Option<string>,
    refresh: Option<string>,
    inFlight: Option<nat>,
    flights: seq<Flight>,
    waiting: map<nat, nat>,
    answers: seq<Answer>,
    issued: set<string>)

  datatype Event =
    | Unauthorized(caller: nat, skipRefresh: bool, onAuthPath: bool)
    | RefreshOk(flight: nat, access: string, refresh: string)
    | RefreshFails(flight: nat)
    | Resume(caller: nat)
    | Login(access: string, refresh: string)
    | Logout

  predicate Truthy(token: Option<string>) {
    token.Some? && token.value != ""
  }

  predicate Pending(s: State, f: nat) {
    f < |s.flights| && s.flights[f].outcome.None?
  }

  // ----- the steps -----

  /** `refreshOnce` up to its first await. Without a token the flight ends at once, and because the variable is reset
      before it is set, it would stay set for good. */
  function RefreshStarted(s: State): State {
    if s.inFlight.Some? then s
    else
      var flight := if Truthy(s.refresh) then Flight(s.refresh.value, None) else Flight("", Some(false));
      s.(flights := s.flights + [flight], inFlight := Some(|s.flights|))
  }

  function Ended(s: State, f: nat, ok: bool): State
    requires f < |s.flights|
  {
    s.(flights := s.flights[f := s.flights[f].(outcome := Some(ok))], inFlight := None)
  }

  function Next(s: State, e: Event): State {
    match e
    case Unauthorized(c, skipRefresh, onAuthPath) =>
      if !skipRefresh && Truthy(s.refresh) && !onAuthPath && c !in s.waiting then
        var started := RefreshStarted(s);
        if started.inFlight.Some? then started.(waiting := s.waiting[c := started.inFlight.value]) else started
      else s
    case RefreshOk(f, access, refresh) =>
      if Pending(s, f) then
        Ended(s, f, true).(access := Some(access), refresh := Some(refresh), issued := s.issued + {refresh})
      else s
    case RefreshFails(f) =>
      if Pending(s, f) then Ended(s, f, false).(access := None, refresh := None) else s
    case Resume(c) =>
      if c in s.waiting && s.waiting[c] < |s.flights| && s.flights[s.waiting[c]].outcome.Some? then
        s.(waiting := s.waiting - {c},
           answers := s.answers + [Answer(c, s.waiting[c], s.flights[s.waiting[c]].outcome.value)])
      else s
    case Login(access, refresh) =>
      s.(access := Some(access), refresh := Some(refresh), issued := s.issued + {refresh})
    case Logout => s.(access := None, refresh := None)
  }

  function Run(s: State, es: seq<Event>): State {
    if es == [] then s else Next(Run(s, es[..|es| - 1]), es[|es| - 1])
  }

  function Start(refresh: Option<string>): State {
    State(None, refresh, None, [], map[], [], if refresh.Some? then {refresh.value} else {})
  }

  // ----- the client -----

  class Client {
    var accessToken: Option<string>
    var refreshToken: Option<string>
    var refreshInFlight: Option<nat>
    var flights: seq<Flight>
    var waiting: map<nat, nat>
    var answers: seq<Answer>
    var issued: set<string>

    ghost function View(): State
      reads this
    {
      State(accessToken, refreshToken, refreshInFlight, flights, waiting, answers, issued)
    }

    constructor (refresh: Option<string>)
      ensures View() == Start(refresh)
    {
      accessToken, refreshToken, refreshInFlight := None, refresh, None;
      flights, waiting, answers := [], map[], [];
      issued := if refresh.Some? then {refresh.value} else {};
    }

    /** The inner function runs up to its first await before its promise is stored; when it returns early, its
        `finally` has already reset the variable by then. */
    method RefreshOnce() returns (flight: nat)
      modifies this`refreshInFlight, this`flights
      ensures View() == RefreshStarted(old(View()))
      ensures refreshInFlight == Some(flight)
    {
      if refreshInFlight.Some? {
        return refreshInFlight.value;
      }
      flight := |flights|;
      if !Truthy(refreshToken) {
        flights := flights + [Flight("", Some(false))];
        refreshInFlight := None;
      } else {
        flights := flights + [Flight(refreshToken.value, None)];
      }
      refreshInFlight := Some(flight);
    }

    /** The 401 branch of `doFetch`; the request either waits for a flight or reports its 401. */
    method OnUnauthorized(caller: nat, skipRefresh: bool, onAuthPath: bool) returns (waits: bool)
      requires caller !in waiting
      modifies this
      ensures View() == Next(old(View()), Unauthorized(caller, skipRefresh, onAuthPath))
      ensures waits <==> caller in waiting
    {
      waits := !skipRefresh && Truthy(refreshToken) && !onAuthPath;
      if waits {
        var flight := RefreshOnce();
        waiting := waiting[caller := flight];
      }
    }

    /** A waiting request goes on once its flight has ended: it retries, or reports its 401. */
    method OnResume(caller: nat) returns (refreshed: bool)
      requires caller in waiting && waiting[caller] < |flights| && flights[waiting[caller]].outcome.Some?
      modifies this
      ensures View() == Next(old(View()), Resume(caller))
      ensures Some(refreshed) == flights[old(waiting[caller])].outcome
    {
      refreshed := flights[waiting[caller]].outcome.value;
      answers := answers + [Answer(caller, waiting[caller], refreshed)];
      waiting := waiting - {caller};
    }

    method OnRefreshOk(flight: nat, access: string, refresh: string)
      requires Pending(View(), flight)
      modifies this
      ensures View() == Next(old(View()), RefreshOk(flight, access, refresh))
    {
      issued := issued + {refresh};
      accessToken := Some(access);
      refreshToken := Some(refresh);
      flights := flights[flight := flights[flight].(outcome := Some(true))];
      refreshInFlight := None;
    }

    method OnRefreshFails(flight: nat)
      requires Pending(View(), flight)
      modifies this
      ensures View() == Next(old(View()), RefreshFails(flight))
    {
      accessToken, refreshToken := None, None;
      flights := flights[flight := flights[flight].(outcome := Some(false))];
      refreshInFlight := None;
    }

    method OnLogin(access: string, refresh: string)
      modifies this
      ensures View() == Next(old(View()), Login(access, refresh))
    {
      issued := issued + {refresh};
      accessToken := Some(access);
      refreshToken := Some(refresh);
    }

    method OnLogout()
      modifies this
      ensures View() == Next(old(View()), Logout)
    {
      accessToken, refreshToken := None, None;
    }
  }

  // ----- what every run keeps -----

  /** The server never issues a refresh token twice. */
  ghost predicate Fresh(s: State, e: Event) {
    match e
    case RefreshOk(f, _, refresh) => Pending(s, f) ==> refresh !in s.issued
    case Login(_, refresh) => refresh !in s.issued
    case _ => true
  }

  ghost predicate AllFresh(s: State, es: seq<Event>) {
    es == [] || (AllFresh(s, es[..|es| - 1]) && Fresh(Run(s, es[..|es| - 1]), es[|es| - 1]))
  }

  /** The variable is set exactly while a refresh request is under way. */
  ghost predicate OneFlight(s: State) {
    && (s.inFlight.Some? ==> Pending(s, s.inFlight.value))
    && (forall f :: 0 <= f < |s.flights| && s.flights[f].outcome.None? ==> s.inFlight == Some(f))
  }

  /** A submitted token was issued; it is still held at most while its own flight is under way. */
  ghost predicate TokensSpent(s: State) {
    && (s.refresh.Some? ==> s.refresh.value in s.issued)
    && (forall f :: 0 <= f < |s.flights| ==> s.flights[f].submitted in s.issued)
    && (forall f :: 0 <= f < |s.flights| && s.refresh == Some(s.flights[f].submitted) ==> s.flights[f].outcome.None?)
  }

  ghost predicate SubmittedOnce(s: State) {
    forall f, g :: 0 <= f < g < |s.flights| ==> s.flights[f].submitted != s.flights[g].submitted
  }

  /** Everyone who waits does so for a flight, and everyone answered was told how theirs ended. */
  ghost predicate Answered(s: State) {
    && (forall c :: c in s.waiting ==> s.waiting[c] < |s.flights|)
    && (forall i :: 0 <= i < |s.answers| ==>
          s.answers[i].flight < |s.flights| && s.flights[s.answers[i].flight].outcome == Some(s.answers[i].refreshed))
  }

  lemma StepKeepsOneFlight(s: State, e: Event)
    requires OneFlight(s)
    ensures OneFlight(Next(s, e))
  {
  }

  lemma StepKeepsAnswered(s: State, e: Event)
    requires OneFlight(s) && Answered(s)
    ensures Answered(Next(s, e))
  {
  }

  lemma StepKeepsTokens(s: State, e: Event)
    requires OneFlight(s) && TokensSpent(s) && SubmittedOnce(s) && Fresh(s, e)
    ensures TokensSpent(Next(s, e)) && SubmittedOnce(Next(s, e))
  {
  }

  /** In every run, whatever the interleaving: at most one refresh is under way and the variable says which; everyone
      answered was told how the flight they waited for ended. */
  lemma {:induction false} EveryRun(refresh: Option<string>, es: seq<Event>)
    ensures var s := Run(Start(refresh), es); OneFlight(s) && Answered(s)
    decreases |es|
  {
    if es != [] {
      EveryRun(refresh, es[..|es| - 1]);
      StepKeepsOneFlight(Run(Start(refresh), es[..|es| - 1]), es[|es| - 1]);
      StepKeepsAnswered(Run(Start(refresh), es[..|es| - 1]), es[|es| - 1]);
    }
  }

  /** With a server that issues fresh tokens no refresh token is ever submitted twice. */
  lemma {:induction false} NoTokenTwice(refresh: Option<string>, es: seq<Event>)
    requires AllFresh(Start(refresh), es)
    ensures var s := Run(Start(refresh), es); TokensSpent(s) && SubmittedOnce(s)
    decreases |es|
  {
    if es != [] {
      EveryRun(refresh, es[..|es| - 1]);
      NoTokenTwice(refresh, es[..|es| - 1]);
      StepKeepsTokens(Run(Start(refresh), es[..|es| - 1]), es[|es| - 1]);
    }
  }

  /** A request that is refused while a refresh is under way sends nothing and waits for that one; requests that waited
      for the same flight are told the same. */
  lemma CallersShare(refresh: Option<string>, es: seq<Event>, c: nat, i: nat, j: nat)
    ensures var s := Run(Start(refresh), es);
            var s' := Next(s, Unauthorized(c, false, false));
            s.inFlight.Some? && Truthy(s.refresh) && c !in s.waiting ==>
              s'.flights == s.flights && s'.waiting[c] == s.inFlight.value
    ensures var a := Run(Start(refresh), es).answers;
            i < |a| && j < |a| && a[i].flight == a[j].flight ==> a[i].refreshed == a[j].refreshed
  {
    EveryRun(refresh, es);
  }

  // ----- the early return -----

  lemma {:induction false} StuckForGood(s: State, es: seq<Event>)
    requires s.inFlight.Some? && forall f :: 0 <= f < |s.flights| ==> s.flights[f].outcome.Some?
    ensures Run(s, es).inFlight == s.inFlight && Run(s, es).flights == s.flights
    decreases |es|
  {
    if es != [] {
      StuckForGood(s, es[..|es| - 1]);
    }
  }

  /** `refreshOnce` is safe exactly when a token is held or a refresh is under way. Otherwise it leaves the variable set
      to a refresh that has already failed, and no later refresh is ever sent. `doFetch` checks for a token first, so
      no run comes to that. */
  lemma NeedsToken(s: State)
    requires OneFlight(s)
    ensures OneFlight(RefreshStarted(s)) <==> Truthy(s.refresh) || s.inFlight.Some?
    ensures !OneFlight(RefreshStarted(s)) ==>
              forall es :: Run(RefreshStarted(s), es).flights == RefreshStarted(s).flights
  {
    var t := RefreshStarted(s);
    if !Truthy(s.refresh) && s.inFlight.None? {
      assert t.flights[|s.flights|] == Flight("", Some(false));
      forall es ensures Run(t, es).flights == t.flights {
        StuckForGood(t, es);
      }
    }
  }

  // ----- logging out -----

  ghost predicate NoLogin(es: seq<Event>) {
    forall i :: 0 <= i < |es| ==> !es[i].Login?
  }

  ghost predicate LoggedOut(s: State) {
    s.access.None? && s.refresh.None?
  }

  lemma {:induction false} StaysLoggedOut(s: State, es: seq<Event>)
    requires OneFlight(s) && LoggedOut(s) && s.inFlight.None? && NoLogin(es)
    ensures var t := Run(s, es); OneFlight(t) && LoggedOut(t) && t.inFlight.None?
    decreases |es|
  {
    if es != [] {
      StaysLoggedOut(s, es[..|es| - 1]);
      StepKeepsOneFlight(Run(s, es[..|es| - 1]), es[|es| - 1]);
    }
  }

  /** After a logout the client stays logged out until the next login exactly when no refresh was under way: one that
      is answered later sets both tokens again. */
  lemma LogoutHolds(s: State)
    requires OneFlight(s)
    ensures (forall es | NoLogin(es) :: LoggedOut(Run(Next(s, Logout), es))) <==> s.inFlight.None?
  {
    var out := Next(s, Logout);
    if s.inFlight.None? {
      forall es | NoLogin(es) ensures LoggedOut(Run(out, es)) {
        StaysLoggedOut(out, es);
      }
    } else {
      var es := [RefreshOk(s.inFlight.value, "a", "r")];
      assert es[..0] == [];
      assert Run(out, es) == Next(out, es[0]);
      assert NoLogin(es);
      assert !LoggedOut(Run(out, es));
    }
  }

  // ----- logging in -----

  ghost predicate NoSession(es: seq<Event>) {
    forall i :: 0 <= i < |es| ==> !es[i].Login? && !es[i].Logout?
  }

  /** A flight from `n` on submitted this refresh token and has ended. */
  ghost predicate Spent(s: State, n: nat, refresh: string) {
    exists f :: n <= f < |s.flights| && s.flights[f].submitted == refresh && s.flights[f].outcome.Some?
  }

  ghost predicate Holds(s: State, access: string, refresh: string) {
    s.access == Some(access) && s.refresh == Some(refresh)
  }

  /** The tokens of the login are held, and the refresh under way, if any, is of them; or a refresh of them has
      ended. */
  ghost predicate OwnTokens(s: State, n: nat, access: string, refresh: string) {
    || Spent(s, n, refresh)
    || (Holds(s, access, refresh) && forall f: nat :: Pending(s, f) ==> n <= f && s.flights[f].submitted == refresh)
  }

  lemma StepKeepsOwnTokens(s: State, n: nat, access: string, refresh: string, e: Event)
    requires OneFlight(s) && n <= |s.flights| && OwnTokens(s, n, access, refresh) && !e.Login? && !e.Logout?
    ensures n <= |Next(s, e).flights| && OwnTokens(Next(s, e), n, access, refresh)
  {
    var t := Next(s, e);
    if Spent(s, n, refresh) {
      var f :| n <= f < |s.flights| && s.flights[f].submitted == refresh && s.flights[f].outcome.Some?;
      assert t.flights[f].submitted == refresh && t.flights[f].outcome.Some?;
    } else if e.RefreshOk? || e.RefreshFails? {
      if Pending(s, e.flight) {
        assert t.flights[e.flight].submitted == refresh && t.flights[e.flight].outcome.Some?;
      }
    }
  }

  lemma {:induction false} RunKeepsOwnTokens(s: State, n: nat, access: string, refresh: string, es: seq<Event>)
    requires OneFlight(s) && n <= |s.flights| && OwnTokens(s, n, access, refresh) && NoSession(es)
    ensures var t := Run(s, es); OneFlight(t) && n <= |t.flights| && OwnTokens(t, n, access, refresh)
    decreases |es|
  {
    if es != [] {
      var front, e := es[..|es| - 1], es[|es| - 1];
      RunKeepsOwnTokens(s, n, access, refresh, front);
      StepKeepsOneFlight(Run(s, front), e);
      StepKeepsOwnTokens(Run(s, front), n, access, refresh, e);
    }
  }

  /** The tokens of this login are held until a refresh that submitted them ends, however the session goes on. */
  ghost predicate LoginLasts(s: State, access: string, refresh: string) {
    forall es | NoSession(es) ::
      var t := Run(Next(s, Login(access, refresh)), es); Holds(t, access, refresh) || Spent(t, |s.flights|, refresh)
  }

  /** A login lasts if and only if no refresh was under way: one that is answered later wipes its tokens by failing, or
      replaces them with those of the session before. */
  lemma LoginHolds(s: State, access: string, refresh: string)
    requires OneFlight(s)
    ensures LoginLasts(s, access, refresh) <==> s.inFlight.None?
  {
    var out := Next(s, Login(access, refresh));
    if s.inFlight.None? {
      forall es | NoSession(es)
        ensures var t := Run(out, es); Holds(t, access, refresh) || Spent(t, |s.flights|, refresh)
      {
        RunKeepsOwnTokens(out, |s.flights|, access, refresh, es);
      }
    } else {
      var es := [RefreshFails(s.inFlight.value)];
      assert es[..0] == [];
      assert Run(out, es) == Next(out, es[0]);
      assert NoSession(es);
      assert !Holds(Run(out, es), access, refresh) && |Run(out, es).flights| == |s.flights|;
      assert !Spent(Run(out, es), |s.flights|, refresh);
    }
  }

  // ----- what each step comes to -----

  ghost predicate Holding(s: State, token: string) {
    s.refresh == Some(token) && token != ""
  }

  /** A request that is refused starts a refresh with the token held, and waits for it, exactly when a token is held,
      none is under way, and the request is not one that must not refresh; the tokens stay. */
  lemma RefusalSends(s: State, caller: nat, skipRefresh: bool, onAuthPath: bool, token: string)
    requires OneFlight(s) && s.inFlight.None? && Holding(s, token) && caller !in s.waiting
    ensures var t := Next(s, Unauthorized(caller, skipRefresh, onAuthPath));
            if skipRefresh || onAuthPath then t == s
            else
              && t.flights == s.flights + [Flight(token, None)] && t.inFlight == Some(|s.flights|)
              && t.waiting == s.waiting[caller := |s.flights|]
              && t.access == s.access && t.refresh == s.refresh && t.answers == s.answers
  {
  }

  /** Without a token it is told its 401 at once, and nothing is sent. */
  lemma RefusalWithoutToken(s: State, caller: nat, skipRefresh: bool, onAuthPath: bool)
    requires s.refresh.None? || s.refresh == Some("")
    ensures Next(s, Unauthorized(caller, skipRefresh, onAuthPath)) == s
  {
  }

  /** When the refresh under way succeeds, both new tokens are held; when it fails, none is. Everyone who waited for it
      is then told which. */
  lemma RefreshEnds(s: State, f: nat, access: string, refresh: string, caller: nat)
    requires OneFlight(s) && s.inFlight == Some(f) && caller in s.waiting && s.waiting[caller] == f
    ensures var t := Next(s, RefreshOk(f, access, refresh));
            && t.access == Some(access) && t.refresh == Some(refresh) && t.inFlight.None?
            && t.waiting == s.waiting && t.flights[f] == Flight(s.flights[f].submitted, Some(true))
            && Next(t, Resume(caller)).answers == s.answers + [Answer(caller, f, true)]
            && Next(t, Resume(caller)).waiting == s.waiting - {caller}
    ensures var t := Next(s, RefreshFails(f));
            && t.access.None? && t.refresh.None? && t.inFlight.None?
            && t.waiting == s.waiting && t.flights[f] == Flight(s.flights[f].submitted, Some(false))
            && Next(t, Resume(caller)).answers == s.answers + [Answer(caller, f, false)]
            && Next(t, Resume(caller)).waiting == s.waiting - {caller}
  {
  }

  /** A login holds its tokens, a logout none, and neither starts or ends a refresh. */
  lemma SessionSteps(s: State, access: string, refresh: string)
    ensures var t := Next(s, Login(access, refresh));
            && t.access == Some(access) && t.refresh == Some(refresh)
            && t.flights == s.flights && t.inFlight == s.inFlight && t.waiting == s.waiting
    ensures var t := Next(s, Logout);
            && t.access.None? && t.refresh.None?
            && t.flights == s.flights && t.inFlight == s.inFlight && t.waiting == s.waiting
  {
  }
}
