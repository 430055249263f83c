/**
 Session refreshes of the web application's middleware (apps/web/middleware.ts).

 Requests arrive, upstream calls are answered, promises settle and responses leave in
 any order. The map of refreshes in flight is what keeps a refresh token, which can
 be consumed once only, from being sent twice at the same time.
 */
module RefreshFlight {
  import opened Text

  type Token = string

  const REFRESH_BUFFER_SECONDS := 120.0

  /** What the API answers; `NetworkError` is a `fetch` that throws. */
  datatype Answer = Http(status: int, session: Option<string>) | NetworkError

  datatype Outcome = Session(session: string) | Rejected | Unreachable

  datatype Cookies = SetSession(session: string) | ClearSession | KeepCookies

  /** `requestRefresh`; an answer without a session is one whose JSON is `null` or does not parse. */
  function OutcomeOf(a: Answer): Outcome {
    match a
    case NetworkError => Unreachable
    case Http(status, session) =>
      if status == 401 || status == 403 then Rejected
      else if !(200 <= status < 300) || session.None? then Unreachable
      else Session(session.value)
  }

  function CookiesFor(o: Outcome): Cookies {
    match o
    case Session(s) => SetSession(s)
    case Rejected => ClearSession
    case Unreachable => KeepCookies
  }

  /** `secondsLeft` is `None` when there is no access token or its expiry is unreadable. */
  datatype Request = Request(sameOrigin: bool, authPath: bool, token: Option<Token>, secondsLeft: Option<real>)

  predicate Refreshes(q: Request) {
    && q.sameOrigin && !q.authPath
    && q.token.Some? && q.token.value != ""
    && (q.secondsLeft.None? || q.secondsLeft.value < REFRESH_BUFFER_SECONDS)
  }

  datatype Phase = Running | Answered(outcome: Outcome) | Settled(result: Outcome, at: nat)

  datatype Call = Call(token: Token, started: nat, phase: Phase)

  /** A request being served, and, once its response has left, what became of its cookies. */
  datatype Visit = Visit(request: Request, at: nat, call: Option<nat>, cookies: Option<Cookies>)

  datatype Server = Server(clock: nat, inFlight: map<Token, nat>, calls: seq<Call>, visits: seq<Visit>)

  datatype Event =
    | Arrive(q: Request)
    | Upstream(c: nat, a: Answer)   // the API answers call `c`
    | Settle(c: nat)                // the `finally` handler of call `c` runs
    | Respond(v: nat)               // visit `v` gets its response

  function Fresh(): Server {
    Server(0, map[], [], [])
  }

  predicate Open(c: Call) {
    !c.phase.Settled?
  }

  predicate Enabled(s: Server, e: Event) {
    match e
    case Arrive(_) => true
    case Upstream(c, _) => c < |s.calls| && s.calls[c].phase.Running?
    case Settle(c) => c < |s.calls| && s.calls[c].phase.Answered?
    case Respond(v) =>
      && v < |s.visits| && s.visits[v].cookies.None?
      && var call := s.visits[v].call;
         call.None? || (call.value < |s.calls| && !Open(s.calls[call.value]))
  }

  /** `refreshOnce`: join the call in flight for this token, or start one. */
  function Join(s: Server, token: Token): (r: (Server, nat)) {
    if token in s.inFlight then (s, s.inFlight[token])
    else
      (s.(inFlight := s.inFlight[token := |s.calls|], calls := s.calls + [Call(token, s.clock, Running)]), |s.calls|)
  }

  function ArriveStep(s: Server, q: Request): Server {
    if Refreshes(q) then
      var (joined, call) := Join(s, q.token.value);
      joined.(visits := s.visits + [Visit(q, s.clock, Some(call), None)])
    else
      s.(visits := s.visits + [Visit(q, s.clock, None, None)])
  }

  function SettleStep(s: Server, c: nat): Server
    requires Enabled(s, Settle(c))
  {
    var call := s.calls[c];
    s.(inFlight := s.inFlight - {call.token},
       calls := s.calls[c := call.(phase := Settled(call.phase.outcome, s.clock))])
  }

  function RespondStep(s: Server, v: nat): Server
    requires Enabled(s, Respond(v))
  {
    var visit := s.visits[v];
    var cookies := if visit.call.None? then KeepCookies else CookiesFor(s.calls[visit.call.value].phase.result);
    s.(visits := s.visits[v := visit.(cookies := Some(cookies))])
  }

  function Step(s: Server, e: Event): Server
    requires Enabled(s, e)
  {
    var s' := match e
      case Arrive(q) => ArriveStep(s, q)
      case Upstream(c, a) => s.(calls := s.calls[c := s.calls[c].(phase := Answered(OutcomeOf(a)))])
      case Settle(c) => SettleStep(s, c)
      case Respond(v) => RespondStep(s, v);
    s'.(clock := s.clock + 1)
  }

  ghost predicate Run(s: Server, es: seq<Event>, s': Server)
    decreases |es|
  {
    if es == [] then s' == s else Enabled(s, es[0]) && Run(Step(s, es[0]), es[1..], s')
  }

  // ------------------------------------------------------------ the invariant

  /** The map holds exactly the calls not yet settled, each under its token. */
  ghost predicate MapIsExact(inFlight: map<Token, nat>, calls: seq<Call>) {
    && (forall t :: t in inFlight ==>
          inFlight[t] < |calls| && calls[inFlight[t]].token == t && Open(calls[inFlight[t]]))
    && (forall c :: 0 <= c < |calls| && Open(calls[c]) ==> calls[c].token in inFlight && inFlight[calls[c].token] == c)
  }

  predicate TimesAreSane(clock: nat, calls: seq<Call>) {
    forall c :: 0 <= c < |calls| ==>
      calls[c].started < clock && (!Open(calls[c]) ==> calls[c].started < calls[c].phase.at < clock)
  }

  /** Call `b` was started after call `a` had settled. */
  predicate After(a: Call, b: Call) {
    !Open(a) && a.phase.at < b.started
  }

  predicate NoOverlap(calls: seq<Call>) {
    forall a, b :: 0 <= a < b < |calls| && calls[a].token == calls[b].token ==> After(calls[a], calls[b])
  }

  /** A visit joined a call for its own token while that call was in flight. */
  predicate Joined(v: Visit, calls: seq<Call>)
    requires v.call.Some?
  {
    && v.call.value < |calls|
    && var c := calls[v.call.value];
       && v.request.token == Some(c.token)
       && c.started <= v.at && (!Open(c) ==> v.at < c.phase.at)
  }

  /** A response reports the outcome of the call its request joined. */
  predicate Faithful(v: Visit, calls: seq<Call>)
    requires v.call.Some? ==> Joined(v, calls)
  {
    v.cookies.Some? ==>
      if v.call.None? then v.cookies == Some(KeepCookies)
      else
        !Open(calls[v.call.value]) && v.cookies == Some(CookiesFor(calls[v.call.value].phase.result))
  }

  predicate VisitOk(v: Visit, clock: nat, calls: seq<Call>) {
    && v.at < clock
    && (v.call.Some? <==> Refreshes(v.request))
    && (v.call.Some? ==> Joined(v, calls))
    && Faithful(v, calls)
  }

  predicate VisitsOk(s: Server) {
    forall v :: 0 <= v < |s.visits| ==> VisitOk(s.visits[v], s.clock, s.calls)
  }

  ghost predicate Inv(s: Server) {
    MapIsExact(s.inFlight, s.calls) && TimesAreSane(s.clock, s.calls) && NoOverlap(s.calls) && VisitsOk(s)
  }

  lemma ArriveKeeps(s: Server, q: Request)
    requires Inv(s)
    ensures Inv(Step(s, Arrive(q)))
  {
    var s' := Step(s, Arrive(q));
    if Refreshes(q) && q.token.value !in s.inFlight {
      forall a, b | 0 <= a < b < |s'.calls| && s'.calls[a].token == s'.calls[b].token
        ensures After(s'.calls[a], s'.calls[b])
      {
        if b == |s.calls| {
          assert s'.calls[a] == s.calls[a];
        }
      }
    }
    forall v | 0 <= v < |s'.visits| ensures VisitOk(s'.visits[v], s'.clock, s'.calls) {
      if v < |s.visits| {
        assert VisitOk(s.visits[v], s.clock, s.calls);
      }
    }
  }

  lemma CallChangeKeepsVisits(s: Server, s': Server, c: nat)
    requires VisitsOk(s) && c < |s.calls| == |s'.calls|
    requires s'.visits == s.visits && s'.clock == s.clock + 1
    requires forall i :: 0 <= i < |s.calls| && i != c ==> s'.calls[i] == s.calls[i]
    requires Open(s.calls[c])
    requires s'.calls[c].token == s.calls[c].token && s'.calls[c].started == s.calls[c].started
    requires !Open(s'.calls[c]) ==> s'.calls[c].phase.at == s.clock
    ensures VisitsOk(s')
  {
    forall v | 0 <= v < |s'.visits| ensures VisitOk(s'.visits[v], s'.clock, s'.calls) {
      assert VisitOk(s.visits[v], s.clock, s.calls);
    }
  }

  lemma UpstreamKeeps(s: Server, c: nat, a: Answer)
    requires Inv(s) && Enabled(s, Upstream(c, a))
    ensures Inv(Step(s, Upstream(c, a)))
  {
    var s' := Step(s, Upstream(c, a));
    assert forall i :: 0 <= i < |s.calls| ==>
        Open(s'.calls[i]) == Open(s.calls[i]) && s'.calls[i].token == s.calls[i].token;
    CallChangeKeepsVisits(s, s', c);
  }

  lemma SettleKeeps(s: Server, c: nat)
    requires Inv(s) && Enabled(s, Settle(c))
    ensures Inv(Step(s, Settle(c)))
  {
    var s' := Step(s, Settle(c));
    assert s.inFlight[s.calls[c].token] == c;
    assert forall i :: 0 <= i < |s.calls| && i != c ==> s'.calls[i] == s.calls[i];
    CallChangeKeepsVisits(s, s', c);
  }

  lemma RespondKeeps(s: Server, v: nat)
    requires Inv(s) && Enabled(s, Respond(v))
    ensures Inv(Step(s, Respond(v)))
  {
    var s' := Step(s, Respond(v));
    forall i | 0 <= i < |s'.visits| ensures VisitOk(s'.visits[i], s'.clock, s'.calls) {
      assert VisitOk(s.visits[i], s.clock, s.calls);
    }
  }

  lemma StepKeeps(s: Server, e: Event)
    requires Inv(s) && Enabled(s, e)
    ensures Inv(Step(s, e))
  {
    match e
    case Arrive(q) => ArriveKeeps(s, q);
    case Upstream(c, a) => UpstreamKeeps(s, c, a);
    case Settle(c) => SettleKeeps(s, c);
    case Respond(v) => RespondKeeps(s, v);
  }

  lemma {:induction false} RunKeeps(s: Server, es: seq<Event>, s': Server)
    requires Inv(s) && Run(s, es, s')
    ensures Inv(s')
    decreases |es|
  {
    if es != [] {
      StepKeeps(s, es[0]);
      RunKeeps(Step(s, es[0]), es[1..], s');
    }
  }

  // ------------------------------------------------------------- the theorems

  /**
   In every interleaving the map holds a token exactly while a call for it has not
   settled, and two calls for one token never overlap in time.
   */
  lemma SingleFlight(es: seq<Event>, s: Server)
    requires Run(Fresh(), es, s)
    ensures forall t :: t in s.inFlight <==> exists c :: 0 <= c < |s.calls| && s.calls[c].token == t && Open(s.calls[c])
    ensures forall a, b :: 0 <= a < b < |s.calls| && s.calls[a].token == s.calls[b].token ==>
              !Open(s.calls[a]) && s.calls[a].phase.at < s.calls[b].started
  {
    RunKeeps(Fresh(), es, s);
    forall a, b | 0 <= a < b < |s.calls| && s.calls[a].token == s.calls[b].token
      ensures !Open(s.calls[a]) && s.calls[a].phase.at < s.calls[b].started
    {
      assert After(s.calls[a], s.calls[b]);
    }
  }

  /**
   A request that needs a refresh is answered with the outcome of a call for its own
   token that was in flight when it arrived, and the cookies are cleared exactly when
   the API refused that token. Other requests keep their cookies.
   */
  lemma JoinersGetTheOutcome(es: seq<Event>, s: Server, v: nat)
    requires Run(Fresh(), es, s)
    requires v < |s.visits| && s.visits[v].cookies.Some?
    ensures var visit := s.visits[v];
            if Refreshes(visit.request) then
              exists c :: 0 <= c < |s.calls| && !Open(s.calls[c])
                && s.calls[c].token == visit.request.token.value
                && s.calls[c].started <= visit.at < s.calls[c].phase.at
                && (visit.cookies.value == ClearSession <==> s.calls[c].phase.result == Rejected)
                && (visit.cookies.value == KeepCookies <==> s.calls[c].phase.result == Unreachable)
                && (forall x :: visit.cookies.value == SetSession(x) <==> s.calls[c].phase.result == Session(x))
            else visit.cookies.value == KeepCookies
  {
    RunKeeps(Fresh(), es, s);
    assert VisitOk(s.visits[v], s.clock, s.calls);
  }

  /** What an answered call came to. */
  function Result(c: Call): Outcome
    requires !c.phase.Running?
  {
    if c.phase.Answered? then c.phase.outcome else c.phase.result
  }

  /** Call `c` was answered during `es`, once, by `a`. */
  ghost predicate AnsweredBy(es: seq<Event>, c: nat, a: Answer) {
    Upstream(c, a) in es && forall b :: Upstream(c, b) in es ==> b == a
  }

  /** A call that was answered already gets no other answer, and keeps what it came to. */
  lemma {:induction false} AnswersStay(s: Server, es: seq<Event>, s': Server, c: nat)
    requires Run(s, es, s') && c < |s.calls| && !s.calls[c].phase.Running?
    ensures c < |s'.calls| && !s'.calls[c].phase.Running? && Result(s'.calls[c]) == Result(s.calls[c])
    ensures forall a :: Upstream(c, a) !in es
    decreases |es|
  {
    if es != [] {
      AnswersStay(Step(s, es[0]), es[1..], s', c);
      assert es == [es[0]] + es[1..];
    }
  }

  /** Any other call that is answered at the end was answered by one event of the run. */
  lemma {:induction false} AnsweredDuring(s: Server, es: seq<Event>, s': Server, c: nat)
    requires Run(s, es, s') && c < |s'.calls| && !s'.calls[c].phase.Running?
    requires c < |s.calls| ==> s.calls[c].phase.Running?
    ensures exists a :: AnsweredBy(es, c, a) && Result(s'.calls[c]) == OutcomeOf(a)
    decreases |es|
  {
    var e, rest, s1 := es[0], es[1..], Step(s, es[0]);
    assert es == [e] + rest;
    if e.Upstream? && e.c == c {
      AnswersStay(s1, rest, s', c);
      assert AnsweredBy(es, c, e.a);
    } else {
      AnsweredDuring(s1, rest, s', c);
      var a :| AnsweredBy(rest, c, a) && Result(s'.calls[c]) == OutcomeOf(a);
      assert AnsweredBy(es, c, a);
    }
  }

  /** The API refuses the token. */
  predicate Refuses(a: Answer) {
    a.Http? && (a.status == 401 || a.status == 403)
  }

  /** The API grants session `x`. */
  predicate Grants(a: Answer, x: string) {
    a.Http? && 200 <= a.status < 300 && a.session == Some(x)
  }

  lemma AnswerDecides(a: Answer)
    ensures CookiesFor(OutcomeOf(a)) == ClearSession <==> Refuses(a)
    ensures forall x :: CookiesFor(OutcomeOf(a)) == SetSession(x) <==> Grants(a, x)
  {
  }

  /**
   In every run, from the API's answers to the cookies. A request of the same origin,
   outside the sign-in routes, with a refresh token and an access token that is
   unreadable or has less than two minutes left, belongs to one call, answered once: its
   cookies are cleared exactly when that answer refuses the token, set exactly to the
   session it grants, and kept otherwise, so that no failure signs anybody out. Any other
   request keeps its cookies.
   */
  lemma CookiesFollowAnswer(es: seq<Event>, s: Server, v: nat)
    requires Run(Fresh(), es, s)
    requires v < |s.visits| && s.visits[v].cookies.Some?
    ensures var q, call, cookies := s.visits[v].request, s.visits[v].call, s.visits[v].cookies.value;
            if q.sameOrigin && !q.authPath && q.token.Some? && q.token.value != ""
               && (q.secondsLeft.None? || q.secondsLeft.value < 120.0) then
              && call.Some?
              && exists a :: AnsweredBy(es, call.value, a)
                   && (cookies == ClearSession <==> Refuses(a))
                   && (forall x :: cookies == SetSession(x) <==> Grants(a, x))
            else call == None && cookies == KeepCookies
  {
    RunKeeps(Fresh(), es, s);
    var visit := s.visits[v];
    assert VisitOk(visit, s.clock, s.calls);
    if visit.call.Some? {
      var c := visit.call.value;
      AnsweredDuring(Fresh(), es, s, c);
      var a :| AnsweredBy(es, c, a) && Result(s.calls[c]) == OutcomeOf(a);
      AnswerDecides(a);
    }
  }

  /** Two requests that joined the same call leave with the same cookies. */
  lemma JoinersAgree(es: seq<Event>, s: Server, v: nat, w: nat)
    requires Run(Fresh(), es, s)
    requires v < |s.visits| && w < |s.visits|
    requires s.visits[v].cookies.Some? && s.visits[w].cookies.Some?
    requires s.visits[v].call == s.visits[w].call
    ensures s.visits[v].cookies == s.visits[w].cookies
  {
    RunKeeps(Fresh(), es, s);
    assert VisitOk(s.visits[v], s.clock, s.calls);
    assert VisitOk(s.visits[w], s.clock, s.calls);
  }

  /**
   Of two requests for one token, the later one shares the call of the earlier exactly
   when it arrives before that call settles; otherwise the token is sent again.
   */
  lemma BurstSharesOneCall(es: seq<Event>, s: Server, v: nat, w: nat)
    requires Run(Fresh(), es, s)
    requires v < |s.visits| && w < |s.visits|
    requires Refreshes(s.visits[v].request) && s.visits[v].request.token == s.visits[w].request.token
    requires Refreshes(s.visits[w].request) && s.visits[v].at <= s.visits[w].at
    ensures s.visits[v].call.Some? && s.visits[v].call.value < |s.calls|
    ensures var c := s.calls[s.visits[v].call.value];
            s.visits[w].call == s.visits[v].call <==> Open(c) || s.visits[w].at < c.phase.at
  {
    RunKeeps(Fresh(), es, s);
    assert VisitOk(s.visits[v], s.clock, s.calls);
    assert VisitOk(s.visits[w], s.clock, s.calls);
    var a, b := s.visits[v].call.value, s.visits[w].call.value;
    assert a < b ==> After(s.calls[a], s.calls[b]);
    assert b < a ==> After(s.calls[b], s.calls[a]);
  }

  /** No request waits for nothing: once every call has settled, each can be answered. */
  lemma NobodyIsStranded(es: seq<Event>, s: Server, v: nat)
    requires Run(Fresh(), es, s)
    requires v < |s.visits| && s.visits[v].cookies.None?
    requires forall c :: 0 <= c < |s.calls| ==> !Open(s.calls[c])
    ensures Enabled(s, Respond(v))
  {
    RunKeeps(Fresh(), es, s);
    assert VisitOk(s.visits[v], s.clock, s.calls);
  }

  /**
   The map only covers overlapping calls: a request that still carries the old token
   after the refresh settled sends it again, and is signed out when the API refuses a
   token it has already exchanged.
   */
  lemma LateArrivalResendsToken(q: Request, session: string)
    requires Refreshes(q)
    ensures exists es: seq<Event>, s ::
              Run(Fresh(), es, s) && |s.visits| == 2 && s.visits[0].request == s.visits[1].request == q
              && s.visits[0].cookies == Some(SetSession(session)) && s.visits[1].cookies == Some(ClearSession)
  {
    EarlyHalf(q, session);
    var s4 :| Run(Fresh(), EarlyEvents(q, session), s4) && SignedIn(s4, q, session);
    LateHalf(q, s4, s4.calls[0], s4.visits[0]);
    var s8 :| Run(s4, LateEvents(q), s8) && |s8.visits| == 2 && s8.visits[0] == s4.visits[0]
      && s8.visits[1].request == q && s8.visits[1].cookies == Some(ClearSession);
    RunConcat(Fresh(), EarlyEvents(q, session), s4, LateEvents(q), s8);
  }

  lemma {:induction false} RunConcat(s: Server, es: seq<Event>, s': Server, fs: seq<Event>, s'': Server)
    requires Run(s, es, s') && Run(s', fs, s'')
    ensures Run(s, es + fs, s'')
    decreases |es|
  {
    if es == [] {
      assert es + fs == fs;
    } else {
      RunConcat(Step(s, es[0]), es[1..], s', fs, s'');
      assert (es + fs)[1..] == es[1..] + fs;
    }
  }

  function EarlyEvents(q: Request, session: string): seq<Event> {
    [Arrive(q), Upstream(0, Http(200, Some(session))), Settle(0), Respond(0)]
  }

  ghost predicate SignedIn(s: Server, q: Request, session: string)
    requires Refreshes(q)
  {
    && |s.calls| == 1 && q.token.value !in s.inFlight
    && |s.visits| == 1 && s.visits[0].request == q && s.visits[0].cookies == Some(SetSession(session))
  }

  lemma EarlyHalf(q: Request, session: string)
    requires Refreshes(q)
    ensures exists s4 :: Run(Fresh(), EarlyEvents(q, session), s4) && SignedIn(s4, q, session)
  {
    var es := EarlyEvents(q, session);
    var t := q.token.value;
    var s1 := Step(Fresh(), es[0]);
    assert s1 == Server(1, map[t := 0], [Call(t, 0, Running)], [Visit(q, 0, Some(0), None)]);
    var s2 := Step(s1, es[1]);
    var s3 := Step(s2, es[2]);
    assert s3.calls == [Call(t, 0, Settled(Session(session), 2))] && t !in s3.inFlight;
    var s4 := Step(s3, es[3]);
    assert es[1..][1..] == es[2..] && es[2..][1..] == es[3..] && es[3..][1..] == [];
    assert Run(s3, es[3..], s4);
    assert Run(s2, es[2..], s4);
    assert Run(s1, es[1..], s4);
    assert Run(Fresh(), es, s4);
    assert s4.calls == s3.calls && SignedIn(s4, q, session);
  }

  function LateEvents(q: Request): seq<Event> {
    [Arrive(q), Upstream(1, Http(401, None)), Settle(1), Respond(1)]
  }

  lemma LateHalf(q: Request, s4: Server, call: Call, first: Visit)
    requires Refreshes(q) && s4.calls == [call] && q.token.value !in s4.inFlight && s4.visits == [first]
    ensures exists s8 :: Run(s4, LateEvents(q), s8) && |s8.visits| == 2 && s8.visits[0] == first
              && s8.visits[1].request == q && s8.visits[1].cookies == Some(ClearSession)
  {
    var es := LateEvents(q);
    var t := q.token.value;
    var s5 := Step(s4, es[0]);
    assert s5.calls == [call, Call(t, s4.clock, Running)];
    assert s5.visits == [first, Visit(q, s4.clock, Some(1), None)];
    var s6 := Step(s5, es[1]);
    var s7 := Step(s6, es[2]);
    assert s7.calls[1].phase == Settled(Rejected, s6.clock);
    var s8 := Step(s7, es[3]);
    assert es[1..][1..] == es[2..] && es[2..][1..] == es[3..] && es[3..][1..] == [];
    assert Run(s7, es[3..], s8);
    assert Run(s6, es[2..], s8);
    assert Run(s5, es[1..], s8);
  }

  // ------------------------------------------------------ the map in the module

  /** The module's shared map, with the calls and the requests its promises stand for. */
  class Middleware {
    var clock: nat
    var inFlight: map<Token, nat>
    var calls: seq<Call>
    var visits: seq<Visit>

    ghost function State(): Server
      reads this
    {
      Server(clock, inFlight, calls, visits)
    }

    constructor ()
      ensures State() == Fresh() && Inv(State())
    {
      clock, inFlight, calls, visits := 0, map[], [], [];
    }

    /** `refreshOnce`. */
    method RefreshOnce(token: Token) returns (call: nat)
      modifies `inFlight, `calls
      ensures (State(), call) == Join(old(State()), token)
    {
      if token in inFlight {
        return inFlight[token];
      }
      call := |calls|;
      calls := calls + [Call(token, clock, Running)];
      inFlight := inFlight[token := call];
    }

    /** `middleware`, up to the point where it awaits the refresh. */
    method OnRequest(q: Request)
      requires Inv(State())
      modifies this
      ensures State() == Step(old(State()), Arrive(q)) && Inv(State())
    {
      ArriveKeeps(State(), q);
      var call := None;
      if Refreshes(q) {
        var joined := RefreshOnce(q.token.value);
        call := Some(joined);
      }
      visits := visits + [Visit(q, clock, call, None)];
      clock := clock + 1;
    }

    /** `requestRefresh` hears from the API. */
    method OnUpstream(c: nat, a: Answer)
      requires Inv(State()) && Enabled(State(), Upstream(c, a))
      modifies this
      ensures State() == Step(old(State()), Upstream(c, a)) && Inv(State())
    {
      UpstreamKeeps(State(), c, a);
      calls := calls[c := calls[c].(phase := Answered(OutcomeOf(a)))];
      clock := clock + 1;
    }

    /** The `finally` handler: it deletes by token, and what it deletes is its own entry. */
    method OnSettled(c: nat)
      requires Inv(State()) && Enabled(State(), Settle(c))
      modifies this
      ensures State() == Step(old(State()), Settle(c)) && Inv(State())
      ensures old(calls[c].token in inFlight && inFlight[calls[c].token] == c)
      ensures inFlight == old(inFlight) - {old(calls[c].token)}
    {
      SettleKeeps(State(), c);
      var call := calls[c];
      inFlight := inFlight - {call.token};
      calls := calls[c := call.(phase := Settled(call.phase.outcome, clock))];
      clock := clock + 1;
    }

    /** `middleware`, once the refresh is known: set, clear or keep the cookies. */
    method OnResponse(v: nat)
      requires Inv(State()) && Enabled(State(), Respond(v))
      modifies this
      ensures State() == Step(old(State()), Respond(v)) && Inv(State())
    {
      RespondKeeps(State(), v);
      var visit := visits[v];
      var cookies := KeepCookies;
      if visit.call.Some? {
        var outcome := calls[visit.call.value].phase.result;
        if outcome.Session? {
          cookies := SetSession(outcome.session);
        } else if outcome == Rejected {
          cookies := ClearSession;
        }
      }
      visits := visits[v := visit.(cookies := Some(cookies))];
      clock := clock + 1;
    }
  }
}
