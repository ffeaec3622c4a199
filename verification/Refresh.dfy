// The web client's response interceptor: one shared token refresh for all
// requests that come back with a 401, and one retry for each of them.
module Refresh {
  import opened Wrappers

  const REFRESH_PATH := "/auth/refresh"
  const LOGIN_PATH := "/auth/login"

  predicate EndsWith(s: string, suffix: string) {
    |suffix| <= |s| && s[|s| - |suffix|..] == suffix
  }

  // How an attempt ends: a success, or an error with the status of its
  // response, if it had one, and with or without the request's configuration.
  datatype Outcome = Success | Failure(status: Option<int>, hasConfig: bool)

  datatype Phase = Queued | Sent | Waiting | Done(last: Outcome)

  // A request made through the client: its `_retried` flag, how often it was
  // sent and last with which token, the refreshes that it awaited, and the
  // result it got from the last of them.
  datatype Request = Request(
    url: Option<string>, phase: Phase, retried: bool, sends: nat, header: Option<string>,
    awaited: seq<nat>, error: Outcome, seen: Option<Option<string>>)

  // A refresh call: running, answered with its promise still shared, or over.
  datatype Flight = Running | Answered(token: Option<string>) | Over(token: Option<string>)

  datatype State = State(
    requests: seq<Request>, flights: seq<Flight>, refreshInFlight: Option<nat>, token: Option<string>)

  // The turns of the event loop. Reply ends the refresh's own call, which does
  // not pass through the interceptor; Finally clears the shared promise, and
  // only then does Resume continue a request that awaits it. Store is a login
  // or a logout that writes the stored token.
  datatype Step =
    | Send(i: nat)
    | Respond(i: nat, outcome: Outcome)
    | Reply(k: nat, token: Option<string>)
    | Finally(k: nat)
    | Resume(i: nat)
    | Store(token: Option<string>)

  predicate Exempt(url: Option<string>) {
    url.Some? && (EndsWith(url.value, REFRESH_PATH) || EndsWith(url.value, LOGIN_PATH))
  }

  predicate TriesRefresh(r: Request, o: Outcome) {
    o.Failure? && o.status == Some(401) && o.hasConfig && !r.retried && !Exempt(r.url)
  }

  predicate Enabled(s: State, e: Step) {
    match e
    case Send(i) => i < |s.requests| && s.requests[i].phase == Queued
    case Respond(i, _) => i < |s.requests| && s.requests[i].phase == Sent
    case Reply(k, token) => k < |s.flights| && s.flights[k] == Running && token != Some("")
    case Finally(k) => k < |s.flights| && s.flights[k].Answered?
    case Resume(i) =>
      && i < |s.requests| && s.requests[i].phase == Waiting && s.requests[i].awaited != []
      && Joined(s.requests[i]) < |s.flights| && s.flights[Joined(s.requests[i])].Over?
    case Store(_) => true
  }

  // The refresh that a request awaited last.
  function Joined(r: Request): nat
    requires r.awaited != []
  {
    r.awaited[|r.awaited| - 1]
  }

  // The request interceptor's header; an empty token counts as none.
  function Header(stored: Option<string>, was: Option<string>): Option<string> {
    if stored.Some? && stored.value != "" then stored else was
  }

  function Next(s: State, e: Step): State
    requires Enabled(s, e)
  {
    match e
    case Send(i) =>
      var r := s.requests[i];
      s.(requests := s.requests[i := r.(phase := Sent, sends := r.sends + 1, header := Header(s.token, r.header))])
    case Respond(i, o) =>
      var r := s.requests[i];
      if TriesRefresh(r, o) then
        var k := if s.refreshInFlight.Some? then s.refreshInFlight.value else |s.flights|;
        s.(requests := s.requests[i := r.(phase := Waiting, retried := true, awaited := r.awaited + [k], error := o)],
           flights := if s.refreshInFlight.Some? then s.flights else s.flights + [Running],
           refreshInFlight := Some(k))
      else
        s.(requests := s.requests[i := r.(phase := Done(o))])
    case Reply(k, token) =>
      s.(flights := s.flights[k := Answered(token)], token := if token.Some? then token else s.token)
    case Finally(k) =>
      s.(flights := s.flights[k := Over(s.flights[k].token)], refreshInFlight := None)
    case Resume(i) =>
      var r := s.requests[i];
      var result := s.flights[Joined(r)].token;
      if result.Some? then
        s.(requests := s.requests[i := r.(phase := Sent, sends := r.sends + 1, header := Header(s.token, result),
                                          seen := Some(result))])
      else
        s.(requests := s.requests[i := r.(phase := Done(r.error), seen := Some(result))])
    case Store(token) => s.(token := token)
  }

  predicate Fresh(r: Request) {
    r.phase == Queued && !r.retried && r.sends == 0 && r.awaited == [] && r.seen == None && r.error == Success
  }

  predicate Initial(s: State) {
    (forall i | 0 <= i < |s.requests| :: Fresh(s.requests[i])) && s.flights == [] && s.refreshInFlight == None
  }

  predicate Runs(s: State, es: seq<Step>)
    decreases |es|, 0
  {
    es == [] || (Runs(s, es[..|es| - 1]) && Enabled(Final(s, es[..|es| - 1]), es[|es| - 1]))
  }

  function Final(s: State, es: seq<Step>): State
    requires Runs(s, es)
    decreases |es|, 1
  {
    if es == [] then s else Next(Final(s, es[..|es| - 1]), es[|es| - 1])
  }

  // ------------------------------------------------------------- invariant

  // All refreshes but the shared one are over.
  predicate FlightsOk(s: State) {
    && (forall k | 0 <= k < |s.flights| :: s.flights[k] != Answered(Some("")) && s.flights[k] != Over(Some("")))
    && (forall k | 0 <= k < |s.flights| :: s.flights[k].Over? || s.refreshInFlight == Some(k))
    && (s.refreshInFlight.Some? ==> s.refreshInFlight.value < |s.flights| && !s.flights[s.refreshInFlight.value].Over?)
  }

  // A request is sent again only after its one refresh gave it a token.
  predicate RequestOk(r: Request, flights: seq<Flight>) {
    && |r.awaited| == (if r.retried then 1 else 0)
    && (r.retried ==> r.awaited[0] < |flights| && !Exempt(r.url) && r.error == Failure(Some(401), true))
    && (r.seen.Some? ==> r.retried && flights[r.awaited[0]] == Over(r.seen.value))
    && (r.sends == 2 ==> r.header.Some? && r.header.value != "")
    && r.sends == (if r.phase == Queued then 0 else if r.seen.Some? && r.seen.value.Some? then 2 else 1)
    && match r.phase
       case Queued => !r.retried
       case Sent => r.retried ==> r.seen.Some? && r.seen.value.Some?
       case Waiting => r.retried && r.seen.None?
       case Done(o) =>
         if r.retried then r.seen.Some? && (r.seen.value.None? ==> o == r.error) else !TriesRefresh(r, o)
  }

  predicate Inv(s: State) {
    FlightsOk(s) && forall i | 0 <= i < |s.requests| :: RequestOk(s.requests[i], s.flights)
  }

  // Flights are added, answered and ended, never changed after.
  predicate Onward(before: seq<Flight>, after: seq<Flight>) {
    && |before| <= |after|
    && forall k | 0 <= k < |before| :: before[k].Over? ==> after[k] == before[k]
  }

  lemma KeepsRequest(r: Request, before: seq<Flight>, after: seq<Flight>)
    requires RequestOk(r, before) && Onward(before, after)
    ensures RequestOk(r, after)
  {
  }

  lemma {:induction false} StepInv(s: State, e: Step)
    requires Inv(s) && Enabled(s, e)
    ensures Inv(Next(s, e)) && Onward(s.flights, Next(s, e).flights)
  {
    var next := Next(s, e);
    assert Onward(s.flights, next.flights);
    forall i | 0 <= i < |next.requests| ensures RequestOk(next.requests[i], next.flights) {
      assert RequestOk(s.requests[i], s.flights);
      KeepsRequest(s.requests[i], s.flights, next.flights);
    }
  }

  lemma {:induction false} RunInv(s: State, es: seq<Step>)
    requires Initial(s) && Runs(s, es)
    ensures Inv(Final(s, es)) && |Final(s, es).requests| == |s.requests|
    decreases |es|
  {
    if es != [] {
      RunInv(s, es[..|es| - 1]);
      StepInv(Final(s, es[..|es| - 1]), es[|es| - 1]);
    }
  }

  // -------------------------------------------------------------- theorems

  // At most one refresh is outstanding, and its promise is the shared one.
  lemma {:induction false} OneRefreshOutstanding(s: State, es: seq<Step>, k: nat, m: nat)
    requires Initial(s) && Runs(s, es)
    requires k < |Final(s, es).flights| && m < |Final(s, es).flights|
    requires !Final(s, es).flights[k].Over? && !Final(s, es).flights[m].Over?
    ensures k == m && Final(s, es).refreshInFlight == Some(k)
  {
    RunInv(s, es);
  }

  // A request is sent at most twice and awaits at most one refresh; it is sent
  // again exactly when that refresh gave it a token, and then carries one.
  // Refresh and login requests are sent once and await nothing.
  lemma {:induction false} SentAtMostTwice(s: State, es: seq<Step>, i: nat)
    requires Initial(s) && Runs(s, es) && i < |s.requests|
    ensures |Final(s, es).requests| == |s.requests|
    ensures var r := Final(s, es).requests[i];
            && r.sends <= 2 && |r.awaited| <= 1
            && (r.sends == 2 <==> r.seen.Some? && r.seen.value.Some?)
            && (r.sends == 2 ==> r.header.Some? && r.header.value != "")
            && (Exempt(r.url) ==> r.sends <= 1 && r.awaited == [])
  {
    RunInv(s, es);
    assert RequestOk(Final(s, es).requests[i], Final(s, es).flights);
  }

  // All requests that awaited one refresh got the same result from it.
  lemma {:induction false} SameResult(s: State, es: seq<Step>, i: nat, j: nat)
    requires Initial(s) && Runs(s, es) && i < |Final(s, es).requests| && j < |Final(s, es).requests|
    requires Final(s, es).requests[i].awaited == Final(s, es).requests[j].awaited
    requires Final(s, es).requests[i].seen.Some? && Final(s, es).requests[j].seen.Some?
    ensures Final(s, es).requests[i].seen == Final(s, es).requests[j].seen
  {
    RunInv(s, es);
    assert RequestOk(Final(s, es).requests[i], Final(s, es).flights);
    assert RequestOk(Final(s, es).requests[j], Final(s, es).flights);
  }

  // A refresh starts only for the first 401 of a request that is neither a
  // refresh nor a login, and only when none is outstanding.
  lemma {:induction false} StartsARefresh(s: State, e: Step)
    requires Inv(s) && Enabled(s, e)
    ensures |Next(s, e).flights| > |s.flights| <==>
              && e.Respond? && s.requests[e.i].sends == 1 && !Exempt(s.requests[e.i].url)
              && e.outcome == Failure(Some(401), true) && forall k | 0 <= k < |s.flights| :: s.flights[k].Over?
  {
    if e.Respond? {
      assert RequestOk(s.requests[e.i], s.flights);
    }
  }

  // What a request ends with: its refresh failed and it ends with the 401 that
  // made it wait, or its last attempt's outcome is final.
  lemma {:induction false} EndsAsItShould(s: State, es: seq<Step>, i: nat)
    requires Initial(s) && Runs(s, es) && i < |Final(s, es).requests| && Final(s, es).requests[i].phase.Done?
    ensures var r := Final(s, es).requests[i];
            if r.awaited == [] then r.sends == 1 && !TriesRefresh(r, r.phase.last)
            else r.seen.Some? && (r.seen.value.None? ==> r.sends == 1 && r.phase.last == Failure(Some(401), true))
  {
    RunInv(s, es);
    assert RequestOk(Final(s, es).requests[i], Final(s, es).flights);
  }

  // ----------------------------------------------------------------- tokens

  // The token that was stored last: by a login or logout, or by a refresh that
  // gave one.
  function LastWritten(stored: Option<string>, es: seq<Step>): Option<string> {
    if es == [] then stored
    else
      match es[|es| - 1]
      case Store(t) => t
      case Reply(_, Some(t)) => Some(t)
      case _ => LastWritten(stored, es[..|es| - 1])
  }

  lemma {:induction false} StoredIsLastWritten(s: State, es: seq<Step>)
    requires Runs(s, es)
    ensures Final(s, es).token == LastWritten(s.token, es)
    decreases |es|
  {
    if es != [] {
      StoredIsLastWritten(s, es[..|es| - 1]);
    }
  }

  // What a request is sent with, the first time and again: the token stored
  // last, if there is one; else the retry has the one that its refresh gave.
  lemma {:induction false} SentWithLastWritten(s: State, es: seq<Step>, e: Step, i: nat)
    requires Initial(s) && Runs(s, es) && Enabled(Final(s, es), e) && (e == Step.Send(i) || e == Resume(i))
    ensures var before, after := Final(s, es), Next(Final(s, es), e);
            && i < |after.requests| && i < |before.requests|
            && (after.requests[i].phase == Sent && LastWritten(s.token, es) !in {None, Some("")} ==>
                  after.requests[i].header == LastWritten(s.token, es))
            && (after.requests[i].phase == Sent && LastWritten(s.token, es) in {None, Some("")} ==>
                  after.requests[i].header == if e.Send? then before.requests[i].header
                                              else before.flights[Joined(before.requests[i])].token)
  {
    StoredIsLastWritten(s, es);
  }

  // The refresh k gives a token here and nothing is stored afterwards.
  ghost predicate GivesLast(es: seq<Step>, m: int, k: nat, token: string) {
    && 0 <= m < |es| && es[m] == Reply(k, Some(token))
    && forall n | m < n < |es| :: !es[n].Store? && !(es[n].Reply? && es[n].token.Some?)
  }

  lemma {:induction false} GivenIsLastWritten(stored: Option<string>, es: seq<Step>, m: int, k: nat, token: string)
    requires GivesLast(es, m, k, token)
    ensures LastWritten(stored, es) == Some(token)
  {
    var n := |es| - 1;
    if m < n {
      GivenIsLastWritten(stored, es[..n], m, k, token);
    }
  }

  // What a refresh gave is what its requests find.
  lemma {:induction false} ReplyStays(s: State, es: seq<Step>, m: nat, k: nat, token: Option<string>)
    requires Initial(s) && Runs(s, es) && m < |es| && es[m] == Reply(k, token)
    ensures k < |Final(s, es).flights|
    ensures Final(s, es).flights[k] == Answered(token) || Final(s, es).flights[k] == Over(token)
    decreases |es|
  {
    var init, e := es[..|es| - 1], es[|es| - 1];
    if m < |init| {
      ReplyStays(s, init, m, k, token);
    }
  }

  // So a request whose refresh gave a token is sent again with that token,
  // unless another one was stored in between; and all later requests are sent
  // with it as well.
  lemma {:induction false} RetryCarriesTheNewToken(s: State, es: seq<Step>, e: Step, i: nat, m: nat, k: nat,
                                                   token: string)
    requires Initial(s) && Runs(s, es) && Enabled(Final(s, es), e) && GivesLast(es, m, k, token)
    requires e == Step.Send(i) || (e == Resume(i) && Joined(Final(s, es).requests[i]) == k)
    ensures i < |Next(Final(s, es), e).requests|
    ensures var r := Next(Final(s, es), e).requests[i]; r.phase == Sent && r.header == Some(token)
  {
    ReplyStays(s, es, m, k, Some(token));
    GivenIsLastWritten(s.token, es, m, k, token);
    GivenIsNotEmpty(s, es, m);
    SentWithLastWritten(s, es, e, i);
  }

  lemma {:induction false} GivenIsNotEmpty(s: State, es: seq<Step>, m: nat)
    requires Runs(s, es) && m < |es| && es[m].Reply?
    ensures es[m].token != Some("")
    decreases |es|
  {
    if m < |es| - 1 {
      GivenIsNotEmpty(s, es[..|es| - 1], m);
    }
  }

  // --------------------------------------------------------------- outcomes

  // How the last attempt of request i ended.
  function LastResponse(es: seq<Step>, i: nat): Option<Outcome> {
    if es == [] then None
    else
      match es[|es| - 1]
      case Respond(j, o) => if i == j then Some(o) else LastResponse(es[..|es| - 1], i)
      case _ => LastResponse(es[..|es| - 1], i)
  }

  // A request ends with the outcome of its last attempt: the retry's, or after
  // a refresh that failed its own.
  lemma {:induction false} EndsWithItsLastResponse(s: State, es: seq<Step>, i: nat)
    requires Initial(s) && Runs(s, es) && i < |s.requests|
    ensures |Final(s, es).requests| == |s.requests|
    ensures var r := Final(s, es).requests[i];
            && (r.phase.Done? ==> LastResponse(es, i) == Some(r.phase.last))
            && (r.phase == Waiting ==> LastResponse(es, i) == Some(r.error))
    decreases |es|
  {
    RunInv(s, es);
    if es != [] {
      EndsWithItsLastResponse(s, es[..|es| - 1], i);
    }
  }

  // A call that never starts a refresh, by the end of its path.
  lemma {:induction false} ExemptMeaning(u: string)
    ensures Exempt(Some(u)) <==> exists p :: u == p + "/auth/refresh" || u == p + "/auth/login"
    ensures !Exempt(None)
  {
    if EndsWith(u, REFRESH_PATH) {
      assert u == u[..|u| - |REFRESH_PATH|] + "/auth/refresh";
    }
    if EndsWith(u, LOGIN_PATH) {
      assert u == u[..|u| - |LOGIN_PATH|] + "/auth/login";
    }
  }

  // ------------------------------------------------------------ every request ends

  function RequestRank(r: Request): nat {
    match r.phase
    case Queued => 6
    case Sent => if r.retried then 1 else 5
    case Waiting => 2
    case Done(_) => 0
  }

  function FlightRank(f: Flight): nat {
    match f
    case Running => 2
    case Answered(_) => 1
    case Over(_) => 0
  }

  function RequestsRank(rs: seq<Request>): nat {
    if rs == [] then 0 else RequestsRank(rs[..|rs| - 1]) + RequestRank(rs[|rs| - 1])
  }

  function FlightsRank(fs: seq<Flight>): nat {
    if fs == [] then 0 else FlightsRank(fs[..|fs| - 1]) + FlightRank(fs[|fs| - 1])
  }

  function Rank(s: State): nat {
    RequestsRank(s.requests) + FlightsRank(s.flights)
  }

  lemma {:induction false} RequestsRankUpdate(rs: seq<Request>, i: nat, r: Request)
    requires i < |rs|
    ensures RequestsRank(rs[i := r]) + RequestRank(rs[i]) == RequestsRank(rs) + RequestRank(r)
  {
    var n := |rs| - 1;
    if i == n {
      assert rs[i := r][..n] == rs[..n];
    } else {
      assert rs[i := r][..n] == rs[..n][i := r];
      RequestsRankUpdate(rs[..n], i, r);
    }
  }

  lemma {:induction false} FlightsRankUpdate(fs: seq<Flight>, k: nat, f: Flight)
    requires k < |fs|
    ensures FlightsRank(fs[k := f]) + FlightRank(fs[k]) == FlightsRank(fs) + FlightRank(f)
  {
    var n := |fs| - 1;
    if k == n {
      assert fs[k := f][..n] == fs[..n];
    } else {
      assert fs[k := f][..n] == fs[..n][k := f];
      FlightsRankUpdate(fs[..n], k, f);
    }
  }

  lemma FlightsRankAdd(fs: seq<Flight>)
    ensures FlightsRank(fs + [Running]) == FlightsRank(fs) + 2
  {
    assert (fs + [Running])[..|fs|] == fs;
  }

  lemma {:induction false} RespondRank(s: State, i: nat, o: Outcome)
    requires Enabled(s, Respond(i, o))
    ensures Rank(Next(s, Respond(i, o))) < Rank(s)
  {
    var r := s.requests[i];
    if TriesRefresh(r, o) {
      var waiting := Next(s, Respond(i, o)).requests[i];
      RequestsRankUpdate(s.requests, i, waiting);
      FlightsRankAdd(s.flights);
    } else {
      RequestsRankUpdate(s.requests, i, r.(phase := Done(o)));
    }
  }

  lemma {:induction false} StepRank(s: State, e: Step)
    requires Inv(s) && Enabled(s, e)
    ensures if e.Store? then Rank(Next(s, e)) == Rank(s) else Rank(Next(s, e)) < Rank(s)
  {
    match e
    case Send(i) => RequestsRankUpdate(s.requests, i, Next(s, e).requests[i]);
    case Respond(i, o) => RespondRank(s, i, o);
    case Reply(k, t) => FlightsRankUpdate(s.flights, k, Answered(t));
    case Finally(k) => FlightsRankUpdate(s.flights, k, Next(s, e).flights[k]);
    case Resume(i) => RequestsRankUpdate(s.requests, i, Next(s, e).requests[i]);
    case Store(_) =>
  }

  // The steps that are the client's or its server's.
  function Work(es: seq<Step>): nat {
    if es == [] then 0 else Work(es[..|es| - 1]) + (if es[|es| - 1].Store? then 0 else 1)
  }

  lemma {:induction false} InitialRank(rs: seq<Request>)
    requires forall i | 0 <= i < |rs| :: Fresh(rs[i])
    ensures RequestsRank(rs) == 6 * |rs|
  {
    if rs != [] {
      InitialRank(rs[..|rs| - 1]);
    }
  }

  // No run goes on for ever: it has at most six steps a request.
  lemma {:induction false} RunsAreShort(s: State, es: seq<Step>)
    requires Initial(s) && Runs(s, es)
    ensures Work(es) + Rank(Final(s, es)) <= 6 * |s.requests|
    decreases |es|
  {
    if es == [] {
      InitialRank(s.requests);
    } else {
      RunsAreShort(s, es[..|es| - 1]);
      RunInv(s, es[..|es| - 1]);
      StepRank(Final(s, es[..|es| - 1]), es[|es| - 1]);
    }
  }

  // And it does not stop before every request has ended: while one has not,
  // some step of the client or of its server is possible.
  lemma {:induction false} NoDeadlock(s: State, es: seq<Step>, i: nat) returns (e: Step)
    requires Initial(s) && Runs(s, es) && i < |Final(s, es).requests| && !Final(s, es).requests[i].phase.Done?
    ensures Enabled(Final(s, es), e) && !e.Store?
  {
    RunInv(s, es);
    var last := Final(s, es);
    var r := last.requests[i];
    assert RequestOk(r, last.flights);
    match r.phase
    case Queued => e := Send(i);
    case Sent => e := Respond(i, Success);
    case Waiting =>
      match last.flights[Joined(r)] {
        case Running => e := Reply(Joined(r), None);
        case Answered(_) => e := Finally(Joined(r));
        case Over(_) => e := Resume(i);
      }
  }

  // ---------------------------------------------------------------- client

  // The client's own state and the handlers that the event loop runs.
  class Client {
    var requests: seq<Request>
    var flights: seq<Flight>
    var refreshInFlight: Option<nat>
    var token: Option<string>

    ghost function Snapshot(): State
      reads this
    {
      State(requests, flights, refreshInFlight, token)
    }

    constructor (urls: seq<Option<string>>, token: Option<string>)
      ensures Initial(Snapshot()) && |requests| == |urls| && this.token == token
      ensures forall i | 0 <= i < |urls| :: requests[i].url == urls[i]
    {
      requests := seq(|urls|, i requires 0 <= i < |urls| =>
        Request(urls[i], Queued, false, 0, None, [], Success, None));
      flights, refreshInFlight, this.token := [], None, token;
    }

    // The request interceptor, and the send.
    method Transmit(i: nat)
      requires i < |requests|
      modifies this`requests
      ensures requests == old(requests)[i := old(requests)[i].(
                            phase := Sent, sends := old(requests)[i].sends + 1,
                            header := Header(token, old(requests)[i].header))]
    {
      var cfg := requests[i];
      if token.Some? && token.value != "" {
        cfg := cfg.(header := token);
      }
      requests := requests[i := cfg.(phase := Sent, sends := cfg.sends + 1)];
    }

    method Start(i: nat)
      requires Enabled(Snapshot(), Step.Send(i))
      modifies this
      ensures Snapshot() == Next(old(Snapshot()), Step.Send(i))
    {
      Transmit(i);
    }

    // The response interceptor up to its await.
    method OnResponse(i: nat, outcome: Outcome)
      requires Enabled(Snapshot(), Respond(i, outcome))
      modifies this
      ensures Snapshot() == Next(old(Snapshot()), Respond(i, outcome))
    {
      var cfg := requests[i];
      if outcome.Failure? && outcome.status == Some(401) && outcome.hasConfig && !cfg.retried
         && !(cfg.url.Some? && EndsWith(cfg.url.value, REFRESH_PATH))
         && !(cfg.url.Some? && EndsWith(cfg.url.value, LOGIN_PATH)) {
        cfg := cfg.(retried := true, error := outcome);
        if refreshInFlight.None? {
          refreshInFlight := Some(|flights|);
          flights := flights + [Running];
        }
        requests := requests[i := cfg.(phase := Waiting, awaited := cfg.awaited + [refreshInFlight.value])];
        return;
      }
      requests := requests[i := cfg.(phase := Done(outcome))];
    }

    // The refresh's answer: a token to store, or none for every failure and
    // for an answer without a token.
    method OnRefreshReply(k: nat, accessToken: Option<string>)
      requires k < |flights| && flights[k] == Running
      modifies this
      ensures var t := if accessToken == Some("") then None else accessToken;
              && Enabled(old(Snapshot()), Reply(k, t))
              && Snapshot() == Next(old(Snapshot()), Reply(k, t))
    {
      if accessToken.None? || accessToken.value == "" {
        flights := flights[k := Answered(None)];
        return;
      }
      token := accessToken;
      flights := flights[k := Answered(accessToken)];
    }

    method OnFinally(k: nat)
      requires Enabled(Snapshot(), Finally(k))
      modifies this
      ensures Snapshot() == Next(old(Snapshot()), Finally(k))
    {
      refreshInFlight := None;
      flights := flights[k := Over(flights[k].token)];
    }

    // The response interceptor after its await.
    method OnResume(i: nat)
      requires Enabled(Snapshot(), Resume(i))
      modifies this
      ensures Snapshot() == Next(old(Snapshot()), Resume(i))
    {
      var cfg := requests[i];
      var newToken := flights[Joined(cfg)].token;
      cfg := cfg.(seen := Some(newToken));
      if newToken.Some? {
        requests := requests[i := cfg.(header := newToken)];
        Transmit(i);
        return;
      }
      requests := requests[i := cfg.(phase := Done(cfg.error))];
    }
  }
}
