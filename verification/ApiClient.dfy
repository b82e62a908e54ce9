/** The browser client's shared token refresh (frontend/assets/js/api-client.js:8-104).
    Code between two awaits runs without interruption, so a step is one such piece:
    the arrival of a response, the settling of a promise, or a call that sets or
    clears the tokens. Any order of steps is allowed. */
module ApiClient {
  import opened Prelude

  type Token = string

  /** Where a call of _request is suspended. */
  datatype Request =
    | Sent(skipAuth: bool)      // the first fetch
    | Waiting(refresh: nat)     // the promise of this refresh
    | Retrying                  // the second fetch
    | Ended

  /** One call of _doRefresh: its request sent, its response accepted but not read
      yet, or its promise settled. */
  datatype Refresh = Asked | Answered | Fulfilled | Rejected {
    predicate InFlight() { Asked? || Answered? }
  }

  /** The fields of APIClient, and the calls that are under way. */
  datatype Client = Client(
    accessToken: Option<Token>, refreshToken: Option<Token>,
    refreshing: bool, refreshPromise: Option<nat>,
    requests: seq<Request>, refreshes: seq<Refresh>)

  datatype Event =
    | Start(skipAuth: bool)
    | Respond(r: nat, status: Option<nat>)       // None: the fetch itself failed
    | AnswerRefresh(k: nat, ok: bool)
    | ReadRefresh(k: nat, tokens: Option<(Option<Token>, Option<Token>)>)  // None: no JSON
    | Resume(r: nat)
    | Retried(r: nat, status: Option<nat>)
    | SetTokens(access: Option<Token>, refresh: Option<Token>)
    | ClearTokens

  predicate Enabled(c: Client, e: Event)
  {
    match e
    case Start(_) => true
    case Respond(r, _) => r < |c.requests| && c.requests[r].Sent?
    case AnswerRefresh(k, _) => k < |c.refreshes| && c.refreshes[k].Asked?
    case ReadRefresh(k, _) => k < |c.refreshes| && c.refreshes[k].Answered?
    case Resume(r) =>
      && r < |c.requests| && c.requests[r].Waiting?
      && c.requests[r].refresh < |c.refreshes| && !c.refreshes[c.requests[r].refresh].InFlight()
    case Retried(r, _) => r < |c.requests| && c.requests[r].Retrying?
    case SetTokens(_, _) => true
    case ClearTokens => true
  }

  /** The response sends the request into the refresh branch. */
  predicate WantsRefresh(c: Client, e: Event)
    requires Enabled(c, e)
  {
    && e.Respond? && e.status == Some(401)
    && !c.requests[e.r].skipAuth && c.refreshToken.Some?
  }

  /** The step runs a request's `finally`. */
  predicate RunsFinally(c: Client, e: Event)
    requires Enabled(c, e)
  {
    e.Retried? || (e.Resume? && c.refreshes[c.requests[e.r].refresh].Rejected?)
  }

  function Cleared(c: Client): Client { c.(accessToken := None, refreshToken := None) }

  function Released(c: Client): Client { c.(refreshing := false, refreshPromise := None) }

  function Moved(c: Client, r: nat, phase: Request): Client
    requires r < |c.requests|
  {
    c.(requests := c.requests[r := phase])
  }

  function Settled(c: Client, k: nat, outcome: Refresh): Client
    requires k < |c.refreshes|
  {
    c.(refreshes := c.refreshes[k := outcome])
  }

  function Step(c: Client, e: Event): Client
    requires Enabled(c, e)
  {
    match e
    case Start(skipAuth) => c.(requests := c.requests + [Sent(skipAuth)])
    case Respond(r, status) =>
      if WantsRefresh(c, e) then
        var k := |c.refreshes|;
        var d := if c.refreshing then c
                 else c.(refreshing := true, refreshPromise := Some(k), refreshes := c.refreshes + [Asked]);
        // Awaiting null would go straight on; it never happens (see Sound).
        Moved(d, r, if d.refreshPromise.Some? then Waiting(d.refreshPromise.value) else Retrying)
      else if status == Some(401) then Moved(Cleared(c), r, Ended)
      else Moved(c, r, Ended)
    case AnswerRefresh(k, ok) => Settled(c, k, if ok then Answered else Rejected)
    case ReadRefresh(k, tokens) =>
      if tokens.None? then Settled(c, k, Rejected)
      else Settled(c, k, Fulfilled).(accessToken := tokens.value.0, refreshToken := tokens.value.1)
    case Resume(r) =>
      if c.refreshes[c.requests[r].refresh].Rejected?
      then Released(Moved(Cleared(c), r, Ended))
      else Moved(c, r, Retrying)
    case Retried(r, status) =>
      if status.None? || status == Some(401)
      then Released(Moved(Cleared(c), r, Ended))
      else Released(Moved(c, r, Ended))
    case SetTokens(access, refresh) => c.(accessToken := access, refreshToken := refresh)
    case ClearTokens => Cleared(c)
  }

  // ---- The object -----------------------------------------------------------------

  class APIClient {
    var accessToken: Option<Token>
    var refreshToken: Option<Token>
    var refreshing: bool
    var refreshPromise: Option<nat>
    // The suspended calls.
    var requests: seq<Request>
    var refreshes: seq<Refresh>

    function State(): Client
      reads this
    {
      Client(accessToken, refreshToken, refreshing, refreshPromise, requests, refreshes)
    }

    constructor (storedAccess: Option<Token>, storedRefresh: Option<Token>)
      ensures State() == Initial(storedAccess, storedRefresh)
    {
      accessToken, refreshToken := storedAccess, storedRefresh;
      refreshing, refreshPromise := false, None;
      requests, refreshes := [], [];
    }

    method SetTokens(access: Option<Token>, refresh: Option<Token>)
      modifies this`accessToken, this`refreshToken
      ensures State() == Step(old(State()), Event.SetTokens(access, refresh))
    {
      accessToken := access;
      refreshToken := refresh;
    }

    method ClearTokens()
      modifies this`accessToken, this`refreshToken
      ensures State() == Step(old(State()), Event.ClearTokens) == Cleared(old(State()))
    {
      accessToken := None;
      refreshToken := None;
    }

    // _request up to its first await
    method Start(skipAuth: bool) returns (r: nat)
      modifies this`requests
      ensures State() == Step(old(State()), Event.Start(skipAuth))
      ensures r == old(|requests|) && requests[r] == Sent(skipAuth)
    {
      r := |requests|;
      requests := requests + [Sent(skipAuth)];
    }

    // _doRefresh up to its first await
    method DoRefresh() returns (k: nat)
      modifies this`refreshes
      ensures refreshes == old(refreshes) + [Asked] && k == old(|refreshes|)
    {
      k := |refreshes|;
      refreshes := refreshes + [Asked];
    }

    method Respond(r: nat, status: Option<nat>)
      requires Enabled(State(), Event.Respond(r, status))
      modifies this
      ensures State() == Step(old(State()), Event.Respond(r, status))
    {
      if status == Some(401) && !requests[r].skipAuth && refreshToken.Some? {
        if !refreshing {
          refreshing := true;
          var k := DoRefresh();
          refreshPromise := Some(k);
        }
        if refreshPromise.Some? {
          requests := requests[r := Waiting(refreshPromise.value)];
        } else {
          requests := requests[r := Retrying];
        }
        return;
      }
      if status == Some(401) { ClearTokens(); }
      requests := requests[r := Ended];
    }

    // _doRefresh from its first await on
    method AnswerRefresh(k: nat, ok: bool)
      requires Enabled(State(), Event.AnswerRefresh(k, ok))
      modifies this`refreshes
      ensures State() == Step(old(State()), Event.AnswerRefresh(k, ok))
    {
      refreshes := refreshes[k := if ok then Answered else Rejected];
    }

    method ReadRefresh(k: nat, tokens: Option<(Option<Token>, Option<Token>)>)
      requires Enabled(State(), Event.ReadRefresh(k, tokens))
      modifies this
      ensures State() == Step(old(State()), Event.ReadRefresh(k, tokens))
    {
      if tokens.None? {
        refreshes := refreshes[k := Rejected];
      } else {
        SetTokens(tokens.value.0, tokens.value.1);
        refreshes := refreshes[k := Fulfilled];
      }
    }

    method Finally()
      modifies this`refreshing, this`refreshPromise
      ensures State() == Released(old(State()))
    {
      refreshing := false;
      refreshPromise := None;
    }

    // the `try` after its first await, and `catch` when the refresh failed
    method Resume(r: nat)
      requires Enabled(State(), Event.Resume(r))
      modifies this
      ensures State() == Step(old(State()), Event.Resume(r))
    {
      if refreshes[requests[r].refresh].Rejected? {
        ClearTokens();
        Finally();
        requests := requests[r := Ended];
      } else {
        requests := requests[r := Retrying];
      }
    }

    // the `try` after its second await
    method Retried(r: nat, status: Option<nat>)
      requires Enabled(State(), Event.Retried(r, status))
      modifies this
      ensures State() == Step(old(State()), Event.Retried(r, status))
    {
      if status.None? { ClearTokens(); }
      Finally();
      if status == Some(401) { ClearTokens(); }
      requests := requests[r := Ended];
    }
  }

  function Initial(storedAccess: Option<Token>, storedRefresh: Option<Token>): Client
  {
    Client(storedAccess, storedRefresh, false, None, [], [])
  }

  // ---- Runs --------------------------------------------------------------------------

  ghost predicate IsRun(c: Client, events: seq<Event>)
    decreases |events|
  {
    events == [] || (Enabled(c, events[0]) && IsRun(Step(c, events[0]), events[1..]))
  }

  ghost function Run(c: Client, events: seq<Event>): Client
    requires IsRun(c, events)
    decreases |events|
  {
    if events == [] then c else Run(Step(c, events[0]), events[1..])
  }

  ghost predicate Reachable(c: Client)
  {
    exists access, refresh, events ::
      IsRun(Initial(access, refresh), events) && c == Run(Initial(access, refresh), events)
  }

  predicate Awaited(c: Client, k: nat) { Waiting(k) in c.requests }

  /** What every step keeps: the flag says whether there is a promise, nobody waits
      for a refresh that was not sent, a refresh in flight is awaited, and the flag is
      only up while some request is waiting for its promise or retrying. */
  ghost predicate Sound(c: Client)
  {
    && (c.refreshing <==> c.refreshPromise.Some?)
    && (forall q | q in c.requests && q.Waiting? :: q.refresh < |c.refreshes|)
    && (forall k: nat | k < |c.refreshes| && c.refreshes[k].InFlight() :: Awaited(c, k))
    && (c.refreshPromise.Some? ==>
          && c.refreshPromise.value < |c.refreshes|
          && (Awaited(c, c.refreshPromise.value) || Retrying in c.requests))
  }

  // A request that a step does not touch is still there.
  lemma Untouched(c: Client, e: Event, q: Request)
    requires Enabled(c, e) && q in c.requests
    requires e.Respond? ==> !q.Sent?
    requires e.Resume? ==> q != c.requests[e.r]
    requires e.Retried? ==> !q.Retrying?
    ensures q in Step(c, e).requests
  {
    var x :| 0 <= x < |c.requests| && c.requests[x] == q;
    assert Step(c, e).requests[x] == q;
  }

  // A refresh in flight keeps a request that waits for it.
  lemma StaysAwaited(c: Client, e: Event, k: nat)
    requires Enabled(c, e) && k < |c.refreshes| && Awaited(c, k)
    requires e.Resume? ==> c.refreshes[k].InFlight() || c.requests[e.r].refresh != k
    ensures Awaited(Step(c, e), k)
  {
    Untouched(c, e, Waiting(k));
  }

  lemma InFlightAwaited(c: Client, e: Event, k: nat)
    requires Sound(c) && Enabled(c, e)
    requires k < |Step(c, e).refreshes| && Step(c, e).refreshes[k].InFlight()
    ensures Awaited(Step(c, e), k)
  {
    if k < |c.refreshes| {
      StaysAwaited(c, e, k);
    } else {
      assert Step(c, e).requests[e.r] == Waiting(k);
    }
  }

  // The flag stays backed by a request until some `finally` takes it down.
  lemma PromiseBacked(c: Client, e: Event)
    requires Sound(c) && Enabled(c, e) && Step(c, e).refreshPromise.Some?
    ensures var d := Step(c, e); Awaited(d, d.refreshPromise.value) || Retrying in d.requests
  {
    var d := Step(c, e);
    if c.refreshPromise.None? {
      assert d.requests[e.r] == Waiting(d.refreshPromise.value);
    } else if e.Resume? {
      assert d.requests[e.r] == Retrying;
    } else if Retrying in c.requests {
      Untouched(c, e, Retrying);
    } else {
      StaysAwaited(c, e, c.refreshPromise.value);
    }
  }

  lemma WaitersKnown(c: Client, e: Event, q: Request)
    requires Sound(c) && Enabled(c, e) && q in Step(c, e).requests && q.Waiting?
    ensures q.refresh < |Step(c, e).refreshes|
  {
    var x :| 0 <= x < |Step(c, e).requests| && Step(c, e).requests[x] == q;
    assert x < |c.requests| ==> c.requests[x] in c.requests;
  }

  lemma StepSound(c: Client, e: Event)
    requires Sound(c) && Enabled(c, e)
    ensures Sound(Step(c, e))
  {
    var d := Step(c, e);
    forall q | q in d.requests && q.Waiting? ensures q.refresh < |d.refreshes| { WaitersKnown(c, e, q); }
    forall k: nat | k < |d.refreshes| && d.refreshes[k].InFlight() ensures Awaited(d, k) {
      InFlightAwaited(c, e, k);
    }
    if d.refreshPromise.Some? { PromiseBacked(c, e); }
    hide Awaited;
  }

  lemma {:induction false} RunSound(c: Client, events: seq<Event>)
    requires Sound(c) && IsRun(c, events)
    ensures Sound(Run(c, events))
    decreases |events|
  {
    hide Sound, Step, Enabled;
    if events != [] {
      StepSound(c, events[0]);
      RunSound(Step(c, events[0]), events[1..]);
    }
  }

  /** In every reachable state the flag is up exactly when there is a promise, and
      every refresh in flight has a request waiting for it. */
  lemma ReachableSound(c: Client)
    requires Reachable(c)
    ensures Sound(c)
  {
    var access, refresh, events :|
      IsRun(Initial(access, refresh), events) && c == Run(Initial(access, refresh), events);
    RunSound(Initial(access, refresh), events);
  }

  // ---- What a step leaves behind ---------------------------------------------------

  /** A step keeps both tokens, except that new ones are set by a login or by the body of a refresh
      response, and both are dropped by a logout, by a 401 that no refresh can answer, by a failed
      refresh, and by a retry that fails or is answered with 401. */
  lemma TokensAfter(c: Client, e: Event)
    requires Enabled(c, e)
    ensures var d := Step(c, e);
      (d.accessToken, d.refreshToken) ==
      match e
      case SetTokens(access, refresh) => (access, refresh)
      case ReadRefresh(_, Some(tokens)) => tokens
      case ClearTokens => (None, None)
      case Respond(r, Some(status)) =>
        if status == 401 && (c.requests[r] == Sent(true) || c.refreshToken == None) then (None, None)
        else (c.accessToken, c.refreshToken)
      case Resume(r) =>
        if c.refreshes[c.requests[r].refresh] == Rejected then (None, None) else (c.accessToken, c.refreshToken)
      case Retried(_, None) => (None, None)
      case Retried(_, Some(status)) => if status == 401 then (None, None) else (c.accessToken, c.refreshToken)
      case _ => (c.accessToken, c.refreshToken)
  {
  }

  /** Which request a step moves, and where to. A 401 waits for the refresh in progress or for a
      new one, anything else that is answered ends its request; a waiter retries when its refresh
      has succeeded and ends when it has failed. Every other request stays where it is. */
  lemma RequestsAfter(c: Client, e: Event)
    requires Sound(c) && Enabled(c, e)
    ensures Step(c, e).requests ==
      match e
      case Start(skipAuth) => c.requests + [Sent(skipAuth)]
      case Respond(r, status) =>
        c.requests[r :=
          if status == Some(401) && c.requests[r] == Sent(false) && c.refreshToken != None
          then Waiting(if c.refreshPromise.Some? then c.refreshPromise.value else |c.refreshes|) else Ended]
      case Resume(r) => c.requests[r := if c.refreshes[c.requests[r].refresh] == Fulfilled then Retrying else Ended]
      case Retried(r, _) => c.requests[r := Ended]
      case _ => c.requests
  {
  }

  /** A refresh is sent exactly by a 401 that can be answered by one while none is shared; it is
      then shared until a `finally`, which a retry and a waiter of a failed refresh run. */
  lemma RefreshesAfter(c: Client, e: Event)
    requires Sound(c) && Enabled(c, e)
    ensures var d := Step(c, e);
      var sends := e.Respond? && e.status == Some(401) && c.requests[e.r] == Sent(false) && c.refreshToken != None &&
                   c.refreshPromise.None?;
      && d.refreshes ==
           (match e
            case AnswerRefresh(k, ok) => c.refreshes[k := if ok then Answered else Rejected]
            case ReadRefresh(k, body) => c.refreshes[k := if body.Some? then Fulfilled else Rejected]
            case _ => if sends then c.refreshes + [Asked] else c.refreshes)
      && d.refreshPromise ==
           (if sends then Some(|c.refreshes|)
            else if e.Retried? || (e.Resume? && c.refreshes[c.requests[e.r].refresh] == Rejected) then None
            else c.refreshPromise)
  {
  }

  /** The event can take no token away and set none: a call, or a response other than 401. */
  predicate IsPlain(e: Event) { e.Start? || (e.Respond? && e.status != Some(401)) }

  /** Calls that are answered with anything but 401 leave the session as it is. */
  lemma {:induction false} PlainCallsKeepTokens(c: Client, events: seq<Event>)
    requires IsRun(c, events) && forall e | e in events :: IsPlain(e)
    ensures Run(c, events).accessToken == c.accessToken && Run(c, events).refreshToken == c.refreshToken
    decreases |events|
  {
    hide Step, Enabled;
    if events != [] {
      assert IsPlain(events[0]);
      TokensAfter(c, events[0]);
      PlainCallsKeepTokens(Step(c, events[0]), events[1..]);
    }
  }

  // ---- One refresh for many 401s -----------------------------------------------------

  /** No request is waiting or retrying. */
  predicate Calm(c: Client)
  {
    forall q | q in c.requests :: !q.Waiting? && !q.Retrying?
  }

  ghost predicate NoFinally(c: Client, events: seq<Event>)
    requires IsRun(c, events)
    decreases |events|
  {
    events == [] || (!RunsFinally(c, events[0]) && NoFinally(Step(c, events[0]), events[1..]))
  }

  /** Some response of the run sends its request into the refresh branch. */
  ghost predicate SomeWants(c: Client, events: seq<Event>)
    requires IsRun(c, events)
    decreases |events|
  {
    events != [] && (WantsRefresh(c, events[0]) || SomeWants(Step(c, events[0]), events[1..]))
  }

  // After the first 401 of a round and before its first `finally`: the round's
  // refresh is number n, and everybody waiting waits for it.
  predicate Shared(c: Client, n: nat)
  {
    && |c.refreshes| == n + 1 && c.refreshing && c.refreshPromise == Some(n)
    && (forall q | q in c.requests && q.Waiting? :: q.refresh == n)
  }

  lemma StepShared(c: Client, e: Event, n: nat)
    requires Shared(c, n) && Enabled(c, e) && !RunsFinally(c, e)
    ensures Shared(Step(c, e), n)
  {
    var d := Step(c, e);
    forall q | q in d.requests && q.Waiting? ensures q.refresh == n {
      var x :| 0 <= x < |d.requests| && d.requests[x] == q;
      assert x < |c.requests| ==> c.requests[x] in c.requests;
    }
  }

  lemma {:induction false} RunShared(c: Client, events: seq<Event>, n: nat)
    requires IsRun(c, events) && Shared(c, n) && NoFinally(c, events)
    ensures Shared(Run(c, events), n)
    decreases |events|
  {
    hide Shared, Step, Enabled, RunsFinally;
    if events != [] {
      StepShared(c, events[0], n);
      RunShared(Step(c, events[0]), events[1..], n);
    }
  }

  lemma CalmStep(c: Client, e: Event)
    requires Sound(c) && Calm(c) && Enabled(c, e)
    ensures !RunsFinally(c, e)
    ensures WantsRefresh(c, e) ==> Shared(Step(c, e), |c.refreshes|)
    ensures !WantsRefresh(c, e) ==> Calm(Step(c, e)) && |Step(c, e).refreshes| == |c.refreshes|
  {
    var d := Step(c, e);
    forall q | q in d.requests && (q.Waiting? || q.Retrying?)
      ensures WantsRefresh(c, e) && q == Waiting(|c.refreshes|)
    {
      var x :| 0 <= x < |d.requests| && d.requests[x] == q;
      assert x < |c.requests| ==> c.requests[x] in c.requests;
    }
  }

  /** From a state in which nobody waits or retries until the first `finally`, exactly
      one refresh is sent if any response wants one, however many do and however
      they interleave; otherwise none. */
  lemma {:induction false} OneRefresh(c: Client, events: seq<Event>)
    requires Sound(c) && Calm(c) && IsRun(c, events) && NoFinally(c, events)
    ensures |Run(c, events).refreshes| == |c.refreshes| + if SomeWants(c, events) then 1 else 0
    decreases |events|
  {
    hide Sound, Calm, Step, Enabled, RunsFinally, WantsRefresh;
    if events != [] {
      var d := Step(c, events[0]);
      CalmStep(c, events[0]);
      StepSound(c, events[0]);
      if WantsRefresh(c, events[0]) {
        RunShared(d, events[1..], |c.refreshes|);
      } else {
        OneRefresh(d, events[1..]);
      }
    }
  }

  // ---- After a failed refresh ----------------------------------------------------------

  // The round of refresh n: it is awaited; or it failed and either everybody still
  // waits for it or the tokens are gone; or it succeeded.
  predicate Round(c: Client, n: nat)
  {
    && |c.refreshes| > n
    && (c.refreshes[n].InFlight() ==> Shared(c, n) && Retrying !in c.requests)
    && (c.refreshes[n].Rejected? ==>
          && |c.refreshes| == n + 1
          && (c.refreshToken.None? || (Shared(c, n) && Retrying !in c.requests)))
  }

  predicate EarlierSettled(c: Client, n: nat)
  {
    forall k: nat | k < n && k < |c.refreshes| :: !c.refreshes[k].InFlight()
  }

  /** New tokens are set after refresh n has failed. */
  predicate LogsInAfter(c: Client, e: Event, n: nat)
  {
    e.SetTokens? && n < |c.refreshes| && c.refreshes[n].Rejected?
  }

  ghost predicate NoLoginAfter(c: Client, events: seq<Event>, n: nat)
    requires IsRun(c, events)
    decreases |events|
  {
    events == [] || (!LogsInAfter(c, events[0], n) && NoLoginAfter(Step(c, events[0]), events[1..], n))
  }

  lemma StepRound(c: Client, e: Event, n: nat)
    requires Round(c, n) && EarlierSettled(c, n) && Enabled(c, e) && !LogsInAfter(c, e, n)
    ensures Round(Step(c, e), n) && EarlierSettled(Step(c, e), n)
  {
    var d := Step(c, e);
    if !c.refreshes[n].Fulfilled? {
      if !RunsFinally(c, e) && Shared(c, n) { StepShared(c, e, n); }
      forall q | q in d.requests && q.Retrying? ensures q in c.requests || e.Resume? || c.refreshToken.Some? {
        var x :| 0 <= x < |d.requests| && d.requests[x] == q;
      }
      if e.Resume? || e.Retried? { assert c.requests[e.r] in c.requests; }
    }
  }

  lemma {:induction false} RunRound(c: Client, events: seq<Event>, n: nat)
    requires IsRun(c, events) && Round(c, n) && EarlierSettled(c, n) && NoLoginAfter(c, events, n)
    ensures Round(Run(c, events), n)
    decreases |events|
  {
    hide Round, EarlierSettled, Step, Enabled, LogsInAfter;
    if events != [] {
      StepRound(c, events[0], n);
      RunRound(Step(c, events[0]), events[1..], n);
    }
  }

  lemma SharedRound(c: Client, e: Event)
    requires Sound(c) && Calm(c) && Enabled(c, e) && WantsRefresh(c, e)
    ensures Round(Step(c, e), |c.refreshes|) && EarlierSettled(Step(c, e), |c.refreshes|)
  {
    CalmStep(c, e);
    var d := Step(c, e);
    forall q | q in d.requests ensures !q.Retrying? {
      var x :| 0 <= x < |d.requests| && d.requests[x] == q;
      assert x < |c.requests| ==> c.requests[x] in c.requests;
    }
  }

  /** Once the refresh of a round has failed, no other is sent, however the run goes
      on, unless somebody sets new tokens after it failed. */
  lemma {:induction false} FailedIsLast(c: Client, events: seq<Event>)
    requires Sound(c) && Calm(c) && IsRun(c, events) && NoLoginAfter(c, events, |c.refreshes|)
    ensures var n, d := |c.refreshes|, Run(c, events);
            |d.refreshes| > n && d.refreshes[n].Rejected? ==> |d.refreshes| == n + 1
    decreases |events|
  {
    if events != [] {
      hide Sound, Calm, Step, Enabled, WantsRefresh, EarlierSettled, LogsInAfter;
      var d := Step(c, events[0]);
      CalmStep(c, events[0]);
      StepSound(c, events[0]);
      if WantsRefresh(c, events[0]) {
        SharedRound(c, events[0]);
        RunRound(d, events[1..], |c.refreshes|);
      } else {
        FailedIsLast(d, events[1..]);
      }
    }
  }

  // ---- Where the sharing ends ------------------------------------------------------------

  /** Every refresh in flight is the one the next 401 would share. */
  predicate Tracked(c: Client)
  {
    forall k: nat | k < |c.refreshes| && c.refreshes[k].InFlight() :: c.refreshing && c.refreshPromise == Some(k)
  }

  predicate SomeInFlight(c: Client)
  {
    exists k: nat | k < |c.refreshes| :: c.refreshes[k].InFlight()
  }

  /** A step loses track of a refresh exactly when a request runs its `finally` while
      a refresh is in flight. */
  lemma TrackedIff(c: Client, e: Event)
    requires Sound(c) && Tracked(c) && Enabled(c, e)
    ensures Tracked(Step(c, e)) <==> !(RunsFinally(c, e) && SomeInFlight(c))
  {
    var d := Step(c, e);
    assert e.Respond? ==> forall k: nat | k < |c.refreshes| :: d.refreshes[k] == c.refreshes[k];
    if SomeInFlight(c) && RunsFinally(c, e) {
      var k: nat :| k < |c.refreshes| && c.refreshes[k].InFlight();
      assert d.refreshes[k].InFlight();
    }
  }

  /** While refreshes are tracked, one is sent only when none is in flight. */
  lemma TrackedSendsAlone(c: Client, e: Event)
    requires Tracked(c) && Enabled(c, e) && |Step(c, e).refreshes| > |c.refreshes|
    ensures !SomeInFlight(c)
  {
  }

  /** After such a `finally`, the next response that wants a refresh sends a second one
      beside the one in flight. */
  lemma UntrackedOverlaps(c: Client, e: Event, next: Event)
    requires Sound(c) && Enabled(c, e) && RunsFinally(c, e) && SomeInFlight(c)
    requires Enabled(Step(c, e), next) && WantsRefresh(Step(c, e), next)
    ensures var d := Step(Step(c, e), next);
            exists j: nat, k: nat :: j < k < |d.refreshes| && d.refreshes[j].InFlight() && d.refreshes[k].InFlight()
  {
    var d := Step(Step(c, e), next);
    var j: nat :| j < |c.refreshes| && c.refreshes[j].InFlight();
    assert d.refreshes[j].InFlight() && d.refreshes[|c.refreshes|].InFlight();
  }

  ghost predicate FinallyAlone(c: Client, events: seq<Event>)
    requires IsRun(c, events)
    decreases |events|
  {
    events == []
    || (!(RunsFinally(c, events[0]) && SomeInFlight(c)) && FinallyAlone(Step(c, events[0]), events[1..]))
  }

  /** Over a whole run, two refreshes are never in flight together as long as no
      request runs its `finally` while one is. */
  lemma {:induction false} RunTracked(c: Client, events: seq<Event>)
    requires Sound(c) && Tracked(c) && IsRun(c, events) && FinallyAlone(c, events)
    ensures Tracked(Run(c, events))
    ensures var d := Run(c, events);
            forall j: nat, k: nat | j < |d.refreshes| && k < |d.refreshes| ::
              d.refreshes[j].InFlight() && d.refreshes[k].InFlight() ==> j == k
    decreases |events|
  {
    if events != [] {
      hide Sound, Step, Enabled, RunsFinally, SomeInFlight, Tracked;
      StepSound(c, events[0]);
      TrackedIff(c, events[0]);
      RunTracked(Step(c, events[0]), events[1..]);
    }
  }

  // Two requests share a refresh. The second one's `finally` comes after a third
  // request has started another refresh, and a fourth starts yet another.
  const OVERLAP: seq<Event> := [
    Start(false), Start(false), Respond(0, Some(401)), Respond(1, Some(401)),
    AnswerRefresh(0, true), ReadRefresh(0, Some((Some("a"), Some("r")))), Resume(0), Resume(1),
    Retried(0, Some(200)), Start(false), Respond(2, Some(401)), Retried(1, Some(200)),
    Start(false), Respond(3, Some(401))]

  lemma {:induction false} RunThen(c: Client, events: seq<Event>, e: Event)
    requires IsRun(c, events) && Enabled(Run(c, events), e)
    ensures IsRun(c, events + [e]) && Run(c, events + [e]) == Step(Run(c, events), e)
    decreases |events|
  {
    hide Enabled, Step;
    if events != [] {
      RunThen(Step(c, events[0]), events[1..], e);
      assert (events + [e])[1..] == events[1..] + [e];
    } else {
      assert ([e])[1..] == [];
    }
  }

  lemma Then(c: Client, events: seq<Event>, d: Client, e: Event)
    requires IsRun(c, events) && Run(c, events) == d && Enabled(d, e)
    ensures IsRun(c, events + [e]) && Run(c, events + [e]) == Step(d, e)
  {
    RunThen(c, events, e);
  }

  // The access token "a", the refresh token "r", and a promise when the flag is up.
  function With(promise: Option<nat>, requests: seq<Request>, refreshes: seq<Refresh>): Client
  {
    Client(Some("a"), Some("r"), promise.Some?, promise, requests, refreshes)
  }

  lemma TwoShare(c: Client) returns (events: seq<Event>)
    requires c == With(None, [], [])
    ensures events == OVERLAP[..4] && IsRun(c, events)
    ensures Run(c, events) == With(Some(0), [Waiting(0), Waiting(0)], [Asked])
  {
    events := [];
    Then(c, events, c, Start(false));
    events := events + [Start(false)];
    Then(c, events, With(None, [Sent(false)], []), Start(false));
    events := events + [Start(false)];
    Then(c, events, With(None, [Sent(false), Sent(false)], []), Respond(0, Some(401)));
    events := events + [Respond(0, Some(401))];
    assert [Sent(false), Sent(false)][0 := Waiting(0)] == [Waiting(0), Sent(false)];
    Then(c, events, With(Some(0), [Waiting(0), Sent(false)], [Asked]), Respond(1, Some(401)));
    events := events + [Respond(1, Some(401))];
  }

  lemma BothRetry(c: Client, before: seq<Event>) returns (events: seq<Event>)
    requires IsRun(c, before) && Run(c, before) == With(Some(0), [Waiting(0), Waiting(0)], [Asked])
    ensures events == before + OVERLAP[4..8] && IsRun(c, events)
    ensures Run(c, events) == With(Some(0), [Retrying, Retrying], [Fulfilled])
  {
    Then(c, before, With(Some(0), [Waiting(0), Waiting(0)], [Asked]), AnswerRefresh(0, true));
    events := before + [AnswerRefresh(0, true)];
    var read := ReadRefresh(0, Some((Some("a"), Some("r"))));
    Then(c, events, With(Some(0), [Waiting(0), Waiting(0)], [Answered]), read);
    events := events + [read];
    Then(c, events, With(Some(0), [Waiting(0), Waiting(0)], [Fulfilled]), Resume(0));
    events := events + [Resume(0)];
    Then(c, events, With(Some(0), [Retrying, Waiting(0)], [Fulfilled]), Resume(1));
    events := events + [Resume(1)];
  }

  lemma ThirdAsks(c: Client, before: seq<Event>) returns (events: seq<Event>)
    requires IsRun(c, before) && Run(c, before) == With(Some(0), [Retrying, Retrying], [Fulfilled])
    ensures events == before + OVERLAP[8..11] && IsRun(c, events)
    ensures Run(c, events) == With(Some(1), [Ended, Retrying, Waiting(1)], [Fulfilled, Asked])
  {
    Then(c, before, With(Some(0), [Retrying, Retrying], [Fulfilled]), Retried(0, Some(200)));
    events := before + [Retried(0, Some(200))];
    Then(c, events, With(None, [Ended, Retrying], [Fulfilled]), Start(false));
    events := events + [Start(false)];
    Then(c, events, With(None, [Ended, Retrying, Sent(false)], [Fulfilled]), Respond(2, Some(401)));
    events := events + [Respond(2, Some(401))];
  }

  lemma FourthAsks(c: Client, before: seq<Event>) returns (events: seq<Event>)
    requires IsRun(c, before)
    requires Run(c, before) == With(Some(1), [Ended, Retrying, Waiting(1)], [Fulfilled, Asked])
    ensures events == before + OVERLAP[11..14] && IsRun(c, events)
    ensures Run(c, events).refreshes == [Fulfilled, Asked, Asked]
  {
    Then(c, before, With(Some(1), [Ended, Retrying, Waiting(1)], [Fulfilled, Asked]), Retried(1, Some(200)));
    events := before + [Retried(1, Some(200))];
    Then(c, events, With(None, [Ended, Ended, Waiting(1)], [Fulfilled, Asked]), Start(false));
    events := events + [Start(false)];
    Then(c, events, With(None, [Ended, Ended, Waiting(1), Sent(false)], [Fulfilled, Asked]), Respond(3, Some(401)));
    events := events + [Respond(3, Some(401))];
  }

  /** The overlap is reachable: three calls to /auth/refresh, two of them in flight. */
  lemma OverlapHappens()
    ensures var c := Initial(Some("a"), Some("r"));
            IsRun(c, OVERLAP) && Run(c, OVERLAP).refreshes == [Fulfilled, Asked, Asked]
  {
    hide IsRun, Run;
    var c := Initial(Some("a"), Some("r"));
    var events := TwoShare(c);
    events := BothRetry(c, events);
    events := ThirdAsks(c, events);
    events := FourthAsks(c, events);
    assert events == OVERLAP;
  }
}
