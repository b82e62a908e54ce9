/** One-time registration tokens, the upsert of servers and agents, and which agent tokens
    the API still recognises. */
module Registration {
  import opened Prelude
  import opened Monitor

  ghost predicate UniqueNames(servers: seq<Server>)
  {
    forall i, j :: 0 <= i < j < |servers| ==>
      servers[i].org != servers[j].org || servers[i].hostname != servers[j].hostname
  }

  /** At most one agent per server. */
  ghost predicate UniqueAgents(agents: seq<Agent>)
  {
    forall i, j :: 0 <= i < j < |agents| ==> agents[i].server != agents[j].server
  }

  ghost predicate UniqueAgentTokens(agents: seq<Agent>)
  {
    forall i, j :: 0 <= i < j < |agents| ==> agents[i].token != agents[j].token
  }

  ghost predicate UniqueRegTokens(tokens: seq<RegToken>)
  {
    forall i, j :: 0 <= i < j < |tokens| ==> tokens[i].token != tokens[j].token
  }

  ghost predicate Sound(db: Db)
  {
    && UniqueNames(db.servers)
    && UniqueAgents(db.agents)
    && UniqueAgentTokens(db.agents)
    && UniqueRegTokens(db.regTokens)
    && (forall i :: 0 <= i < |db.agents| ==>
          db.agents[i].isActive && db.agents[i].server < |db.servers| && db.agents[i].token in db.issued)
  }

  lemma SweepFrame(db: Db, now: int, n: nat)
    requires n <= |db.agents|
    ensures var r := SweepTo(db, now, n);
      |r.servers| == |db.servers| &&
      forall i :: 0 <= i < |r.servers| ==>
        r.servers[i].org == db.servers[i].org && r.servers[i].hostname == db.servers[i].hostname
  {
  }

  lemma RegisterKeepsNames(db: Db, now: int, regToken: nat, hostname: string, agentToken: nat)
    requires UniqueNames(db.servers)
    ensures UniqueNames(RegisterAgent(db, now, regToken, hostname, agentToken).servers)
  {
    var t := SpendableToken(db, now, regToken);
    if t.Some? {
      var found := ServerByName(db.servers, db.regTokens[t.value].org, hostname);
    }
  }

  lemma RegisterKeepsAgents(db: Db, now: int, regToken: nat, hostname: string, agentToken: nat)
    requires UniqueAgents(db.agents) && UniqueAgentTokens(db.agents) && agentToken !in db.issued
    requires forall i :: 0 <= i < |db.agents| ==> db.agents[i].token in db.issued
    ensures UniqueAgents(RegisterAgent(db, now, regToken, hostname, agentToken).agents)
    ensures UniqueAgentTokens(RegisterAgent(db, now, regToken, hostname, agentToken).agents)
  {
    var t := SpendableToken(db, now, regToken);
    if t.Some? {
      var sid := TargetServer(db, db.regTokens[t.value].org, hostname);
      var a := AgentOfServer(db.agents, sid);
    }
  }

  lemma RegisterSound(db: Db, now: int, regToken: nat, hostname: string, agentToken: nat)
    requires Sound(db) && agentToken !in db.issued
    ensures Sound(RegisterAgent(db, now, regToken, hostname, agentToken))
  {
    RegisterKeepsNames(db, now, regToken, hostname, agentToken);
    RegisterKeepsAgents(db, now, regToken, hostname, agentToken);
    var r := RegisterAgent(db, now, regToken, hostname, agentToken);
    assert UniqueRegTokens(r.regTokens);
    forall i | 0 <= i < |r.agents|
      ensures r.agents[i].isActive && r.agents[i].server < |r.servers| && r.agents[i].token in r.issued
    {
      if i < |db.agents| {
        assert db.agents[i].isActive && db.agents[i].server < |db.servers| && db.agents[i].token in db.issued;
      }
    }
  }

  lemma QuietStepSound(db: Db, now: int, e: Event)
    requires Sound(db) && !e.Register? && !e.Sweep? && !e.Heartbeat? && !e.IngestMetrics? && !e.IssueRegToken?
    ensures Sound(Step(db, now, e))
  {
    AgentFrame(db, now, e);
    hide Step;
  }

  lemma AgentStepSound(db: Db, now: int, e: Event)
    requires Sound(db) && (e.Heartbeat? || e.IngestMetrics?)
    ensures Sound(Step(db, now, e))
  {
    hide AgentByToken, SweepTo, EvaluateTo;
  }

  lemma IssueSound(db: Db, now: int, e: Event)
    requires Sound(db) && e.IssueRegToken? && ValidEvent(db, now, e)
    ensures Sound(Step(db, now, e))
  {
  }

  lemma StepSound(db: Db, now: int, e: Event)
    requires Sound(db) && ValidEvent(db, now, e)
    ensures Sound(Step(db, now, e))
  {
    match e
    case Register(regToken, hostname, agentToken) => RegisterSound(db, now, regToken, hostname, agentToken);
    case Sweep => SweepFrame(db, now, |db.agents|);
    case Heartbeat(_) => AgentStepSound(db, now, e);
    case IngestMetrics(_, _) => AgentStepSound(db, now, e);
    case IssueRegToken(_, _, _) => IssueSound(db, now, e);
    case _ => QuietStepSound(db, now, e);
  }

  /** In every reachable state (organization, hostname) and the agent of a server are unique,
      so no lookup by name, by server or by token can find two rows. */
  lemma {:induction false} ReachableSound(run: seq<Timed>, n: nat)
    requires IsRun(run) && n <= |run|
    ensures Sound(StateAt(run, n))
  {
    if n > 0 {
      ReachableSound(run, n - 1);
      assert ValidAt(run, n - 1);
      hide Step, Sound;
      StepSound(StateAt(run, n - 1), run[n - 1].now, run[n - 1].event);
    }
  }

  // ---------------------------------------------------------------- conservation

  /** The request is a registration that succeeds. */
  predicate Succeeds(db: Db, now: int, e: Event)
  {
    e.Register? && SpendableToken(db, now, e.regToken).Some?
  }

  ghost function Successes(run: seq<Timed>, n: nat): nat
    requires n <= |run|
  {
    if n == 0 then 0
    else Successes(run, n - 1) + (if Succeeds(StateAt(run, n - 1), run[n - 1].now, run[n - 1].event) then 1 else 0)
  }

  function UsedCount(tokens: seq<RegToken>): nat
  {
    if tokens == [] then 0
    else UsedCount(tokens[..|tokens| - 1]) + (if tokens[|tokens| - 1].isUsed then 1 else 0)
  }

  lemma {:induction false} UsedCountUpdate(tokens: seq<RegToken>, i: nat, row: RegToken)
    requires i < |tokens| && !tokens[i].isUsed && row.isUsed
    ensures UsedCount(tokens[i := row]) == UsedCount(tokens) + 1
  {
    var last := |tokens| - 1;
    if i == last {
      assert tokens[i := row][..last] == tokens[..last];
    } else {
      UsedCountUpdate(tokens[..last], i, row);
      assert tokens[i := row][..last] == tokens[..last][i := row];
    }
  }

  lemma UsedCountStep(db: Db, now: int, e: Event)
    ensures UsedCount(Step(db, now, e).regTokens) == UsedCount(db.regTokens) + if Succeeds(db, now, e) then 1 else 0
  {
    if e.Register? {
      var t := SpendableToken(db, now, e.regToken);
      if t.Some? {
        var r := RegisterAgent(db, now, e.regToken, e.hostname, e.agentToken);
        UsedCountUpdate(db.regTokens, t.value, r.regTokens[t.value]);
      }
    } else if e.IssueRegToken? {
      assert Step(db, now, e).regTokens[..|db.regTokens|] == db.regTokens;
    } else {
      AgentFrame(db, now, e);
    }
  }

  /** Used registration tokens and successful registrations are equally many. */
  lemma {:induction false} RegistrationsConserved(run: seq<Timed>, n: nat)
    requires IsRun(run) && n <= |run|
    ensures UsedCount(StateAt(run, n).regTokens) == Successes(run, n)
  {
    hide Step, Succeeds, ValidAt;
    if n > 0 {
      RegistrationsConserved(run, n - 1);
      UsedCountStep(StateAt(run, n - 1), run[n - 1].now, run[n - 1].event);
    }
  }

  ghost predicate Spent(db: Db, token: nat)
  {
    exists i :: 0 <= i < |db.regTokens| && db.regTokens[i].token == token && db.regTokens[i].isUsed
  }

  lemma StepKeepsSpent(db: Db, now: int, e: Event, token: nat)
    requires Spent(db, token)
    ensures Spent(Step(db, now, e), token)
  {
    AgentFrame(db, now, e);
    var i :| 0 <= i < |db.regTokens| && db.regTokens[i].token == token && db.regTokens[i].isUsed;
    var r := Step(db, now, e);
    assert r.regTokens[i].token == token && r.regTokens[i].isUsed;
  }

  lemma {:induction false} SpentForever(run: seq<Timed>, i: nat, j: nat, token: nat)
    requires i <= j <= |run| && Spent(StateAt(run, i), token)
    ensures Spent(StateAt(run, j), token)
  {
    hide Step, Spent;
    if i < j {
      SpentForever(run, i, j - 1, token);
      StepKeepsSpent(StateAt(run, j - 1), run[j - 1].now, run[j - 1].event, token);
    }
  }

  lemma SuccessSpends(db: Db, now: int, e: Event)
    requires Succeeds(db, now, e)
    ensures Spent(Step(db, now, e), e.regToken)
  {
    var t := SpendableToken(db, now, e.regToken).value;
    var r := Step(db, now, e);
    assert r.regTokens[t].token == e.regToken && r.regTokens[t].isUsed;
  }

  lemma SpentIsRefused(db: Db, now: int, token: nat)
    requires UniqueRegTokens(db.regTokens) && Spent(db, token)
    ensures SpendableToken(db, now, token).None?
  {
    var t := UnusedRegToken(db.regTokens, token);
  }

  /** No registration token is accepted twice. */
  lemma AcceptedOnce(run: seq<Timed>, i: nat, j: nat)
    requires IsRun(run) && i < j < |run|
    requires Succeeds(StateAt(run, i), run[i].now, run[i].event)
    requires run[j].event.Register? && run[j].event.regToken == run[i].event.regToken
    ensures !Succeeds(StateAt(run, j), run[j].now, run[j].event)
  {
    hide Step, ValidAt, Spent;
    var token := run[i].event.regToken;
    SuccessSpends(StateAt(run, i), run[i].now, run[i].event);
    SpentForever(run, i + 1, j, token);
    ReachableSound(run, j);
    SpentIsRefused(StateAt(run, j), run[j].now, token);
  }

  // ---------------------------------------------------------------- which agent tokens resolve

  /** The agent token that the last successful registration of a server handed out. */
  ghost function LatestToken(run: seq<Timed>, n: nat, server: nat): Option<nat>
    requires n <= |run|
  {
    if n == 0 then None
    else
      var db := StateAt(run, n - 1);
      var e := run[n - 1].event;
      if Succeeds(db, run[n - 1].now, e) && RegisteredServer(db, run[n - 1].now, e) == server
      then Some(e.agentToken)
      else LatestToken(run, n - 1, server)
  }

  function RegisteredServer(db: Db, now: int, e: Event): nat
    requires Succeeds(db, now, e)
  {
    TargetServer(db, db.regTokens[SpendableToken(db, now, e.regToken).value].org, e.hostname)
  }

  /** A step changes the token of an agent only by registering its server. */
  lemma AgentAfterStep(db: Db, now: int, e: Event, a: nat)
    requires UniqueAgents(db.agents) && a < |Step(db, now, e).agents|
    ensures var agents := Step(db, now, e).agents;
      if Succeeds(db, now, e) && RegisteredServer(db, now, e) == agents[a].server then agents[a].token == e.agentToken
      else a < |db.agents| && agents[a].server == db.agents[a].server && agents[a].token == db.agents[a].token
  {
    AgentFrame(db, now, e);
    if Succeeds(db, now, e) {
      var own := AgentOfServer(db.agents, RegisteredServer(db, now, e));
    } else if !e.Register? && !e.Heartbeat? {
      hide Step;
    }
  }

  lemma AgentsStay(db: Db, now: int, e: Event, server: nat)
    requires AgentOfServer(db.agents, server).Some? || (Succeeds(db, now, e) && RegisteredServer(db, now, e) == server)
    ensures AgentOfServer(Step(db, now, e).agents, server).Some?
  {
    var r := Step(db, now, e);
    var own := AgentOfServer(db.agents, server);
    assert r.agents[if own.Some? then own.value else |db.agents|].server == server;
  }

  lemma {:induction false} AgentHoldsLatest(run: seq<Timed>, n: nat, a: nat)
    requires IsRun(run) && n <= |run| && a < |StateAt(run, n).agents|
    ensures LatestToken(run, n, StateAt(run, n).agents[a].server) == Some(StateAt(run, n).agents[a].token)
  {
    hide Step;
    if n > 0 {
      ReachableSound(run, n - 1);
      var db, now, e := StateAt(run, n - 1), run[n - 1].now, run[n - 1].event;
      var server := Step(db, now, e).agents[a].server;
      AgentAfterStep(db, now, e, a);
      if !(Succeeds(db, now, e) && RegisteredServer(db, now, e) == server) {
        AgentHoldsLatest(run, n - 1, a);
      }
    }
  }

  lemma {:induction false} LatestHasAgent(run: seq<Timed>, n: nat, server: nat)
    requires n <= |run| && LatestToken(run, n, server).Some?
    ensures AgentOfServer(StateAt(run, n).agents, server).Some?
  {
    hide Step;
    if n > 0 {
      var db, now, e := StateAt(run, n - 1), run[n - 1].now, run[n - 1].event;
      if !(Succeeds(db, now, e) && RegisteredServer(db, now, e) == server) {
        LatestHasAgent(run, n - 1, server);
      }
      AgentsStay(db, now, e, server);
    }
  }

  /** Only the latest agent token issued for a server resolves, and it resolves to the agent
      of that server. */
  lemma ResolvesIffLatest(run: seq<Timed>, n: nat, token: nat, server: nat)
    requires IsRun(run) && n <= |run|
    ensures var agents := StateAt(run, n).agents;
      var a := AgentByToken(agents, token);
      (a.Some? && agents[a.value].server == server) <==> LatestToken(run, n, server) == Some(token)
  {
    hide Step;
    var agents := StateAt(run, n).agents;
    var a := AgentByToken(agents, token);
    ReachableSound(run, n);
    if a.Some? {
      AgentHoldsLatest(run, n, a.value);
    }
    if LatestToken(run, n, server) == Some(token) {
      LatestHasAgent(run, n, server);
      AgentHoldsLatest(run, n, AgentOfServer(agents, server).value);
    }
  }
}
