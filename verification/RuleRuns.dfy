/** Runs in which a rule is silenced, loses its samples, or depends on the database's choice. */
module RuleRuns {
  import opened Prelude
  import opened Monitor
  import opened MonitorRuns
  import AlertEngine
  import DistinctOn

  const CPU := Rule(7, "cpu_high", Some(90.0), Some(">"), "high", true, 15)

  function Sample(server: nat, value: real, now: int): Metric { Metric(7, Some(server), "cpu_percent", value, now) }

  lemma OnlyRule(db: Db, now: int, answers: map<nat, seq<Metric>>)
    requires db.rules == map[0 := CPU] && db.nextRule == 1
    ensures EvaluateAll(db, now, answers) == EvaluateRule(db, now, 0, Answer(answers, 0))
  {
    hide EvaluateRule;
    assert EvaluateTo(db, now, answers, 0) == db;
  }

  lemma OneAlert(m: Metric, now: int)
    ensures RuleAlerts(CPU, 0, [m], now) == if m.value > 90.0 then [RuleAlert(CPU, 0, m, now)] else []
  {
    assert [m][..0] == [];
    assert RuleAlerts(CPU, 0, [], now) == [];
  }

  lemma OneLatest(m: Metric)
    ensures LatestRows([m]) == [m]
  {
    assert [m][..0] == [];
    assert DistinctOn.FirstOfRuns([], ServerKey) == [];
  }

  /** A pass over tables without alerts, when one row is left after DISTINCT ON. */
  lemma FirstPass(db: Db, now: int, answer: seq<Metric>, m: Metric)
    requires db.rules == map[0 := CPU] && db.nextRule == 1 && db.alerts == [] && LatestRows(answer) == [m]
    ensures Step(db, now, Evaluate(map[0 := answer]))
         == db.(alerts := if m.value > 90.0 then [RuleAlert(CPU, 0, m, now)] else [])
  {
    OnlyRule(db, now, map[0 := answer]);
    OneAlert(m, now);
    hide LatestRows, EvaluateAll, RuleAlerts;
    assert !InCooldown([], 0, CooldownStart(CPU, now));
    assert [] + RuleAlerts(CPU, 0, [m], now) == RuleAlerts(CPU, 0, [m], now);
  }

  // ---------------------------------------------------------------- one server

  /** The site of one server, with the rule, and what its plan, samples and alerts are. */
  function Ruled(orgs: map<nat, Org>, plans: map<nat, Plan>, metrics: seq<Metric>, alerts: seq<Alert>): Db
  {
    Site("online", 0, 0, alerts).(rules := map[0 := CPU], nextRule := 1, orgs := orgs, plans := plans,
                                  metrics := metrics)
  }

  const RULED: seq<Timed> := OPENING + [Timed(0, CreateRule(CPU))]

  lemma RuledStarts(run: seq<Timed>)
    requires RULED <= run
    ensures Leads(run, 3, Ruled(map[], map[], [], []))
  {
    assert OPENING <= run;
    SiteStarts(run);
    assert run[2] == RULED[2] && run[1] == RULED[1];
    Next(run, 2, Site("online", 0, 0, []));
    assert map[][0 := CPU] == map[0 := CPU];
  }

  lemma RuledIngests(orgs: map<nat, Org>, plans: map<nat, Plan>, points: seq<Point>)
    ensures Step(Ruled(orgs, plans, [], []), 0, IngestMetrics(2, points))
         == Ruled(orgs, plans, MetricRows(7, Some(0), points, 0), [])
  {
    assert AgentByToken(Ruled(orgs, plans, [], []).agents, 2) == Some(0);
    assert [] + MetricRows(7, Some(0), points, 0) == MetricRows(7, Some(0), points, 0);
  }

  lemma RuledFields(orgs: map<nat, Org>, plans: map<nat, Plan>, metrics: seq<Metric>, alerts: seq<Alert>)
    ensures var db := Ruled(orgs, plans, metrics, alerts);
      db.orgs == orgs && db.plans == plans && db.metrics == metrics && db.alerts == alerts &&
      db.rules == map[0 := CPU] && db.nextRule == 1
  {
  }

  // ---------------------------------------------------------------- a plan without retention days

  function NoDays(days: int): seq<Timed>
  {
    RULED + [Timed(0, SetPlan(0, Plan(days, days))), Timed(0, SetOrg(7, Org(true, Some(0)))),
             Timed(0, IngestMetrics(2, [Point("cpu_percent", 99.0, None)])), Timed(1, Cleanup)]
  }

  /** With a plan of no days, a cleanup takes away the sample for which the rule would have
      raised an alert at that instant. */
  lemma ZeroDaysRun(days: int)
    requires days <= 0
    ensures IsRun(NoDays(days)) && |NoDays(days)| == 7
    ensures var m := Sample(0, 99.0, 0);
      && FreshRows(StateAt(NoDays(days), 6).metrics, 7, "cpu_percent", 1 - FRESH_WINDOW) == [m]
      && Triggers(CPU, m.value)
      && StateAt(NoDays(days), 7).metrics == []
      && StateAt(NoDays(days), 6).rules == StateAt(NoDays(days), 7).rules == map[0 := CPU]
  {
    hide Step, Ruled, FreshRows;
    var run := NoDays(days);
    var m := Sample(0, 99.0, 0);
    var orgs, plans := map[7 := Org(true, Some(0))], map[0 := Plan(days, days)];
    RuledStarts(run);
    RuledSettings(days);
    Next(run, 3, Ruled(map[], map[], [], []));
    Next(run, 4, Ruled(map[], plans, [], []));
    RuledIngests(orgs, plans, [Point("cpu_percent", 99.0, None)]);
    assert MetricRows(7, Some(0), [Point("cpu_percent", 99.0, None)], 0) == [m];
    Next(run, 5, Ruled(orgs, plans, [], []));
    RuledCleanup(days);
    Next(run, 6, Ruled(orgs, plans, [m], []));
    RuledFields(orgs, plans, [m], []);
    RuledFields(orgs, plans, [], []);
    OneFresh(m, 1 - FRESH_WINDOW);
  }

  lemma RuledSettings(days: int)
    ensures var plan := Plan(days, days);
      && Step(Ruled(map[], map[], [], []), 0, SetPlan(0, plan)) == Ruled(map[], map[0 := plan], [], [])
      && Step(Ruled(map[], map[0 := plan], [], []), 0, SetOrg(7, Org(true, Some(0))))
           == Ruled(map[7 := Org(true, Some(0))], map[0 := plan], [], [])
  {
    assert map[][0 := Plan(days, days)] == map[0 := Plan(days, days)];
    assert map[][7 := Org(true, Some(0))] == map[7 := Org(true, Some(0))];
  }

  lemma RuledCleanup(days: int)
    requires days <= 0
    ensures var orgs, plans := map[7 := Org(true, Some(0))], map[0 := Plan(days, days)];
      Step(Ruled(orgs, plans, [Sample(0, 99.0, 0)], []), 1, Cleanup) == Ruled(orgs, plans, [], [])
  {
    var db := Ruled(map[7 := Org(true, Some(0))], map[0 := Plan(days, days)], [Sample(0, 99.0, 0)], []);
    assert days * DAY <= 0;
    assert MetricExpired(db, 1, Sample(0, 99.0, 0));
    assert KeptMetrics(db, 1, [Sample(0, 99.0, 0)]) == [];
  }

  lemma OneFresh(m: Metric, since: int)
    requires MatchesRule(m, 7, "cpu_percent", since)
    ensures FreshRows([m], 7, "cpu_percent", since) == [m]
  {
  }

  // ---------------------------------------------------------------- samples that tie

  const HIGH := Sample(0, 99.0, 0)
  const LOW := Sample(0, 10.0, 0)

  function Tied(answer: seq<Metric>): seq<Timed>
  {
    RULED + [Timed(0, IngestMetrics(2, [Point("cpu_percent", 99.0, None), Point("cpu_percent", 10.0, None)])),
             Timed(0, Evaluate(map[0 := answer]))]
  }

  lemma TiedRows()
    ensures var points := [Point("cpu_percent", 99.0, None), Point("cpu_percent", 10.0, None)];
      MetricRows(7, Some(0), points, 0) == [HIGH, LOW]
    ensures FreshRows([HIGH, LOW], 7, "cpu_percent", 0 - FRESH_WINDOW) == [HIGH, LOW]
  {
    OneFresh(LOW, 0 - FRESH_WINDOW);
    assert [HIGH, LOW][1..] == [LOW];
  }

  lemma TiedAnswer(answer: seq<Metric>)
    requires answer == [HIGH, LOW] || answer == [LOW, HIGH]
    ensures ValidAnswers(Ruled(map[], map[], [HIGH, LOW], []), 0, map[0 := answer])
    ensures LatestRows(answer) == answer[..1]
  {
    TiedRows();
    assert multiset([HIGH, LOW]) == multiset(answer);
    assert DistinctOn.FirstOfRuns(answer[..1], ServerKey) == answer[..1];
    assert answer[..1][..0] == [];
  }

  lemma TiedEvaluates(answer: seq<Metric>)
    requires answer == [HIGH, LOW] || answer == [LOW, HIGH]
    ensures Step(Ruled(map[], map[], [HIGH, LOW], []), 0, Evaluate(map[0 := answer])).alerts
         == if answer[0] == HIGH then [RuleAlert(CPU, 0, HIGH, 0)] else []
  {
    TiedAnswer(answer);
    RuledFields(map[], map[], [HIGH, LOW], []);
    assert answer[..1] == [answer[0]];
    hide Step, LatestRows;
    FirstPass(Ruled(map[], map[], [HIGH, LOW], []), 0, answer, answer[0]);
  }

  /** Two newest samples of one server carry the same time stamp. Whether the rule alerts is the
      database's choice: both orders are allowed, and they differ in the outcome. */
  lemma TiedRuns()
    ensures IsRun(Tied([HIGH, LOW])) && |StateAt(Tied([HIGH, LOW]), 5).alerts| == 1
    ensures IsRun(Tied([LOW, HIGH])) && |StateAt(Tied([LOW, HIGH]), 5).alerts| == 0
  {
    TiedRun([HIGH, LOW]);
    TiedRun([LOW, HIGH]);
  }

  lemma TiedRun(answer: seq<Metric>)
    requires answer == [HIGH, LOW] || answer == [LOW, HIGH]
    ensures IsRun(Tied(answer)) && |Tied(answer)| == 5
    ensures StateAt(Tied(answer), 5).alerts == if answer[0] == HIGH then [RuleAlert(CPU, 0, HIGH, 0)] else []
  {
    hide Step, Ruled, ValidAnswers;
    RuledStarts(Tied(answer));
    TiedRows();
    RuledIngests(map[], map[], [Point("cpu_percent", 99.0, None), Point("cpu_percent", 10.0, None)]);
    Next(Tied(answer), 3, Ruled(map[], map[], [], []));
    TiedAnswer(answer);
    Next(Tied(answer), 4, Ruled(map[], map[], [HIGH, LOW], []));
    TiedEvaluates(answer);
  }

  // ---------------------------------------------------------------- two servers

  const WEB := Sample(0, 99.0, 0)
  const APP := Sample(1, 99.0, MINUTE)

  /** Two servers of the organization, the rule, and their samples and alerts. */
  function Pair(appSeen: int, metrics: seq<Metric>, alerts: seq<Alert>): Db
  {
    EMPTY_DB.(servers := [Server(7, "web", "prod", "online", Some(0)),
                          Server(7, "app", "prod", "online", Some(appSeen))],
              agents := [Agent(0, 7, 2, true, Some(0)), Agent(1, 7, 4, true, Some(0))],
              regTokens := [RegToken(7, 1, "prod", true, Some(0), REG_TOKEN_LIFETIME),
                            RegToken(7, 3, "prod", true, Some(1), REG_TOKEN_LIFETIME)],
              issued := {2, 4}, rules := map[0 := CPU], nextRule := 1, metrics := metrics, alerts := alerts)
  }

  const SILENCED: seq<Timed> :=
    OPENING + [Timed(0, IssueRegToken(7, 3, "prod")), Timed(0, Register(3, "app", 4)), Timed(0, CreateRule(CPU)),
               Timed(0, IngestMetrics(2, [Point("cpu_percent", 99.0, None)])), Timed(0, Evaluate(map[0 := [WEB]])),
               Timed(MINUTE, IngestMetrics(4, [Point("cpu_percent", 99.0, None)])),
               Timed(MINUTE, Evaluate(map[0 := [WEB, APP]]))]

  lemma PairStarts()
    ensures Leads(SILENCED, 5, Pair(0, [], []))
  {
    assert OPENING <= SILENCED;
    SiteStarts(SILENCED);
    var one := Site("online", 0, 0, []);
    Next(SILENCED, 2, one);
    var two := Step(one, 0, IssueRegToken(7, 3, "prod"));
    Next(SILENCED, 3, two);
    PairRegisters(two);
    Next(SILENCED, 4, Step(two, 0, Register(3, "app", 4)));
    assert map[][0 := CPU] == map[0 := CPU];
  }

  lemma PairRegisters(db: Db)
    requires db == Step(Site("online", 0, 0, []), 0, IssueRegToken(7, 3, "prod"))
    ensures Step(db, 0, Register(3, "app", 4)) == Pair(0, [], []).(rules := map[], nextRule := 0)
  {
    assert UnusedRegToken(db.regTokens, 3) == Some(1);
    assert ServerByName(db.servers, 7, "app").None?;
    assert AgentOfServer(db.agents, 1).None?;
  }

  lemma PairIngests(appSeen: int, metrics: seq<Metric>, alerts: seq<Alert>)
    ensures Step(Pair(0, [], []), 0, IngestMetrics(2, [Point("cpu_percent", 99.0, None)])) == Pair(0, [WEB], [])
    ensures Step(Pair(0, [WEB], alerts), MINUTE, IngestMetrics(4, [Point("cpu_percent", 99.0, None)]))
         == Pair(MINUTE, [WEB, APP], alerts)
  {
    assert AgentByToken(Pair(0, [], []).agents, 2) == Some(0);
    assert AgentByToken(Pair(0, [WEB], alerts).agents, 4) == Some(1);
    assert MetricRows(7, Some(0), [Point("cpu_percent", 99.0, None)], 0) == [WEB];
    assert MetricRows(7, Some(1), [Point("cpu_percent", 99.0, None)], MINUTE) == [APP];
    assert [] + [WEB] == [WEB] && [WEB] + [APP] == [WEB, APP];
  }

  lemma PairRows()
    ensures FreshRows([WEB], 7, "cpu_percent", 0 - FRESH_WINDOW) == [WEB]
    ensures FreshRows([WEB, APP], 7, "cpu_percent", MINUTE - FRESH_WINDOW) == [WEB, APP]
  {
    OneFresh(WEB, 0 - FRESH_WINDOW);
    OneFresh(APP, MINUTE - FRESH_WINDOW);
    assert [WEB, APP][1..] == [APP];
  }

  lemma PairAnswers(alerts: seq<Alert>)
    ensures ValidAnswers(Pair(0, [WEB], []), 0, map[0 := [WEB]])
    ensures ValidAnswers(Pair(MINUTE, [WEB, APP], alerts), MINUTE, map[0 := [WEB, APP]])
  {
    hide FreshRows;
    PairRows();
  }

  // The first pass alerts for the first server.
  lemma PairAlerts()
    ensures Step(Pair(0, [WEB], []), 0, Evaluate(map[0 := [WEB]])) == Pair(0, [WEB], [RuleAlert(CPU, 0, WEB, 0)])
  {
    OneLatest(WEB);
    FirstPass(Pair(0, [WEB], []), 0, [WEB], WEB);
  }

  // The second finds the rule in cooldown.
  lemma PairIsSilent()
    ensures var db := Pair(MINUTE, [WEB, APP], [RuleAlert(CPU, 0, WEB, 0)]);
      Step(db, MINUTE, Evaluate(map[0 := [WEB, APP]])) == db
  {
    var db := Pair(MINUTE, [WEB, APP], [RuleAlert(CPU, 0, WEB, 0)]);
    OnlyRule(db, MINUTE, map[0 := [WEB, APP]]);
    assert HoldsCooldown(db.alerts[0], 0, CooldownStart(CPU, MINUTE));
    hide EvaluateAll, LatestRows;
    assert db.alerts + [] == db.alerts;
  }

  lemma AppIsNewest()
    ensures AlertEngine.IsNewestSample([WEB, APP], CPU, MINUTE, 1, APP) && Triggers(CPU, APP.value)
  {
    hide FreshRows;
    PairRows();
  }

  /** A pass alerts for one server. A minute later another server's newest sample is over the
      threshold, but the rule is in cooldown for all servers: no alert is raised for it. */
  lemma SilencedRun()
    ensures IsRun(SILENCED)
    ensures var db := StateAt(SILENCED, 9);
      && AlertEngine.IsNewestSample(db.metrics, CPU, MINUTE, 1, APP) && Triggers(CPU, APP.value)
      && db.rules == map[0 := CPU] && db.alerts == [RuleAlert(CPU, 0, WEB, 0)]
  {
    hide Step, Pair, ValidAnswers, AlertEngine.IsNewestSample, Triggers;
    var alerts := [RuleAlert(CPU, 0, WEB, 0)];
    PairStarts();
    PairIngests(0, [], alerts);
    PairAnswers(alerts);
    PairAlerts();
    PairIsSilent();
    Next(SILENCED, 5, Pair(0, [], []));
    Next(SILENCED, 6, Pair(0, [WEB], []));
    Next(SILENCED, 7, Pair(0, [WEB], alerts));
    Next(SILENCED, 8, Pair(MINUTE, [WEB, APP], alerts));
    PairFields(MINUTE, [WEB, APP], alerts);
    AppIsNewest();
  }

  lemma PairFields(appSeen: int, metrics: seq<Metric>, alerts: seq<Alert>)
    ensures var db := Pair(appSeen, metrics, alerts);
      db.metrics == metrics && db.alerts == alerts && db.rules == map[0 := CPU]
  {
  }
}
