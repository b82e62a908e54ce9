/** Retention cleanup deletes exactly what has expired, and as long as every plan keeps metrics
    for a day or more, nothing computed later can tell that it ran. */
module Retention {
  import opened Prelude
  import opened Monitor

  /** The rows behind the metrics summary of an organization, in table order. Unlike a rule's
      query it keeps rows without a server. */
  predicate MatchesSummary(m: Metric, org: nat, since: int)
  {
    && m.org == org && m.timestamp >= since
    && (m.name == "cpu_percent" || m.name == "memory_percent" || m.name == "disk_percent")
  }

  function SummaryRows(metrics: seq<Metric>, org: nat, since: int): (rows: seq<Metric>)
    ensures forall m :: m in rows <==> m in metrics && MatchesSummary(m, org, since)
  {
    if metrics == [] then []
    else
      var rest := SummaryRows(metrics[1..], org, since);
      if MatchesSummary(metrics[0], org, since) then [metrics[0]] + rest else rest
  }

  // ---------------------------------------------------------------- one cleanup

  /** A row is deleted exactly when it has expired, and every other row keeps its place. */
  lemma {:induction false} CleanupDeletesExactly(db: Db, now: int, metrics: seq<Metric>, m: Metric)
    ensures multiset(KeptMetrics(db, now, metrics))[m] == if MetricExpired(db, now, m) then 0 else multiset(metrics)[m]
  {
    if metrics != [] {
      CleanupDeletesExactly(db, now, metrics[1..], m);
      assert metrics == [metrics[0]] + metrics[1..];
    }
  }

  /** The same for log entries. */
  lemma {:induction false} CleanupDeletesLogsExactly(db: Db, now: int, logs: seq<LogEntry>, l: LogEntry)
    ensures multiset(KeptLogs(db, now, logs))[l] == if LogExpired(db, now, l) then 0 else multiset(logs)[l]
  {
    if logs != [] {
      CleanupDeletesLogsExactly(db, now, logs[1..], l);
      assert logs == [logs[0]] + logs[1..];
    }
  }

  lemma {:induction false} KeptWhenFresh(db: Db, now: int, metrics: seq<Metric>)
    requires forall m :: m in metrics ==> !MetricExpired(db, now, m)
    ensures KeptMetrics(db, now, metrics) == metrics
  {
    if metrics != [] { KeptWhenFresh(db, now, metrics[1..]); }
  }

  lemma {:induction false} KeptLogsWhenFresh(db: Db, now: int, logs: seq<LogEntry>)
    requires forall l :: l in logs ==> !LogExpired(db, now, l)
    ensures KeptLogs(db, now, logs) == logs
  {
    if logs != [] { KeptLogsWhenFresh(db, now, logs[1..]); }
  }

  /** A second cleanup at the same instant deletes nothing. */
  lemma CleanupIdempotent(db: Db, now: int)
    ensures CleanupAll(CleanupAll(db, now), now) == CleanupAll(db, now)
  {
    var r := CleanupAll(db, now);
    forall m | m in r.metrics ensures !MetricExpired(r, now, m) {
      assert !MetricExpired(db, now, m);
    }
    forall l | l in r.logs ensures !LogExpired(r, now, l) {
      assert !LogExpired(db, now, l);
    }
    KeptWhenFresh(r, now, r.metrics);
    KeptLogsWhenFresh(r, now, r.logs);
  }

  // ---------------------------------------------------------------- invisible to later queries

  ghost predicate SafePlans(plans: map<nat, Plan>)
  {
    forall p :: p in plans ==> plans[p].metricDays >= 1
  }

  lemma DaysCoverWindow(days: int, now: int, later: int)
    requires days >= 1 && now <= later
    ensures now - days * DAY <= later - FRESH_WINDOW
  {
    assert days * DAY >= DAY;
  }

  /** What the rule engine and the summary see of the metrics table from `since` on. */
  ghost predicate SameFresh(a: seq<Metric>, b: seq<Metric>, from: int)
  {
    && (forall org, name, since :: since >= from ==> FreshRows(a, org, name, since) == FreshRows(b, org, name, since))
    && (forall org, since :: since >= from ==> SummaryRows(a, org, since) == SummaryRows(b, org, since))
  }

  lemma {:induction false} KeptFreshRows(db: Db, now: int, metrics: seq<Metric>, org: nat, name: string, since: int)
    requires SafePlans(db.plans) && since >= now - FRESH_WINDOW
    ensures FreshRows(KeptMetrics(db, now, metrics), org, name, since) == FreshRows(metrics, org, name, since)
    ensures SummaryRows(KeptMetrics(db, now, metrics), org, since) == SummaryRows(metrics, org, since)
  {
    if metrics != [] {
      KeptFreshRows(db, now, metrics[1..], org, name, since);
      var m := metrics[0];
      if MetricExpired(db, now, m) {
        DaysCoverWindow(PlanOf(db.plans, db.orgs[m.org]).metricDays, now, now);
      } else {
        var rest := KeptMetrics(db, now, metrics[1..]);
        assert ([m] + rest)[1..] == rest;
      }
    }
  }

  /** With every plan at a day or more, a cleanup changes no row that a rule evaluation or a
      metrics summary at that instant or later selects. */
  lemma CleanupInvisible(db: Db, now: int, later: int)
    requires SafePlans(db.plans) && now <= later
    ensures SameFresh(CleanupAll(db, now).metrics, db.metrics, later - FRESH_WINDOW)
  {
    forall org, name, since | since >= later - FRESH_WINDOW
      ensures FreshRows(CleanupAll(db, now).metrics, org, name, since) == FreshRows(db.metrics, org, name, since)
    {
      KeptFreshRows(db, now, db.metrics, org, name, since);
    }
    forall org, since | since >= later - FRESH_WINDOW
      ensures SummaryRows(CleanupAll(db, now).metrics, org, since) == SummaryRows(db.metrics, org, since)
    {
      KeptFreshRows(db, now, db.metrics, org, "", since);
    }
  }

  // ---------------------------------------------------------------- invisible over whole runs

  /** The run with its cleanups left out. */
  ghost function UncleanedAt(run: seq<Timed>, n: nat): Db
    requires n <= |run|
  {
    if n == 0 then EMPTY_DB
    else if run[n - 1].event.Cleanup? then UncleanedAt(run, n - 1)
    else Step(UncleanedAt(run, n - 1), run[n - 1].now, run[n - 1].event)
  }

  /** Equal except for samples and log lines. */
  predicate SameButSamples(a: Db, b: Db)
  {
    a == b.(metrics := a.metrics, logs := a.logs)
  }

  lemma {:induction false} SweepSame(a: Db, b: Db, now: int, n: nat)
    requires SameButSamples(a, b) && n <= |a.agents|
    ensures SameButSamples(SweepTo(a, now, n), SweepTo(b, now, n))
  {
    if n > 0 { SweepSame(a, b, now, n - 1); }
  }

  lemma {:induction false} EvaluateSame(a: Db, b: Db, now: int, answers: map<nat, seq<Metric>>, n: nat)
    requires SameButSamples(a, b)
    ensures SameButSamples(EvaluateTo(a, now, answers, n), EvaluateTo(b, now, answers, n))
  {
    if n > 0 { EvaluateSame(a, b, now, answers, n - 1); }
  }

  lemma AgentStepSame(a: Db, b: Db, now: int, e: Event)
    requires SameButSamples(a, b)
    requires e.Register? || e.Heartbeat? || e.IngestMetrics? || e.IngestLogs? || e.IssueRegToken?
    ensures SameButSamples(Step(a, now, e), Step(b, now, e))
  {
  }

  lemma StepSame(a: Db, b: Db, now: int, e: Event)
    requires SameButSamples(a, b) && !e.Cleanup?
    ensures SameButSamples(Step(a, now, e), Step(b, now, e))
  {
    if e.Sweep? {
      SweepSame(a, b, now, |a.agents|);
    } else if e.Evaluate? {
      EvaluateSame(a, b, now, e.answers, a.nextRule);
    } else if e.Register? || e.Heartbeat? || e.IngestMetrics? || e.IngestLogs? || e.IssueRegToken? {
      AgentStepSame(a, b, now, e);
    }
  }

  lemma {:induction false} FreshAppend(a: seq<Metric>, b: seq<Metric>, org: nat, name: string, since: int)
    ensures FreshRows(a + b, org, name, since) == FreshRows(a, org, name, since) + FreshRows(b, org, name, since)
    ensures SummaryRows(a + b, org, since) == SummaryRows(a, org, since) + SummaryRows(b, org, since)
  {
    if a == [] {
      assert a + b == b;
    } else {
      assert (a + b)[1..] == a[1..] + b;
      FreshAppend(a[1..], b, org, name, since);
    }
  }

  lemma AppendSameFresh(a: seq<Metric>, b: seq<Metric>, c: seq<Metric>, from: int)
    requires SameFresh(a, b, from)
    ensures SameFresh(a + c, b + c, from)
  {
    forall org, name, since | since >= from
      ensures FreshRows(a + c, org, name, since) == FreshRows(b + c, org, name, since)
    {
      FreshAppend(a, c, org, name, since);
      FreshAppend(b, c, org, name, since);
    }
    forall org, since | since >= from ensures SummaryRows(a + c, org, since) == SummaryRows(b + c, org, since) {
      FreshAppend(a, c, org, "", since);
      FreshAppend(b, c, org, "", since);
    }
  }

  /** The rows one event appends to the metrics table. */
  function AddedMetrics(db: Db, now: int, e: Event): seq<Metric>
  {
    if e.NodeMetrics? then MetricRows(e.org, None, e.points, now)
    else if e.IngestMetrics? then
      var a := AgentByToken(db.agents, e.token);
      if a.None? || db.agents[a.value].server >= |db.servers| then []
      else MetricRows(db.servers[db.agents[a.value].server].org, Some(db.agents[a.value].server), e.points, now)
    else []
  }

  lemma StepAdds(db: Db, now: int, e: Event)
    requires !e.Cleanup?
    ensures Step(db, now, e).metrics == db.metrics + AddedMetrics(db, now, e)
  {
    SampleFrame(db, now, e);
    if !e.IngestMetrics? && !e.NodeMetrics? {
      hide Step;
    }
  }

  lemma StepSameFresh(a: Db, b: Db, now: int, e: Event, from: int)
    requires SameButSamples(a, b) && SameFresh(a.metrics, b.metrics, from) && !e.Cleanup?
    ensures SameFresh(Step(a, now, e).metrics, Step(b, now, e).metrics, from)
  {
    StepAdds(a, now, e);
    StepAdds(b, now, e);
    hide Step, SameFresh;
    assert AddedMetrics(a, now, e) == AddedMetrics(b, now, e);
    AppendSameFresh(a.metrics, b.metrics, AddedMetrics(a, now, e), from);
  }

  lemma SameFreshLater(a: seq<Metric>, b: seq<Metric>, from: int, later: int)
    requires SameFresh(a, b, from) && from <= later
    ensures SameFresh(a, b, later)
  {
  }

  lemma SameFreshTrans(a: seq<Metric>, b: seq<Metric>, c: seq<Metric>, from: int)
    requires SameFresh(a, b, from) && SameFresh(b, c, from)
    ensures SameFresh(a, c, from)
  {
    forall org, name, since | since >= from ensures FreshRows(a, org, name, since) == FreshRows(c, org, name, since) {
      assert FreshRows(a, org, name, since) == FreshRows(b, org, name, since);
    }
    forall org, since | since >= from ensures SummaryRows(a, org, since) == SummaryRows(c, org, since) {
      assert SummaryRows(a, org, since) == SummaryRows(b, org, since);
    }
  }

  ghost predicate AllPlansSafe(run: seq<Timed>)
  {
    forall k :: 0 <= k < |run| ==> (run[k].event.SetPlan? ==> run[k].event.plan.metricDays >= 1)
  }

  lemma {:induction false} PlansStaySafe(run: seq<Timed>, n: nat)
    requires n <= |run| && AllPlansSafe(run)
    ensures SafePlans(StateAt(run, n).plans)
  {
    if n > 0 {
      PlansStaySafe(run, n - 1);
      OrgFrame(StateAt(run, n - 1), run[n - 1].now, run[n - 1].event);
      if !run[n - 1].event.SetPlan? {
        hide Step;
      }
    }
  }

  /** The clock after n events. */
  function ClockAt(run: seq<Timed>, n: nat): int
    requires n <= |run|
  {
    if run == [] then 0 else if n == 0 then run[0].now else run[n - 1].now
  }

  lemma CleanupStep(a: Db, b: Db, now: int)
    requires SafePlans(a.plans) && SameButSamples(a, b) && SameFresh(a.metrics, b.metrics, now - FRESH_WINDOW)
    ensures SameButSamples(CleanupAll(a, now), b)
    ensures SameFresh(CleanupAll(a, now).metrics, b.metrics, now - FRESH_WINDOW)
  {
    CleanupInvisible(a, now, now);
    SameFreshTrans(CleanupAll(a, now).metrics, a.metrics, b.metrics, now - FRESH_WINDOW);
  }

  lemma ErasableStep(a: Db, b: Db, now: int, e: Event, before: int)
    requires SafePlans(a.plans) && SameButSamples(a, b) && before <= now
    requires SameFresh(a.metrics, b.metrics, before - FRESH_WINDOW)
    ensures var r := if e.Cleanup? then b else Step(b, now, e);
      SameButSamples(Step(a, now, e), r) && SameFresh(Step(a, now, e).metrics, r.metrics, now - FRESH_WINDOW)
  {
    SameFreshLater(a.metrics, b.metrics, before - FRESH_WINDOW, now - FRESH_WINDOW);
    if e.Cleanup? {
      CleanupStep(a, b, now);
    } else {
      hide Step, SameFresh;
      StepSame(a, b, now, e);
      StepSameFresh(a, b, now, e, now - FRESH_WINDOW);
    }
  }

  lemma SameAsItself(db: Db, from: int)
    ensures SameButSamples(db, db) && SameFresh(db.metrics, db.metrics, from)
  {
  }

  /** Leaving the cleanups out of a run changes nothing but samples and log lines, and leaves
      every later rule query and metrics summary the same rows. */
  lemma {:induction false} CleanupErasable(run: seq<Timed>, n: nat)
    requires IsRun(run) && n <= |run| && AllPlansSafe(run)
    ensures SameButSamples(StateAt(run, n), UncleanedAt(run, n))
    ensures SameFresh(StateAt(run, n).metrics, UncleanedAt(run, n).metrics, ClockAt(run, n) - FRESH_WINDOW)
  {
    hide Step, SameFresh, SameButSamples, SafePlans, ValidAt;
    if n == 0 {
      SameAsItself(EMPTY_DB, ClockAt(run, n) - FRESH_WINDOW);
    } else {
      assert ClockAt(run, n - 1) <= run[n - 1].now;
      CleanupErasable(run, n - 1);
      PlansStaySafe(run, n - 1);
      ErasableStep(StateAt(run, n - 1), UncleanedAt(run, n - 1), run[n - 1].now, run[n - 1].event, ClockAt(run, n - 1));
    }
  }

  /** So a rule query that is answered in the run is answered the same way without cleanups. */
  lemma AnswersSurviveCleanup(run: seq<Timed>, n: nat, ruleId: nat, answer: seq<Metric>)
    requires IsRun(run) && n < |run| && AllPlansSafe(run) && ruleId in StateAt(run, n).rules
    ensures ruleId in UncleanedAt(run, n).rules
    ensures IsRuleAnswer(StateAt(run, n).metrics, StateAt(run, n).rules[ruleId], run[n].now, answer) <==>
            IsRuleAnswer(UncleanedAt(run, n).metrics, UncleanedAt(run, n).rules[ruleId], run[n].now, answer)
  {
    CleanupErasable(run, n);
    assert ClockAt(run, n) <= run[n].now;
    hide StateAt, UncleanedAt;
  }
}
