/** Runs of the monitoring tables that show where a plausible property fails. */
module MonitorRuns {
  import opened Prelude
  import opened Monitor
  import OfflineAlerts

  /** The first k events are those of a run, and lead to `db`. */
  ghost predicate Leads(run: seq<Timed>, k: nat, db: Db)
  {
    && k <= |run| && StateAt(run, k) == db
    && (forall i, j :: 0 <= i < j < k ==> run[i].now <= run[j].now)
    && (forall i :: 0 <= i < k ==> ValidAt(run, i))
  }

  lemma Start(run: seq<Timed>)
    ensures Leads(run, 0, EMPTY_DB)
  {
  }

  lemma Next(run: seq<Timed>, k: nat, db: Db)
    requires Leads(run, k, db) && k < |run| && ValidEvent(db, run[k].now, run[k].event)
    requires k > 0 ==> run[k - 1].now <= run[k].now
    ensures Leads(run, k + 1, Step(db, run[k].now, run[k].event))
  {
    hide Step, ValidEvent;
  }

  // ---------------------------------------------------------------- one server and its agent

  const LATE: nat := HEARTBEAT_TIMEOUT + 1

  /** Organization 7 with one server and its agent, registered at time 0. */
  function Site(status: string, lastSeen: int, stamp: int, alerts: seq<Alert>): Db
  {
    EMPTY_DB.(servers := [Server(7, "web", "prod", status, Some(lastSeen))],
              agents := [Agent(0, 7, 2, true, Some(stamp))],
              regTokens := [RegToken(7, 1, "prod", true, Some(0), REG_TOKEN_LIFETIME)],
              alerts := alerts, issued := {2})
  }

  const OPENING: seq<Timed> := [Timed(0, IssueRegToken(7, 1, "prod")), Timed(0, Register(1, "web", 2))]

  lemma SiteStarts(run: seq<Timed>)
    requires OPENING <= run
    ensures Leads(run, 2, Site("online", 0, 0, []))
  {
    assert run[0] == OPENING[0] && run[1] == OPENING[1];
    Start(run);
    Next(run, 0, EMPTY_DB);
    var db := Step(EMPTY_DB, 0, OPENING[0].event);
    Next(run, 1, db);
    assert UnusedRegToken(db.regTokens, 1) == Some(0);
  }

  lemma SiteSweep(status: string, lastSeen: int, stamp: int, alerts: seq<Alert>, now: int)
    requires stamp < now - HEARTBEAT_TIMEOUT
    ensures Step(Site(status, lastSeen, stamp, alerts), now, Sweep) ==
      if HasOpenOffline(alerts, 0) then Site(status, lastSeen, stamp, alerts)
      else Site("offline", lastSeen, stamp, alerts + [OfflineAlert(Agent(0, 7, 2, true, Some(stamp)), now)])
  {
    var db := Site(status, lastSeen, stamp, alerts);
    assert SweepTo(db, now, 0) == db;
    assert SweepAll(db, now) == SweepAgent(db, now, db.agents[0]);
  }

  lemma SiteBeats(status: string, lastSeen: int, stamp: int, alerts: seq<Alert>, now: int)
    ensures Step(Site(status, lastSeen, stamp, alerts), now, Heartbeat(2)) == Site("online", now, now, alerts)
  {
    assert AgentByToken(Site(status, lastSeen, stamp, alerts).agents, 2) == Some(0);
  }

  lemma SiteStatus(status: string, lastSeen: int, stamp: int, alerts: seq<Alert>, now: int, newStatus: string)
    requires alerts != [] && alerts[0].org == 7
    ensures Step(Site(status, lastSeen, stamp, alerts), now, SetAlertStatus(7, 3, 0, newStatus)) ==
            Site(status, lastSeen, stamp, alerts[0 := WithStatus(alerts[0], now, 3, newStatus)])
  {
  }

  lemma SiteFields(status: string, lastSeen: int, stamp: int, alerts: seq<Alert>)
    ensures var db := Site(status, lastSeen, stamp, alerts);
      && db.alerts == alerts && |db.servers| == 1 && db.servers[0].status == status
      && |db.agents| == 1 && db.agents[0] == Agent(0, 7, 2, true, Some(stamp))
  {
  }

  // The alert that the first sweep raises.
  const FIRST := OfflineAlert(Agent(0, 7, 2, true, Some(0)), LATE)

  lemma FirstIsOpen()
    ensures HasOpenOffline([FIRST], 0)
  {
    assert IsOpenOffline([FIRST][0], 0);
  }

  const STILL_ONLINE: seq<Timed> :=
    OPENING + [Timed(LATE, Sweep), Timed(LATE, Heartbeat(2)), Timed(2 * LATE, Sweep)]

  /** The agent falls silent, is reported, comes back, and falls silent again while the alert is
      still open: the second sweep leaves its server "online". */
  lemma StillOnlineRun()
    ensures IsRun(STILL_ONLINE)
    ensures var db := StateAt(STILL_ONLINE, 5);
      |db.servers| == 1 && |db.agents| == 1 && IsStale(db.agents[0], 2 * LATE) && db.servers[0].status == "online"
  {
    hide Step, Site, HasOpenOffline;
    SiteStarts(STILL_ONLINE);
    SiteSweep("online", 0, 0, [], LATE);
    assert !HasOpenOffline([], 0) by { NoneOpen(); }
    assert [] + [FIRST] == [FIRST];
    Next(STILL_ONLINE, 2, Site("online", 0, 0, []));
    SiteBeats("offline", 0, 0, [FIRST], LATE);
    Next(STILL_ONLINE, 3, Site("offline", 0, 0, [FIRST]));
    FirstIsOpen();
    SiteSweep("online", LATE, LATE, [FIRST], 2 * LATE);
    Next(STILL_ONLINE, 4, Site("online", LATE, LATE, [FIRST]));
    SiteFields("online", LATE, LATE, [FIRST]);
  }

  lemma NoneOpen()
    ensures !HasOpenOffline([], 0)
  {
  }

  const REOPENING: seq<Timed> :=
    OPENING + [Timed(LATE, Sweep), Timed(LATE, SetAlertStatus(7, 3, 0, "resolved")), Timed(LATE, Sweep),
               Timed(LATE, SetAlertStatus(7, 3, 0, "open"))]

  /** An alert is raised, resolved, raised again, and the first one set back to "open": the
      server has two open offline alerts. */
  lemma ReopeningRun()
    ensures IsRun(REOPENING) && !OfflineAlerts.OneOpen(StateAt(REOPENING, 6).alerts, 0)
  {
    hide Step, Site, HasOpenOffline;
    var settled := WithStatus(FIRST, LATE, 3, "resolved");
    var reopened := WithStatus(settled, LATE, 3, "open");
    SiteStarts(REOPENING);
    NoneOpen();
    SiteSweep("online", 0, 0, [], LATE);
    assert [] + [FIRST] == [FIRST] && [FIRST][0 := settled] == [settled] && [settled] + [FIRST] == [settled, FIRST];
    assert [settled, FIRST][0 := reopened] == [reopened, FIRST];
    Next(REOPENING, 2, Site("online", 0, 0, []));
    SiteStatus("offline", 0, 0, [FIRST], LATE, "resolved");
    Next(REOPENING, 3, Site("offline", 0, 0, [FIRST]));
    assert !HasOpenOffline([settled], 0) by { SettledIsNotOpen(settled); }
    SiteSweep("offline", 0, 0, [settled], LATE);
    Next(REOPENING, 4, Site("offline", 0, 0, [settled]));
    SiteStatus("offline", 0, 0, [settled, FIRST], LATE, "open");
    Next(REOPENING, 5, Site("offline", 0, 0, [settled, FIRST]));
    SiteFields("offline", 0, 0, [reopened, FIRST]);
    assert IsOpenOffline([reopened, FIRST][0], 0) && IsOpenOffline([reopened, FIRST][1], 0);
  }

  lemma SettledIsNotOpen(a: Alert)
    requires a.status != "open"
    ensures !HasOpenOffline([a], 0)
  {
  }

  const UNSTAMPED: seq<Timed> :=
    OPENING + [Timed(LATE, Sweep), Timed(LATE, SetAlertStatus(7, 3, 0, "resolved")),
               Timed(LATE, SetAlertStatus(7, 3, 0, "acknowledged"))]

  /** An alert that is acknowledged after it was resolved has no acknowledgement stamp. */
  lemma UnstampedRun()
    ensures IsRun(UNSTAMPED)
    ensures var alerts := StateAt(UNSTAMPED, 5).alerts;
      |alerts| == 1 && alerts[0].status == "acknowledged" && alerts[0].acknowledged.None?
  {
    hide Step, Site, HasOpenOffline;
    var settled := WithStatus(FIRST, LATE, 3, "resolved");
    SiteStarts(UNSTAMPED);
    NoneOpen();
    SiteSweep("online", 0, 0, [], LATE);
    assert [] + [FIRST] == [FIRST] && [FIRST][0 := settled] == [settled];
    Next(UNSTAMPED, 2, Site("online", 0, 0, []));
    SiteStatus("offline", 0, 0, [FIRST], LATE, "resolved");
    Next(UNSTAMPED, 3, Site("offline", 0, 0, [FIRST]));
    SiteStatus("offline", 0, 0, [settled], LATE, "acknowledged");
    Next(UNSTAMPED, 4, Site("offline", 0, 0, [settled]));
    SiteFields("offline", 0, 0, [settled][0 := WithStatus(settled, LATE, 3, "acknowledged")]);
  }
}
