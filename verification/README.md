# InfraPulse AI: verified models

InfraPulse AI is a monitoring platform: agents on servers send heartbeats, metrics and log
lines to a FastAPI backend, Celery workers raise alerts and delete old rows, a poller mirrors
Proxmox clusters, and a browser client shows the result. This project models the parts that
carry state over time and proves properties of whole runs of them.

| part | files |
|---|---|
| monitoring tables, requests and passes; the handlers in place | `Monitor.dfy`, `MonitorStore.dfy` |
| what each request and pass leaves behind | `HandlerLaws.dfy`, `RuleLaws.dfy` |
| tenant coherence, registration | `Tenancy.dfy`, `Registration.dfy` |
| rule engine, cooldown, `DISTINCT ON` | `AlertEngine.dfy`, `Cooldown.dfy`, `DistinctOn.dfy` |
| heartbeat sweep, agent loop, the timed protocol between them | `OfflineAlerts.dfy`, `AgentLoop.dfy`, `Liveness.dfy` |
| runs that break a plausible property | `MonitorRuns.dfy`, `RuleRuns.dfy`, `AccountRuns.dfy` |
| retention, dashboard figures | `Retention.dfy`, `MetricsSummary.dfy`, `AlertStats.dfy` |
| accounts, sessions, lockout, membership, slugs; the handlers in place | `Accounts.dfy`, `AccountStore.dfy`, `AccountLaws.dfy`, `Sessions.dfy`, `Lockout.dfy`, `Memberships.dfy`, `Slugs.dfy`, `Decimals.dfy` |
| Proxmox sync | `ProxmoxInventory.dfy`, `Upsert.dfy`, `ProxmoxSync.dfy` |
| redaction of secrets | `Redaction.dfy`, `RedactionKeeps.dfy`, `RedactionFixed.dfy`, `RedactionLaws.dfy`, `Text.dfy` |
| agent configuration file, log tail | `AgentConfig.dfy`, `LogTail.dfy`, `Text.dfy` |
| shared token refresh of the browser client | `ApiClient.dfy` |

## How the system is modelled

- Code that updates rows or fields is a class (`Store`, `InfraPulseAgent`, `AgentConfig`,
  `LogCollector`, `APIClient`) whose methods follow the source statement by statement and are
  proved equal to one step of a state machine over values. The properties are proved about every
  run of that machine, so they hold of every sequence of method calls.
- The functions of a state machine are tied to their meaning by laws that speak only of rows,
  fields, characters and literal values before and after a step: which statuses hold a cooldown,
  when a locked account refuses a password, which characters end a secret. They are in the
  `...Laws` modules, and for the browser client, the Proxmox sync and the agent beside the model.
- One request or worker pass is one serialised transaction at one clock reading, and a request
  that raises changes nothing (`backend/app/database.py:27-35`). Clock readings never go back.
  Time is a whole number of microseconds.
- Row ids are row numbers; rules, organizations and plans are keyed by number. A query without
  ORDER BY is read in table order. The order among rows with equal sort keys is the database's
  choice, so a rule query takes its ordered result as an input that must be a permutation of the
  matching rows, sorted by the query's keys; every such result is allowed.
- Generated tokens are fresh values, and hashing a token or a password is the identity: two
  hashes agree exactly when what was hashed agrees.
- What an inventory, a heartbeat that arrives, or an HTTP response contains is an input.

## Where an expected property fails

Each comes with the exact condition under which it holds and a run or an input that breaks it. The
runs start from empty tables.

- A sweep does not leave every stale server "offline": it skips a server that has an open offline
  alert before it sets the status (`OfflineAlerts.OfflineAfterSweepIff`, `MonitorRuns.StillOnlineRun`).
- A server can have two open offline alerts after a settled one is set back to "open", and in no
  other way (`OfflineAlerts.OneOpenUnlessReopened`, `MonitorRuns.ReopeningRun`).
- An acknowledged alert need not carry an acknowledgement stamp (`OfflineAlerts.AcknowledgedIff`,
  `MonitorRuns.UnstampedRun`).
- Cooldown is per rule, not per rule and server: a pass that alerts for one server silences the
  rule for all (`AlertEngine.PassCreatesExactly`, `RuleRuns.SilencedRun`). `ARCHITECTURE.md:140` has
  alerts resolved when their condition clears; the code never resolves one.
- With ties for the newest sample the database chooses which one the rule engine sees
  (`DistinctOn.DistinctOnIsLatestPerKey` describes the allowed choices exactly; `RuleRuns.TiedRuns`).
- A cleanup is invisible to later rule evaluations when every plan keeps a day or more
  (`Retention.CleanupInvisible`), and for no plan of fewer days (`RuleRuns.ZeroDaysRun`).
- The stored container count is always 0 (`ProxmoxInventory.ContainerCountIsZero`).
- A removed member who accepts a new invitation stays removed (`Memberships.AcceptActivatesIff`,
  `AccountRuns.RemovalRun`).
- The failed-login counter outlives the lock and a password reset, so after a lock a single further
  wrong password locks again (`Lockout.WrongPasswordLocksIff`, `Lockout.EachFailureLocksAgain`,
  `Lockout.ResetKeepsLock`, `AccountRuns.LockingRun`).
- A configuration whose server address ends in whitespace once its trailing slashes are gone does
  not survive being saved and loaded (`AgentConfig.LoadedRoundTrip`, `AgentConfig.AddressLosesSpace`).
- A refresh is shared only up to the first `finally`: a later one clears the flag while another
  refresh is in flight, and the next 401 sends a second (`ApiClient.TrackedIff`,
  `ApiClient.OverlapHappens`).
- A new log collector never returns a line (`LogTail.NothingIsCollected`).

Two further mismatches are kept as the code has them: `ARCHITECTURE.md:38` gives access tokens 15
minutes and refresh tokens 7 days where `backend/app/config.py:32-33` has 30 minutes and 30 days;
and the `load_high` rule reads `load_avg_1m` (`backend/app/workers/alert_processor.py:75`) while
the agent sends `load_average_1m` (`agent/infrapulse_agent.py:252`).

## Model

| member | source | states |
|---|---|---|
| Monitor.AgentByToken | backend/app/api/v1/agent.py:24-35 | an active agent that holds the token, and none only if no active agent holds it |
| Monitor.UnusedRegToken | backend/app/api/v1/agent.py:46-54 | an unused registration token of that value, and none only if there is none |
| Monitor.ServerByName | backend/app/api/v1/agent.py:59-65 | the server row of that name in that organization, and none only if there is none |
| AlertEngine.FreshRowsExactly | backend/app/workers/alert_processor.py:83-90 | the query selects every row of the organization and metric that has a server and is recent enough, with all its copies, and no other |
| Retention.CleanupDeletesLogsExactly | backend/app/workers/alert_processor.py:224-230 | each expired log entry is deleted with all its copies, every other one keeps its number of copies |
| MonitorStore.Store.constructor | backend/app/api/v1/agent.py:24-35 | a store starts with empty tables, the initial state of every run |
| MonitorStore.Store.RegisterAgent | backend/app/api/v1/agent.py:39-120 | the server is added or refreshed, its agent gets the new token, the registration token is spent; nothing changes for a token that is unknown, used or expired |
| MonitorStore.Store.AcceptHeartbeat | backend/app/api/v1/agent.py:124-142 | the agent's stamp and the server's status and time are set; nothing changes for a token that resolves to no active agent |
| MonitorStore.Store.IngestMetrics | backend/app/api/v1/agent.py:146-189 | one metric row per point, of the server and its organization, stamped with the point's time or now; the server is online |
| MonitorStore.Store.IngestLogs | backend/app/api/v1/agent.py:193-221 | one log row per line, of the server and its organization |
| MonitorStore.Store.CheckHeartbeats | backend/app/workers/alert_processor.py:132-181 | the loop over stale agents equals the sweep: status and alert are written only for a server without an open offline alert |
| MonitorStore.Store.EvaluateRule | backend/app/workers/alert_processor.py:46-124 | nothing in cooldown or for an unknown rule type; otherwise one alert per latest row that meets the operator |
| MonitorStore.Store.EvaluateAllRules | backend/app/workers/alert_processor.py:24-43 | every active rule is evaluated once, each seeing the alerts of the ones before |
| MonitorStore.Store.CleanupOrganization | backend/app/workers/alert_processor.py:202-230 | the deletes of one organization, with the cutoffs of its plan or the defaults |
| MonitorStore.Store.CleanupOldMetrics | backend/app/workers/alert_processor.py:189-232 | the loop over organizations, in any order, keeps exactly the rows that no active organization's cutoff removes |
| MonitorStore.Store.UpdateAlertStatus | backend/app/api/v1/alerts.py:160-182 | any status string is stored; only acknowledging an open alert and resolving stamp it; another organization's alert is refused |
| MonitorStore.Store.CreateIncident | backend/app/api/v1/incidents.py:40-67 | the incident is open and linked exactly to the listed alerts that exist in its organization |
| MonitorStore.Store.UpdateIncident | backend/app/api/v1/incidents.py:84-110 | the status is stored, and the first resolution is stamped |
| MonitorStore.Store.LinkAlert | backend/app/api/v1/incidents.py:114-129 | a link is added only between an incident and an alert of the caller's organization |
| HandlerLaws.RegistersIff | backend/app/api/v1/agent.py:45-111 | a known registration token is accepted exactly when it is unused and not past its expiry; what then becomes of the server, the agent and the token, and that nothing else changes |
| HandlerLaws.UnknownRegToken | backend/app/api/v1/agent.py:52-54 | an unknown registration token changes nothing |
| HandlerLaws.UnknownAgentToken | backend/app/api/v1/agent.py:24-35 | a heartbeat, samples or log lines with a token of no active agent change nothing |
| HandlerLaws.HeartbeatStamps | backend/app/api/v1/agent.py:129-142 | a heartbeat stamps its agent and brings its server online, and changes nothing else |
| HandlerLaws.SamplesAreStored | backend/app/api/v1/agent.py:152-175 | samples are appended in order, each for the agent's server and its organization, with their own time or the clock |
| HandlerLaws.LinesAreStored | backend/app/api/v1/agent.py:199-220 | so are log lines |
| HandlerLaws.CleanupKeeps | backend/app/workers/alert_processor.py:198-230 | a cleanup deletes a sample or log line exactly when its organization is active and it is older than the days of the plan, or 90 and 30 without one |
| HandlerLaws.StatusIsSet | backend/app/api/v1/alerts.py:167-181 | an alert takes any status of a caller of its organization; only acknowledging an open alert and resolving stamp it |
| HandlerLaws.RuleIsRevised | backend/app/api/v1/alerts.py:72-80 | an update sets exactly the fields it names, of a rule of the caller's organization |
| HandlerLaws.RuleIsRemoved | backend/app/api/v1/alerts.py:89-94 | deleting a rule takes it out of the table and out of the alerts that name it |
| HandlerLaws.IncidentIsOpened | backend/app/api/v1/incidents.py:46-65 | a new incident is open and linked to exactly the listed alerts of its organization |
| HandlerLaws.IncidentIsRevised | backend/app/api/v1/incidents.py:92-110 | an incident takes any status, and the first time it is resolved it is stamped |
| HandlerLaws.LinkIsAdded | backend/app/api/v1/incidents.py:121-129 | a link is added exactly between an incident and an alert of the caller's organization |
| Tenancy.NewAlertsFromFreshRows | backend/app/workers/alert_processor.py:83-123 | every alert a rule evaluation adds names the rule and comes from a fresh row of the rule's organization |
| Tenancy.StepCoherent | backend/app/api/v1/agent.py:59-105 | every request and pass keeps the tables coherent between organizations |
| Tenancy.ReachableCoherent | backend/app/api/v1/incidents.py:58-63 | in every reachable state agents, metrics, log entries and alerts have the organization of the server they name, alerts that of the rule they name, and every link joins rows of one organization |
| Registration.ReachableSound | backend/app/api/v1/agent.py:59-105 | in every reachable state (organization, hostname) is unique and a server has at most one agent |
| Registration.RegistrationsConserved | backend/app/api/v1/agent.py:45-111 | the number of used registration tokens equals the number of successful registrations of the run |
| Registration.SpentForever | backend/app/api/v1/agent.py:107-109 | a registration token that was spent stays spent |
| Registration.AcceptedOnce | backend/app/api/v1/agent.py:46-56 | no registration token is accepted twice in a run |
| Registration.AgentAfterStep | backend/app/api/v1/agent.py:92-105 | an agent's token changes only when its server is registered again |
| Registration.ResolvesIffLatest | backend/app/api/v1/agent.py:24-35 | a token resolves to an agent exactly when it is the latest issued for a server, and then to that server's agent |
| DistinctOn.RunsPickLatest | backend/app/workers/alert_processor.py:91-94 | the first of each run of the sorted rows is a latest row for every key, one per key |
| DistinctOn.EveryChoiceOccurs | backend/app/workers/alert_processor.py:91-94 | every choice of one latest row per key is the result of some order the database may deliver |
| DistinctOn.DistinctOnIsLatestPerKey | backend/app/workers/alert_processor.py:91-94 | so sorting and keeping first rows gives exactly the choices of one latest row per key |
| AlertEngine.PassCreatesExactly | backend/app/workers/alert_processor.py:24-124 | a pass creates for a rule and a server at most one alert: none when the rule is inactive, of unknown type or in cooldown, and otherwise one exactly when the newest fresh sample the database picked meets the operator |
| RuleLaws.SilentInCooldown | backend/app/workers/alert_processor.py:56-66 | while an alert of the rule with status "open" or "acknowledged" is no older than the cooldown, a pass adds none for the rule |
| RuleLaws.AlertsOutsideCooldown | backend/app/workers/alert_processor.py:50-123 | otherwise an active rule gets exactly one alert for a server whose newest sample of the last five minutes meets its operator, with the rule's and the sample's values, and none for one whose newest sample does not (samples that tie for newest agreeing on the value) |
| RuleLaws.QuietRule | backend/app/workers/alert_processor.py:33-90 | a pass adds nothing for a rule that is inactive or of a fifth type, and nothing for a server without a sample of the rule's metric in the last five minutes |
| AlertEngine.CooldownUnaffected | backend/app/workers/alert_processor.py:37-66 | the alerts of other rules in the same pass do not change whether a rule is in cooldown |
| RuleRuns.SilencedRun | backend/app/workers/alert_processor.py:56-66 | a run in which a pass alerts for one server and a minute later the rule stays silent for another whose newest sample is over the threshold |
| RuleRuns.TiedRuns | backend/app/workers/alert_processor.py:91-94 | two runs that differ only in the order of two samples with one time stamp, of which one ends with an alert and one without |
| AlertEngine.PassAdds | backend/app/workers/alert_processor.py:37-43 | a pass only appends alerts, open, stamped now and naming rules it evaluated |
| Cooldown.AlertsPersist | backend/app/api/v1/alerts.py:83-94 | alerts are never deleted, keep what they were created with, and lose their rule only when it is deleted |
| Cooldown.CreatedOutsideCooldown | backend/app/workers/alert_processor.py:56-66 | an alert that names a rule is only ever created by a pass, outside the rule's cooldown |
| Cooldown.CooldownSpacing | backend/app/workers/alert_processor.py:56-66 | two passes that both create alerts for a rule are more than its cooldown apart, or every alert of the first has left open and acknowledged |
| Cooldown.CooldownRate | backend/app/workers/alert_processor.py:96-123 | a window W in which the cooldown is constant and positive and no alert of the rule is settled holds at most 1 + W / cooldown of its alerts per server, whatever happens outside the window |
| RuleLaws.SweepReports | backend/app/workers/alert_processor.py:136-179 | a sweep adds one alert for a server and sets it "offline" exactly when an active agent of it has been silent for more than 300 seconds and no offline alert of it is open, and changes nothing else |
| OfflineAlerts.SweepEffect | backend/app/workers/alert_processor.py:142-179 | a sweep opens an alert and sets "offline" exactly for the servers with a stale agent and no open offline alert |
| OfflineAlerts.OfflineAfterSweepIff | backend/app/workers/alert_processor.py:163-166 | a server with a stale agent is "offline" after a sweep exactly when it had no open offline alert or was "offline" already |
| MonitorRuns.StillOnlineRun | backend/app/workers/alert_processor.py:163-166 | a run of five events after which a stale server is "online": alert, heartbeat, silence, sweep |
| OfflineAlerts.AcknowledgedIff | backend/app/api/v1/alerts.py:172-181 | setting "acknowledged" leaves a stamp exactly when the alert was open or had one |
| MonitorRuns.UnstampedRun | backend/app/api/v1/alerts.py:172-181 | a run after which an acknowledged alert has no acknowledgement stamp |
| OfflineAlerts.SweepIdempotent | backend/app/workers/alert_processor.py:155-164 | a second sweep at the same instant changes nothing |
| OfflineAlerts.StaleIsReported | backend/app/workers/alert_processor.py:150-178 | after a sweep every server with a stale agent has an open offline alert |
| OfflineAlerts.FreshIsNotReported | backend/app/workers/alert_processor.py:142-148 | a sweep creates no alert for a server none of whose agents is stale |
| OfflineAlerts.OneOpenUnlessReopened | backend/app/api/v1/alerts.py:171-181 | a request or pass takes a server from at most one open offline alert to more exactly when it re-opens a settled one beside an open one |
| OfflineAlerts.ReachableOneOpen | backend/app/workers/alert_processor.py:155-178 | in every run without re-opening, each server has at most one open offline alert |
| MonitorRuns.ReopeningRun | backend/app/api/v1/alerts.py:180-181 | a run of six events after which one server has two open offline alerts |
| AgentLoop.InfraPulseAgent.Run | agent/infrapulse_agent.py:534-555 | the loop sends heartbeats, metrics and logs in exactly the iterations in which their timers fire |
| AgentLoop.FiresRegularly | agent/infrapulse_agent.py:540-545 | a timer of a loop whose iterations are at most d apart fires at once, then at most interval + d apart |
| Liveness.AcceptedHeartbeat | backend/app/api/v1/agent.py:129-130 | an accepted heartbeat bounds the agent's stamp from below from then on |
| Liveness.StampGrows | backend/app/api/v1/agent.py:96-103 | the stamp of an agent never goes back |
| Liveness.RecentArrival | agent/infrapulse_agent.py:543-545 | at any time some heartbeat arrived within (k + 1) * (interval + d) + l, when at most k in a row are lost and the others arrive within l |
| Liveness.NoFalseOfflineAlert | backend/app/workers/alert_processor.py:136-148 | if (k + 1) * (interval + d) + l is within the timeout, no sweep of any run creates an offline alert for the agent's server |
| Liveness.BoundedDetection | backend/app/workers/alert_processor.py:142-178 | an agent silent since t has an open offline alert after some sweep by t + timeout + period |
| Retention.CleanupDeletesExactly | backend/app/workers/alert_processor.py:202-230 | each expired row is deleted with all its copies, every other row keeps its number of copies |
| Retention.CleanupIdempotent | backend/app/workers/alert_processor.py:202-230 | a second cleanup at the same instant deletes nothing |
| Retention.CleanupInvisible | backend/app/workers/alert_processor.py:213-222 | with every plan at a day or more, a cleanup leaves every rule query and summary query at that instant or later the same rows |
| Retention.CleanupErasable | backend/app/workers/alert_processor.py:189-232 | leaving all cleanups out of a run changes nothing but old samples and log lines: same servers, agents and alerts, and the same rows for every later query |
| Retention.AnswersSurviveCleanup | backend/app/workers/alert_processor.py:83-94 | a result is allowed for a rule query in a run exactly when it is allowed in the run without cleanups |
| RuleRuns.ZeroDaysRun | backend/app/workers/alert_processor.py:207-222 | for every plan of zero or fewer days a run in which a cleanup takes away a sample over an active rule's threshold |
| MetricsSummary.GetMetricsSummary | backend/app/api/v1/metrics.py:86-105 | the three buckets, averages and top lists of the summary, from the rows as delivered |
| MetricsSummary.BucketIsLatest | backend/app/api/v1/metrics.py:71-94 | a bucket holds one entry for each server with a sample in the last five minutes, and no other, with the value of a newest one |
| MetricsSummary.TopIsTop | backend/app/api/v1/metrics.py:102-104 | the slice of the sorted list holds five (or all) entries in descending order, and nothing left out is greater |
| MetricsSummary.FiguresAre | backend/app/api/v1/metrics.py:99-105 | the figures of a bucket are its average and its five greatest entries |
| MetricsSummary.AverageIs | backend/app/api/v1/metrics.py:94-96 | the average of nothing is 0, any other a tenth, at most half a tenth from the total divided by the number of entries |
| MetricsSummary.TotalAdds | backend/app/api/v1/metrics.py:96 | the total of one entry is its value, and the total of two lists one after the other the sum of their totals |
| MetricsSummary.MeanBounds | backend/app/api/v1/metrics.py:94-96 | the mean times the number of entries is their total, and it lies between any bounds of them |
| MetricsSummary.RoundTenthNear | backend/app/api/v1/metrics.py:96 | a rounded average is a tenth, at most half a tenth away, and even where two are equally near |
| MetricsSummary.GroupByName | backend/app/api/v1/metrics.py:49-59 | one series per metric name that occurs, names distinct, each the samples of that name in row order |
| AlertStats.GetAlertStats | backend/app/api/v1/alerts.py:200-206 | the totals per status, per severity and in all, added up from grouped rows |
| AlertStats.FiguresCountAlerts | backend/app/api/v1/alerts.py:194-204 | from any grouping these are the true numbers of the organization's alerts: none lost, none counted twice |
| AlertStats.FiguresAreSizes | backend/app/api/v1/alerts.py:194-206 | so they are the sizes of the sets of alerts of the organization with that status, with that severity, and in all |
| AccountStore.Store.Register | backend/app/api/v1/auth.py:44-133 | a new user, an organization with the first free slug, an owner membership and a session; nothing for a known email |
| AccountStore.Store.Login | backend/app/api/v1/auth.py:137-215 | the branches of a login in order: unknown, locked, wrong password (counted, locking from the fifth), inactive, success |
| AccountStore.Store.Refresh | backend/app/api/v1/auth.py:219-278 | the presented token is revoked and a new one continues its chain; nothing changes for a token that is unknown, revoked, expired or of an inactive user |
| AccountStore.Store.Logout | backend/app/api/v1/auth.py:282-298 | a token of the user is revoked |
| AccountStore.Store.ForgotPassword | backend/app/api/v1/auth.py:302-319 | a reset token for an active user of that email |
| AccountStore.Store.ResetPassword | backend/app/api/v1/auth.py:323-351 | the password is set, the reset token spent and every refresh token of the user revoked; the lockout stays |
| AccountStore.Store.Invite | backend/app/api/v1/organizations.py:82-101 | a pending invitation of the organization |
| AccountStore.Store.AcceptInvitation | backend/app/api/v1/auth.py:355-406 | a membership unless one exists, even a removed one; a new user only with password and full name; the invitation is spent |
| AccountStore.Store.RemoveMember | backend/app/api/v1/organizations.py:105-128 | a member other than oneself and an owner is made inactive |
| AccountStore.Store.UpdateMemberRole | backend/app/api/v1/organizations.py:132-153 | the role is set unless it would demote an owner |
| AccountLaws.RegistersNewEmail | backend/app/api/v1/auth.py:50-125 | registering an email nobody has adds a user, an organization with a slug of its own, the owner's membership and a token of thirty days; a known email changes nothing |
| AccountLaws.LockRefuses | backend/app/api/v1/auth.py:152-154 | while an account is locked, a login with any password, the right one included, changes nothing |
| AccountLaws.UnknownEmail | backend/app/api/v1/auth.py:147-150 | a login or a reset request for an email nobody has changes nothing |
| AccountLaws.LoginAdmitsIff | backend/app/api/v1/auth.py:152-206 | a login issues a token of thirty days, for that user, exactly when the password is the user's, the account is active and no lock holds; it then clears the counter and the lock |
| AccountLaws.WrongPasswordCounts | backend/app/api/v1/auth.py:156-165 | a wrong password counts one failure and from the fifth on locks for fifteen minutes; the right one of an inactive account changes nothing |
| AccountLaws.RefreshRotatesIff | backend/app/api/v1/auth.py:224-267 | a refresh token is accepted exactly when it is not revoked, not past its expiry and its user is active; it is revoked and its successor of thirty days continues the chain |
| AccountLaws.UnknownRefreshToken | backend/app/api/v1/auth.py:225-233 | an unknown refresh token changes nothing |
| AccountLaws.LogoutRevokesOwn | backend/app/api/v1/auth.py:287-297 | a logout revokes the token if it is the caller's, and nothing else |
| AccountLaws.ResetIsOffered | backend/app/api/v1/auth.py:307-319 | a reset token of two hours is given exactly to an active user of the email |
| AccountLaws.ReachableTokensDiffer | backend/app/api/v1/auth.py:328-335 | in every reachable state reset tokens differ from one another, and so do invitations |
| AccountLaws.ResetSetsPassword | backend/app/api/v1/auth.py:328-350 | a reset token is accepted exactly when it is unused and not past its expiry; the user has the new password and no live refresh token, and every other user, session and reset token is as before |
| AccountLaws.ResetPasswordWorks | backend/app/api/v1/auth.py:343-350 | after a reset exactly the new password logs the user in, once no lock holds |
| AccountLaws.InvitationIsSent | backend/app/api/v1/organizations.py:90-100 | an invitation is pending for seven days |
| AccountLaws.AcceptsIff | backend/app/api/v1/auth.py:361-406 | an invitation is accepted exactly when it is pending, not past its expiry, and its email is a user's or comes with a password and a name; which user and membership are then added |
| AccountLaws.RemovesIff | backend/app/api/v1/organizations.py:111-127 | a member is made inactive exactly when somebody else asks and the member is no owner |
| AccountLaws.RoleIsSetIff | backend/app/api/v1/organizations.py:138-151 | a role is set unless an owner would become anything else |
| AccountLaws.NoMembership | backend/app/api/v1/organizations.py:120-122 | without a membership neither request changes anything |
| Lockout.WrongPasswordLocksIff | backend/app/api/v1/auth.py:156-161 | a wrong password leaves the account locked exactly when it had at least four failures since the last success, and otherwise leaves the lock as it was |
| Lockout.EachFailureLocksAgain | backend/app/api/v1/auth.py:156-161 | after the first lock and until a success, every single wrong password locks for a full lockout again, however much time has passed |
| AccountRuns.LockingRun | backend/app/api/v1/auth.py:152-161 | a run in which a lock elapses and the sixth wrong password locks at once |
| Lockout.LockAdvances | backend/app/api/v1/auth.py:152-161 | n wrong passwords in an interval without success have moved the lock at least n - 4 lockouts past its start |
| Lockout.LockoutRate | backend/app/api/v1/auth.py:152-169 | an interval without a successful login of a user holds at most 5 + length / lockout verifications of a wrong password |
| Lockout.ResetKeepsLock | backend/app/api/v1/auth.py:343-350 | a password reset leaves counter and lock as they are |
| Sessions.ReachableChained | backend/app/api/v1/auth.py:224-267 | in every reachable state each login or registration chain has at most one live refresh token |
| Sessions.RevokedForever | backend/app/api/v1/auth.py:235-236 | a revoked token stays revoked |
| Sessions.RefreshedOnce | backend/app/api/v1/auth.py:224-236 | no refresh token is accepted twice in a run |
| Sessions.RefreshPreservesLive | backend/app/api/v1/auth.py:235-267 | a refresh, accepted or not, preserves the number of live tokens |
| Sessions.ResetEndsSessions | backend/app/api/v1/auth.py:346-350 | after a password reset the user has no live token until the next login |
| Memberships.ReachableSound | backend/app/api/v1/organizations.py:111-151 | over any interleaving every registered organization has an active owner, memberships are unique per organization and user, and emails and slugs are unique |
| Memberships.OwnersKept | backend/app/api/v1/organizations.py:123-149 | an active owner stays an active owner through every request |
| Memberships.AcceptActivatesIff | backend/app/api/v1/auth.py:370-404 | accepting an invitation leaves the invited person an active member exactly when a known user's membership was not removed before, or a new user gives password and full name |
| Memberships.RemovedStaysRemoved | backend/app/api/v1/auth.py:386-404 | a removed member who accepts a new invitation spends it and stays removed |
| AccountRuns.RemovalRun | backend/app/api/v1/auth.py:386-404 | some run ends with a valid invitation accepted in vain (six requests: the member joins, is removed, is invited again and accepts) |
| Slugs.FindSlug | backend/app/api/v1/auth.py:81-89 | the search ends after at most one probe more than there are slugs, with the first free candidate |
| Slugs.TakenAtLeast | backend/app/api/v1/auth.py:82-89 | if the first k candidates are taken, at least k slugs are taken |
| Slugs.CandidatesDiffer | backend/app/api/v1/auth.py:82-89 | no two candidates of the search are equal |
| Slugs.SlugBase | backend/app/api/v1/auth.py:81 | the first 40 characters of the lower-cased name, each kept if a slug allows it and a hyphen otherwise |
| Decimals.PrintInjective | backend/app/api/v1/auth.py:88 | different counters print differently |
| ProxmoxInventory.CollectFullInventory | backend/app/services/proxmox_service.py:122-195 | the loop puts every node with a name into nodes, its guests into vms and its containers into containers, in order |
| ProxmoxInventory.InventoryIsExact | backend/app/services/proxmox_service.py:135-189 | an inventory holds one entry for every node with a name and for every guest of such a node, with each figure in its own field, in the order of the answers, and no other |
| ProxmoxInventory.ContainerCountIsZero | backend/app/workers/proxmox_poller.py:54-56 | the count stored as container_count is always 0, and right exactly when there is no container |
| ProxmoxSync.Store.SyncNodes | backend/app/workers/proxmox_poller.py:59-109 | the loop over nodes updates or adds one row each and appends its metrics |
| ProxmoxSync.Store.SyncGuests | backend/app/workers/proxmox_poller.py:112-139 | the loop over guests, vms before containers, updates or adds one row each |
| ProxmoxSync.Store.SyncConnection | backend/app/workers/proxmox_poller.py:50-141 | the success path: the connection's fields and counts, its nodes, its guests and its metrics |
| ProxmoxSync.Store.Poll | backend/app/workers/proxmox_poller.py:45-141 | from the API's answers: the last node of each name and the last guest of each vmid, containers after VMs, are in the connection's rows with their figures, seen now; rows that the answers do not name and other connections' rows are as before; the counts of the connection; and the metrics added are those of the nodes |
| ProxmoxSync.SyncMetricsAre | backend/app/workers/proxmox_poller.py:88-109 | the metrics a sync adds are the CPU figure times 100 and the used share of memory of its entries, each for the row of its node, and no other |
| ProxmoxSync.MetricsGrowBy | backend/app/workers/proxmox_poller.py:88-109 | a sync appends one metric per node with a CPU figure and one per node with non-zero memory figures |
| ProxmoxSync.AsMapConcat | backend/app/workers/proxmox_poller.py:112 | a vmid listed as a VM and as a container ends up as the container |
| Upsert.PutView | backend/app/workers/proxmox_poller.py:60-84 | one iteration overrides one key of the connection's rows |
| Upsert.SyncIsOverride | backend/app/workers/proxmox_poller.py:58-84 | a sync is map override, last entry wins, and keys stay unique per connection |
| Upsert.SyncFrame | backend/app/workers/proxmox_poller.py:113-139 | rows keep their ids, keys and organization, rows of other connections are untouched, new rows belong to the connection |
| Upsert.SyncStores | backend/app/workers/proxmox_poller.py:60-84 | after a sync the last entry of every key is in the connection's row of that key, seen now |
| Upsert.SyncTouchesOnly | backend/app/workers/proxmox_poller.py:113-139 | rows of other connections and of keys that are not listed are as before, and every new row has a listed key |
| Upsert.SyncedRow | backend/app/workers/proxmox_poller.py:75-84 | an existing row holds the last inventory entry of its key, stamped now, or is unchanged if the inventory has none |
| Upsert.SyncTwice | backend/app/workers/proxmox_poller.py:113-139 | a second sync with the same inventory changes only time stamps |
| Redaction.RedactSensitiveData | backend/app/services/ai/prompts.py:110-127 | the loop over the pattern list applies the seven passes in order |
| Redaction.KeyMatches | backend/app/services/ai/prompts.py:114-118 | a key pattern matches exactly where the key, at least one separator and a value character follow one another |
| Redaction.KeyMatchIs | backend/app/services/ai/prompts.py:114-118 | a key's match ends where the value characters end that start at the last one the separators allow |
| Redaction.PemMatchIs | backend/app/services/ai/prompts.py:119 | a private key reaches from its begin marker to the end of the first end marker behind it |
| Redaction.MarkIs | backend/app/services/ai/prompts.py:119 | a marker is its literal, at least one capital letter or space, and five dashes, ignoring case |
| Redaction.Base64MatchIs | backend/app/services/ai/prompts.py:120 | a base64 match is a whole run of at least 40 characters with up to two equals signs behind it |
| Redaction.SubSplits | backend/app/services/ai/prompts.py:122-126 | a substitution copies the text up to the first match it changes, writes the mask and goes on behind the match; a base64 run of at most 50 characters is skipped without hiding a later match |
| RedactionKeeps.InertMask | backend/app/services/ai/prompts.py:114-120 | no key starts inside a mask, except a mask's own key at its start |
| RedactionKeeps.KeyAfter | backend/app/services/ai/prompts.py:114-126 | a key's own pass masks every occurrence with a value, and every other pass keeps them masked |
| RedactionFixed.PemAfter | backend/app/services/ai/prompts.py:119-126 | the private-key pass leaves no private key, and the base64 pass brings none back |
| RedactionFixed.Base64After | backend/app/services/ai/prompts.py:120-126 | the base64 pass leaves no run of more than 50 characters |
| RedactionFixed.PassCleans | backend/app/services/ai/prompts.py:122-126 | after its own pass, a pattern matches nothing the pass would change |
| RedactionFixed.PassKeeps | backend/app/services/ai/prompts.py:113-126 | each later pass keeps what an earlier one established |
| RedactionFixed.RedactCleans | backend/app/services/ai/prompts.py:110-127 | nothing is left to redact in the output of any text |
| RedactionFixed.UnchangedIff | backend/app/services/ai/prompts.py:110-127 | exactly the texts with nothing left to redact come back unchanged |
| RedactionFixed.RedactIdempotent | backend/app/services/ai/prompts.py:110-127 | redacting twice is redacting once, for every text |
| RedactionFixed.KeysAreMasked | backend/app/services/ai/prompts.py:114-118 | in the output every listed key, in any case, that is followed by separators and a value reads exactly key=[REDACTED] and ends there |
| RedactionFixed.KeysAreClosed | backend/app/services/ai/prompts.py:119 | in the output no begin marker of a private key is followed by an end marker |
| RedactionFixed.NoLongBase64 | backend/app/services/ai/prompts.py:120 | in the output no stretch of base64 characters is longer than 50 |
| RedactionLaws.EntryIsMasked | backend/app/services/ai/prompts.py:114-126 | a listed key in any case, quotes, colons, equals signs or whitespace, and a value up to a comma, a quote, a brace, whitespace or the end become key=[REDACTED]; the rest is redacted as if it stood alone |
| RedactionLaws.SeparatorIff | backend/app/services/ai/prompts.py:114-118 | behind a listed key, exactly a quote, a colon, an equals sign or whitespace makes the digits that follow a secret |
| RedactionLaws.ValueEndIff | backend/app/services/ai/prompts.py:114-118 | a value ends exactly at a comma, a quote, a brace or whitespace |
| RedactionLaws.PrivateKeyIff | backend/app/services/ai/prompts.py:119 | a private key is replaced exactly when both of its titles are made of letters and spaces |
| RedactionLaws.PrivateKeyIsRedacted | backend/app/services/ai/prompts.py:119-126 | and so by the redaction as a whole, where no key stands in the text |
| RedactionLaws.RunIff | backend/app/services/ai/prompts.py:120 | a run of base64 characters with up to two equals signs behind it is replaced exactly when it has forty characters and more than fifty with them |
| RedactionLaws.RunIsRedactedIff | backend/app/services/ai/prompts.py:120-126 | and so by the redaction as a whole, where no key stands in the text |
| RedactionLaws.RunCharIff | backend/app/services/ai/prompts.py:120 | two runs are one exactly when the character between them is a letter, a digit, a plus or a slash |
| RedactionLaws.OutputIsMasked | backend/app/services/ai/prompts.py:114-127 | in the output of any text, a listed key in any case with separators and a value behind it reads exactly key=[REDACTED], and the value ends there |
| AgentConfig.AgentConfig.constructor | agent/infrapulse_agent.py:68-83 | the defaults |
| AgentConfig.AgentConfig.LoadFile | agent/infrapulse_agent.py:85-103 | fields are assigned in order, a missing file leaves them alone, and an integer that does not parse leaves those assigned before it |
| AgentConfig.AgentConfig.Save | agent/infrapulse_agent.py:105-118 | the eight saved keys |
| AgentConfig.LoadsKeys | agent/infrapulse_agent.py:85-103 | key by key, what a fresh configuration becomes; loading raises exactly when one of the two intervals is given and is no integer |
| AgentConfig.SavedKeys | agent/infrapulse_agent.py:105-118 | the file has eight keys, each with its own field |
| AgentConfig.SlashesAreStripped | agent/infrapulse_agent.py:91 | exactly the slashes at the end of the address are taken off |
| Decimals.ValueAppends | agent/infrapulse_agent.py:94-95 | a digit behind a number makes ten times the number plus the digit |
| AgentConfig.IntOfSigned | agent/infrapulse_agent.py:94-95 | a number may stand between whitespace and carry a sign |
| AgentConfig.IntOfUnderscoresIff | agent/infrapulse_agent.py:94-95 | one underscore may stand between two digits, and two may not |
| AgentConfig.IntOfStr | agent/infrapulse_agent.py:95-96 | parsing an integer undoes printing it |
| AgentConfig.RoundTripIff | agent/infrapulse_agent.py:85-120 | for any configuration: saving and loading into a fresh one succeeds, and recovers all eight saved fields exactly when strings are trimmed, the address ends in no slash and list entries are non-empty, trimmed and free of commas |
| AgentConfig.LoadedSurvives | agent/infrapulse_agent.py:85-103 | a loaded configuration meets all of that, except that its address may end in whitespace |
| AgentConfig.LoadedRoundTrip | agent/infrapulse_agent.py:85-120 | so loading, saving and loading recovers seven fields always, and the address exactly when it does not end in whitespace |
| AgentConfig.AddressLosesSpace | agent/infrapulse_agent.py:91 | the address "a /" is loaded as "a " and comes back as "a" |
| Text.StripIs | agent/infrapulse_agent.py:97 | stripping takes exactly the whitespace at both ends |
| Text.ItemsOfJoinIff | agent/infrapulse_agent.py:97 | a list survives joining and splitting exactly when every entry is non-empty, trimmed and free of commas |
| Text.JoinOfSplit | agent/infrapulse_agent.py:97 | joining undoes splitting |
| Text.SplitOfJoin | agent/infrapulse_agent.py:113-116 | splitting undoes joining, for parts without a comma |
| LogTail.LogCollector.CollectNewLines | agent/infrapulse_agent.py:381-427 | positions and entries after a poll over all paths, with rotation, unreadable files and files that change between the size check and the read |
| LogTail.UnrecordedStays | agent/infrapulse_agent.py:389-396 | a path without a recorded position does not get one from a poll |
| LogTail.NothingIsCollected | agent/infrapulse_agent.py:389-396 | a new collector returns nothing in every poll, whatever happens to the files |
| LogTail.CollectIsShares | agent/infrapulse_agent.py:384-425 | a poll returns the entries of each path in the order of a list without duplicates, whatever the other paths hold |
| LogTail.TailKeepsEveryLine | agent/infrapulse_agent.py:398-407 | from a recorded position on, and whatever the other paths do, the polls return every line appended to a file once and in order; the file may be missing or locked at times and grow between size check and read |
| LogTail.VisitReturns | agent/infrapulse_agent.py:390-407 | a file that has grown yields the last batch of the lines behind its position, one that has shrunk the last batch of all its lines |
| LogTail.VisitSkips | agent/infrapulse_agent.py:385-396 | a file that is missing, locked, empty, not recorded yet or of its recorded size yields nothing and keeps its position |
| LogTail.EntriesAreLines | agent/infrapulse_agent.py:407-419 | the entries of a text are its lines without the whitespace at their ends, without the blank ones, in order, cut at 2000 characters |
| LogTail.TailReturnsLines | agent/infrapulse_agent.py:398-419 | so from a recorded position on the polls return exactly the entries of the lines written to the file |
| ApiClient.APIClient.SetTokens | frontend/assets/js/api-client.js:17-22 | both tokens are replaced |
| ApiClient.APIClient.ClearTokens | frontend/assets/js/api-client.js:24-31 | both tokens are dropped |
| ApiClient.APIClient.Start | frontend/assets/js/api-client.js:42-56 | a request is suspended in its first fetch |
| ApiClient.APIClient.DoRefresh | frontend/assets/js/api-client.js:95-100 | one call to /auth/refresh is sent |
| ApiClient.APIClient.Respond | frontend/assets/js/api-client.js:58-65 | a 401 joins the refresh in progress or starts one; without a refresh token the tokens are dropped |
| ApiClient.APIClient.AnswerRefresh | frontend/assets/js/api-client.js:101 | an error response or a failed fetch rejects the promise |
| ApiClient.APIClient.ReadRefresh | frontend/assets/js/api-client.js:102-103 | the body sets the tokens, or rejects the promise |
| ApiClient.APIClient.Resume | frontend/assets/js/api-client.js:65-75 | a waiter retries, or drops the tokens and runs its finally |
| ApiClient.APIClient.Retried | frontend/assets/js/api-client.js:67-82 | a retry ends with its finally, and a 401 or a failure drops the tokens |
| ApiClient.TokensAfter | frontend/assets/js/api-client.js:17-104 | a step keeps both tokens, except that a login or a refresh body sets them and a logout, a 401 no refresh can answer, a failed refresh, and a retry that fails or is answered with 401 drop both |
| ApiClient.RequestsAfter | frontend/assets/js/api-client.js:56-92 | which request a step moves, and whether it waits, retries or ends; every other request stays |
| ApiClient.RefreshesAfter | frontend/assets/js/api-client.js:59-75 | a refresh is sent exactly by a 401 that one can answer while none is shared, and is shared until a finally |
| ApiClient.PlainCallsKeepTokens | frontend/assets/js/api-client.js:78-92 | any run of calls that are answered with anything but 401 leaves both tokens as they are |
| ApiClient.ReachableSound | frontend/assets/js/api-client.js:58-76 | in every reachable state the flag holds exactly when there is a promise, and every refresh in flight is awaited by a request |
| ApiClient.OneRefresh | frontend/assets/js/api-client.js:58-76 | from a state in which nobody waits or retries until the first finally, exactly one refresh is sent if any 401 wants one, otherwise none |
| ApiClient.FailedIsLast | frontend/assets/js/api-client.js:68-82 | once that refresh has failed, no other is sent unless tokens are set after it failed |
| ApiClient.TrackedIff | frontend/assets/js/api-client.js:72-75 | a step lets go of a refresh in flight exactly when it runs a finally |
| ApiClient.TrackedSendsAlone | frontend/assets/js/api-client.js:59-62 | until then a refresh is sent only when none is in flight |
| ApiClient.RunTracked | frontend/assets/js/api-client.js:58-76 | so two refreshes are never in flight together as long as no finally runs while one is |
| ApiClient.UntrackedOverlaps | frontend/assets/js/api-client.js:59-75 | and after such a finally the next 401 sends a second one |
| ApiClient.OverlapHappens | frontend/assets/js/api-client.js:58-76 | a run of fourteen steps with two refreshes in flight |

## Left out

- Isolation anomalies, overlapping workers, lazy loading and change detection: transactions are serialised, and the timeline entry appended on resolution is not modelled.
- The error path of a Proxmox sync, which commits what was flushed without a roll-back.
- Role checks, rate limits, audit log, e-mail, password hashing, JWT contents, platform administrators: access control is an input of every handler.
- HTTP, SMTP, Slack, AI providers and prompt assembly, encryption of connection secrets.
- The handlers that create, change and delete alert rules and issue registration tokens are steps of the state machine, without an in-place method of their own.
- Onboarding, list endpoints with filters, plan limits, the health score, reports, seed data, HTML and CSS.
- Resources the agent reads through psutil, and its signal handling.
- MonitorStore.Store.RegisterAgent: addresses, operating system, CPU, memory and agent version of a server are not modelled; no modelled decision reads them.
- MonitorStore.Store.AcceptHeartbeat: addresses and agent version are not modelled.
- MonitorStore.Store.IngestMetrics: units, labels and the health score are not modelled.
- MonitorStore.Store.IngestLogs: severity, source and raw text of a line are not modelled; the agent posts its lines under `entries` where the endpoint reads `logs`, which is a matter of HTTP bodies.
- MonitorStore.Store.EvaluateRule: title, description and trigger data of an alert are not modelled, values are reals, and a rule without a threshold, which raises in the source, adds nothing.
- MonitorStore.Store.UpdateIncident: only the status is modelled, and the timeline is not.
- MonitorStore.Store.CreateIncident: title, description, severity and timeline are not modelled; linking an alert listed twice is one link.
- MonitorStore.Store.UpdateAlertStatus: resolution notes are not modelled.
- AccountStore.Store.Login: addresses and times of the last login are not modelled; the access token and the list of memberships are a reading of the tables.
- AccountStore.Store.Register: the e-mail and the organization name arrive in lower case, since Unicode case mapping is not modelled; the full name and the free plan are not modelled.
- Slugs.SlugBase: starts from the lower-cased name, since Unicode case mapping is not modelled.
- MetricsSummary.GetMetricsSummary: values are reals, so the rounding of a sum or a quotient to a double is not modelled, and rows without a server sort before the others, which only affects the order among equal values.
- MetricsSummary.TopIsTop: the order among equal values is that of a stable sort in the model but not part of the statement.
- Redaction.RedactSensitiveData: text is a sequence of Unicode scalar values, so lone surrogates are outside the model.
- AgentConfig.AgentConfig.LoadFile: interpolation of `%`, values over several lines, digits outside ASCII and the interpreter's limit on the length of an integer are not modelled.
- AgentConfig.AgentConfig.Save: the directory and the file are not modelled; the result is the section written.
- LogTail.LogCollector.CollectNewLines: one character per byte and "\n" line ends; level, source and the parsing of syslog lines are not modelled, so an entry is its whole line.
- LogTail.TailKeepsEveryLine: for a list without duplicates and at most one batch of lines between two reads of the file; a longer stretch loses its first lines, as the source cuts it.
- ApiClient.APIClient.Respond: the organization, local storage, navigation and response bodies are not modelled; any order of steps is allowed, also ones a browser would not produce.
- Liveness.NoFalseOfflineAlert: assumes that no one registers the agent's server again, which would replace its token.
- ProxmoxSync.Store.SyncConnection: the success path only; a missing figure is an option and figures are reals.
- ProxmoxInventory.CollectFullInventory: the total disk and the network figures of a guest, which no table stores, and guests without a vmid are not modelled.
- AccountStore.Store.AcceptInvitation: the full name of a new user and who sent the invitation and when are not modelled; only whether a full name is given matters.
