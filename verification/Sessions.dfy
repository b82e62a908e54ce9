/** Refresh-token rotation over whole runs: one live token per chain, each token spent at most
    once, revocation for good, and nothing left alive by a password reset. */
module Sessions {
  import opened Prelude
  import opened Accounts

  /** Tokens are distinct, each continues a chain begun at or before it, and a chain belongs to
      one user and has at most one unrevoked token. */
  ghost predicate Chained(tokens: seq<RefreshToken>, issued: set<nat>)
  {
    && (forall i :: 0 <= i < |tokens| ==> tokens[i].chain <= i && tokens[i].token in issued)
    && (forall i, j :: 0 <= i < j < |tokens| ==> DistinctAndRotated(tokens[i], tokens[j]))
  }

  predicate DistinctAndRotated(a: RefreshToken, b: RefreshToken)
  {
    a.token != b.token && (a.chain == b.chain ==> a.user == b.user && (a.revoked || b.revoked))
  }

  lemma NewSessionChained(db: Db, now: int, user: nat, newToken: nat)
    requires Chained(db.refreshTokens, db.issued) && newToken !in db.issued
    ensures Chained(NewSession(db, now, user, newToken).refreshTokens, NewSession(db, now, user, newToken).issued)
  {
  }

  lemma RefreshChained(db: Db, now: int, token: nat, newToken: nat)
    requires Chained(db.refreshTokens, db.issued) && newToken !in db.issued
    ensures var r := RefreshSession(db, now, token, newToken);
      Chained(r.refreshTokens, r.issued)
  {
    var t := Refreshable(db, now, token);
    if t.Some? {
      hide Refreshable, LiveToken;
      var r := RefreshSession(db, now, token, newToken).refreshTokens;
      var n := |db.refreshTokens|;
      forall i, j | 0 <= i < j < |r| ensures DistinctAndRotated(r[i], r[j]) {
        if j < n {
          assert DistinctAndRotated(db.refreshTokens[i], db.refreshTokens[j]);
        } else if i < t.value {
          assert DistinctAndRotated(db.refreshTokens[i], db.refreshTokens[t.value]);
        } else if i > t.value {
          assert DistinctAndRotated(db.refreshTokens[t.value], db.refreshTokens[i]);
        }
      }
    }
  }

  lemma RevokeChained(before: seq<RefreshToken>, after: seq<RefreshToken>, issued: set<nat>)
    requires Chained(before, issued) && |after| == |before|
    requires forall i :: 0 <= i < |after| ==> after[i] == before[i] || after[i] == before[i].(revoked := true)
    ensures Chained(after, issued)
  {
    forall i, j | 0 <= i < j < |after| ensures DistinctAndRotated(after[i], after[j]) {
      assert DistinctAndRotated(before[i], before[j]);
    }
  }

  lemma IssuedGrows(tokens: seq<RefreshToken>, issued: set<nat>, more: set<nat>)
    requires Chained(tokens, issued) && issued <= more
    ensures Chained(tokens, more)
  {
  }

  lemma StepChained(db: Db, now: int, e: Event)
    requires Chained(db.refreshTokens, db.issued) && ValidEvent(db, e)
    ensures Chained(Step(db, now, e).refreshTokens, Step(db, now, e).issued)
  {
    SessionFrame(db, now, e);
    hide Chained;
    match e {
      case Register(email, password, name, newToken) =>
        if UserByEmail(db.users, email).None? {
          NewSessionChained(db.(users := db.users + [User(email, password, true, 0, None)],
            orgs := db.orgs + [Slugs.SlugFor(Slugged(db.orgs), Slugs.SlugBase(name))],
            memberships := db.memberships + [Membership(|db.orgs|, |db.users|, "owner", true)]),
          now, |db.users|, newToken);
        }
      case Login(email, password, newToken) =>
        match TryLogin(db, now, email, password) {
          case LoggedIn(u) =>
            var users := db.users[u := db.users[u].(failedAttempts := 0, lockedUntil := None)];
            NewSessionChained(db.(users := users), now, u, newToken);
          case _ =>
        }
      case Refresh(token, newToken) => RefreshChained(db, now, token, newToken);
      case Logout(_, _) => RevokeChained(db.refreshTokens, Step(db, now, e).refreshTokens, db.issued);
      case ResetPassword(_, _) => RevokeChained(db.refreshTokens, Step(db, now, e).refreshTokens, db.issued);
      case _ => IssuedGrows(db.refreshTokens, db.issued, Step(db, now, e).issued);
    }
  }

  /** In every reachable state each login or registration chain has at most one live token. */
  lemma {:induction false} ReachableChained(run: seq<Timed>, n: nat)
    requires IsRun(run) && n <= |run|
    ensures Chained(StateAt(run, n).refreshTokens, StateAt(run, n).issued)
  {
    if n > 0 {
      ReachableChained(run, n - 1);
      assert ValidAt(run, n - 1);
      hide Step, Chained;
      StepChained(StateAt(run, n - 1), run[n - 1].now, run[n - 1].event);
    }
  }

  // ---------------------------------------------------------------- revocation is for good

  /** A row keeps its token, user, chain and expiry, and stays revoked once it is. */
  predicate Aged(a: RefreshToken, b: RefreshToken)
  {
    && a.token == b.token && a.user == b.user && a.chain == b.chain && a.expiresAt == b.expiresAt
    && (a.revoked ==> b.revoked)
  }

  lemma StepAges(db: Db, now: int, e: Event, x: nat)
    requires x < |db.refreshTokens|
    ensures x < |Step(db, now, e).refreshTokens| && Aged(db.refreshTokens[x], Step(db, now, e).refreshTokens[x])
  {
    SessionFrame(db, now, e);
    if !(e.Register? || e.Login? || e.Refresh? || e.Logout? || e.ResetPassword?) { hide Step; }
  }

  /** `revoked` never goes back to false. */
  lemma {:induction false} RevokedForever(run: seq<Timed>, i: nat, j: nat, x: nat)
    requires i <= j <= |run| && x < |StateAt(run, i).refreshTokens|
    ensures x < |StateAt(run, j).refreshTokens| &&
        Aged(StateAt(run, i).refreshTokens[x], StateAt(run, j).refreshTokens[x])
  {
    hide Step;
    if i < j {
      RevokedForever(run, i, j - 1, x);
      StepAges(StateAt(run, j - 1), run[j - 1].now, run[j - 1].event, x);
    }
  }

  /** Event e is a refresh that succeeds. */
  predicate Refreshes(db: Db, now: int, e: Event)
  {
    e.Refresh? && Refreshable(db, now, e.token).Some?
  }

  lemma RefreshSpends(db: Db, now: int, e: Event)
    requires Refreshes(db, now, e)
    ensures var t := Refreshable(db, now, e.token).value;
      var r := Step(db, now, e).refreshTokens;
      t < |r| && r[t].revoked && r[t].token == e.token
  {
  }

  lemma DistinctTokens(tokens: seq<RefreshToken>, issued: set<nat>, x: nat, y: nat)
    requires Chained(tokens, issued) && x < |tokens| && y < |tokens| && x != y
    ensures tokens[x].token != tokens[y].token
  {
    assert DistinctAndRotated(tokens[if x < y then x else y], tokens[if x < y then y else x]);
  }

  lemma TokenIsSpent(db: Db, now: int, x: nat)
    requires Chained(db.refreshTokens, db.issued) && x < |db.refreshTokens| && db.refreshTokens[x].revoked
    ensures Refreshable(db, now, db.refreshTokens[x].token).None?
  {
    hide Chained;
    var t := Refreshable(db, now, db.refreshTokens[x].token);
    if t.Some? {
      DistinctTokens(db.refreshTokens, db.issued, x, t.value);
    }
  }

  /** Each token is accepted by refresh at most once. */
  lemma RefreshedOnce(run: seq<Timed>, i: nat, j: nat)
    requires IsRun(run) && i < j < |run|
    requires Refreshes(StateAt(run, i), run[i].now, run[i].event)
    requires run[j].event.Refresh? && run[j].event.token == run[i].event.token
    ensures !Refreshes(StateAt(run, j), run[j].now, run[j].event)
  {
    hide Step, ValidAt, Refreshable, Chained;
    var t := Refreshable(StateAt(run, i), run[i].now, run[i].event.token).value;
    RefreshSpends(StateAt(run, i), run[i].now, run[i].event);
    RevokedForever(run, i + 1, j, t);
    ReachableChained(run, j);
    TokenIsSpent(StateAt(run, j), run[j].now, t);
  }

  // ---------------------------------------------------------------- counting live tokens

  function LiveCount(tokens: seq<RefreshToken>): nat
  {
    if tokens == [] then 0
    else LiveCount(tokens[..|tokens| - 1]) + (if tokens[|tokens| - 1].revoked then 0 else 1)
  }

  lemma {:induction false} LiveCountRevoke(tokens: seq<RefreshToken>, t: nat)
    requires t < |tokens| && !tokens[t].revoked
    ensures LiveCount(tokens[t := tokens[t].(revoked := true)]) == LiveCount(tokens) - 1
  {
    var last := |tokens| - 1;
    var after := tokens[t := tokens[t].(revoked := true)];
    if t == last {
      assert after[..last] == tokens[..last];
    } else {
      LiveCountRevoke(tokens[..last], t);
      assert after[..last] == tokens[..last][t := tokens[t].(revoked := true)];
    }
  }

  /** A refresh, accepted or not, preserves the number of live tokens. */
  lemma RefreshPreservesLive(db: Db, now: int, token: nat, newToken: nat)
    ensures LiveCount(RefreshSession(db, now, token, newToken).refreshTokens) == LiveCount(db.refreshTokens)
  {
    var t := Refreshable(db, now, token);
    if t.Some? {
      var spent := db.refreshTokens[t.value := db.refreshTokens[t.value].(revoked := true)];
      LiveCountRevoke(db.refreshTokens, t.value);
      var r := RefreshSession(db, now, token, newToken).refreshTokens;
      assert r[..|r| - 1] == spent;
    }
  }

  // ---------------------------------------------------------------- after a reset

  ghost predicate NoneLive(tokens: seq<RefreshToken>, user: nat)
  {
    forall i :: 0 <= i < |tokens| && tokens[i].user == user ==> tokens[i].revoked
  }

  predicate LogsIn(db: Db, now: int, e: Event, user: nat)
  {
    e.Login? && TryLogin(db, now, e.email, e.password) == LoggedIn(user)
  }

  /** Event e is no successful login of the user. */
  ghost predicate NoLogin(run: seq<Timed>, e: nat, user: nat)
    requires e < |run|
  {
    !LogsIn(StateAt(run, e), run[e].now, run[e].event, user)
  }

  lemma StepNoneLive(db: Db, now: int, e: Event, user: nat)
    requires NoneLive(db.refreshTokens, user) && user < |db.users| && !LogsIn(db, now, e, user)
    ensures NoneLive(Step(db, now, e).refreshTokens, user) && user < |Step(db, now, e).users|
  {
    SessionFrame(db, now, e);
    UserFrame(db, now, e);
    if !(e.Register? || e.Login? || e.Refresh? || e.Logout? || e.ResetPassword?) { hide Step; }
  }

  lemma {:induction false} StaysNoneLive(run: seq<Timed>, i: nat, j: nat, user: nat)
    requires i <= j <= |run| && NoneLive(StateAt(run, i).refreshTokens, user) && user < |StateAt(run, i).users|
    requires forall e :: i <= e < j ==> NoLogin(run, e, user)
    ensures NoneLive(StateAt(run, j).refreshTokens, user) && user < |StateAt(run, j).users|
  {
    hide Step, LogsIn;
    if i < j {
      StaysNoneLive(run, i, j - 1, user);
      assert NoLogin(run, j - 1, user);
      StepNoneLive(StateAt(run, j - 1), run[j - 1].now, run[j - 1].event, user);
    }
  }

  /** The user whose sessions a reset request ends, if it succeeds. */
  function ResetUser(db: Db, now: int, e: Event): Option<nat>
  {
    if e.ResetPassword? && Resettable(db, now, e.token).Some?
    then Some(db.resetTokens[Resettable(db, now, e.token).value].user) else None
  }

  lemma ResetRevokes(db: Db, now: int, e: Event)
    requires ResetUser(db, now, e).Some?
    ensures NoneLive(Step(db, now, e).refreshTokens, ResetUser(db, now, e).value)
    ensures ResetUser(db, now, e).value < |Step(db, now, e).users|
  {
  }

  /** After a password reset the user has no live token until the next login. */
  lemma ResetEndsSessions(run: seq<Timed>, i: nat, j: nat, user: nat)
    requires i < j <= |run| && ResetUser(StateAt(run, i), run[i].now, run[i].event) == Some(user)
    requires forall e :: i < e < j ==> NoLogin(run, e, user)
    ensures NoneLive(StateAt(run, j).refreshTokens, user)
  {
    hide Step, LogsIn, ResetUser, NoneLive;
    ResetRevokes(StateAt(run, i), run[i].now, run[i].event);
    StaysNoneLive(run, i + 1, j, user);
  }
}
