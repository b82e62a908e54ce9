/** What the authentication and membership requests leave behind, read off the tables before and
    after. */
module AccountLaws {
  import opened Prelude
  import opened Accounts
  import Memberships
  import Slugs

  // ---------------------------------------------------------------- login

  lemma FoundByEmail(users: seq<User>, u: nat)
    requires Memberships.UniqueEmails(users) && u < |users|
    ensures UserByEmail(users, users[u].email) == Some(u)
  {
    var found := UserByEmail(users, users[u].email);
  }

  /** While the account is locked, a login with any password changes nothing. */
  lemma LockRefuses(db: Db, now: int, email: string, password: string, newToken: nat, u: nat)
    requires Memberships.UniqueEmails(db.users) && u < |db.users| && db.users[u].email == email
    requires db.users[u].lockedUntil.Some? && db.users[u].lockedUntil.value > now
    ensures Step(db, now, Login(email, password, newToken)) == db
    ensures TryLogin(db, now, email, password) == Locked(u)
  {
    FoundByEmail(db.users, u);
  }

  /** A login of an email that nobody has changes nothing. */
  lemma UnknownEmail(db: Db, now: int, email: string, password: string, newToken: nat)
    requires forall u :: 0 <= u < |db.users| ==> db.users[u].email != email
    ensures Step(db, now, Login(email, password, newToken)) == db
    ensures Step(db, now, ForgotPassword(email, newToken)) == db
    ensures TryLogin(db, now, email, password) == NoSuchUser
  {
  }

  /** A login issues a refresh token, for user u and thirty days, exactly when u has that email
      and password, is active and is not locked. */
  lemma LoginAdmitsIff(db: Db, now: int, email: string, password: string, newToken: nat, u: nat)
    requires Memberships.UniqueEmails(db.users) && u < |db.users| && db.users[u].email == email
    ensures var r, user := Step(db, now, Login(email, password, newToken)), db.users[u];
      var admitted :=
        user.password == password && user.isActive && (user.lockedUntil.Some? ==> user.lockedUntil.value <= now);
      && (r.refreshTokens != db.refreshTokens <==> admitted)
      && (TryLogin(db, now, email, password) == LoggedIn(u) <==> admitted)
      && (admitted ==>
            r == db.(users := db.users[u := user.(failedAttempts := 0, lockedUntil := None)],
                     refreshTokens := db.refreshTokens +
                       [RefreshToken(u, newToken, |db.refreshTokens|, now + 30 * (24 * 3600 * 1_000_000), false)],
                     issued := db.issued + {newToken}))
  {
    FoundByEmail(db.users, u);
  }

  /** A wrong password for an account that is not locked counts one failure, and locks it for
      fifteen minutes from the fifth on; it does nothing else. The right password of an inactive
      account changes nothing. */
  lemma WrongPasswordCounts(db: Db, now: int, email: string, password: string, newToken: nat, u: nat)
    requires Memberships.UniqueEmails(db.users) && u < |db.users| && db.users[u].email == email
    requires db.users[u].lockedUntil.Some? ==> db.users[u].lockedUntil.value <= now
    ensures var r, user := Step(db, now, Login(email, password, newToken)), db.users[u];
      && (password != user.password ==> r == db.(users := db.users[u := user.(
            failedAttempts := user.failedAttempts + 1,
            lockedUntil := if user.failedAttempts >= 4 then Some(now + 15 * 60 * 1_000_000) else user.lockedUntil)]))
      && (TryLogin(db, now, email, password) == WrongPassword(u) <==> password != user.password)
      && (password == user.password && !user.isActive ==> r == db)
      && (TryLogin(db, now, email, password) == Inactive(u) <==> password == user.password && !user.isActive)
  {
    FoundByEmail(db.users, u);
  }

  // ---------------------------------------------------------------- registration

  /** Registering a new email adds one user, one organization with a slug of its own, the user's
      membership as its owner, and a refresh token; a known email changes nothing. */
  lemma RegistersNewEmail(db: Db, now: int, email: string, password: string, name: string, newToken: nat)
    ensures var r := Step(db, now, Register(email, password, name, newToken));
      if exists u :: 0 <= u < |db.users| && db.users[u].email == email then r == db
      else
        && |r.orgs| == |db.orgs| + 1 && db.orgs <= r.orgs && r.orgs[|db.orgs|] !in db.orgs
        && r == db.(users := db.users + [User(email, password, true, 0, None)],
                    orgs := r.orgs,
                    memberships := db.memberships + [Membership(|db.orgs|, |db.users|, "owner", true)],
                    refreshTokens := db.refreshTokens +
                      [RefreshToken(|db.users|, newToken, |db.refreshTokens|, now + 30 * (24 * 3600 * 1_000_000),
                                    false)],
                    issued := db.issued + {newToken})
  {
    hide UserByEmail;
    var slug := Slugs.SlugFor(Slugged(db.orgs), Slugs.SlugBase(name));
    assert slug !in Slugged(db.orgs) && (slug in db.orgs ==> slug in Slugged(db.orgs));
  }

  // ---------------------------------------------------------------- refresh tokens

  predicate UniqueToken(tokens: seq<RefreshToken>, t: nat)
  {
    t < |tokens| && forall i :: 0 <= i < |tokens| && i != t ==> tokens[i].token != tokens[t].token
  }

  /** A refresh token is accepted exactly when it is not revoked, not past its expiry, and its
      user is active. It is revoked, and its successor of thirty days continues the chain. */
  lemma RefreshRotatesIff(db: Db, now: int, token: nat, newToken: nat, t: nat)
    requires UniqueToken(db.refreshTokens, t) && db.refreshTokens[t].token == token
    ensures var r, was := Step(db, now, Refresh(token, newToken)), db.refreshTokens[t];
      if !was.revoked && was.expiresAt >= now && was.user < |db.users| && db.users[was.user].isActive
      then r == db.(refreshTokens := db.refreshTokens[t := was.(revoked := true)] +
                      [RefreshToken(was.user, newToken, was.chain, now + 30 * (24 * 3600 * 1_000_000), false)],
                    issued := db.issued + {newToken})
      else r == db
  {
    var found := LiveToken(db.refreshTokens, token);
    if !db.refreshTokens[t].revoked { assert found == Some(t); }
  }

  /** A refresh token that does not exist is neither accepted nor revoked. */
  lemma UnknownRefreshToken(db: Db, now: int, token: nat, newToken: nat, user: nat)
    requires forall t :: 0 <= t < |db.refreshTokens| ==> db.refreshTokens[t].token != token
    ensures Step(db, now, Refresh(token, newToken)) == db
    ensures Step(db, now, Logout(user, token)) == db
  {
  }

  /** A logout revokes the token if it is the caller's, and nothing else. */
  lemma LogoutRevokesOwn(db: Db, now: int, user: nat, token: nat, t: nat)
    requires UniqueToken(db.refreshTokens, t) && db.refreshTokens[t].token == token
    ensures var r, row := Step(db, now, Logout(user, token)), db.refreshTokens[t];
      r == if row.user == user then db.(refreshTokens := db.refreshTokens[t := row.(revoked := true)]) else db
  {
    var found := TokenOf(db.refreshTokens, token, user);
    if db.refreshTokens[t].user == user { assert found == Some(t); }
  }

  // ---------------------------------------------------------------- tokens are distinct

  /** Reset tokens and invitations carry tokens of their own, all of them issued. */
  ghost predicate TokensDiffer(db: Db)
  {
    && (forall i :: 0 <= i < |db.resetTokens| ==> db.resetTokens[i].token in db.issued)
    && (forall i :: 0 <= i < |db.invitations| ==> db.invitations[i].token in db.issued)
    && (forall i, j :: 0 <= i < j < |db.resetTokens| ==> db.resetTokens[i].token != db.resetTokens[j].token)
    && (forall i, j :: 0 <= i < j < |db.invitations| ==> db.invitations[i].token != db.invitations[j].token)
  }

  lemma StepTokensDiffer(db: Db, now: int, e: Event)
    requires TokensDiffer(db) && ValidEvent(db, e)
    ensures TokensDiffer(Step(db, now, e))
  {
    SessionFrame(db, now, e);
    MemberFrame(db, now, e);
    if !(e.ForgotPassword? || e.ResetPassword? || e.Invite? || e.AcceptInvite?) { hide Step; }
  }

  /** In every reachable state a reset token or an invitation is found by its token alone. */
  lemma {:induction false} ReachableTokensDiffer(run: seq<Timed>, n: nat)
    requires IsRun(run) && n <= |run|
    ensures TokensDiffer(StateAt(run, n))
  {
    if n > 0 {
      hide Step, TokensDiffer;
      ReachableTokensDiffer(run, n - 1);
      assert ValidAt(run, n - 1);
      StepTokensDiffer(StateAt(run, n - 1), run[n - 1].now, run[n - 1].event);
    }
  }

  // ---------------------------------------------------------------- password reset

  /** An active user of the email is given a reset token for two hours; nobody else is. */
  lemma ResetIsOffered(db: Db, now: int, email: string, newToken: nat, u: nat)
    requires Memberships.UniqueEmails(db.users) && u < |db.users| && db.users[u].email == email
    ensures Step(db, now, ForgotPassword(email, newToken)) ==
      if db.users[u].isActive
      then db.(resetTokens := db.resetTokens + [ResetToken(u, newToken, now + 2 * 3600 * 1_000_000, false)],
               issued := db.issued + {newToken})
      else db
  {
    FoundByEmail(db.users, u);
  }

  /** A reset token is accepted exactly when it is unused and not past its expiry. The user then
      has the new password and no live refresh token, the reset token is used, and every other
      user, refresh token and reset token is as before. */
  lemma ResetSetsPassword(db: Db, now: int, token: nat, password: string, t: nat)
    requires TokensDiffer(db) && t < |db.resetTokens| && db.resetTokens[t].token == token
    requires db.resetTokens[t].user < |db.users|
    ensures var r, row := Step(db, now, ResetPassword(token, password)), db.resetTokens[t];
      if row.used || row.expiresAt < now then r == db
      else
        && r == db.(users := db.users[row.user := db.users[row.user].(password := password)],
                    resetTokens := db.resetTokens[t := row.(used := true)], refreshTokens := r.refreshTokens)
        && |r.refreshTokens| == |db.refreshTokens|
        && forall i :: 0 <= i < |db.refreshTokens| ==>
             && r.refreshTokens[i] == db.refreshTokens[i].(revoked := r.refreshTokens[i].revoked)
             && (r.refreshTokens[i].revoked <==> db.refreshTokens[i].revoked || db.refreshTokens[i].user == row.user)
  {
    var found := UnusedReset(db.resetTokens, token);
    if !db.resetTokens[t].used { assert found == Some(t); }
  }

  /** After a reset the new password logs the user in as soon as no lock holds, and any other
      password does not. */
  lemma ResetPasswordWorks(db: Db, now: int, token: nat, password: string, t: nat, later: int, attempt: string,
                           newToken: nat)
    requires Memberships.UniqueEmails(db.users)
    requires TokensDiffer(db) && t < |db.resetTokens| && db.resetTokens[t].token == token
    requires db.resetTokens[t].user < |db.users|
    requires !db.resetTokens[t].used && db.resetTokens[t].expiresAt >= now
    ensures var user := db.users[db.resetTokens[t].user];
      var mid := Step(db, now, ResetPassword(token, password));
      var r := Step(mid, later, Login(user.email, attempt, newToken));
      r.refreshTokens != mid.refreshTokens <==>
        attempt == password && user.isActive && (user.lockedUntil.Some? ==> user.lockedUntil.value <= later)
  {
    ResetSetsPassword(db, now, token, password, t);
    var u := db.resetTokens[t].user;
    var mid := Step(db, now, ResetPassword(token, password));
    hide Step;
    LoginAdmitsIff(mid, later, db.users[u].email, attempt, newToken, u);
  }

  // ---------------------------------------------------------------- membership

  /** An invitation is pending for seven days. */
  lemma InvitationIsSent(db: Db, now: int, org: nat, email: string, role: string, newToken: nat)
    requires org < |db.orgs|
    ensures Step(db, now, Invite(org, email, role, newToken)) ==
      db.(invitations := db.invitations +
            [Invitation(org, email, role, newToken, false, now + 7 * (24 * 3600 * 1_000_000))],
          issued := db.issued + {newToken})
  {
  }

  predicate IsMembership(members: seq<Membership>, m: nat, org: nat, user: nat)
  {
    m < |members| && members[m].org == org && members[m].user == user
  }

  lemma MembershipIs(members: seq<Membership>, m: nat, org: nat, user: nat)
    requires Memberships.UniqueMembers(members) && IsMembership(members, m, org, user)
    ensures MembershipOf(members, org, user) == Some(m)
  {
    var found := MembershipOf(members, org, user);
  }

  /** An invitation is accepted exactly when it is pending, not past its expiry, and the email is
      that of a user or comes with a password and a name. A new user is added with them. A
      membership with the invited role is added unless there is one, which is left alone. */
  lemma AcceptsIff(db: Db, now: int, token: nat, password: Option<string>, fullName: Option<string>, v: nat)
    requires Memberships.Sound(db) && TokensDiffer(db) && v < |db.invitations| && db.invitations[v].token == token
    ensures var r, row := Step(db, now, AcceptInvite(token, password, fullName)), db.invitations[v];
      var known := exists u :: 0 <= u < |db.users| && db.users[u].email == row.email;
      var named := password.Some? && password.value != "" && fullName.Some? && fullName.value != "";
      if row.isAccepted || row.expiresAt < now || !(known || named) then r == db
      else
        && r == db.(users := r.users, memberships := r.memberships,
                    invitations := db.invitations[v := row.(isAccepted := true)])
        && r.users == (if known then db.users else db.users + [User(row.email, password.value, true, 0, None)])
        && exists u :: 0 <= u < |r.users| && r.users[u].email == row.email &&
             r.memberships ==
             (if exists m :: IsMembership(db.memberships, m, row.org, u) then db.memberships
              else db.memberships + [Membership(row.org, u, row.role, true)])
  {
    var row := db.invitations[v];
    var found := PendingInvite(db.invitations, token);
    if !row.isAccepted { assert found == Some(v); }
    var user := UserByEmail(db.users, row.email);
    var u := if user.Some? then user.value else |db.users|;
    var m := MembershipOf(db.memberships, row.org, u);
    if m.Some? { assert IsMembership(db.memberships, m.value, row.org, u); }
    hide Memberships.HasOwner, UserByEmail, MembershipOf;
    var r := Step(db, now, AcceptInvite(token, password, fullName));
    if r != db { assert r.users[u].email == row.email; }
  }

  /** A member is made inactive exactly when the actor is somebody else and the member is no
      owner; nothing else changes. */
  lemma RemovesIff(db: Db, now: int, org: nat, actor: nat, user: nat, m: nat)
    requires Memberships.UniqueMembers(db.memberships) && IsMembership(db.memberships, m, org, user)
    ensures Step(db, now, RemoveMember(org, actor, user)) ==
      if actor != user && db.memberships[m].role != "owner"
      then db.(memberships := db.memberships[m := db.memberships[m].(isActive := false)]) else db
  {
    MembershipIs(db.memberships, m, org, user);
  }

  /** A role is set unless an owner would become anything else. */
  lemma RoleIsSetIff(db: Db, now: int, org: nat, user: nat, role: string, m: nat)
    requires Memberships.UniqueMembers(db.memberships) && IsMembership(db.memberships, m, org, user)
    ensures Step(db, now, UpdateRole(org, user, role)) ==
      if db.memberships[m].role == "owner" && role != "owner" then db
      else db.(memberships := db.memberships[m := db.memberships[m].(role := role)])
  {
    MembershipIs(db.memberships, m, org, user);
  }

  lemma NoMembership(db: Db, now: int, org: nat, actor: nat, user: nat, role: string)
    requires forall m :: !IsMembership(db.memberships, m, org, user)
    ensures Step(db, now, RemoveMember(org, actor, user)) == db
    ensures Step(db, now, UpdateRole(org, user, role)) == db
  {
    var m := MembershipOf(db.memberships, org, user);
    assert m.Some? ==> IsMembership(db.memberships, m.value, org, user);
  }
}
