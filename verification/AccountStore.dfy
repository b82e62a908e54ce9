/** The authentication and membership handlers, updating the tables in place. Each is proved to
    do to the tables what `Accounts` says one step does. */
module AccountStore {
  import opened Prelude
  import opened Accounts
  import Slugs

  predicate HasPlainMember(members: seq<Membership>, org: nat, user: nat)
  {
    var m := MembershipOf(members, org, user);
    m.Some? && members[m.value].role != "owner"
  }

  class Store {
    var users: seq<User>
    var refreshTokens: seq<RefreshToken>
    var resetTokens: seq<ResetToken>
    var orgs: seq<string>
    var memberships: seq<Membership>
    var invitations: seq<Invitation>
    ghost var issued: set<nat>

    ghost function Tables(): Db
      reads this
    {
      Db(users, refreshTokens, resetTokens, orgs, memberships, invitations, issued)
    }

    constructor ()
      ensures Tables() == EMPTY_DB
    {
      users, refreshTokens, resetTokens, orgs, memberships, invitations, issued := [], [], [], [], [], [], {};
    }

    method IssueSession(now: int, user: nat, newToken: nat)
      modifies this
      ensures Tables() == NewSession(old(Tables()), now, user, newToken)
    {
      refreshTokens := refreshTokens + [RefreshToken(user, newToken, |refreshTokens|, now + REFRESH_LIFETIME, false)];
      issued := issued + {newToken};
    }

    method Register(now: int, email: string, password: string, lowerOrgName: string, newToken: nat) returns (ok: bool)
      modifies this
      ensures Tables() == RegisterUser(old(Tables()), now, email, password, lowerOrgName, newToken)
      ensures ok <==> Tables() != old(Tables())
    {
      var existing := UserByEmail(users, email);
      if existing.Some? {
        return false;
      }
      var user, org := |users|, |orgs|;
      users := users + [User(email, password, true, 0, None)];
      var slug, probes := Slugs.FindSlug(Slugged(orgs), Slugs.SlugBase(lowerOrgName));
      orgs := orgs + [slug];
      memberships := memberships + [Membership(org, user, "owner", true)];
      IssueSession(now, user, newToken);
      ok := true;
    }

    method Login(now: int, email: string, password: string, newToken: nat) returns (outcome: LoginOutcome)
      modifies this
      ensures Tables() == LogIn(old(Tables()), now, email, password, newToken)
      ensures outcome == TryLogin(old(Tables()), now, email, password)
    {
      var found := UserByEmail(users, email);
      if found.None? {
        return NoSuchUser;
      }
      var u := found.value;
      if users[u].lockedUntil.Some? && users[u].lockedUntil.value > now {
        return Locked(u);
      }
      if users[u].password != password {
        users := users[u := users[u].(failedAttempts := users[u].failedAttempts + 1)];
        if users[u].failedAttempts >= MAX_LOGIN_ATTEMPTS {
          users := users[u := users[u].(lockedUntil := Some(now + LOCKOUT))];
        }
        return WrongPassword(u);
      }
      if !users[u].isActive {
        return Inactive(u);
      }
      users := users[u := users[u].(failedAttempts := 0, lockedUntil := None)];
      IssueSession(now, u, newToken);
      outcome := LoggedIn(u);
    }

    method Refresh(now: int, token: nat, newToken: nat) returns (ok: bool)
      modifies this
      ensures Tables() == RefreshSession(old(Tables()), now, token, newToken)
      ensures ok <==> Tables() != old(Tables())
    {
      var t := LiveToken(refreshTokens, token);
      if t.None? || refreshTokens[t.value].expiresAt < now {
        return false;
      }
      var rt := refreshTokens[t.value];
      // The revocation of a request that then raises is rolled back.
      if rt.user >= |users| || !users[rt.user].isActive {
        return false;
      }
      refreshTokens := refreshTokens[t.value := rt.(revoked := true)];
      refreshTokens := refreshTokens + [RefreshToken(rt.user, newToken, rt.chain, now + REFRESH_LIFETIME, false)];
      issued := issued + {newToken};
      ok := true;
    }

    method Logout(user: nat, token: nat)
      modifies this
      ensures Tables() == LogOut(old(Tables()), user, token)
    {
      var t := TokenOf(refreshTokens, token, user);
      if t.Some? {
        refreshTokens := refreshTokens[t.value := refreshTokens[t.value].(revoked := true)];
      }
    }

    method ForgotPassword(now: int, email: string, newToken: nat)
      modifies this
      ensures Tables() == RequestReset(old(Tables()), now, email, newToken)
    {
      var u := UserByEmail(users, email);
      if u.Some? && users[u.value].isActive {
        resetTokens := resetTokens + [ResetToken(u.value, newToken, now + RESET_LIFETIME, false)];
        issued := issued + {newToken};
      }
    }

    method ResetPassword(now: int, token: nat, password: string) returns (ok: bool)
      modifies this
      ensures Tables() == Reset(old(Tables()), now, token, password)
      ensures ok <==> Tables() != old(Tables())
    {
      var t := UnusedReset(resetTokens, token);
      if t.None? || resetTokens[t.value].expiresAt < now || resetTokens[t.value].user >= |users| {
        return false;
      }
      var user := resetTokens[t.value].user;
      users := users[user := users[user].(password := password)];
      resetTokens := resetTokens[t.value := resetTokens[t.value].(used := true)];
      refreshTokens := RevokedFor(refreshTokens, user);
      ok := true;
    }

    method Invite(now: int, org: nat, email: string, role: string, newToken: nat)
      requires org < |orgs|
      modifies this
      ensures Tables() == InviteUser(old(Tables()), now, org, email, role, newToken)
    {
      invitations := invitations + [Invitation(org, email, role, newToken, false, now + INVITE_LIFETIME)];
      issued := issued + {newToken};
    }

    method AcceptInvitation(now: int, token: nat, password: Option<string>, fullName: Option<string>) returns (ok: bool)
      modifies this
      ensures Tables() == Accounts.AcceptInvitation(old(Tables()), now, token, password, fullName)
      ensures ok <==> Tables() != old(Tables())
    {
      var t := PendingInvite(invitations, token);
      if t.None? || invitations[t.value].expiresAt < now {
        return false;
      }
      var invite := invitations[t.value];
      var found := UserByEmail(users, invite.email);
      var user;
      if found.Some? {
        user := found.value;
      } else {
        if !Given(password) || !Given(fullName) {
          return false;
        }
        user := |users|;
        users := users + [User(invite.email, password.value, true, 0, None)];
      }
      var existing := MembershipOf(memberships, invite.org, user);
      if existing.None? {
        memberships := memberships + [Membership(invite.org, user, invite.role, true)];
      }
      invitations := invitations[t.value := invite.(isAccepted := true)];
      ok := true;
    }

    method RemoveMember(org: nat, actor: nat, user: nat) returns (ok: bool)
      modifies this
      ensures Tables() == Remove(old(Tables()), org, actor, user)
      ensures ok == (user != actor && HasPlainMember(old(memberships), org, user))
    {
      if user == actor {
        return false;
      }
      var m := MembershipOf(memberships, org, user);
      if m.None? || memberships[m.value].role == "owner" {
        return false;
      }
      memberships := memberships[m.value := memberships[m.value].(isActive := false)];
      ok := true;
    }

    method UpdateMemberRole(org: nat, user: nat, role: string) returns (ok: bool)
      modifies this
      ensures Tables() == ChangeRole(old(Tables()), org, user, role)
      ensures ok == (MembershipOf(old(memberships), org, user).Some? &&
                     (role == "owner" || HasPlainMember(old(memberships), org, user)))
    {
      var m := MembershipOf(memberships, org, user);
      if m.None? || (memberships[m.value].role == "owner" && role != "owner") {
        return false;
      }
      memberships := memberships[m.value := memberships[m.value].(role := role)];
      ok := true;
    }
  }
}
