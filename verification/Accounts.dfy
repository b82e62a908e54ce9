/** Users, sessions, organizations and memberships, and what one authentication or membership
    request does to them. A request that raises changes nothing, except that a failed login
    commits its counter first. */
module Accounts {
  import opened Prelude
  import Slugs

  const MAX_LOGIN_ATTEMPTS: nat := 5
  const LOCKOUT: nat := 15 * MINUTE
  const REFRESH_LIFETIME: nat := 30 * DAY
  const RESET_LIFETIME: nat := 2 * HOUR
  const INVITE_LIFETIME: nat := 7 * DAY

  datatype User = User(email: string, password: string, isActive: bool, failedAttempts: nat, lockedUntil: Option<int>)

  /** `chain` is the index of the token that the login or registration at its start issued. */
  datatype RefreshToken = RefreshToken(user: nat, token: nat, chain: nat, expiresAt: int, revoked: bool)
  datatype ResetToken = ResetToken(user: nat, token: nat, expiresAt: int, used: bool)
  datatype Membership = Membership(org: nat, user: nat, role: string, isActive: bool)
  datatype Invitation = Invitation(org: nat, email: string, role: string, token: nat, isAccepted: bool, expiresAt: int)

  /** Organizations are their slugs. `issued` collects every generated token; tokens and
      passwords are stored as they are, since hashing is injective. */
  datatype Db = Db(users: seq<User>, refreshTokens: seq<RefreshToken>, resetTokens: seq<ResetToken>,
                   orgs: seq<string>, memberships: seq<Membership>, invitations: seq<Invitation>, issued: set<nat>)

  const EMPTY_DB := Db([], [], [], [], [], [], {})

  /** Emails are already lower-cased. The last token of an event is the one it would issue. */
  datatype Event =
    | Register(email: string, password: string, lowerOrgName: string, newToken: nat)
    | Login(email: string, password: string, newToken: nat)
    | Refresh(token: nat, newToken: nat)
    | Logout(user: nat, token: nat)
    | ForgotPassword(email: string, newToken: nat)
    | ResetPassword(token: nat, password: string)
    | Invite(org: nat, email: string, role: string, newToken: nat)
    | AcceptInvite(token: nat, optPassword: Option<string>, fullName: Option<string>)
    | RemoveMember(org: nat, actor: nat, user: nat)
    | UpdateRole(org: nat, user: nat, role: string)
    | SetActive(user: nat, active: bool)

  // ---------------------------------------------------------------- lookups

  function UserByEmail(users: seq<User>, email: string): (r: Option<nat>)
    ensures r.Some? ==> r.value < |users| && users[r.value].email == email
    ensures r.None? ==> forall i :: 0 <= i < |users| ==> users[i].email != email
  {
    FindLast(users, (u: User) => u.email == email)
  }

  function LiveToken(tokens: seq<RefreshToken>, token: nat): (r: Option<nat>)
    ensures r.Some? ==> r.value < |tokens| && tokens[r.value].token == token && !tokens[r.value].revoked
    ensures r.None? ==> forall i :: 0 <= i < |tokens| ==> tokens[i].token != token || tokens[i].revoked
  {
    FindLast(tokens, (t: RefreshToken) => t.token == token && !t.revoked)
  }

  function TokenOf(tokens: seq<RefreshToken>, token: nat, user: nat): (r: Option<nat>)
    ensures r.Some? ==> r.value < |tokens| && tokens[r.value].token == token && tokens[r.value].user == user
    ensures r.None? ==> forall i :: 0 <= i < |tokens| ==> tokens[i].token != token || tokens[i].user != user
  {
    FindLast(tokens, (t: RefreshToken) => t.token == token && t.user == user)
  }

  function UnusedReset(tokens: seq<ResetToken>, token: nat): (r: Option<nat>)
    ensures r.Some? ==> r.value < |tokens| && tokens[r.value].token == token && !tokens[r.value].used
    ensures r.None? ==> forall i :: 0 <= i < |tokens| ==> tokens[i].token != token || tokens[i].used
  {
    FindLast(tokens, (t: ResetToken) => t.token == token && !t.used)
  }

  function PendingInvite(invites: seq<Invitation>, token: nat): (r: Option<nat>)
    ensures r.Some? ==> r.value < |invites| && invites[r.value].token == token && !invites[r.value].isAccepted
    ensures r.None? ==> forall i :: 0 <= i < |invites| ==> invites[i].token != token || invites[i].isAccepted
  {
    FindLast(invites, (v: Invitation) => v.token == token && !v.isAccepted)
  }

  function MembershipOf(members: seq<Membership>, org: nat, user: nat): (r: Option<nat>)
    ensures r.Some? ==> r.value < |members| && members[r.value].org == org && members[r.value].user == user
    ensures r.None? ==> forall i :: 0 <= i < |members| ==> members[i].org != org || members[i].user != user
  {
    FindLast(members, (m: Membership) => m.org == org && m.user == user)
  }

  // ---------------------------------------------------------------- sessions

  function NewSession(db: Db, now: int, user: nat, newToken: nat): Db
  {
    db.(refreshTokens := db.refreshTokens +
          [RefreshToken(user, newToken, |db.refreshTokens|, now + REFRESH_LIFETIME, false)],
        issued := db.issued + {newToken})
  }

  function Slugged(orgs: seq<string>): set<string> { set s | s in orgs }

  function RegisterUser(db: Db, now: int, email: string, password: string, lowerOrgName: string, newToken: nat): Db
  {
    if UserByEmail(db.users, email).Some? then db
    else
      var user, org := |db.users|, |db.orgs|;
      NewSession(db.(users := db.users + [User(email, password, true, 0, None)],
                     orgs := db.orgs + [Slugs.SlugFor(Slugged(db.orgs), Slugs.SlugBase(lowerOrgName))],
                     memberships := db.memberships + [Membership(org, user, "owner", true)]),
                 now, user, newToken)
  }

  datatype LoginOutcome =
    | NoSuchUser
    | Locked(user: nat)
    | WrongPassword(user: nat)
    | Inactive(user: nat)
    | LoggedIn(user: nat)

  function TryLogin(db: Db, now: int, email: string, password: string): (r: LoginOutcome)
    ensures !r.NoSuchUser? ==> r.user < |db.users| && db.users[r.user].email == email
  {
    var u := UserByEmail(db.users, email);
    if u.None? then NoSuchUser
    else
      var user := db.users[u.value];
      if user.lockedUntil.Some? && user.lockedUntil.value > now then Locked(u.value)
      else if user.password != password then WrongPassword(u.value)
      else if !user.isActive then Inactive(u.value)
      else LoggedIn(u.value)
  }

  /** A wrong password counts; from the fifth on it also locks. The counter is not reset when
      a lock runs out. */
  function Failed(user: User, now: int): User
  {
    var attempts := user.failedAttempts + 1;
    user.(failedAttempts := attempts,
          lockedUntil := if attempts >= MAX_LOGIN_ATTEMPTS then Some(now + LOCKOUT) else user.lockedUntil)
  }

  function LogIn(db: Db, now: int, email: string, password: string, newToken: nat): Db
  {
    match TryLogin(db, now, email, password)
    case WrongPassword(u) => db.(users := db.users[u := Failed(db.users[u], now)])
    case LoggedIn(u) =>
      NewSession(db.(users := db.users[u := db.users[u].(failedAttempts := 0, lockedUntil := None)]), now, u, newToken)
    case _ => db
  }

  /** The token that a refresh request may spend, if any. */
  function Refreshable(db: Db, now: int, token: nat): (r: Option<nat>)
    ensures r.Some? ==> r.value < |db.refreshTokens|
    ensures r.Some? ==> db.refreshTokens[r.value].token == token && !db.refreshTokens[r.value].revoked
  {
    var t := LiveToken(db.refreshTokens, token);
    if t.None? || db.refreshTokens[t.value].expiresAt < now then None
    else
      var user := db.refreshTokens[t.value].user;
      if user < |db.users| && db.users[user].isActive then t else None
  }

  /** Rotation: the old token is revoked and a new one continues its chain. */
  function RefreshSession(db: Db, now: int, token: nat, newToken: nat): Db
  {
    var t := Refreshable(db, now, token);
    if t.None? then db
    else
      var spent := db.refreshTokens[t.value];
      db.(refreshTokens := db.refreshTokens[t.value := spent.(revoked := true)] +
            [RefreshToken(spent.user, newToken, spent.chain, now + REFRESH_LIFETIME, false)],
          issued := db.issued + {newToken})
  }

  function LogOut(db: Db, user: nat, token: nat): Db
  {
    var t := TokenOf(db.refreshTokens, token, user);
    if t.None? then db
    else db.(refreshTokens := db.refreshTokens[t.value := db.refreshTokens[t.value].(revoked := true)])
  }

  function RequestReset(db: Db, now: int, email: string, newToken: nat): Db
  {
    var u := UserByEmail(db.users, email);
    if u.None? || !db.users[u.value].isActive then db
    else db.(resetTokens := db.resetTokens + [ResetToken(u.value, newToken, now + RESET_LIFETIME, false)],
             issued := db.issued + {newToken})
  }

  /** The reset token that a request may spend, if any. */
  function Resettable(db: Db, now: int, token: nat): (r: Option<nat>)
    ensures r.Some? ==> r.value < |db.resetTokens| && db.resetTokens[r.value].user < |db.users|
  {
    var t := UnusedReset(db.resetTokens, token);
    if t.None? || db.resetTokens[t.value].expiresAt < now || db.resetTokens[t.value].user >= |db.users| then None else t
  }

  function RevokedFor(tokens: seq<RefreshToken>, user: nat): (r: seq<RefreshToken>)
    ensures |r| == |tokens|
    ensures forall i :: 0 <= i < |tokens| ==>
      r[i] == if tokens[i].user == user then tokens[i].(revoked := true) else tokens[i]
  {
    seq(|tokens|, i requires 0 <= i < |tokens| =>
      if tokens[i].user == user then tokens[i].(revoked := true) else tokens[i])
  }

  /** A reset revokes every session, and leaves the lockout as it is. */
  function Reset(db: Db, now: int, token: nat, password: string): Db
  {
    var t := Resettable(db, now, token);
    if t.None? then db
    else
      var user := db.resetTokens[t.value].user;
      db.(users := db.users[user := db.users[user].(password := password)],
          resetTokens := db.resetTokens[t.value := db.resetTokens[t.value].(used := true)],
          refreshTokens := RevokedFor(db.refreshTokens, user))
  }

  // ---------------------------------------------------------------- membership

  function InviteUser(db: Db, now: int, org: nat, email: string, role: string, newToken: nat): Db
  {
    if org >= |db.orgs| then db
    else db.(invitations := db.invitations + [Invitation(org, email, role, newToken, false, now + INVITE_LIFETIME)],
             issued := db.issued + {newToken})
  }

  /** The invitation that a request may accept, if any. */
  function Acceptable(db: Db, now: int, token: nat): (r: Option<nat>)
    ensures r.Some? ==> r.value < |db.invitations|
  {
    var t := PendingInvite(db.invitations, token);
    if t.None? || db.invitations[t.value].expiresAt < now then None else t
  }

  predicate Given(s: Option<string>) { s.Some? && s.value != "" }

  /** An existing membership, even a removed one, is left as it is. */
  function AcceptInvitation(db: Db, now: int, token: nat, password: Option<string>, fullName: Option<string>): Db
  {
    var t := Acceptable(db, now, token);
    if t.None? then db
    else
      var invite := db.invitations[t.value];
      var found := UserByEmail(db.users, invite.email);
      if found.None? && !(Given(password) && Given(fullName)) then db
      else
        var user := if found.Some? then found.value else |db.users|;
        var users := if found.Some? then db.users else db.users + [User(invite.email, password.value, true, 0, None)];
        var members := if MembershipOf(db.memberships, invite.org, user).Some? then db.memberships
                       else db.memberships + [Membership(invite.org, user, invite.role, true)];
        db.(users := users, memberships := members,
            invitations := db.invitations[t.value := invite.(isAccepted := true)])
  }

  function Remove(db: Db, org: nat, actor: nat, user: nat): Db
  {
    var m := MembershipOf(db.memberships, org, user);
    if actor == user || m.None? || db.memberships[m.value].role == "owner" then db
    else db.(memberships := db.memberships[m.value := db.memberships[m.value].(isActive := false)])
  }

  function ChangeRole(db: Db, org: nat, user: nat, role: string): Db
  {
    var m := MembershipOf(db.memberships, org, user);
    if m.None? || (db.memberships[m.value].role == "owner" && role != "owner") then db
    else db.(memberships := db.memberships[m.value := db.memberships[m.value].(role := role)])
  }

  // ---------------------------------------------------------------- one step, and runs

  function Step(db: Db, now: int, e: Event): Db
  {
    match e
    case Register(email, password, lowerOrgName, newToken) =>
      RegisterUser(db, now, email, password, lowerOrgName, newToken)
    case Login(email, password, newToken) => LogIn(db, now, email, password, newToken)
    case Refresh(token, newToken) => RefreshSession(db, now, token, newToken)
    case Logout(user, token) => LogOut(db, user, token)
    case ForgotPassword(email, newToken) => RequestReset(db, now, email, newToken)
    case ResetPassword(token, password) => Reset(db, now, token, password)
    case Invite(org, email, role, newToken) => InviteUser(db, now, org, email, role, newToken)
    case AcceptInvite(token, password, fullName) => AcceptInvitation(db, now, token, password, fullName)
    case RemoveMember(org, actor, user) => Remove(db, org, actor, user)
    case UpdateRole(org, user, role) => ChangeRole(db, org, user, role)
    case SetActive(user, active) =>
      if user < |db.users| then db.(users := db.users[user := db.users[user].(isActive := active)]) else db
  }

  /** Generated tokens are fresh. */
  predicate ValidEvent(db: Db, e: Event)
  {
    match e
    case Register(_, _, _, newToken) => newToken !in db.issued
    case Login(_, _, newToken) => newToken !in db.issued
    case Refresh(_, newToken) => newToken !in db.issued
    case ForgotPassword(_, newToken) => newToken !in db.issued
    case Invite(_, _, _, newToken) => newToken !in db.issued
    case _ => true
  }

  datatype Timed = Timed(now: int, event: Event)

  ghost function StateAt(run: seq<Timed>, n: nat): Db
    requires n <= |run|
  {
    if n == 0 then EMPTY_DB else Step(StateAt(run, n - 1), run[n - 1].now, run[n - 1].event)
  }

  ghost predicate ValidAt(run: seq<Timed>, i: nat)
    requires i < |run|
  {
    ValidEvent(StateAt(run, i), run[i].event)
  }

  ghost predicate IsRun(run: seq<Timed>)
  {
    && (forall i, j :: 0 <= i < j < |run| ==> run[i].now <= run[j].now)
    && (forall i :: 0 <= i < |run| ==> ValidAt(run, i))
  }

  // Which tables each kind of event leaves alone.

  lemma SessionFrame(db: Db, now: int, e: Event)
    ensures !(e.Register? || e.Login? || e.Refresh? || e.Logout? || e.ResetPassword?) ==>
      Step(db, now, e).refreshTokens == db.refreshTokens
    ensures !(e.ForgotPassword? || e.ResetPassword?) ==> Step(db, now, e).resetTokens == db.resetTokens
    ensures db.issued <= Step(db, now, e).issued
  {
  }

  lemma MemberFrame(db: Db, now: int, e: Event)
    ensures !e.Register? ==> Step(db, now, e).orgs == db.orgs
    ensures !(e.Register? || e.AcceptInvite? || e.RemoveMember? || e.UpdateRole?) ==>
      Step(db, now, e).memberships == db.memberships
    ensures !(e.Invite? || e.AcceptInvite?) ==> Step(db, now, e).invitations == db.invitations
  {
  }

  lemma UserFrame(db: Db, now: int, e: Event)
    ensures |db.users| <= |Step(db, now, e).users|
    ensures forall u :: 0 <= u < |db.users| ==> Step(db, now, e).users[u].email == db.users[u].email
    ensures !(e.Register? || e.Login? || e.ResetPassword? || e.AcceptInvite? || e.SetActive?) ==>
      Step(db, now, e).users == db.users
  {
  }
}
