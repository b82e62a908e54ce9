/** Runs of the account tables that show where a plausible property fails. */
module AccountRuns {
  import opened Prelude
  import opened Accounts
  import Slugs
  import Lockout
  import Memberships

  /** The first k events are those of a run, and lead to `db`. */
  ghost predicate Leads(run: seq<Timed>, k: nat, db: Db)
  {
    && k <= |run| && StateAt(run, k) == db
    && (forall i, j :: 0 <= i < j < k ==> run[i].now <= run[j].now)
    && (forall i :: 0 <= i < k ==> ValidAt(run, i))
  }

  lemma Start(run: seq<Timed>)
    ensures Leads(run, 0, EMPTY_DB)
  {
  }

  lemma Next(run: seq<Timed>, k: nat, db: Db)
    requires Leads(run, k, db) && k < |run| && ValidEvent(db, run[k].event)
    requires k > 0 ==> run[k - 1].now <= run[k].now
    ensures Leads(run, k + 1, Step(db, run[k].now, run[k].event))
  {
    hide Step, ValidEvent;
  }

  // ---------------------------------------------------------------- a removed member

  /** An owner, and an organization with the given members, invitations and tokens. */
  function Team(users: seq<User>, members: seq<Membership>, invites: seq<Invitation>, issued: set<nat>): Db
  {
    Db(users, [RefreshToken(0, 0, 0, REFRESH_LIFETIME, false)], [], ["team"], members, invites, issued)
  }

  const OWNER := User("o@x", "pw", true, 0, None)
  const MEMBER := User("m@x", "pw", true, 0, None)
  const OWNS := Membership(0, 0, "owner", true)

  function Invited(token: nat, isAccepted: bool): Invitation
  {
    Invitation(0, "m@x", "viewer", token, isAccepted, INVITE_LIFETIME)
  }

  const REMOVAL: seq<Timed> :=
    [Timed(0, Register("o@x", "pw", "team", 0)), Timed(0, Invite(0, "m@x", "viewer", 1)),
     Timed(0, AcceptInvite(1, Some("pw"), Some("M"))), Timed(0, RemoveMember(0, 0, 1)),
     Timed(0, Invite(0, "m@x", "viewer", 2)), Timed(0, AcceptInvite(2, None, None))]

  lemma TeamStarts()
    ensures Step(EMPTY_DB, 0, Register("o@x", "pw", "team", 0)) == Team([OWNER], [OWNS], [], {0})
  {
    assert Slugs.SlugBase("team") == "team";
    assert Slugs.FirstFree({}, "team", 0) == 0;
  }

  const VIEWS := Membership(0, 1, "viewer", true)
  const VIEWED := Membership(0, 1, "viewer", false)

  lemma TeamInvites(users: seq<User>, members: seq<Membership>, invites: seq<Invitation>, issued: set<nat>, token: nat)
    ensures Step(Team(users, members, invites, issued), 0, Invite(0, "m@x", "viewer", token))
         == Team(users, members, invites + [Invited(token, false)], issued + {token})
  {
  }

  lemma TeamGrows()
    ensures Step(Team([OWNER], [OWNS], [Invited(1, false)], {0, 1}), 0, AcceptInvite(1, Some("pw"), Some("M")))
         == Team([OWNER, MEMBER], [OWNS, VIEWS], [Invited(1, true)], {0, 1})
  {
    assert PendingInvite([Invited(1, false)], 1) == Some(0);
    assert UserByEmail([OWNER], "m@x").None?;
    assert MembershipOf([OWNS], 0, 1).None?;
  }

  lemma TeamShrinks()
    ensures Step(Team([OWNER, MEMBER], [OWNS, VIEWS], [Invited(1, true)], {0, 1}), 0, RemoveMember(0, 0, 1))
         == Team([OWNER, MEMBER], [OWNS, VIEWED], [Invited(1, true)], {0, 1})
  {
    assert MembershipOf([OWNS, VIEWS], 0, 1) == Some(1);
  }

  lemma TeamStays(issued: set<nat>)
    ensures var before := Team([OWNER, MEMBER], [OWNS, VIEWED], [Invited(1, true), Invited(2, false)], issued);
      Step(before, 0, AcceptInvite(2, None, None))
         == Team([OWNER, MEMBER], [OWNS, VIEWED], [Invited(1, true), Invited(2, true)], issued)
  {
    assert PendingInvite([Invited(1, true), Invited(2, false)], 2) == Some(1);
    assert UserByEmail([OWNER, MEMBER], "m@x") == Some(1);
    assert MembershipOf([OWNS, VIEWED], 0, 1) == Some(1);
  }

  /** The last request of the run accepts a valid invitation, and the invited person is no
      active member afterwards. */
  ghost predicate AcceptsInVain(run: seq<Timed>)
  {
    run != [] && run[|run| - 1].event.AcceptInvite? &&
    var db := StateAt(run, |run| - 1);
    var t := Acceptable(db, run[|run| - 1].now, run[|run| - 1].event.token);
    t.Some? &&
    !Memberships.EmailIsMember(StateAt(run, |run|), db.invitations[t.value].org, db.invitations[t.value].email)
  }

  lemma TeamAcceptsInVain(issued: set<nat>)
    ensures var before := Team([OWNER, MEMBER], [OWNS, VIEWED], [Invited(1, true), Invited(2, false)], issued);
      Acceptable(before, 0, 2) == Some(1) && before.invitations[1] == Invited(2, false)
    ensures var after := Team([OWNER, MEMBER], [OWNS, VIEWED], [Invited(1, true), Invited(2, true)], issued);
      !Memberships.EmailIsMember(after, 0, "m@x")
  {
    assert PendingInvite([Invited(1, true), Invited(2, false)], 2) == Some(1);
    assert OWNER.email[0] != MEMBER.email[0];
  }

  // Removal, a second invitation, and accepting it, in a team that a member has joined.
  lemma MemberStaysOut(run: seq<Timed>, k: nat)
    requires Leads(run, k, Team([OWNER, MEMBER], [OWNS, VIEWS], [Invited(1, true)], {0, 1}))
    requires 0 < k && |run| == k + 3 && run[k - 1].now == 0 && run[k] == Timed(0, RemoveMember(0, 0, 1))
    requires run[k + 1] == Timed(0, Invite(0, "m@x", "viewer", 2))
    requires run[k + 2] == Timed(0, AcceptInvite(2, None, None))
    ensures IsRun(run) && AcceptsInVain(run)
  {
    hide Step, Team, Memberships.EmailIsMember;
    TeamShrinks();
    Next(run, k, Team([OWNER, MEMBER], [OWNS, VIEWS], [Invited(1, true)], {0, 1}));
    var users, members, invites := [OWNER, MEMBER], [OWNS, VIEWED], [Invited(1, true), Invited(2, false)];
    TeamInvites(users, members, [Invited(1, true)], {0, 1}, 2);
    TeamFields(users, members, [Invited(1, true)], {0, 1});
    Next(run, k + 1, Team(users, members, [Invited(1, true)], {0, 1}));
    assert [Invited(1, true)] + [Invited(2, false)] == invites;
    TeamStays({0, 1} + {2});
    Next(run, k + 2, Team(users, members, invites, {0, 1} + {2}));
    TeamAcceptsInVain({0, 1} + {2});
  }

  /** A member is invited, accepts, is removed, is invited again and accepts again: the
      invitation is valid, and the member is not back. REMOVAL is such a run. */
  lemma RemovalRun()
    ensures exists run :: IsRun(run) && AcceptsInVain(run)
  {
    hide Step, Team, AcceptsInVain;
    Start(REMOVAL);
    Next(REMOVAL, 0, EMPTY_DB);
    TeamStarts();
    TeamInvites([OWNER], [OWNS], [], {0}, 1);
    TeamFields([OWNER], [OWNS], [], {0});
    Next(REMOVAL, 1, Team([OWNER], [OWNS], [], {0}));
    assert [] + [Invited(1, false)] == [Invited(1, false)] && {0} + {1} == {0, 1};
    TeamGrows();
    Next(REMOVAL, 2, Team([OWNER], [OWNS], [Invited(1, false)], {0, 1}));
    MemberStaysOut(REMOVAL, 3);
  }

  lemma TeamFields(users: seq<User>, members: seq<Membership>, invites: seq<Invitation>, issued: set<nat>)
    ensures var db := Team(users, members, invites, issued);
      db.users == users && db.memberships == members && db.invitations == invites && db.issued == issued
  {
  }

  // ---------------------------------------------------------------- a lock that elapses

  const GUESS := Login("o@x", "guess", 1)

  const LOCKING: seq<Timed> :=
    [Timed(0, Register("o@x", "pw", "team", 0)), Timed(0, GUESS), Timed(0, GUESS), Timed(0, GUESS), Timed(0, GUESS),
     Timed(0, GUESS), Timed(LOCKOUT, GUESS)]

  /** The team's owner after some failed logins. */
  function Guessed(attempts: nat, lockedUntil: Option<int>): Db
  {
    Team([OWNER.(failedAttempts := attempts, lockedUntil := lockedUntil)], [OWNS], [], {0})
  }

  lemma GuessFails(attempts: nat, lockedUntil: Option<int>, now: int)
    requires lockedUntil.Some? ==> lockedUntil.value <= now
    ensures Step(Guessed(attempts, lockedUntil), now, GUESS)
         == Guessed(attempts + 1, if attempts + 1 >= MAX_LOGIN_ATTEMPTS then Some(now + LOCKOUT) else lockedUntil)
  {
    assert UserByEmail(Guessed(attempts, lockedUntil).users, "o@x") == Some(0);
  }

  /** Five wrong passwords lock the account. When the lock has elapsed, the sixth locks it again
      at once. */
  lemma LockingRun()
    ensures IsRun(LOCKING)
    ensures var users := StateAt(LOCKING, 6).users;
      |users| == 1 && Lockout.IsLocked(users[0], LOCKOUT - 1) && !Lockout.IsLocked(users[0], LOCKOUT)
    ensures var users := StateAt(LOCKING, 7).users;
      |users| == 1 && users[0].lockedUntil == Some(2 * LOCKOUT)
  {
    hide Step, Guessed;
    Start(LOCKING);
    Next(LOCKING, 0, EMPTY_DB);
    TeamStarts();
    GuessedFields(0, None);
    for k := 0 to 4
      invariant Leads(LOCKING, k + 1, Guessed(k, None))
    {
      GuessedFields(k, None);
      GuessFails(k, None, 0);
      assert LOCKING[k + 1] == Timed(0, GUESS);
      Next(LOCKING, k + 1, Guessed(k, None));
    }
    GuessedFields(4, None);
    GuessFails(4, None, 0);
    Next(LOCKING, 5, Guessed(4, None));
    GuessedFields(5, Some(LOCKOUT));
    GuessFails(5, Some(LOCKOUT), LOCKOUT);
    Next(LOCKING, 6, Guessed(5, Some(LOCKOUT)));
    GuessedFields(6, Some(2 * LOCKOUT));
  }

  lemma GuessedFields(attempts: nat, lockedUntil: Option<int>)
    ensures var db := Guessed(attempts, lockedUntil);
      |db.users| == 1 && db.users[0].lockedUntil == lockedUntil && db.issued == {0}
    ensures Guessed(0, None) == Team([OWNER], [OWNS], [], {0})
  {
  }
}
