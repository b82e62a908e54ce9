/** The lockout counter bounds how fast passwords can be guessed. */
module Lockout {
  import opened Prelude
  import opened Accounts

  function OutcomeAt(db: Db, now: int, e: Event): LoginOutcome
  {
    if e.Login? then TryLogin(db, now, e.email, e.password) else NoSuchUser
  }

  /** What an outcome does to the counter and lock of user u. */
  predicate Counts(outcome: LoginOutcome, now: int, u: nat, was: User, becomes: User)
  {
    && (outcome == WrongPassword(u) ==>
          && becomes.failedAttempts == was.failedAttempts + 1
          && (was.lockedUntil.Some? ==> was.lockedUntil.value <= now)
          && becomes.lockedUntil ==
               if becomes.failedAttempts >= MAX_LOGIN_ATTEMPTS then Some(now + LOCKOUT) else was.lockedUntil)
    && (outcome == LoggedIn(u) ==> becomes.failedAttempts == 0 && becomes.lockedUntil.None?)
    && (outcome != WrongPassword(u) && outcome != LoggedIn(u) ==>
          becomes.failedAttempts == was.failedAttempts && becomes.lockedUntil == was.lockedUntil)
  }

  lemma CounterStep(db: Db, now: int, e: Event, u: nat)
    requires u < |db.users|
    ensures u < |Step(db, now, e).users|
    ensures Counts(OutcomeAt(db, now, e), now, u, db.users[u], Step(db, now, e).users[u])
  {
    UserFrame(db, now, e);
    if !(e.Register? || e.Login? || e.ResetPassword? || e.AcceptInvite? || e.SetActive?) { hide Step; }
  }

  predicate IsLocked(user: User, now: int) { user.lockedUntil.Some? && user.lockedUntil.value > now }

  /** A wrong password leaves the account locked exactly when it had at least four failures
      since the last success. */
  lemma WrongPasswordLocksIff(db: Db, now: int, e: Event, u: nat)
    requires u < |db.users| && OutcomeAt(db, now, e) == WrongPassword(u)
    ensures IsLocked(Step(db, now, e).users[u], now) <==> db.users[u].failedAttempts >= MAX_LOGIN_ATTEMPTS - 1
    ensures var was := db.users[u];
      Step(db, now, e).users[u].lockedUntil ==
      if was.failedAttempts >= MAX_LOGIN_ATTEMPTS - 1 then Some(now + LOCKOUT) else was.lockedUntil
  {
    CounterStep(db, now, e, u);
    hide Step, OutcomeAt;
  }

  /** Wrong passwords verified for user u by events i to j - 1. */
  ghost function WrongCount(run: seq<Timed>, i: nat, j: nat, u: nat): nat
    requires i <= j <= |run|
  {
    if i == j then 0
    else
      WrongCount(run, i, j - 1, u) +
      (if OutcomeAt(StateAt(run, j - 1), run[j - 1].now, run[j - 1].event) == WrongPassword(u) then 1 else 0)
  }

  /** Event e happens in [from, to] and is no successful login of u. */
  ghost predicate Within(run: seq<Timed>, e: nat, u: nat, from: int, to: int)
    requires e < |run|
  {
    from <= run[e].now <= to && OutcomeAt(StateAt(run, e), run[e].now, run[e].event) != LoggedIn(u)
  }

  /** After n wrong passwords without a success, the counter has reached n, and from the fifth
      on the lock has moved n - 4 lockouts past the start. */
  predicate Advanced(user: User, n: nat, from: int, to: int)
  {
    && user.failedAttempts >= n
    && (n >= MAX_LOGIN_ATTEMPTS ==>
          && user.lockedUntil.Some?
          && from + (n - MAX_LOGIN_ATTEMPTS + 1) * LOCKOUT <= user.lockedUntil.value <= to + LOCKOUT)
  }

  lemma AdvanceStep(outcome: LoginOutcome, now: int, u: nat, was: User, becomes: User, n: nat, from: int, to: int)
    requires Counts(outcome, now, u, was, becomes) && Advanced(was, n, from, to)
    requires from <= now <= to && outcome != LoggedIn(u)
    ensures Advanced(becomes, if outcome == WrongPassword(u) then n + 1 else n, from, to)
  {
  }

  lemma {:induction false} LockAdvances(run: seq<Timed>, i: nat, j: nat, u: nat, from: int, to: int)
    requires i <= j <= |run| && u < |StateAt(run, i).users| && from <= to
    requires forall e :: i <= e < j ==> Within(run, e, u, from, to)
    ensures u < |StateAt(run, j).users|
    ensures Advanced(StateAt(run, j).users[u], WrongCount(run, i, j, u), from, to)
  {
    hide Step, TryLogin;
    if i < j {
      LockAdvances(run, i, j - 1, u, from, to);
      assert Within(run, j - 1, u, from, to);
      var db, now, e := StateAt(run, j - 1), run[j - 1].now, run[j - 1].event;
      CounterStep(db, now, e, u);
      hide Advanced, Counts;
      var n := WrongCount(run, i, j - 1, u);
      AdvanceStep(OutcomeAt(db, now, e), now, u, db.users[u], Step(db, now, e).users[u], n, from, to);
    }
  }

  lemma AdvancedBound(user: User, n: nat, from: int, to: int)
    requires Advanced(user, n, from, to) && from <= to
    ensures n <= MAX_LOGIN_ATTEMPTS + (to - from) / LOCKOUT
  {
  }

  /** Lockout rate bound: an interval [from, to] without a successful login of user u holds at
      most MAX_LOGIN_ATTEMPTS + (to - from) / LOCKOUT verifications of a wrong password,
      whatever other requests the run contains. */
  lemma LockoutRate(run: seq<Timed>, i: nat, j: nat, u: nat, from: int, to: int)
    requires i <= j <= |run| && u < |StateAt(run, i).users| && from <= to
    requires forall e :: i <= e < j ==> Within(run, e, u, from, to)
    ensures WrongCount(run, i, j, u) <= MAX_LOGIN_ATTEMPTS + (to - from) / LOCKOUT
  {
    LockAdvances(run, i, j, u, from, to);
    AdvancedBound(StateAt(run, j).users[u], WrongCount(run, i, j, u), from, to);
  }

  ghost predicate NoSuccess(run: seq<Timed>, e: nat, u: nat)
    requires e < |run|
  {
    OutcomeAt(StateAt(run, e), run[e].now, run[e].event) != LoggedIn(u)
  }

  /** Without a successful login the counter never goes back, however much time passes. */
  lemma {:induction false} CounterGrows(run: seq<Timed>, i: nat, j: nat, u: nat)
    requires i <= j <= |run| && u < |StateAt(run, i).users|
    requires forall e :: i <= e < j ==> NoSuccess(run, e, u)
    ensures u < |StateAt(run, j).users|
    ensures StateAt(run, i).users[u].failedAttempts <= StateAt(run, j).users[u].failedAttempts
  {
    hide Step, OutcomeAt;
    if i < j {
      CounterGrows(run, i, j - 1, u);
      assert NoSuccess(run, j - 1, u);
      CounterStep(StateAt(run, j - 1), run[j - 1].now, run[j - 1].event, u);
    }
  }

  /** After the first lock, and until a successful login, every single wrong password locks
      again: the counter outlives the lock. */
  lemma EachFailureLocksAgain(run: seq<Timed>, i: nat, j: nat, u: nat)
    requires i <= j < |run| && u < |StateAt(run, i).users|
    requires StateAt(run, i).users[u].failedAttempts >= MAX_LOGIN_ATTEMPTS
    requires forall e :: i <= e < j ==> NoSuccess(run, e, u)
    requires OutcomeAt(StateAt(run, j), run[j].now, run[j].event) == WrongPassword(u)
    ensures u < |StateAt(run, j + 1).users| && StateAt(run, j + 1).users[u].lockedUntil == Some(run[j].now + LOCKOUT)
  {
    hide Step, OutcomeAt;
    CounterGrows(run, i, j, u);
    CounterStep(StateAt(run, j), run[j].now, run[j].event, u);
  }

  /** A password reset does not lift a lock. */
  lemma ResetKeepsLock(db: Db, now: int, token: nat, password: string, u: nat)
    requires u < |db.users|
    ensures Step(db, now, ResetPassword(token, password)).users[u].lockedUntil == db.users[u].lockedUntil
    ensures Step(db, now, ResetPassword(token, password)).users[u].failedAttempts == db.users[u].failedAttempts
  {
  }
}
