/** Organizations keep an active owner, and memberships, emails and slugs stay unique. */
module Memberships {
  import opened Prelude
  import opened Accounts
  import Slugs

  predicate IsActiveOwner(m: Membership) { m.role == "owner" && m.isActive }

  /** Some active membership of the organization has the role owner. */
  predicate HasOwner(members: seq<Membership>, org: nat)
  {
    exists i :: 0 <= i < |members| && members[i].org == org && IsActiveOwner(members[i])
  }

  ghost predicate UniqueMembers(members: seq<Membership>)
  {
    forall i, j :: 0 <= i < j < |members| ==> members[i].org != members[j].org || members[i].user != members[j].user
  }

  ghost predicate UniqueEmails(users: seq<User>)
  {
    forall i, j :: 0 <= i < j < |users| ==> users[i].email != users[j].email
  }

  ghost predicate UniqueSlugs(orgs: seq<string>)
  {
    forall i, j :: 0 <= i < j < |orgs| ==> orgs[i] != orgs[j]
  }

  /** Memberships refer to rows that exist, so that new rows get memberships of their own. */
  predicate InRange(db: Db)
  {
    && (forall i :: 0 <= i < |db.memberships| ==>
          db.memberships[i].org < |db.orgs| && db.memberships[i].user < |db.users|)
    && (forall i :: 0 <= i < |db.invitations| ==> db.invitations[i].org < |db.orgs|)
  }

  ghost predicate Sound(db: Db)
  {
    InRange(db) && UniqueMembers(db.memberships) && UniqueEmails(db.users) && UniqueSlugs(db.orgs)
    && forall o :: 0 <= o < |db.orgs| ==> HasOwner(db.memberships, o)
  }

  /** A membership keeps its organization and user, and an active owner stays one. */
  predicate Kept(a: Membership, b: Membership)
  {
    a.org == b.org && a.user == b.user && (IsActiveOwner(a) ==> IsActiveOwner(b))
  }

  lemma StepKeepsMember(db: Db, now: int, e: Event, m: nat)
    requires m < |db.memberships|
    ensures m < |Step(db, now, e).memberships| && Kept(db.memberships[m], Step(db, now, e).memberships[m])
  {
    MemberFrame(db, now, e);
    if !(e.Register? || e.AcceptInvite? || e.RemoveMember? || e.UpdateRole?) { hide Step; }
  }

  lemma OwnersKept(db: Db, now: int, e: Event, org: nat)
    requires HasOwner(db.memberships, org)
    ensures HasOwner(Step(db, now, e).memberships, org)
  {
    var i :| 0 <= i < |db.memberships| && db.memberships[i].org == org && IsActiveOwner(db.memberships[i]);
    StepKeepsMember(db, now, e, i);
    hide Step;
    assert Step(db, now, e).memberships[i].org == org;
  }

  lemma RegisterSound(db: Db, now: int, e: Event)
    requires Sound(db) && e.Register?
    ensures Sound(Step(db, now, e))
  {
    var r := Step(db, now, e);
    if UserByEmail(db.users, e.email).None? {
      var slug := Slugs.SlugFor(Slugged(db.orgs), Slugs.SlugBase(e.lowerOrgName));
      assert slug !in Slugged(db.orgs);
      forall i | 0 <= i < |db.orgs| ensures db.orgs[i] != slug {
        assert db.orgs[i] in Slugged(db.orgs);
      }
      assert r.memberships == db.memberships + [Membership(|db.orgs|, |db.users|, "owner", true)];
      hide UserByEmail, Slugs.SlugFor, HasOwner;
      forall o | 0 <= o < |r.orgs| ensures HasOwner(r.memberships, o) {
        if o < |db.orgs| {
          OwnersKept(db, now, e, o);
        } else {
          FounderOwns(db.memberships, o, |db.users|);
        }
      }
    }
  }

  lemma FounderOwns(members: seq<Membership>, org: nat, user: nat)
    ensures HasOwner(members + [Membership(org, user, "owner", true)], org)
  {
    var all := members + [Membership(org, user, "owner", true)];
    assert all[|members|].org == org && IsActiveOwner(all[|members|]);
  }

  lemma AcceptSound(db: Db, now: int, e: Event)
    requires Sound(db) && e.AcceptInvite?
    ensures var r := Step(db, now, e);
      InRange(r) && UniqueMembers(r.memberships) && UniqueEmails(r.users)
  {
    hide HasOwner;
    var t := Acceptable(db, now, e.token);
    if t.Some? {
      var invite := db.invitations[t.value];
      var found := UserByEmail(db.users, invite.email);
      var own := MembershipOf(db.memberships, invite.org, if found.Some? then found.value else |db.users|);
    }
  }

  lemma OtherSound(db: Db, now: int, e: Event)
    requires Sound(db) && !e.Register? && !e.AcceptInvite?
    ensures var r := Step(db, now, e);
      InRange(r) && UniqueMembers(r.memberships) && UniqueEmails(r.users)
  {
    MemberFrame(db, now, e);
    UserFrame(db, now, e);
    hide HasOwner;
    var r := Step(db, now, e);
    assert |r.users| == |db.users|;
    if !e.RemoveMember? && !e.UpdateRole? && !e.Invite? { hide Step; }
  }

  lemma StepSound(db: Db, now: int, e: Event)
    requires Sound(db)
    ensures Sound(Step(db, now, e))
  {
    if e.Register? {
      RegisterSound(db, now, e);
    } else {
      if e.AcceptInvite? {
        AcceptSound(db, now, e);
      } else {
        OtherSound(db, now, e);
      }
      MemberFrame(db, now, e);
      hide Step, HasOwner, InRange, UniqueMembers, UniqueEmails;
      forall o | 0 <= o < |db.orgs| ensures HasOwner(Step(db, now, e).memberships, o) {
        OwnersKept(db, now, e, o);
      }
    }
  }

  /** Over any interleaving of requests every registered organization has an active owner,
      memberships are unique per organization and user, and emails and slugs are unique. */
  lemma {:induction false} ReachableSound(run: seq<Timed>, n: nat)
    requires n <= |run|
    ensures Sound(StateAt(run, n))
  {
    if n > 0 {
      hide Step, Sound;
      ReachableSound(run, n - 1);
      StepSound(StateAt(run, n - 1), run[n - 1].now, run[n - 1].event);
    }
  }

  // ---------------------------------------------------------------- who is a member after accepting

  ghost predicate IsActiveMember(members: seq<Membership>, org: nat, user: nat)
  {
    exists i :: 0 <= i < |members| && members[i].org == org && members[i].user == user && members[i].isActive
  }

  /** The user has a membership of the organization, and it was made inactive. */
  predicate IsRemoved(members: seq<Membership>, org: nat, user: nat)
  {
    var m := MembershipOf(members, org, user);
    m.Some? && !members[m.value].isActive
  }

  /** Some user of that email is an active member. */
  ghost predicate EmailIsMember(db: Db, org: nat, email: string)
  {
    exists u :: 0 <= u < |db.users| && db.users[u].email == email && IsActiveMember(db.memberships, org, u)
  }

  lemma MembershipIsOwn(members: seq<Membership>, org: nat, user: nat)
    requires UniqueMembers(members) && MembershipOf(members, org, user).Some?
    ensures IsActiveMember(members, org, user) <==> !IsRemoved(members, org, user)
  {
    var m := MembershipOf(members, org, user).value;
    forall i | 0 <= i < |members| && members[i].org == org && members[i].user == user ensures i == m {}
  }

  lemma NewMember(members: seq<Membership>, org: nat, user: nat, role: string)
    ensures IsActiveMember(members + [Membership(org, user, role, true)], org, user)
  {
    var all := members + [Membership(org, user, role, true)];
    assert all[|members|].isActive;
  }

  /** Accepting an invitation makes a user who is already there an active member unless the
      membership was removed before, whether or not the request gives a password. */
  lemma AcceptActivatesKnown(db: Db, now: int, token: nat, password: Option<string>, fullName: Option<string>)
    requires Sound(db) && Acceptable(db, now, token).Some?
    requires UserByEmail(db.users, db.invitations[Acceptable(db, now, token).value].email).Some?
    ensures var invite := db.invitations[Acceptable(db, now, token).value];
      var user := UserByEmail(db.users, invite.email).value;
      var r := Step(db, now, AcceptInvite(token, password, fullName));
      IsActiveMember(r.memberships, invite.org, user) <==> !IsRemoved(db.memberships, invite.org, user)
  {
    var invite := db.invitations[Acceptable(db, now, token).value];
    var user := UserByEmail(db.users, invite.email).value;
    hide UserByEmail, MembershipOf, IsActiveMember, HasOwner;
    if MembershipOf(db.memberships, invite.org, user).Some? {
      MembershipIsOwn(db.memberships, invite.org, user);
    } else {
      NewMember(db.memberships, invite.org, user, invite.role);
    }
  }

  lemma OnlyUserOfEmail(db: Db, org: nat, email: string, user: nat)
    requires UniqueEmails(db.users) && user < |db.users| && db.users[user].email == email
    ensures EmailIsMember(db, org, email) <==> IsActiveMember(db.memberships, org, user)
  {
    hide IsActiveMember;
    forall u | 0 <= u < |db.users| && db.users[u].email == email ensures u == user {}
  }

  /** Exactly when accepting an invitation leaves the invited person an active member: a known
      user whose membership was not removed before, or a new one who gives a password and a full
      name. */
  lemma AcceptActivatesIff(db: Db, now: int, token: nat, password: Option<string>, fullName: Option<string>)
    requires Sound(db) && Acceptable(db, now, token).Some?
    ensures var invite := db.invitations[Acceptable(db, now, token).value];
      var found := UserByEmail(db.users, invite.email);
      var r := Step(db, now, AcceptInvite(token, password, fullName));
      EmailIsMember(r, invite.org, invite.email) <==>
        (if found.Some? then !IsRemoved(db.memberships, invite.org, found.value)
         else Given(password) && Given(fullName))
  {
    var invite := db.invitations[Acceptable(db, now, token).value];
    var found := UserByEmail(db.users, invite.email);
    var e := AcceptInvite(token, password, fullName);
    AcceptSound(db, now, e);
    var r := Step(db, now, e);
    hide UserByEmail, IsActiveMember, HasOwner, IsRemoved;
    if found.Some? {
      AcceptActivatesKnown(db, now, token, password, fullName);
      OnlyUserOfEmail(r, invite.org, invite.email, found.value);
    } else if Given(password) && Given(fullName) {
      NewMember(db.memberships, invite.org, |db.users|, invite.role);
      OnlyUserOfEmail(r, invite.org, invite.email, |db.users|);
      assert MembershipOf(db.memberships, invite.org, |db.users|).None?;
    }
  }

  /** A removed member who accepts a new invitation spends it and stays removed. */
  lemma RemovedStaysRemoved(db: Db, now: int, token: nat, password: Option<string>, fullName: Option<string>)
    requires Sound(db) && Acceptable(db, now, token).Some?
    requires var invite := db.invitations[Acceptable(db, now, token).value];
      var found := UserByEmail(db.users, invite.email);
      found.Some? && IsRemoved(db.memberships, invite.org, found.value)
    ensures var r := Step(db, now, AcceptInvite(token, password, fullName));
      r.memberships == db.memberships && r.invitations[Acceptable(db, now, token).value].isAccepted
  {
  }
}
