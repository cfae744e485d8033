/**
 * Organizations, users and memberships as three tables keyed by primary
 * key, the constraints the database keeps on them, and the queries the
 * membership services run.  `.first()` on an unordered queryset is the row
 * with the smallest primary key; keys are handed out in increasing order,
 * so every table's keys stay below its next key.
 */
module Orgs {
  import opened Wrappers
  import opened Text
  import opened Rows
  import opened Auth

  const RoleAdmin := "admin"
  const RoleMember := "member"

  /** The two choices of `Membership.role`. */
  predicate IsRole(r: string)
  {
    r == RoleAdmin || r == RoleMember
  }

  datatype Organization = Organization(name: string, slug: string, isActive: bool)

  /** The user columns the membership code reads and writes. */
  datatype Person = Person(username: string, email: string, firstName: string, lastName: string, usablePassword: bool)

  datatype Membership = Membership(user: nat, org: nat, role: string, isActive: bool, createdAt: int)

  datatype Tables = Tables(
    users: map<nat, Person>,
    orgs: map<nat, Organization>,
    memberships: map<nat, Membership>,
    nextUser: nat,
    nextMembership: nat)

  /**
   * The database's constraints: keys below the next key, memberships
   * pointing at existing rows with one of the two roles, at most one
   * membership per (user, organization), unique usernames and unique
   * organization slugs.
   */
  predicate Valid(t: Tables)
  {
    (forall id :: id in t.users ==> id < t.nextUser) &&
    (forall id :: id in t.memberships ==>
       id < t.nextMembership && t.memberships[id].user in t.users && t.memberships[id].org in t.orgs &&
       IsRole(t.memberships[id].role)) &&
    (forall i, j :: (i in t.memberships && j in t.memberships &&
                     t.memberships[i].user == t.memberships[j].user && t.memberships[i].org == t.memberships[j].org)
                    ==> i == j) &&
    (forall a, b :: a in t.users && b in t.users && t.users[a].username == t.users[b].username ==> a == b) &&
    (forall a, b :: a in t.orgs && b in t.orgs && t.orgs[a].slug == t.orgs[b].slug ==> a == b)
  }

  // ---------------------------------------------------------------------
  // Queries

  /** The membership links this user and organization and is active. */
  predicate ActiveLink(m: Membership, user: nat, org: nat)
  {
    m.user == user && m.org == org && m.isActive
  }

  /**
   * `Membership.objects.filter(user=user, organization_id=org,
   * is_active=True).first()`, scanning keys from `i` up.
   */
  function ActorMembershipFrom(t: Tables, user: nat, org: nat, i: nat): (r: Option<nat>)
    ensures r.Some? ==> i <= r.value < t.nextMembership && r.value in t.memberships &&
                        ActiveLink(t.memberships[r.value], user, org)
    ensures r.None? ==> forall j :: i <= j < t.nextMembership && j in t.memberships ==>
                                      !ActiveLink(t.memberships[j], user, org)
    decreases t.nextMembership - i
  {
    if i >= t.nextMembership then None
    else if i in t.memberships && ActiveLink(t.memberships[i], user, org) then Some(i)
    else ActorMembershipFrom(t, user, org, i + 1)
  }

  function ActorMembership(t: Tables, user: nat, org: nat): Option<nat>
  {
    ActorMembershipFrom(t, user, org, 0)
  }

  /** The services' permission test: the actor's active membership there is an admin one. */
  predicate CanManage(t: Tables, user: nat, org: nat)
  {
    var m := ActorMembership(t, user, org);
    m.Some? && t.memberships[m.value].role == RoleAdmin
  }

  /** Some membership, active or not, links the user and the organization. */
  predicate HasMembership(t: Tables, user: nat, org: nat)
  {
    exists id :: id in t.memberships && t.memberships[id].user == user && t.memberships[id].org == org
  }

  /**
   * `Membership.objects.select_related("user").filter(id=member_id,
   * organization_id=org).first()` finds the membership: it exists, belongs
   * to that organization, and its user row joins.
   */
  predicate MemberOf(t: Tables, id: nat, org: nat)
  {
    id in t.memberships && t.memberships[id].org == org && t.memberships[id].user in t.users
  }

  /** The active admin memberships of an organization. */
  function ActiveAdmins(t: Tables, org: nat): set<nat>
  {
    set id | id in t.memberships && t.memberships[id].org == org &&
             t.memberships[id].role == RoleAdmin && t.memberships[id].isActive
  }

  /** Some user row carries this username. */
  predicate UsernameTaken(t: Tables, username: string)
  {
    exists id :: id in t.users && t.users[id].username == username
  }

  /** `User.objects.filter(email=email).first()`, scanning keys from `i` up. */
  function FirstUserWithEmail(t: Tables, email: string, i: nat): (r: Option<nat>)
    ensures r.Some? ==> i <= r.value < t.nextUser && r.value in t.users && t.users[r.value].email == email
    ensures r.Some? ==> forall j :: i <= j < r.value && j in t.users ==> t.users[j].email != email
    ensures r.None? ==> forall j :: i <= j < t.nextUser && j in t.users ==> t.users[j].email != email
    decreases t.nextUser - i
  {
    if i >= t.nextUser then None
    else if i in t.users && t.users[i].email == email then Some(i)
    else FirstUserWithEmail(t, email, i + 1)
  }

  /**
   * Under the constraints the actor's membership is the only membership of
   * that user in that organization, so managing means holding an active
   * admin membership there.
   */
  lemma CanManageIff(t: Tables, user: nat, org: nat)
    requires Valid(t)
    ensures CanManage(t, user, org) <==>
              exists id :: id in t.memberships && t.memberships[id].user == user && t.memberships[id].org == org &&
                           t.memberships[id].isActive && t.memberships[id].role == RoleAdmin
  {
    var m := ActorMembership(t, user, org);
    if id :| id in t.memberships && t.memberships[id].user == user && t.memberships[id].org == org &&
             t.memberships[id].isActive && t.memberships[id].role == RoleAdmin {
      assert id < t.nextMembership;
      assert m.Some?;
      assert m.value == id;
    }
  }

  /** An organization with two or more active admins has one besides any given admin. */
  lemma {:induction false} AnotherAdmin(t: Tables, org: nat, id: nat)
    requires id in ActiveAdmins(t, org) && |ActiveAdmins(t, org)| > 1
    ensures exists j :: j in ActiveAdmins(t, org) && j != id
  {
    var rest := ActiveAdmins(t, org) - {id};
    assert |rest| == |ActiveAdmins(t, org)| - 1;
    var j :| j in rest;
  }

  /** The next keys are free, and no membership points at the next user key. */
  lemma FreshKeys(t: Tables)
    requires Valid(t)
    ensures t.nextUser !in t.users && t.nextMembership !in t.memberships
    ensures forall org :: !HasMembership(t, t.nextUser, org)
  {
  }

  /** Adding a user under the next key with a username nobody has keeps the constraints. */
  lemma InsertUserValid(t: Tables, u: Person)
    requires Valid(t) && !UsernameTaken(t, u.username)
    ensures Valid(t.(users := t.users[t.nextUser := u], nextUser := t.nextUser + 1))
  {
  }

  /** Rewriting a user row without touching its username keeps the constraints. */
  lemma UpdateUserValid(t: Tables, id: nat, u: Person)
    requires Valid(t) && id in t.users && u.username == t.users[id].username
    ensures Valid(t.(users := t.users[id := u]))
  {
  }

  /**
   * Adding a membership under the next key, for an existing user and
   * organization not yet linked, with one of the two roles, keeps the
   * constraints.
   */
  lemma InsertMembershipValid(t: Tables, m: Membership)
    requires Valid(t) && m.user in t.users && m.org in t.orgs && IsRole(m.role) && !HasMembership(t, m.user, m.org)
    ensures Valid(t.(memberships := t.memberships[t.nextMembership := m], nextMembership := t.nextMembership + 1))
  {
    var t' := t.(memberships := t.memberships[t.nextMembership := m], nextMembership := t.nextMembership + 1);
    var mid := t.nextMembership;
    forall i, j | i in t'.memberships && j in t'.memberships &&
                  t'.memberships[i].user == t'.memberships[j].user && t'.memberships[i].org == t'.memberships[j].org
      ensures i == j
    {
      if i != mid && j != mid {
        assert i in t.memberships && j in t.memberships;
      } else if i != mid || j != mid {
        assert false;
      }
    }
  }

  /** Changing a membership's role to one of the two and its flag keeps the constraints. */
  lemma UpdateMembershipValid(t: Tables, id: nat, m: Membership)
    requires Valid(t) && id in t.memberships && m.user == t.memberships[id].user && m.org == t.memberships[id].org
    requires IsRole(m.role)
    ensures Valid(t.(memberships := t.memberships[id := m]))
  {
  }

  /** A user given an active admin membership where they had none can manage that organization. */
  lemma InsertAdminManages(t: Tables, user: nat, org: nat, createdAt: int)
    requires Valid(t) && !HasMembership(t, user, org)
    ensures var t' := t.(memberships := t.memberships[t.nextMembership := Membership(user, org, RoleAdmin, true, createdAt)],
                         nextMembership := t.nextMembership + 1);
            CanManage(t', user, org)
  {
    var t' := t.(memberships := t.memberships[t.nextMembership := Membership(user, org, RoleAdmin, true, createdAt)],
                 nextMembership := t.nextMembership + 1);
    assert t.nextMembership in t'.memberships && ActiveLink(t'.memberships[t.nextMembership], user, org);
    var m := ActorMembership(t', user, org);
    assert m.Some?;
    assert m.value == t.nextMembership;
  }

  // ---------------------------------------------------------------------
  // Membership rows as the list and export querysets see them

  /** A membership with its user joined in, under the names the querysets use. */
  function MemberRow(id: nat, m: Membership, u: Person): Row
  {
    Row(id, map["user__email" := VStr(u.email), "user__username" := VStr(u.username),
                "user__first_name" := VStr(u.firstName), "user__last_name" := VStr(u.lastName),
                "role" := VStr(m.role), "is_active" := VBool(m.isActive),
                "created_at" := VDateTime(m.createdAt, Some(0))])
  }

  /**
   * `Membership.objects.select_related("user").filter(organization_id=org)`:
   * the memberships of the organization from key `i` up, in key order,
   * each with its user.
   */
  function OrgRows(t: Tables, org: nat, i: nat): (rs: seq<Row>)
    ensures forall r :: r in rs ==> (i <= r.pk < t.nextMembership && MemberOf(t, r.pk, org) &&
                                    r == MemberRow(r.pk, t.memberships[r.pk], t.users[t.memberships[r.pk].user]))
    ensures forall j :: i <= j < t.nextMembership && MemberOf(t, j, org) ==>
                          MemberRow(j, t.memberships[j], t.users[t.memberships[j].user]) in rs
    decreases t.nextMembership - i
  {
    if i >= t.nextMembership then []
    else if MemberOf(t, i, org) then
      [MemberRow(i, t.memberships[i], t.users[t.memberships[i].user])] + OrgRows(t, org, i + 1)
    else OrgRows(t, org, i + 1)
  }

  /** The keys of `user__email, user__username` ordering. */
  const MemberOrder := [OrderKey("user__email", false), OrderKey("user__username", false)]

  /** Two rows with different usernames are never tied by the member order. */
  lemma UsernamesSeparate(a: Row, b: Row, ua: string, ub: string)
    requires Field(a, "user__username") == VStr(ua) && Field(b, "user__username") == VStr(ub) && ua != ub
    ensures CompareBy(MemberOrder, a, b) != 0
  {
    if CompareBy(MemberOrder, a, b) == 0 {
      CompareByZero(MemberOrder, a, b, 1);
      CompareStringsProps(ua, ub);
      assert false;
    }
  }

  /**
   * Within one organization every membership belongs to a different user
   * and usernames are unique, so ordering by email then username ties no
   * two rows: the listed order is fully determined.
   */
  lemma {:induction false} MemberOrderSeparates(t: Tables, org: nat, rs: seq<Row>)
    requires Valid(t)
    requires forall r :: r in rs ==> (MemberOf(t, r.pk, org) &&
                                     r == MemberRow(r.pk, t.memberships[r.pk], t.users[t.memberships[r.pk].user]))
    ensures KeysSeparate(MemberOrder, rs)
  {
    forall a, b | a in rs && b in rs && a != b ensures CompareBy(MemberOrder, a, b) != 0 {
      var ma, mb := t.memberships[a.pk], t.memberships[b.pk];
      var ua, ub := t.users[ma.user], t.users[mb.user];
      assert a.pk != b.pk;
      assert ma.user != mb.user;
      assert ua.username != ub.username;
      assert a == MemberRow(a.pk, ma, ua) && b == MemberRow(b.pk, mb, ub);
      UsernamesSeparate(a, b, ua.username, ub.username);
    }
  }
}
