/**
 * The active organization: which organizations a user may work in, the
 * session entry that remembers the chosen one, the `organization_required`
 * gate in front of views, the select and activate views, and the
 * per-user current organization with its cache.
 */
module OrgSession {
  import opened Wrappers
  import opened Text
  import opened Rows
  import opened Auth
  import opened Orgs
  import CrudPermissions

  const SessionKey := "active_org_id"

  /** The organization exists and is active. */
  predicate OrgActive(t: Tables, org: int)
  {
    org >= 0 && org in t.orgs && t.orgs[org].isActive
  }

  /** An active membership of the user in an active organization. */
  predicate Eligible(t: Tables, user: nat, id: nat)
  {
    id in t.memberships && t.memberships[id].user == user && t.memberships[id].isActive &&
    OrgActive(t, t.memberships[id].org)
  }

  /**
   * `Membership.objects.filter(user=user, organization_id=org,
   * is_active=True, organization__is_active=True)` is not empty.
   */
  predicate HasActiveLink(t: Tables, user: nat, org: int)
  {
    exists id :: id in t.memberships && Eligible(t, user, id) && t.memberships[id].org == org
  }

  /** A membership with the model's defaults: role "member", active. */
  function NewMembership(user: nat, org: nat, createdAt: int): (m: Membership)
    ensures m.role == RoleMember && m.isActive && IsRole(m.role)
    ensures m.user == user && m.org == org
  {
    Membership(user, org, RoleMember, true, createdAt)
  }

  // ---------------------------------------------------------------------
  // The session entry

  /**
   * What `get_active_organization` finds for a session: the stored id when
   * it is set, non-zero, and names an active organization.
   */
  function StoredActiveOrg(session: map<string, int>, t: Tables): (org: Option<nat>)
    ensures org.Some? ==> SessionKey in session && session[SessionKey] == org.value && OrgActive(t, org.value)
  {
    if SessionKey !in session || session[SessionKey] == 0 || !OrgActive(t, session[SessionKey]) then None
    else Some(session[SessionKey])
  }

  /** The request parts these functions read and write. */
  class Request {
    var user: Option<Actor>
    var session: map<string, int>
    var organization: Option<nat>

    constructor (user: Option<Actor>, session: map<string, int>)
      ensures this.user == user && this.session == session && organization == None
    {
      this.user := user;
      this.session := session;
      organization := None;
    }
  }

  /**
   * `set_active_organization`: a signed-in user with an active membership
   * in the active organization gets its id stored; otherwise nothing
   * changes and the answer is false.
   */
  method SetActiveOrganization(request: Request, t: Tables, orgId: int) returns (ok: bool)
    modifies request
    ensures ok <==> Authenticated(request.user) && HasActiveLink(t, request.user.value.pk, orgId)
    ensures ok ==> request.session == old(request.session)[SessionKey := orgId]
    ensures !ok ==> request.session == old(request.session)
    ensures request.user == old(request.user) && request.organization == old(request.organization)
  {
    if !Authenticated(request.user) {
      return false;
    }
    if !HasActiveLink(t, request.user.value.pk, orgId) {
      return false;
    }
    request.session := request.session[SessionKey := orgId];
    ok := true;
  }

  /**
   * `get_active_organization`: the stored organization when it is set and
   * active; otherwise `None`, and the entry is removed.
   */
  method GetActiveOrganization(request: Request, t: Tables) returns (org: Option<nat>)
    modifies request
    ensures org == StoredActiveOrg(old(request.session), t)
    ensures org.Some? ==> request.session == old(request.session)
    ensures org.None? ==> request.session == old(request.session) - {SessionKey}
    ensures request.user == old(request.user) && request.organization == old(request.organization)
  {
    var orgId := if SessionKey in request.session then request.session[SessionKey] else 0;
    if orgId == 0 {
      request.session := request.session - {SessionKey};
      return None;
    }
    if !OrgActive(t, orgId) {
      request.session := request.session - {SessionKey};
      return None;
    }
    org := Some(orgId);
  }

  /** `_clear_active_org`: drop the entry, if any. */
  method ClearActiveOrg(request: Request)
    modifies request
    ensures request.session == old(request.session) - {SessionKey}
    ensures request.user == old(request.user) && request.organization == old(request.organization)
  {
    request.session := request.session - {SessionKey};
  }

  /**
   * Storing an organization the user may work in and reading it back
   * gives that organization (a zero id, which reads as unset, aside).
   */
  lemma SetThenGet(session: map<string, int>, t: Tables, user: nat, orgId: int)
    requires HasActiveLink(t, user, orgId) && orgId != 0
    ensures StoredActiveOrg(session[SessionKey := orgId], t) == Some(orgId)
  {
    var id :| Eligible(t, user, id) && t.memberships[id].org == orgId;
  }

  /** An entry that reads back as an organization is left alone by a second read. */
  lemma GetIsStable(session: map<string, int>, t: Tables)
    ensures var org := StoredActiveOrg(session, t);
            var after := if org.Some? then session else session - {SessionKey};
            StoredActiveOrg(after, t) == org
  {
  }

  // ---------------------------------------------------------------------
  // organization_required

  /** Where the gate sends the request. */
  datatype Gate = RedirectLogin | RedirectSelect(withMessage: bool) | CallView(org: nat)

  /**
   * `organization_required`: sign-in first; then the stored organization
   * (`resolveRaises` says the lookup raised); then an active membership of
   * the user there.  Each refusal after sign-in drops the session entry.
   * Only when every check passes is `request.organization` set and the
   * view called.
   */
  method OrganizationRequired(request: Request, t: Tables, resolveRaises: bool) returns (g: Gate)
    modifies request
    ensures g == RedirectLogin <==> !Authenticated(old(request.user))
    ensures g.CallView? <==> Authenticated(old(request.user)) && !resolveRaises &&
                             StoredActiveOrg(old(request.session), t).Some? &&
                             HasActiveLink(t, old(request.user).value.pk, StoredActiveOrg(old(request.session), t).value)
    ensures g.CallView? ==> g.org == StoredActiveOrg(old(request.session), t).value &&
                            request.organization == Some(g.org) && request.session == old(request.session)
    ensures g.RedirectSelect? ==> request.session == old(request.session) - {SessionKey} &&
                                  request.organization == old(request.organization)
    ensures g.RedirectLogin? ==> request.session == old(request.session) && request.organization == old(request.organization)
    ensures request.user == old(request.user)
  {
    if !Authenticated(request.user) {
      return RedirectLogin;
    }
    if resolveRaises {
      ClearActiveOrg(request);
      return RedirectSelect(true);
    }
    var org := GetActiveOrganization(request, t);
    if org.None? {
      ClearActiveOrg(request);
      return RedirectSelect(false);
    }
    // The organization came back active, so its `is_active` test passes.
    if !HasActiveLink(t, request.user.value.pk, org.value) {
      ClearActiveOrg(request);
      return RedirectSelect(true);
    }
    request.organization := org;
    g := CallView(org.value);
  }

  // ---------------------------------------------------------------------
  // The select and activate views

  /** A membership of the select list: its key and the organization's name. */
  function LinkRow(t: Tables, id: nat): Row
    requires id in t.memberships && t.memberships[id].org in t.orgs
  {
    Row(id, map["organization_id" := VInt(t.memberships[id].org),
                "organization__name" := VStr(t.orgs[t.memberships[id].org].name)])
  }

  /** The user's eligible memberships from key `i` up, in key order. */
  function LinkRows(t: Tables, user: nat, i: nat): (rs: seq<Row>)
    ensures forall r :: r in rs ==> i <= r.pk && Eligible(t, user, r.pk) && r == LinkRow(t, r.pk)
    ensures forall j :: i <= j < t.nextMembership && Eligible(t, user, j) ==> LinkRow(t, j) in rs
    ensures forall a, b :: 0 <= a < b < |rs| ==> rs[a].pk < rs[b].pk
    decreases t.nextMembership - i
  {
    if i >= t.nextMembership then []
    else if Eligible(t, user, i) then [LinkRow(t, i)] + LinkRows(t, user, i + 1)
    else LinkRows(t, user, i + 1)
  }

  const ByOrgName := [OrderKey("organization__name", false)]

  /** What the select view shows or does. */
  datatype SelectOutcome = LoginRedirect | NoOrganization | RedirectHome | ChooseFrom(memberships: seq<Row>)

  /**
   * `select_organization`: no eligible membership renders the
   * no-organization page; exactly one activates it and goes home; more
   * renders the list ordered by organization name.
   */
  method SelectOrganization(request: Request, t: Tables) returns (out: SelectOutcome)
    modifies request
    ensures !Authenticated(old(request.user)) ==> out == LoginRedirect && request.session == old(request.session)
    ensures Authenticated(old(request.user)) ==>
              var links := OrderBy(LinkRows(t, old(request.user).value.pk, 0), ByOrgName);
              (|links| == 0 ==> out == NoOrganization && request.session == old(request.session)) &&
              (|links| == 1 ==> links[0].pk in t.memberships && out == RedirectHome &&
                                request.session == old(request.session)[SessionKey := t.memberships[links[0].pk].org]) &&
              (|links| > 1 ==> out == ChooseFrom(links) && request.session == old(request.session))
    ensures request.user == old(request.user) && request.organization == old(request.organization)
  {
    if !Authenticated(request.user) {
      return LoginRedirect;
    }
    var rows := LinkRows(t, request.user.value.pk, 0);
    var links := OrderBy(rows, ByOrgName);
    SelectListContents(t, request.user.value.pk);
    var count := |links|;
    if count == 0 {
      return NoOrganization;
    }
    if count == 1 {
      var membership := links[0];
      var activated := SetActiveOrganization(request, t, t.memberships[membership.pk].org);
      if activated {
        return RedirectHome;
      }
    }
    out := ChooseFrom(links);
  }

  /**
   * The select list holds exactly the user's active memberships in active
   * organizations, each once, sorted by organization name.
   */
  lemma SelectListContents(t: Tables, user: nat)
    ensures var links := OrderBy(LinkRows(t, user, 0), ByOrgName);
            Sorted(links, ByOrgName) &&
            (forall r :: r in links ==> Eligible(t, user, r.pk) && r == LinkRow(t, r.pk)) &&
            (forall j: nat :: j < t.nextMembership && Eligible(t, user, j) ==> LinkRow(t, j) in links) &&
            |links| == |LinkRows(t, user, 0)|
  {
    var rows := LinkRows(t, user, 0);
    OrderBySorted(rows, ByOrgName);
    var links := OrderBy(rows, ByOrgName);
    assert |links| == |multiset(links)| == |multiset(rows)| == |rows|;
    forall r | r in links ensures r in rows {
      assert r in multiset(rows);
    }
    forall j: nat | j < t.nextMembership && Eligible(t, user, j) ensures LinkRow(t, j) in links {
      assert LinkRow(t, j) in multiset(links);
    }
  }

  /** What the activate view does. */
  datatype ActivateOutcome = ActivateLoginRedirect | MethodNotAllowed | NotFound | RaisedValueError | Activated(org: nat)

  /**
   * `activate_organization`: sign-in, then POST only; the posted id must
   * name an organization where the user has an active membership and which
   * is active, else 404; an id that is not an integer raises.  The
   * organization is then stored in the session.
   */
  method ActivateOrganization(request: Request, t: Tables, isPost: bool, postedOrgId: Option<string>)
    returns (out: ActivateOutcome)
    modifies request
    ensures !Authenticated(old(request.user)) ==> out == ActivateLoginRedirect
    ensures Authenticated(old(request.user)) && !isPost ==> out == MethodNotAllowed
    ensures Authenticated(old(request.user)) && isPost ==>
              (postedOrgId.None? ==> out == NotFound) &&
              (postedOrgId.Some? && ParseInt(Strip(postedOrgId.value)).None? ==> out == RaisedValueError) &&
              (postedOrgId.Some? && ParseInt(Strip(postedOrgId.value)).Some? ==>
                 var n := ParseInt(Strip(postedOrgId.value)).value;
                 (HasActiveLink(t, old(request.user).value.pk, n) ==> out == Activated(n)) &&
                 (!HasActiveLink(t, old(request.user).value.pk, n) ==> out == NotFound))
    ensures out.Activated? ==> request.session == old(request.session)[SessionKey := out.org]
    ensures !out.Activated? ==> request.session == old(request.session)
    ensures request.user == old(request.user) && request.organization == old(request.organization)
  {
    if !Authenticated(request.user) {
      return ActivateLoginRedirect;
    }
    if !isPost {
      return MethodNotAllowed;
    }
    if postedOrgId.None? {
      return NotFound;
    }
    var parsed := ParseInt(Strip(postedOrgId.value));
    if parsed.None? {
      return RaisedValueError;
    }
    var orgId := parsed.value;
    if !HasActiveLink(t, request.user.value.pk, orgId) {
      return NotFound;
    }
    // Only organizations with non-negative keys have memberships.
    var id :| Eligible(t, request.user.value.pk, id) && t.memberships[id].org == orgId;
    request.session := request.session[SessionKey := orgId];
    out := Activated(orgId);
  }

  // ---------------------------------------------------------------------
  // The current organization of a user

  /** Membership `a` comes before `b` in `order_by("created_at")`; equal times fall back to the key. */
  predicate Earlier(t: Tables, a: nat, b: nat)
    requires a in t.memberships && b in t.memberships
  {
    t.memberships[a].createdAt < t.memberships[b].createdAt ||
    (t.memberships[a].createdAt == t.memberships[b].createdAt && a < b)
  }

  /** The earliest eligible membership among keys from `i` up, given the earliest one below `i`. */
  function EarliestFrom(t: Tables, user: nat, i: nat, best: Option<nat>): (r: Option<nat>)
    requires best.Some? ==> Eligible(t, user, best.value) && best.value < i
    requires best.Some? ==> forall j: nat :: j < i && Eligible(t, user, j) && j != best.value ==> Earlier(t, best.value, j)
    requires best.None? ==> forall j: nat :: j < i ==> !Eligible(t, user, j)
    ensures r.Some? ==> Eligible(t, user, r.value)
    ensures r.Some? ==> forall j: nat :: j < t.nextMembership && Eligible(t, user, j) && j != r.value ==> Earlier(t, r.value, j)
    ensures r.None? ==> forall j: nat :: j < t.nextMembership ==> !Eligible(t, user, j)
    ensures best.Some? ==> r.Some?
    decreases t.nextMembership - i
  {
    if i >= t.nextMembership then best
    else if Eligible(t, user, i) && (best.None? || Earlier(t, i, best.value)) then
      NewEarliest(t, user, i, best);
      EarliestFrom(t, user, i + 1, Some(i))
    else EarliestFrom(t, user, i + 1, best)
  }

  /** A membership earlier than the earliest so far is earlier than every one before it. */
  lemma NewEarliest(t: Tables, user: nat, i: nat, best: Option<nat>)
    requires Eligible(t, user, i)
    requires best.Some? ==> Eligible(t, user, best.value) && best.value < i && Earlier(t, i, best.value)
    requires best.Some? ==> forall j: nat :: j < i && Eligible(t, user, j) && j != best.value ==> Earlier(t, best.value, j)
    requires best.None? ==> forall j: nat :: j < i ==> !Eligible(t, user, j)
    ensures forall j: nat :: j < i + 1 && Eligible(t, user, j) && j != i ==> Earlier(t, i, j)
  {
  }

  /**
   * The organization `get_current_organization` queries for: that of the
   * user's earliest active membership in an active organization.
   */
  function CurrentOrgQuery(t: Tables, user: nat): Option<nat>
  {
    var m := EarliestFrom(t, user, 0, None);
    if m.Some? then Some(t.memberships[m.value].org) else None
  }

  /**
   * Under the constraints the query finds an organization exactly when the
   * user has an eligible membership, and it is the organization of the
   * earliest one.
   */
  lemma CurrentOrgQueryIsEarliest(t: Tables, user: nat)
    requires Valid(t)
    ensures CurrentOrgQuery(t, user).Some? <==> exists id :: Eligible(t, user, id)
    ensures CurrentOrgQuery(t, user).Some? ==>
              exists id :: Eligible(t, user, id) && t.memberships[id].org == CurrentOrgQuery(t, user).value &&
                           forall j :: Eligible(t, user, j) && j != id ==> Earlier(t, id, j)
  {
    var m := EarliestFrom(t, user, 0, None);
    if id: nat :| Eligible(t, user, id) {
      assert id < t.nextMembership;
    }
    if m.Some? {
      forall j: nat | Eligible(t, user, j) && j != m.value ensures Earlier(t, m.value, j) {
        assert j < t.nextMembership;
      }
    }
  }

  /** A request's user together with the attribute the current organization is cached in. */
  class CurrentUser {
    var user: Option<Actor>
    var orgCache: Option<nat>

    constructor (user: Option<Actor>)
      ensures this.user == user && orgCache == None
    {
      this.user := user;
      orgCache := None;
    }

    /**
     * `get_current_organization`: `None` for a missing or anonymous user; a
     * cached organization is returned as it is; otherwise the query runs and
     * its answer, `None` included, is cached.  A cached `None` is not a hit.
     */
    method GetCurrentOrganization(t: Tables) returns (org: Option<nat>)
      modifies this
      ensures !Authenticated(user) ==> org == None && orgCache == old(orgCache)
      ensures Authenticated(user) && old(orgCache).Some? ==> org == old(orgCache) && orgCache == old(orgCache)
      ensures Authenticated(user) && old(orgCache).None? ==> org == CurrentOrgQuery(t, user.value.pk) && orgCache == org
      ensures user == old(user)
    {
      if !Authenticated(user) {
        return None;
      }
      var cached := orgCache;
      if cached.Some? {
        return cached;
      }
      org := CurrentOrgQuery(t, user.value.pk);
      orgCache := org;
    }

    /**
     * `user_has_org_role`: false without a current organization; otherwise
     * whether an active membership of the user there has one of the roles.
     * Reading the current organization fills the cache.
     */
    method HasOrgRole(t: Tables, roles: set<string>) returns (b: bool)
      modifies this
      ensures var org := if !Authenticated(user) then None
                         else if old(orgCache).Some? then old(orgCache)
                         else CurrentOrgQuery(t, user.value.pk);
              b <==> org.Some? && user.Some? && RoleIn(t, user.value.pk, org.value, roles)
      ensures user == old(user)
    {
      var org := GetCurrentOrganization(t);
      if org.None? {
        return false;
      }
      b := RoleIn(t, user.value.pk, org.value, roles);
    }
  }

  /** `Membership.objects.filter(user, organization, is_active=True, role__in=roles).exists()` */
  predicate RoleIn(t: Tables, user: nat, org: nat, roles: set<string>)
  {
    exists id :: id in t.memberships && t.memberships[id].user == user && t.memberships[id].org == org &&
                 t.memberships[id].isActive && t.memberships[id].role in roles
  }

  /** The roles of the user's active memberships in the organization. */
  function HeldRoles(t: Tables, user: nat, org: nat): set<string>
  {
    set id | id in t.memberships && t.memberships[id].user == user && t.memberships[id].org == org &&
             t.memberships[id].isActive :: t.memberships[id].role
  }

  /**
   * The role lookup behind `role:` permission declarations: holding one of
   * the roles is sharing a role with the held set, so a `role:` declaration
   * is decided by the user's roles in its current organization.
   */
  lemma RoleLookupAgrees(t: Tables, actor: Actor, org: nat, spec: string)
    requires actor.isAuthenticated && StartsWith(Strip(spec), CrudPermissions.RolePrefix)
    ensures var roles := CrudPermissions.RoleNames(Strip(spec)[|CrudPermissions.RolePrefix|..]);
            CrudPermissions.IsAllowed(Some(spec), actor, Some(HeldRoles(t, actor.pk, org))) <==>
              roles != {} && RoleIn(t, actor.pk, org, roles)
  {
    var roles := CrudPermissions.RoleNames(Strip(spec)[|CrudPermissions.RolePrefix|..]);
    var held := HeldRoles(t, actor.pk, org);
    CrudPermissions.RoleSpecAllows(spec, actor, Some(held));
    if RoleIn(t, actor.pk, org, roles) {
      var id :| id in t.memberships && t.memberships[id].user == actor.pk && t.memberships[id].org == org &&
                t.memberships[id].isActive && t.memberships[id].role in roles;
      assert t.memberships[id].role in roles * held;
    }
    if roles * held != {} {
      var x :| x in roles * held;
      var id :| id in t.memberships && t.memberships[id].user == actor.pk && t.memberships[id].org == org &&
                t.memberships[id].isActive && t.memberships[id].role == x;
      assert t.memberships[id].role in roles;
      assert RoleIn(t, actor.pk, org, roles);
    }
  }
}
