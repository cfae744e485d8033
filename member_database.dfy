/**
 * The membership services as they run: each one reads the tables, checks
 * its guards in order and writes the rows it saves, one assignment per
 * save.  Each service is proved to leave the tables and to return exactly
 * what the matching decision in `MemberServices` says; the invariants the
 * decisions keep (the database constraints, an active admin in every
 * organization that had one) are proved there.
 */
module MemberDatabase {
  import opened Wrappers
  import opened Text
  import opened Auth
  import opened Services
  import opened Orgs
  import opened MemberServices

  /** The service returned the result the decision describes, or raised the exception it names. */
  predicate Answers(r: Result<ServiceResult, string>, reply: Reply)
    reads if r.Ok? then {r.value} else {}
  {
    match reply
    case Returned(v) => r.Ok? && r.value.View() == v
    case Raised(e) => r == Err(e)
  }

  /** `ServiceResult.failure` with one error and no field. */
  method Refuse(code: string, message: string) returns (r: Result<ServiceResult, string>)
    ensures r.Ok? && fresh(r.value) && r.value.View() == FailureView(ServiceError(code, message, None))
  {
    r := Failure([ServiceError(code, message, None)], None);
  }

  /** `ServiceResult.success(data=data)`. */
  method Succeed(data: Data) returns (r: Result<ServiceResult, string>)
    ensures r.Ok? && fresh(r.value) && r.value.View() == SuccessView(data)
  {
    var res := Success(Some(data), None);
    r := Ok(res);
  }

  /** The user, organization and membership tables. */
  class Database {
    var users: map<nat, Person>
    var orgs: map<nat, Organization>
    var memberships: map<nat, Membership>
    var nextUser: nat
    var nextMembership: nat

    /** The tables as a value. */
    function Snapshot(): Tables
      reads this
    {
      Tables(users, orgs, memberships, nextUser, nextMembership)
    }

    constructor (t: Tables)
      ensures Snapshot() == t
    {
      users := t.users;
      orgs := t.orgs;
      memberships := t.memberships;
      nextUser := t.nextUser;
      nextMembership := t.nextMembership;
    }

    /** `CreateMemberService.execute`. */
    method CreateMember(actor: Option<Actor>, input: CreateInput, now: int, accepts: Person -> bool)
      returns (r: Result<ServiceResult, string>)
      modifies this
      ensures var s := MemberServices.CreateMember(old(Snapshot()), actor, input, now, accepts);
              Snapshot() == s.after && Answers(r, s.reply)
    {
      if !Authenticated(actor) {
        r := Refuse("unauthorized", Unauthorized);
        return;
      }
      if !CanManage(Snapshot(), actor.value.pk, input.org) {
        r := Refuse("forbidden", "No tienes permisos para agregar miembros.");
        return;
      }
      var email := Lower(Strip(OrEmpty(input.email)));
      if email == "" {
        r := Refuse("email_required", "El email es obligatorio.");
        return;
      }
      if !IsRole(input.role) {
        r := Refuse("invalid_role", InvalidRole);
        return;
      }
      var picked := SaveUser(email, input.firstName, input.lastName, accepts);
      if picked.None? {
        r := Err("ValidationError");
        return;
      }
      var uid, created := picked.value.0, picked.value.1;
      if HasMembership(Snapshot(), uid, input.org) {
        r := Refuse("already_member", "El usuario ya pertenece a la organización.");
        return;
      }
      var mid := nextMembership;
      memberships := memberships[mid := Membership(uid, input.org, input.role, true, now)];
      nextMembership := nextMembership + 1;
      r := Succeed(map["created_user" := DBool(created), "member_id" := DInt(mid), "user_id" := DInt(uid)]);
    }

    /**
     * The user step of the create service: the first user with the email
     * gets its blank names filled and saved; without one, a new user is
     * validated and saved under the next key.  `None` is a refused new user,
     * and nothing is written then.
     */
    method SaveUser(email: string, firstName: Option<string>, lastName: Option<string>, accepts: Person -> bool)
      returns (picked: Option<(nat, bool)>)
      modifies this
      ensures var p := PickUser(old(Snapshot()), email, firstName, lastName, accepts);
              (p.None? <==> picked.None?) && (p.None? ==> Snapshot() == old(Snapshot())) &&
              (p.Some? ==> Snapshot() == p.value.tables && picked == Some((p.value.user, p.value.created)))
    {
      var found := FirstUserWithEmail(Snapshot(), email, 0);
      if found.None? {
        var user := Person(email, email, OrEmpty(firstName), OrEmpty(lastName), false);
        if UsernameTaken(Snapshot(), email) || !accepts(user) {
          return None;
        }
        var uid := nextUser;
        users := users[uid := user];
        nextUser := nextUser + 1;
        picked := Some((uid, true));
      } else {
        var uid := found.value;
        var user := users[uid];
        users := users[uid := user.(firstName := if user.firstName != "" then user.firstName else OrEmpty(firstName),
                                    lastName := if user.lastName != "" then user.lastName else OrEmpty(lastName))];
        picked := Some((uid, false));
      }
    }

    /** `UpdateMemberService.execute`, with results built by the core `ServiceResult`. */
    method UpdateMember(actor: Option<Actor>, input: UpdateInput) returns (r: Result<ServiceResult, string>)
      modifies this
      ensures var s := MemberServices.UpdateMember(old(Snapshot()), actor, input);
              Snapshot() == s.after && Answers(r, s.reply)
    {
      if !Authenticated(actor) {
        r := Refuse("unauthorized", Unauthorized);
        return;
      }
      if !CanManage(Snapshot(), actor.value.pk, input.org) {
        r := Refuse("forbidden", "No tienes permisos para editar miembros.");
        return;
      }
      if !IsRole(input.role) {
        r := Refuse("invalid_role", InvalidRole);
        return;
      }
      if !MemberOf(Snapshot(), input.memberId, input.org) {
        r := Refuse("not_found", NotFound);
        return;
      }
      var membership := memberships[input.memberId];
      if RemovesAdmin(membership, input.role, input.isActive) {
        var adminCount := |ActiveAdmins(Snapshot(), input.org)|;
        if adminCount <= 1 {
          r := Refuse("last_admin_forbidden", "No puedes dejar la organización sin administradores activos.");
          return;
        }
      }
      var user := users[membership.user];
      users := users[membership.user := user.(firstName := OrEmpty(input.firstName), lastName := OrEmpty(input.lastName))];
      memberships := memberships[input.memberId := membership.(role := input.role, isActive := input.isActive)];
      r := Succeed(map["member_id" := DInt(input.memberId), "updated" := DBool(true)]);
    }

    /** `ToggleMemberService.execute`. */
    method ToggleMember(actor: Option<Actor>, input: ToggleInput) returns (r: Result<ServiceResult, string>)
      modifies this
      ensures var s := MemberServices.ToggleMember(old(Snapshot()), actor, input);
              Snapshot() == s.after && Answers(r, s.reply)
    {
      if !Authenticated(actor) {
        r := Refuse("unauthorized", Unauthorized);
        return;
      }
      if !CanManage(Snapshot(), actor.value.pk, input.org) {
        r := Refuse("forbidden", "No tienes permisos para actualizar miembros.");
        return;
      }
      if !MemberOf(Snapshot(), input.memberId, input.org) {
        r := Refuse("not_found", NotFound);
        return;
      }
      var membership := memberships[input.memberId];
      if !input.active && membership.role == RoleAdmin && membership.isActive {
        var adminCount := |ActiveAdmins(Snapshot(), input.org)|;
        if adminCount <= 1 {
          r := Refuse("last_admin_forbidden", "No puedes desactivar al último administrador activo.");
          return;
        }
      }
      memberships := memberships[input.memberId := membership.(isActive := input.active)];
      r := Succeed(map["member_id" := DInt(input.memberId), "active" := DBool(input.active)]);
    }

    /** `ListMembersService.execute`: the bootstrap insert, then the filtered, ordered query. */
    method ListMembers(actor: Option<Actor>, q: MemberQuery, now: int) returns (r: Result<ServiceResult, string>)
      modifies this
      ensures var s := MemberServices.ListMembers(old(Snapshot()), actor, q, now);
              Snapshot() == s.after && Answers(r, s.reply)
    {
      if Authenticated(actor) && !HasMembership(Snapshot(), actor.value.pk, q.org) {
        if actor.value.pk !in users || q.org !in orgs {
          r := Err("IntegrityError");
          return;
        }
        memberships := memberships[nextMembership := Membership(actor.value.pk, q.org, RoleAdmin, true, now)];
        nextMembership := nextMembership + 1;
      }
      var rows := MemberListing(Snapshot(), q);
      r := Succeed(map["memberships" := DIds(Pks(rows))]);
    }
  }
}
