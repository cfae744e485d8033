/**
 * What the membership services decide: for each call, the tables after it
 * and the result it returns (or the exception it raises).  The imperative
 * services in `MemberDatabase` are proved to follow these decisions.
 *
 * Every service checks, in this order, that the actor is authenticated and
 * that its active membership in the organization is an admin one, before
 * anything else.
 */
module MemberServices {
  import opened Wrappers
  import opened Text
  import opened Rows
  import opened Auth
  import opened Exporting
  import opened Services
  import opened Orgs

  /** The fields the create service reads. */
  datatype CreateInput = CreateInput(org: nat, email: Option<string>, firstName: Option<string>,
                                     lastName: Option<string>, role: string)

  /** The fields the update service reads. */
  datatype UpdateInput = UpdateInput(org: nat, memberId: nat, firstName: Option<string>, lastName: Option<string>,
                                     role: string, isActive: bool)

  /** The fields the toggle service reads; `active` is already `bool(active)`. */
  datatype ToggleInput = ToggleInput(org: nat, memberId: nat, active: bool)

  /** The filter fields the list and export services read. */
  datatype MemberQuery = MemberQuery(org: nat, includeInactive: bool, search: Option<string>, role: Option<string>,
                                     isActive: Option<bool>)

  /** The result a service returns, or the exception it raises. */
  datatype Reply = Returned(view: ResultView) | Raised(exception: string)

  /** The tables after a service call, and its reply. */
  datatype Step = Step(after: Tables, reply: Reply)

  /** A returned failure with one error. */
  function Fail(t: Tables, code: string, message: string): Step
  {
    Step(t, Returned(FailureView(ServiceError(code, message, None))))
  }

  /** The error code a call returned, if it returned a failure. */
  function Code(s: Step): Option<string>
  {
    if s.reply.Returned? && s.reply.view.errors != [] then Some(s.reply.view.errors[0].code) else None
  }

  /** The call returned an `ok` result. */
  predicate Succeeded(s: Step)
  {
    s.reply.Returned? && s.reply.view.errors == []
  }

  /** `value or ""` */
  function OrEmpty(v: Option<string>): string
  {
    v.GetOr("")
  }

  const Unauthorized := "Usuario no autenticado."
  const InvalidRole := "Rol inválido."
  const NotFound := "Miembro no encontrado."

  // ---------------------------------------------------------------------
  // Create

  /** An existing user keeps a non-blank name and takes the given one otherwise. */
  function FillNames(u: Person, firstName: Option<string>, lastName: Option<string>): Person
  {
    u.(firstName := if u.firstName != "" then u.firstName else OrEmpty(firstName),
       lastName := if u.lastName != "" then u.lastName else OrEmpty(lastName))
  }

  /** The user a create works with, the tables once it is saved, and whether it is new. */
  datatype UserPick = UserPick(tables: Tables, user: nat, created: bool)

  /**
   * The first user with the email, its blank names filled; or else a new
   * user with the email as username and email and no usable password,
   * provided `full_clean` accepts it (`accepts` stands for its field
   * validators; its username uniqueness check is modelled).
   */
  function PickUser(t: Tables, email: string, firstName: Option<string>, lastName: Option<string>,
                    accepts: Person -> bool): (r: Option<UserPick>)
    ensures r.Some? ==> r.value.user in r.value.tables.users && r.value.tables.users[r.value.user].email == email &&
                        r.value.tables.memberships == t.memberships && r.value.tables.orgs == t.orgs &&
                        r.value.tables.nextMembership == t.nextMembership
    ensures r.Some? && r.value.created ==>
              r.value.user == t.nextUser && r.value.tables.nextUser == t.nextUser + 1 &&
              r.value.tables.users == t.users[t.nextUser := Person(email, email, OrEmpty(firstName), OrEmpty(lastName), false)]
    ensures r.Some? && !r.value.created ==>
              r.value.user in t.users && t.users[r.value.user].email == email && r.value.tables.nextUser == t.nextUser &&
              r.value.tables.users == t.users[r.value.user := FillNames(t.users[r.value.user], firstName, lastName)]
  {
    var found := FirstUserWithEmail(t, email, 0);
    var newUser := Person(email, email, OrEmpty(firstName), OrEmpty(lastName), false);
    if found.Some? then
      Some(UserPick(t.(users := t.users[found.value := FillNames(t.users[found.value], firstName, lastName)]), found.value, false))
    else if UsernameTaken(t, email) || !accepts(newUser) then None
    else Some(UserPick(t.(users := t.users[t.nextUser := newUser], nextUser := t.nextUser + 1), t.nextUser, true))
  }

  /** Picking a user keeps the constraints. */
  lemma PickUserValid(t: Tables, email: string, firstName: Option<string>, lastName: Option<string>, accepts: Person -> bool)
    requires Valid(t)
    ensures var r := PickUser(t, email, firstName, lastName, accepts);
            r.Some? ==> Valid(r.value.tables)
  {
    var found := FirstUserWithEmail(t, email, 0);
    if found.Some? {
      UpdateUserValid(t, found.value, FillNames(t.users[found.value], firstName, lastName));
    } else if !UsernameTaken(t, email) {
      InsertUserValid(t, Person(email, email, OrEmpty(firstName), OrEmpty(lastName), false));
    }
  }

  /**
   * `CreateMemberService.execute`.  A refused new user raises and rolls
   * back.  The blank names of an existing user are filled and saved before
   * the membership check, inside the same transaction, so they stay saved
   * when that check fails.
   */
  function CreateMember(t: Tables, actor: Option<Actor>, input: CreateInput, now: int, accepts: Person -> bool): Step
  {
    if !Authenticated(actor) then Fail(t, "unauthorized", Unauthorized)
    else if !CanManage(t, actor.value.pk, input.org) then Fail(t, "forbidden", "No tienes permisos para agregar miembros.")
    else
      var email := Lower(Strip(OrEmpty(input.email)));
      if email == "" then Fail(t, "email_required", "El email es obligatorio.")
      else if !IsRole(input.role) then Fail(t, "invalid_role", InvalidRole)
      else
        match PickUser(t, email, input.firstName, input.lastName, accepts)
        case None => Step(t, Raised("ValidationError"))
        case Some(p) =>
          if HasMembership(p.tables, p.user, input.org) then
            Fail(p.tables, "already_member", "El usuario ya pertenece a la organización.")
          else
            var mid := p.tables.nextMembership;
            Step(p.tables.(memberships := p.tables.memberships[mid := Membership(p.user, input.org, input.role, true, now)],
                           nextMembership := mid + 1),
                 Returned(SuccessView(map["created_user" := DBool(p.created), "member_id" := DInt(mid),
                                          "user_id" := DInt(p.user)])))
  }

  /**
   * The checks come in order: authentication, permission, a blank email
   * (after stripping and lower-casing), then the role.  Each of these
   * failures changes nothing.
   */
  lemma CreateChecksInOrder(t: Tables, actor: Option<Actor>, input: CreateInput, now: int, accepts: Person -> bool)
    ensures var s := CreateMember(t, actor, input, now, accepts);
            var email := Lower(Strip(OrEmpty(input.email)));
            (!Authenticated(actor) ==> Code(s) == Some("unauthorized")) &&
            (Authenticated(actor) && !CanManage(t, actor.value.pk, input.org) ==> Code(s) == Some("forbidden")) &&
            (Authenticated(actor) && CanManage(t, actor.value.pk, input.org) && email == "" ==>
               Code(s) == Some("email_required")) &&
            (Authenticated(actor) && CanManage(t, actor.value.pk, input.org) && email != "" && !IsRole(input.role) ==>
               Code(s) == Some("invalid_role")) &&
            (Code(s).Some? && Code(s) != Some("already_member") ==> s.after == t)
  {
  }

  /**
   * A user already linked to the organization, active or not, gets
   * "already_member" and no membership is added; at most the user's blank
   * names were filled in.
   */
  lemma CreateAlreadyMember(t: Tables, actor: Option<Actor>, input: CreateInput, now: int, accepts: Person -> bool,
                            uid: nat)
    requires Authenticated(actor) && CanManage(t, actor.value.pk, input.org) && IsRole(input.role)
    requires Lower(Strip(OrEmpty(input.email))) != ""
    requires uid in t.users && HasMembership(t, uid, input.org)
    requires FirstUserWithEmail(t, Lower(Strip(OrEmpty(input.email))), 0) == Some(uid)
    ensures var s := CreateMember(t, actor, input, now, accepts);
            Code(s) == Some("already_member") &&
            s.after == t.(users := t.users[uid := FillNames(t.users[uid], input.firstName, input.lastName)])
  {
    var email := Lower(Strip(OrEmpty(input.email)));
    var t1 := t.(users := t.users[uid := FillNames(t.users[uid], input.firstName, input.lastName)]);
    var id :| id in t.memberships && t.memberships[id].user == uid && t.memberships[id].org == input.org;
    assert id in t1.memberships;
  }

  /** Names already set are never overwritten; blank ones take the input or stay blank. */
  lemma FillNamesKeeps(u: Person, firstName: Option<string>, lastName: Option<string>)
    ensures var v := FillNames(u, firstName, lastName);
            (u.firstName != "" ==> v.firstName == u.firstName) &&
            (u.firstName == "" ==> v.firstName == firstName.GetOr("")) &&
            (u.lastName != "" ==> v.lastName == u.lastName) &&
            (u.lastName == "" ==> v.lastName == lastName.GetOr("")) &&
            v.email == u.email && v.username == u.username && v.usablePassword == u.usablePassword
  {
  }

  /**
   * A successful create adds exactly one membership under a fresh key:
   * active, with the requested role, for the user the email names.  A new
   * user has the email as username and email and no usable password.
   */
  lemma CreateSuccess(t: Tables, actor: Option<Actor>, input: CreateInput, now: int, accepts: Person -> bool)
    requires Valid(t)
    requires Succeeded(CreateMember(t, actor, input, now, accepts))
    ensures var s := CreateMember(t, actor, input, now, accepts);
            var email := Lower(Strip(OrEmpty(input.email)));
            var mid := t.nextMembership;
            mid !in t.memberships &&
            s.after.memberships.Keys == t.memberships.Keys + {mid} &&
            (forall id :: id in t.memberships ==> s.after.memberships[id] == t.memberships[id]) &&
            s.after.memberships[mid].org == input.org && s.after.memberships[mid].role == input.role &&
            s.after.memberships[mid].isActive &&
            s.after.memberships[mid].user in s.after.users &&
            s.after.users[s.after.memberships[mid].user].email == email &&
            (s.after.memberships[mid].user !in t.users ==>
               s.after.users[s.after.memberships[mid].user] == Person(email, email, OrEmpty(input.firstName),
                                                                       OrEmpty(input.lastName), false))
  {
    var email := Lower(Strip(OrEmpty(input.email)));
    if Authenticated(actor) && CanManage(t, actor.value.pk, input.org) && email != "" && IsRole(input.role) {
      var r := PickUser(t, email, input.firstName, input.lastName, accepts);
      if r.Some? && !HasMembership(r.value.tables, r.value.user, input.org) {
        assert t.nextMembership !in t.memberships;
      }
    }
  }

  /** The create service keeps the database's constraints. */
  lemma CreatePreservesValid(t: Tables, actor: Option<Actor>, input: CreateInput, now: int, accepts: Person -> bool)
    requires Valid(t)
    ensures Valid(CreateMember(t, actor, input, now, accepts).after)
  {
    var email := Lower(Strip(OrEmpty(input.email)));
    if Authenticated(actor) && CanManage(t, actor.value.pk, input.org) && email != "" && IsRole(input.role) {
      var r := PickUser(t, email, input.firstName, input.lastName, accepts);
      if r.Some? {
        var p := r.value;
        PickUserValid(t, email, input.firstName, input.lastName, accepts);
        if !HasMembership(p.tables, p.user, input.org) {
          var am := ActorMembership(t, actor.value.pk, input.org);
          assert am.Some? && am.value in t.memberships;
          InsertMembershipValid(p.tables, Membership(p.user, input.org, input.role, true, now));
        }
      }
    }
  }


  // ---------------------------------------------------------------------
  // Update

  /** Demoting or deactivating an active admin: the change the last-admin guard looks at. */
  predicate RemovesAdmin(m: Membership, role: string, isActive: bool)
  {
    m.role == RoleAdmin && m.isActive && (role != RoleAdmin || !isActive)
  }

  /**
   * `UpdateMemberService.execute` as it is evidently meant to run: with the
   * `ServiceResult` whose `success` and `failure` exist.  The member is
   * looked up within the organization only; demoting or deactivating an
   * active admin while the organization has at most one is refused.
   */
  function UpdateMember(t: Tables, actor: Option<Actor>, input: UpdateInput): Step
  {
    if !Authenticated(actor) then Fail(t, "unauthorized", Unauthorized)
    else if !CanManage(t, actor.value.pk, input.org) then Fail(t, "forbidden", "No tienes permisos para editar miembros.")
    else if !IsRole(input.role) then Fail(t, "invalid_role", InvalidRole)
    else if !MemberOf(t, input.memberId, input.org) then Fail(t, "not_found", NotFound)
    else
      var m := t.memberships[input.memberId];
      if RemovesAdmin(m, input.role, input.isActive) && |ActiveAdmins(t, input.org)| <= 1 then
        Fail(t, "last_admin_forbidden", "No puedes dejar la organización sin administradores activos.")
      else
        var u := t.users[m.user];
        Step(t.(users := t.users[m.user := u.(firstName := OrEmpty(input.firstName), lastName := OrEmpty(input.lastName))],
                memberships := t.memberships[input.memberId := m.(role := input.role, isActive := input.isActive)]),
             Returned(SuccessView(map["member_id" := DInt(input.memberId), "updated" := DBool(true)])))
  }

  /**
   * `UpdateMemberService.execute` as written: it builds its results with
   * `ServiceResult.failure` and `ServiceResult.success` of the
   * service-core result class, which has neither, so every call raises
   * `AttributeError`.  The transaction has already committed when the
   * success result is built, so a permitted update is saved all the same.
   */
  function UpdateMemberAsWritten(t: Tables, actor: Option<Actor>, input: UpdateInput): Step
  {
    Step(UpdateMember(t, actor, input).after, Raised("AttributeError"))
  }

  /**
   * As written the update service never returns a result: every call
   * raises, even one whose change has been saved.
   */
  lemma UpdateAsWrittenAlwaysRaises(t: Tables, actor: Option<Actor>, input: UpdateInput)
    ensures UpdateMemberAsWritten(t, actor, input).reply == Raised("AttributeError")
    ensures Succeeded(UpdateMember(t, actor, input)) ==>
              var after := UpdateMemberAsWritten(t, actor, input).after;
              input.memberId in after.memberships &&
              after.memberships[input.memberId].role == input.role &&
              after.memberships[input.memberId].isActive == input.isActive
  {
    if Succeeded(UpdateMember(t, actor, input)) {
      UpdateSuccess(t, actor, input);
    }
  }

  /**
   * The checks come in order, a member of another organization is not
   * found, and every failure returns before anything is saved.
   */
  lemma UpdateChecksInOrder(t: Tables, actor: Option<Actor>, input: UpdateInput)
    ensures var s := UpdateMember(t, actor, input);
            (!Authenticated(actor) ==> Code(s) == Some("unauthorized")) &&
            (Authenticated(actor) && !CanManage(t, actor.value.pk, input.org) ==> Code(s) == Some("forbidden")) &&
            (Authenticated(actor) && CanManage(t, actor.value.pk, input.org) && !IsRole(input.role) ==>
               Code(s) == Some("invalid_role")) &&
            (Authenticated(actor) && CanManage(t, actor.value.pk, input.org) && IsRole(input.role) &&
             input.memberId in t.memberships && t.memberships[input.memberId].org != input.org ==>
               Code(s) == Some("not_found")) &&
            (!Succeeded(s) ==> s.after == t)
  {
  }

  /**
   * A successful update sets the role and the active flag to the inputs
   * and both names to the inputs or "", and changes no other membership
   * and no other user.
   */
  lemma UpdateSuccess(t: Tables, actor: Option<Actor>, input: UpdateInput)
    requires Succeeded(UpdateMember(t, actor, input))
    ensures var s := UpdateMember(t, actor, input);
            var id := input.memberId;
            id in t.memberships && t.memberships[id].org == input.org &&
            s.after.memberships == t.memberships[id := t.memberships[id].(role := input.role, isActive := input.isActive)] &&
            var uid := t.memberships[id].user;
            uid in t.users &&
            s.after.users == t.users[uid := t.users[uid].(firstName := OrEmpty(input.firstName),
                                                          lastName := OrEmpty(input.lastName))]
  {
  }

  /**
   * One membership changes and the guard holds, so no organization that
   * had an active admin is left without one.
   */
  lemma {:induction false} OneChangeKeepsAdmins(t: Tables, id: nat, m': Membership, org: nat)
    requires id in t.memberships && m'.org == t.memberships[id].org
    requires var m := t.memberships[id];
             m.role == RoleAdmin && m.isActive && !(m'.role == RoleAdmin && m'.isActive) ==>
               |ActiveAdmins(t, m.org)| > 1
    requires ActiveAdmins(t, org) != {}
    ensures ActiveAdmins(t.(memberships := t.memberships[id := m']), org) != {}
  {
    var t' := t.(memberships := t.memberships[id := m']);
    var m := t.memberships[id];
    var a :| a in ActiveAdmins(t, org);
    if a != id {
      assert a in ActiveAdmins(t', org);
    } else if m'.role == RoleAdmin && m'.isActive {
      assert id in ActiveAdmins(t', org);
    } else {
      AnotherAdmin(t, org, id);
      var b :| b in ActiveAdmins(t, org) && b != id;
      assert b in ActiveAdmins(t', org);
    }
  }

  /** An organization with an active admin before an update still has one after it. */
  lemma UpdateKeepsAnAdmin(t: Tables, actor: Option<Actor>, input: UpdateInput, org: nat)
    requires ActiveAdmins(t, org) != {}
    ensures ActiveAdmins(UpdateMember(t, actor, input).after, org) != {}
  {
    if Authenticated(actor) && CanManage(t, actor.value.pk, input.org) && IsRole(input.role) &&
       MemberOf(t, input.memberId, input.org)
    {
      var id := input.memberId;
      var m := t.memberships[id];
      if !(RemovesAdmin(m, input.role, input.isActive) && |ActiveAdmins(t, input.org)| <= 1) {
        var m' := m.(role := input.role, isActive := input.isActive);
        OneChangeKeepsAdmins(t, id, m', org);
        assert ActiveAdmins(UpdateMember(t, actor, input).after, org) ==
               ActiveAdmins(t.(memberships := t.memberships[id := m']), org);
      }
    }
  }

  /** The update service keeps the database's constraints. */
  lemma UpdatePreservesValid(t: Tables, actor: Option<Actor>, input: UpdateInput)
    requires Valid(t)
    ensures Valid(UpdateMember(t, actor, input).after)
  {
    if Authenticated(actor) && CanManage(t, actor.value.pk, input.org) && IsRole(input.role) &&
       MemberOf(t, input.memberId, input.org)
    {
      var id := input.memberId;
      var m := t.memberships[id];
      if !(RemovesAdmin(m, input.role, input.isActive) && |ActiveAdmins(t, input.org)| <= 1) {
        var u := t.users[m.user];
        var t1 := t.(users := t.users[m.user := u.(firstName := OrEmpty(input.firstName), lastName := OrEmpty(input.lastName))]);
        UpdateUserValid(t, m.user, t1.users[m.user]);
        UpdateMembershipValid(t1, id, m.(role := input.role, isActive := input.isActive));
      }
    }
  }

  /** Both invariants of an update, for every organization at once. */
  lemma UpdateInvariants(t: Tables, actor: Option<Actor>, input: UpdateInput)
    ensures forall org :: ActiveAdmins(t, org) != {} ==> ActiveAdmins(UpdateMember(t, actor, input).after, org) != {}
    ensures Valid(t) ==> Valid(UpdateMember(t, actor, input).after)
  {
    forall org | ActiveAdmins(t, org) != {} ensures ActiveAdmins(UpdateMember(t, actor, input).after, org) != {} {
      UpdateKeepsAnAdmin(t, actor, input, org);
    }
    if Valid(t) {
      UpdatePreservesValid(t, actor, input);
    }
  }

  // ---------------------------------------------------------------------
  // Toggle

  /**
   * `ToggleMemberService.execute`: only deactivating an active admin while
   * the organization has at most one is refused; the role is untouched.
   */
  function ToggleMember(t: Tables, actor: Option<Actor>, input: ToggleInput): Step
  {
    if !Authenticated(actor) then Fail(t, "unauthorized", Unauthorized)
    else if !CanManage(t, actor.value.pk, input.org) then Fail(t, "forbidden", "No tienes permisos para actualizar miembros.")
    else if !MemberOf(t, input.memberId, input.org) then Fail(t, "not_found", NotFound)
    else
      var m := t.memberships[input.memberId];
      if !input.active && m.role == RoleAdmin && m.isActive && |ActiveAdmins(t, input.org)| <= 1 then
        Fail(t, "last_admin_forbidden", "No puedes desactivar al último administrador activo.")
      else
        Step(t.(memberships := t.memberships[input.memberId := m.(isActive := input.active)]),
             Returned(SuccessView(map["member_id" := DInt(input.memberId), "active" := DBool(input.active)])))
  }

  /**
   * For a member of the organization and a permitted actor, toggling
   * succeeds unless it would deactivate the last active admin; it then
   * sets the flag to the request, keeps the role, and reports the new
   * value.
   */
  lemma ToggleOutcome(t: Tables, actor: Option<Actor>, input: ToggleInput)
    requires Authenticated(actor) && CanManage(t, actor.value.pk, input.org) && MemberOf(t, input.memberId, input.org)
    ensures var s := ToggleMember(t, actor, input);
            var m := t.memberships[input.memberId];
            (Succeeded(s) <==> input.active || !(m.role == RoleAdmin && m.isActive) || |ActiveAdmins(t, input.org)| > 1) &&
            (Succeeded(s) ==> s.after.memberships == t.memberships[input.memberId := m.(isActive := input.active)] &&
                              s.after.users == t.users &&
                              s.reply.view.data["active"] == DBool(input.active)) &&
            (!Succeeded(s) ==> Code(s) == Some("last_admin_forbidden") && s.after == t)
  {
  }

  /** Refusals: unauthenticated, not an admin, not a member of this organization; none changes anything. */
  lemma ToggleRefusals(t: Tables, actor: Option<Actor>, input: ToggleInput)
    ensures var s := ToggleMember(t, actor, input);
            (!Authenticated(actor) ==> Code(s) == Some("unauthorized")) &&
            (Authenticated(actor) && !CanManage(t, actor.value.pk, input.org) ==> Code(s) == Some("forbidden")) &&
            (Authenticated(actor) && CanManage(t, actor.value.pk, input.org) && !MemberOf(t, input.memberId, input.org) ==>
               Code(s) == Some("not_found")) &&
            (!Succeeded(s) ==> s.after == t)
  {
  }

  /** Setting the flag it already has leaves the tables as they were. */
  lemma ToggleIdempotent(t: Tables, actor: Option<Actor>, input: ToggleInput)
    requires MemberOf(t, input.memberId, input.org) && t.memberships[input.memberId].isActive == input.active
    ensures ToggleMember(t, actor, input).after == t
  {
    var m := t.memberships[input.memberId];
    assert m.(isActive := input.active) == m;
    assert t.memberships[input.memberId := m] == t.memberships;
  }

  /** An organization with an active admin before a toggle still has one after it. */
  lemma ToggleKeepsAnAdmin(t: Tables, actor: Option<Actor>, input: ToggleInput, org: nat)
    requires ActiveAdmins(t, org) != {}
    ensures ActiveAdmins(ToggleMember(t, actor, input).after, org) != {}
  {
    if Authenticated(actor) && CanManage(t, actor.value.pk, input.org) && MemberOf(t, input.memberId, input.org) {
      var id := input.memberId;
      var m := t.memberships[id];
      if !(!input.active && m.role == RoleAdmin && m.isActive && |ActiveAdmins(t, input.org)| <= 1) {
        OneChangeKeepsAdmins(t, id, m.(isActive := input.active), org);
      }
    }
  }

  /** The toggle service keeps the database's constraints. */
  lemma TogglePreservesValid(t: Tables, actor: Option<Actor>, input: ToggleInput)
    requires Valid(t)
    ensures Valid(ToggleMember(t, actor, input).after)
  {
    if Authenticated(actor) && CanManage(t, actor.value.pk, input.org) && MemberOf(t, input.memberId, input.org) {
      var m := t.memberships[input.memberId];
      UpdateMembershipValid(t, input.memberId, m.(isActive := input.active));
    }
  }

  /** Both invariants of a toggle, for every organization at once. */
  lemma ToggleInvariants(t: Tables, actor: Option<Actor>, input: ToggleInput)
    ensures forall org :: ActiveAdmins(t, org) != {} ==> ActiveAdmins(ToggleMember(t, actor, input).after, org) != {}
    ensures Valid(t) ==> Valid(ToggleMember(t, actor, input).after)
  {
    forall org | ActiveAdmins(t, org) != {} ensures ActiveAdmins(ToggleMember(t, actor, input).after, org) != {} {
      ToggleKeepsAnAdmin(t, actor, input, org);
    }
    if Valid(t) {
      TogglePreservesValid(t, actor, input);
    }
  }

  // ---------------------------------------------------------------------
  // List and export querysets

  /** `first_name`, `last_name` or `email` of the user contains the term, ignoring case. */
  predicate SearchHit(r: Row, term: string)
  {
    ValueIContains(Field(r, "user__first_name"), term) || ValueIContains(Field(r, "user__last_name"), term) ||
    ValueIContains(Field(r, "user__email"), term)
  }

  /** The search term once stripped; blank means no search. */
  function SearchTerm(q: MemberQuery): string
  {
    Strip(OrEmpty(q.search))
  }

  /** The filter chain shared by the list and export services. */
  function MemberFilter(rs: seq<Row>, q: MemberQuery): seq<Row>
  {
    var term := SearchTerm(q);
    var bySearch := if term != "" then Where(rs, r => SearchHit(r, term)) else rs;
    var byRole := if OrEmpty(q.role) != "" then Where(bySearch, r => Field(r, "role") == VStr(q.role.value)) else bySearch;
    if q.isActive.Some? then Where(byRole, r => Field(r, "is_active") == VBool(q.isActive.value))
    else if !q.includeInactive then Where(byRole, r => Field(r, "is_active") == VBool(true))
    else byRole
  }

  /** `qs.order_by("user__email", "user__username")` over the filtered memberships of the organization. */
  function MemberListing(t: Tables, q: MemberQuery): seq<Row>
  {
    OrderBy(MemberFilter(OrgRows(t, q.org, 0), q), MemberOrder)
  }

  /** The status a query asks for: the explicit flag, else active only unless inactive ones are included. */
  predicate StatusMatches(q: MemberQuery, active: bool)
  {
    if q.isActive.Some? then active == q.isActive.value else q.includeInactive || active
  }

  /**
   * A row passes the filters exactly when the stripped search term is blank
   * or appears in a name or the email, the role is absent or equal, and the
   * status matches; the filters keep the rows' order.
   */
  lemma MemberFilterKeeps(rs: seq<Row>, q: MemberQuery)
    ensures forall r :: r in MemberFilter(rs, q) <==>
              r in rs && (SearchTerm(q) == "" || SearchHit(r, SearchTerm(q))) &&
              (OrEmpty(q.role) == "" || Field(r, "role") == VStr(q.role.value)) &&
              ((Field(r, "is_active").VBool? && StatusMatches(q, Field(r, "is_active").b)) ||
               (q.isActive.None? && q.includeInactive))
  {
    var term := SearchTerm(q);
    var bySearch := if term != "" then Where(rs, r => SearchHit(r, term)) else rs;
    var byRole := if OrEmpty(q.role) != "" then Where(bySearch, r => Field(r, "role") == VStr(q.role.value)) else bySearch;
    if term != "" { WhereMembers(rs, r => SearchHit(r, term)); }
    if OrEmpty(q.role) != "" { WhereMembers(bySearch, r => Field(r, "role") == VStr(q.role.value)); }
    if q.isActive.Some? {
      WhereMembers(byRole, r => Field(r, "is_active") == VBool(q.isActive.value));
    } else if !q.includeInactive {
      WhereMembers(byRole, r => Field(r, "is_active") == VBool(true));
    }
  }

  /** Filtering only drops rows. */
  lemma MemberFilterSubset(rs: seq<Row>, q: MemberQuery)
    ensures forall r :: r in MemberFilter(rs, q) ==> r in rs
  {
    MemberFilterKeeps(rs, q);
  }

  /**
   * The listing holds exactly the filtered memberships of the organization,
   * sorted by email then username, and under the constraints no other
   * order of those rows is sorted.
   */
  lemma MemberListingOrder(t: Tables, q: MemberQuery, other: seq<Row>)
    requires Valid(t)
    requires multiset(other) == multiset(MemberFilter(OrgRows(t, q.org, 0), q)) && Sorted(other, MemberOrder)
    ensures multiset(MemberListing(t, q)) == multiset(MemberFilter(OrgRows(t, q.org, 0), q))
    ensures Sorted(MemberListing(t, q), MemberOrder)
    ensures forall r :: r in MemberListing(t, q) ==> MemberOf(t, r.pk, q.org)
    ensures other == MemberListing(t, q)
  {
    var rows := OrgRows(t, q.org, 0);
    var filtered := MemberFilter(rows, q);
    OrderBySorted(filtered, MemberOrder);
    MemberFilterSubset(rows, q);
    MemberOrderSeparates(t, q.org, filtered);
    OrderBySeparatedIsTheOrder(filtered, other, MemberOrder);
    forall r | r in MemberListing(t, q) ensures MemberOf(t, r.pk, q.org) {
      assert r in multiset(filtered);
    }
  }

  // ---------------------------------------------------------------------
  // List

  /** The primary keys of rows, in order. */
  function Pks(rs: seq<Row>): (ids: seq<nat>)
    ensures |ids| == |rs| && forall i :: 0 <= i < |rs| ==> ids[i] == rs[i].pk
  {
    if rs == [] then [] else [rs[0].pk] + Pks(rs[1..])
  }

  /** The actor gets a membership created: authenticated, with none in the organization. */
  predicate NeedsBootstrap(t: Tables, actor: Option<Actor>, org: nat)
  {
    Authenticated(actor) && !HasMembership(t, actor.value.pk, org)
  }

  /**
   * `ListMembersService.execute`: an authenticated actor without any
   * membership in the organization is first made an active admin of it
   * (the insert fails when the user or the organization row is missing);
   * then the filtered, ordered memberships are returned.
   */
  function ListMembers(t: Tables, actor: Option<Actor>, q: MemberQuery, now: int): Step
  {
    if NeedsBootstrap(t, actor, q.org) && (actor.value.pk !in t.users || q.org !in t.orgs) then
      Step(t, Raised("IntegrityError"))
    else
      var t1 := if NeedsBootstrap(t, actor, q.org) then
                  t.(memberships := t.memberships[t.nextMembership := Membership(actor.value.pk, q.org, RoleAdmin, true, now)],
                     nextMembership := t.nextMembership + 1)
                else t;
      Step(t1, Returned(SuccessView(map["memberships" := DIds(Pks(MemberListing(t1, q)))])))
  }

  /**
   * With the organization and the actor's user present the list service
   * always succeeds; an actor that had no membership there becomes its
   * active admin, and otherwise nothing changes.
   */
  lemma ListMembersOutcome(t: Tables, actor: Option<Actor>, q: MemberQuery, now: int)
    requires Valid(t) && q.org in t.orgs && (Authenticated(actor) ==> actor.value.pk in t.users)
    ensures var s := ListMembers(t, actor, q, now);
            Succeeded(s) &&
            (NeedsBootstrap(t, actor, q.org) ==>
               s.after.memberships == t.memberships[t.nextMembership := Membership(actor.value.pk, q.org, RoleAdmin, true, now)] &&
               CanManage(s.after, actor.value.pk, q.org)) &&
            (!NeedsBootstrap(t, actor, q.org) ==> s.after == t)
  {
    if NeedsBootstrap(t, actor, q.org) {
      InsertAdminManages(t, actor.value.pk, q.org, now);
    }
  }

  /** The list service keeps the database's constraints. */
  lemma ListPreservesValid(t: Tables, actor: Option<Actor>, q: MemberQuery, now: int)
    requires Valid(t)
    ensures Valid(ListMembers(t, actor, q, now).after)
  {
    var s := ListMembers(t, actor, q, now);
    if NeedsBootstrap(t, actor, q.org) && s.reply.Returned? {
      InsertMembershipValid(t, Membership(actor.value.pk, q.org, RoleAdmin, true, now));
    }
  }

  // ---------------------------------------------------------------------
  // Export

  const MemberFields: seq<string> := ["user__email", "user__first_name", "user__last_name", "role", "is_active", "created_at"]
  const MemberHeaders: seq<string> := ["Email", "Nombre", "Apellido", "Rol", "Activo", "Fecha Alta"]
  const ExportFormats := {"csv", "xlsx", "pdf"}

  /**
   * What the export needs from outside: the organization on the execution
   * context handed to `execute` (if any), Django's `slugify`, the
   * formatted clock, and whether openpyxl and reportlab import.
   */
  datatype ExportEnv = ExportEnv(context: Option<Organization>, slugify: string -> string, ts: string, subtitle: string,
                                 openpyxl: bool, reportlab: bool)

  /** "miembros_" and the slug of the context organization's slug, else its name, else "org". */
  function ExportFilenameBase(context: Option<Organization>, slugify: string -> string): string
  {
    var named := if context.None? then "" else if context.value.slug != "" then context.value.slug else context.value.name;
    "miembros_" + slugify(if named != "" then named else "org")
  }

  /**
   * `ExportMembersService.execute`: authentication, permission, then the
   * lower-cased format; csv and xlsx go to their writers and pdf to the
   * PDF table.  Nothing is ever written to the tables, and no membership is
   * created for the actor.
   */
  function ExportMembers(t: Tables, actor: Option<Actor>, q: MemberQuery, format: Option<string>, env: ExportEnv): Step
  {
    if !Authenticated(actor) then Fail(t, "unauthorized", Unauthorized)
    else if !CanManage(t, actor.value.pk, q.org) then Fail(t, "forbidden", "No tienes permisos para exportar miembros.")
    else
      var fmt := Lower(OrEmpty(format));
      if fmt !in ExportFormats then Fail(t, "invalid_format", "Formato de exportación no soportado.")
      else
        var rows := MemberListing(t, q);
        var base := ExportFilenameBase(env.context, env.slugify);
        if fmt == "csv" then
          Step(t, Returned(SuccessView(map["http_response" := DFile(CsvFile(
            CsvStream(DefaultFilename(base, "csv", env.ts), Bom, TextTable(rows, MemberFields, MemberHeaders))))])))
        else if fmt == "xlsx" then
          if !env.openpyxl then Step(t, Raised("RuntimeError"))
          else Step(t, Returned(SuccessView(map["http_response" := DFile(XlsxFile(
            Workbook(DefaultFilename(base, "xlsx", env.ts), SheetTitle("Miembros"), SheetTable(rows, MemberFields, MemberHeaders))))])))
        else
          if !env.reportlab then Step(t, Raised("RuntimeError"))
          else Step(t, Returned(SuccessView(map["http_response" := DFile(PdfFile(
            PdfTable(DefaultFilename(base, "pdf", env.ts), "Miembros", env.subtitle, TextTable(rows, MemberFields, MemberHeaders))))])))
  }

  /**
   * The export never changes the tables; it refuses in the order
   * unauthenticated, not an admin, unknown format; a permitted csv export
   * always succeeds, and every file holds the header row and then exactly
   * the rows the list service shows for the same filters.
   */
  lemma ExportMembersOutcome(t: Tables, actor: Option<Actor>, q: MemberQuery, format: Option<string>, env: ExportEnv)
    ensures var s := ExportMembers(t, actor, q, format, env);
            s.after == t &&
            (!Authenticated(actor) ==> Code(s) == Some("unauthorized")) &&
            (Authenticated(actor) && !CanManage(t, actor.value.pk, q.org) ==> Code(s) == Some("forbidden")) &&
            (Authenticated(actor) && CanManage(t, actor.value.pk, q.org) ==>
               (Code(s) == Some("invalid_format") <==> Lower(OrEmpty(format)) !in ExportFormats)) &&
            (Authenticated(actor) && CanManage(t, actor.value.pk, q.org) && Lower(OrEmpty(format)) == "csv" ==>
               Succeeded(s)) &&
            (Succeeded(s) ==> var file := s.reply.view.data["http_response"].file;
               (file.CsvFile? && file.csv.lines == TextTable(MemberListing(t, q), MemberFields, MemberHeaders)) ||
               (file.XlsxFile? && file.xlsx.sheet == SheetTable(MemberListing(t, q), MemberFields, MemberHeaders)) ||
               (file.PdfFile? && file.pdf.data == TextTable(MemberListing(t, q), MemberFields, MemberHeaders)))
  {
  }

  /** The six fields and six headers pair up, so no writer refuses them. */
  lemma MemberColumnsMatch()
    ensures |MemberFields| == |MemberHeaders| == 6
  {
  }

  /** Without an organization on the context the file is named after "org". */
  lemma ExportWithoutContext(slugify: string -> string)
    ensures ExportFilenameBase(None, slugify) == "miembros_" + slugify("org")
  {
  }
}
