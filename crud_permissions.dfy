/**
 * `CrudPermissionSpec.is_allowed`: a permission declaration is absent, a
 * `role:` list checked against the user's roles in its current organization,
 * or a Django permission string.
 */
module CrudPermissions {
  import opened Wrappers
  import opened Text
  import opened Auth

  /** The non-blank, stripped names of a comma-separated role list. */
  function RoleNames(list: string): set<string>
  {
    set r | r in Split(list, ',') && Strip(r) != "" :: Strip(r)
  }

  const RolePrefix := "role:"

  /**
   * `CrudPermissionSpec(spec).is_allowed(request)`.  `orgRoles` is what the
   * role lookup finds: the roles of the user's active memberships in its
   * current organization, or `None` when the lookup raises.
   */
  function IsAllowed(spec: Option<string>, user: Actor, orgRoles: Option<set<string>>): bool
  {
    if spec.None? || spec.value == "" then true
    else if !user.isAuthenticated then false
    else
      var raw := Strip(spec.value);
      if StartsWith(raw, RolePrefix) then
        var roles := RoleNames(raw[|RolePrefix|..]);
        if roles == {} then false
        else match orgRoles
          case None => false
          case Some(held) => roles * held != {}
      else HasPerm(user, raw)
  }

  /** No declaration allows every request, authenticated or not. */
  lemma NoSpecAllowsAll(user: Actor, orgRoles: Option<set<string>>)
    ensures IsAllowed(None, user, orgRoles) && IsAllowed(Some(""), user, orgRoles)
  {
  }

  /** Any declaration denies an unauthenticated user. */
  lemma SpecDeniesAnonymous(spec: string, user: Actor, orgRoles: Option<set<string>>)
    requires spec != "" && !user.isAuthenticated
    ensures !IsAllowed(Some(spec), user, orgRoles)
  {
  }

  /**
   * A `role:` declaration allows an authenticated user iff the lookup
   * succeeds and finds one of the listed roles; a list with no names and a
   * lookup that raises both deny.
   */
  lemma RoleSpecAllows(spec: string, user: Actor, orgRoles: Option<set<string>>)
    requires user.isAuthenticated && StartsWith(Strip(spec), RolePrefix)
    ensures IsAllowed(Some(spec), user, orgRoles) <==>
            (orgRoles.Some? && RoleNames(Strip(spec)[|RolePrefix|..]) * orgRoles.value != {})
  {
  }

  /** Any other declaration allows iff the user has the stripped permission. */
  lemma PermSpecAllows(spec: string, user: Actor, orgRoles: Option<set<string>>)
    requires spec != "" && !StartsWith(Strip(spec), RolePrefix)
    ensures IsAllowed(Some(spec), user, orgRoles) <==> HasPerm(user, Strip(spec))
  {
  }

  /** "role:" with no names denies everyone. */
  lemma EmptyRoleListDenies(user: Actor, orgRoles: Option<set<string>>)
    ensures !IsAllowed(Some("role:"), user, orgRoles)
  {
    assert Strip("role:") == "role:" by {
      StripNoop("role:");
    }
    assert "role:"[|RolePrefix|..] == "";
    assert Split("", ',') == [""];
    assert RoleNames("") == {};
  }
}
