/**
 * The parts of a Django user that the application reads: identity, the
 * authentication and activity flags, and `has_perm`.
 */
module Auth {
  import opened Wrappers

  /** `request.user`; an anonymous user has `isAuthenticated == false`. */
  datatype Actor = Actor(
    pk: nat,
    isAuthenticated: bool,
    isActive: bool,
    isSuperuser: bool,
    isStaff: bool,
    perms: set<string>)

  /** `user.has_perm(p)`: active superusers hold every permission; anonymous users none. */
  predicate HasPerm(a: Actor, p: string)
  {
    a.isAuthenticated && a.isActive && (a.isSuperuser || p in a.perms)
  }

  /** `user and user.is_authenticated`: a user is there and signed in. */
  predicate Authenticated(user: Option<Actor>)
  {
    user.Some? && user.value.isAuthenticated
  }
}
