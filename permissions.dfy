/**
 * The access rules of an entry (`isAllowedToRead`, `isAllowedToWrite` of
 * `BaseFile` and `BaseFileEntity`), as functions of the fields they consult.
 */
module Permissions {
  import opened Wrappers

  /** The database id of a user entity. */
  type UserId = nat

  /**
   * The signed-in user an entry is given by `setUser`: its identity when that
   * identity is a user entity (None for a guest or a foreign identity), and
   * the names of the roles `isInRole` answers true for.
   */
  datatype Principal = Principal(identity: Option<UserId>, roles: set<string>)

  const Admin: string := "admin"

  predicate InRole(u: Principal, role: string) {
    role in u.roles
  }

  /** Some role named in `roles` is held by `u`. */
  predicate HoldsAny(u: Principal, roles: seq<string>) {
    exists i :: 0 <= i < |roles| && InRole(u, roles[i])
  }

  /**
   * Reading is allowed for an unprotected entry, and for a protected one to an
   * administrator or a holder of one of the read roles. A protected entry
   * without a user is refused.
   */
  predicate ReadRule(protected: bool, user: Option<Principal>, readRoles: seq<string>) {
    !protected || (user.Some? && (InRole(user.value, Admin) || HoldsAny(user.value, readRoles)))
  }

  /**
   * Writing is allowed when the entry has no author; otherwise only to a user
   * who is the author, an administrator, or a holder of one of the READ roles.
   * The write roles take no part in the rule.
   */
  predicate WriteRule(author: Option<UserId>, user: Option<Principal>, readRoles: seq<string>) {
    author.None? ||
    (user.Some? && (user.value.identity == author || InRole(user.value, Admin) || HoldsAny(user.value, readRoles)))
  }

  /** The `foreach` over the role collection that raises a flag on every role the user holds. */
  method AnyRoleHeld(u: Principal, roles: seq<string>) returns (found: bool)
    ensures found <==> HoldsAny(u, roles)
  {
    found := false;
    for i := 0 to |roles|
      invariant found <==> exists j :: 0 <= j < i && InRole(u, roles[j])
    {
      if InRole(u, roles[i]) {
        found := true;
      }
    }
  }
}
