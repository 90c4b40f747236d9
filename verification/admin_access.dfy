/** The guard at the top of the admin pages: a page renders only for a
    signed-in user whose role is `admin` or `super_admin`. */
module AdminAccess {
  import opened Wrappers
  import opened Records

  /** `!(!user || (user.role !== 'admin' && user.role !== 'super_admin'))`,
      where `role` is the `role` string of the signed-in user. */
  function HasAdminAccess(role: Option<string>): (ok: bool)
    ensures ok <==> role.Some? && (role.value == "admin" || role.value == "super_admin")
  {
    !(role.None? || (role.value != "admin" && role.value != "super_admin"))
  }

  /** The frontend guard agrees with the backend roles: exactly the two
      administrative roles are let in. */
  lemma GuardMatchesRoles(r: Role)
    ensures HasAdminAccess(Some(RoleValue(r))) <==> r != Customer
  {
  }
}
