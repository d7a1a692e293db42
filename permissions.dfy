/** `usePermissions`: the front end's translation of the signed-in user's
    role into the two flags the screens consult before showing read-only or
    editing controls. */
module Permissions {
  import opened Common
  import opened Auth
  import opened Roles

  /** The user the front end keeps after `/auth/me` or a login. */
  datatype SessionUser = SessionUser(name: string, email: string, role: string)

  datatype PermissionFlags = PermissionFlags(canRead: bool, canCUD: bool)

  /** `user?.role || "guest"`: no user, or an empty role, reads as guest. */
  function EffectiveRole(user: Option<SessionUser>): (role: string)
    ensures role != ""
    ensures user.None? ==> role == "guest"
    ensures user.Some? && user.value.role != "" ==> role == user.value.role
  {
    if user.Some? && user.value.role != "" then user.value.role else "guest"
  }

  function Flags(user: Option<SessionUser>): (f: PermissionFlags)
    ensures f.canRead <==> EffectiveRole(user) in ReadRoles
    ensures f.canCUD <==> EffectiveRole(user) in WriteRoles
    ensures f.canCUD ==> f.canRead
  {
    var role := EffectiveRole(user);
    var isAdmin := role == Admin;
    var isStaff := role == Staff;
    var isUser := role == UserRole;
    PermissionFlags(isAdmin || isStaff || isUser, isAdmin || isStaff)
  }

  /** A guest and a bul user get neither flag. */
  lemma GuestAndBulGetNothing(name: string, email: string)
    ensures Flags(None) == PermissionFlags(false, false)
    ensures Flags(Some(SessionUser(name, email, Bul))) == PermissionFlags(false, false)
  {
    assert EffectiveRole(None) == "guest";
  }

  /** The flags agree with the backend's guards: a user whose token carries
      the same role passes the read routes exactly when `canRead` holds and
      the write routes exactly when `canCUD` holds. */
  lemma FlagsMatchRoutes(user: SessionUser)
    ensures Flags(Some(user)).canRead == CheckRole(Some(Payload(user.email, user.role)), ReadRoles)
    ensures Flags(Some(user)).canCUD == CheckRole(Some(Payload(user.email, user.role)), WriteRoles)
  {
  }
}
