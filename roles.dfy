/** `checkRole(...allowedRoles)`: the role guard that follows the
    authentication middleware on every protected route, and the way a route
    chains the two. */
module Roles {
  import opened Common
  import opened Auth

  /** The role names of the backend's `UserRole` enumeration. */
  const Admin: string := "admin"
  const Bul: string := "bul"
  const UserRole: string := "user"
  const Staff: string := "staff"

  /** The lists the routes pass: reads for admin, staff and user; writes for
      admin and staff; the dashboard for admin, bul and user. */
  const ReadRoles: seq<string> := [Admin, Staff, UserRole]
  const WriteRoles: seq<string> := [Admin, Staff]
  const DashboardRoles: seq<string> := [Admin, Bul, UserRole]

  /** The guard lets a request through when a user is attached and the
      user's role is one of the allowed ones; otherwise it answers 403. */
  function CheckRole(attached: Option<Payload>, allowed: seq<string>): (pass: bool)
    ensures pass <==> attached.Some? && attached.value.role in allowed
  {
    match attached
    case None => false
    case Some(p) => p.role in allowed
  }

  /** Without an attached user every role list forbids. */
  lemma NoUserForbidden(allowed: seq<string>)
    ensures !CheckRole(None, allowed)
  {
  }

  /** An empty role list forbids every request. */
  lemma EmptyRolesForbid(attached: Option<Payload>)
    ensures !CheckRole(attached, [])
  {
  }

  /** Allowing more roles never forbids a request that was allowed. */
  lemma CheckRoleMonotone(attached: Option<Payload>, allowed: seq<string>, more: seq<string>)
    requires forall r :: r in allowed ==> r in more
    ensures CheckRole(attached, allowed) ==> CheckRole(attached, more)
  {
  }

  /** The end of a route's middleware chain: stopped with a status and a
      message, or handed to the controller as a user. */
  datatype Outcome = Stopped(status: int, message: string) | Handled(user: Payload)

  /** A route with `authMiddleware` in front of `checkRole(allowed)`, or
      without it. Without the middleware nothing attaches a user to the
      request. */
  function Route(withAuth: bool, allowed: seq<string>, access: Option<string>, refresh: Option<string>,
                 verifyAccess: string -> Verification, verifyRefresh: string -> Verification,
                 tokens: seq<TokenRow>, signAccess: Payload -> string): (o: Outcome)
    ensures o.Handled? ==> o.user.role in allowed
    ensures withAuth && o.Handled? ==>
              Authenticate(access, refresh, verifyAccess, verifyRefresh, tokens, signAccess).Next?
    ensures o.Stopped? ==> o.status in {400, 401, 403}
  {
    if !withAuth then
      NoUserForbidden(allowed);
      Stopped(403, "Forbidden")
    else
      match Authenticate(access, refresh, verifyAccess, verifyRefresh, tokens, signAccess)
      case Halt(status, message) => Stopped(status, message)
      case Next(user, _) =>
        if CheckRole(Some(user), allowed) then Handled(user) else Stopped(403, "Forbidden")
  }

  /** A guarded route admits a request exactly when the middleware lets it
      through as a user whose role is allowed. */
  lemma GuardedRouteAdmits(allowed: seq<string>, access: Option<string>, refresh: Option<string>,
                           verifyAccess: string -> Verification, verifyRefresh: string -> Verification,
                           tokens: seq<TokenRow>, signAccess: Payload -> string, user: Payload)
    ensures Route(true, allowed, access, refresh, verifyAccess, verifyRefresh, tokens, signAccess) == Handled(user)
        <==> (exists renewed :: Authenticate(access, refresh, verifyAccess, verifyRefresh, tokens, signAccess)
                                 == Next(user, renewed))
             && user.role in allowed
  {
    var g := Authenticate(access, refresh, verifyAccess, verifyRefresh, tokens, signAccess);
    if g.Next? {
      assert g == Next(g.user, g.renewed);
    }
  }

  /** The partner create, update and delete routes as written: `checkRole`
      without `authMiddleware` in front of it. */
  function PartnerWriteAsWritten(access: Option<string>, refresh: Option<string>,
                                 verifyAccess: string -> Verification, verifyRefresh: string -> Verification,
                                 tokens: seq<TokenRow>, signAccess: Payload -> string): (o: Outcome)
    ensures o.Handled? ==> o.user.role in WriteRoles
  {
    Route(false, WriteRoles, access, refresh, verifyAccess, verifyRefresh, tokens, signAccess)
  }

  /** As written, every partner write is refused with 403, even for an admin
      holding a valid access token. */
  lemma PartnerWritesAlwaysForbidden(access: Option<string>, refresh: Option<string>,
                                     verifyAccess: string -> Verification, verifyRefresh: string -> Verification,
                                     tokens: seq<TokenRow>, signAccess: Payload -> string)
    ensures PartnerWriteAsWritten(access, refresh, verifyAccess, verifyRefresh, tokens, signAccess)
              == Stopped(403, "Forbidden")
  {
    NoUserForbidden(WriteRoles);
  }

  /** The partner write routes wired like every other write route. */
  function PartnerWrite(access: Option<string>, refresh: Option<string>,
                        verifyAccess: string -> Verification, verifyRefresh: string -> Verification,
                        tokens: seq<TokenRow>, signAccess: Payload -> string): (o: Outcome)
    ensures o.Handled? ==> o.user.role in WriteRoles
  {
    Route(true, WriteRoles, access, refresh, verifyAccess, verifyRefresh, tokens, signAccess)
  }

  /** Wired with the middleware, an admin or staff member with a verifying
      access token reaches the controller, and any other role is refused. */
  lemma PartnerWriteAdmitsWriters(access: string, refresh: Option<string>,
                                  verifyAccess: string -> Verification, verifyRefresh: string -> Verification,
                                  tokens: seq<TokenRow>, signAccess: Payload -> string, user: Payload)
    requires access != "" && verifyAccess(access) == Verified(user)
    ensures user.role == Admin || user.role == Staff ==>
              PartnerWrite(Some(access), refresh, verifyAccess, verifyRefresh, tokens, signAccess) == Handled(user)
    ensures user.role != Admin && user.role != Staff ==>
              PartnerWrite(Some(access), refresh, verifyAccess, verifyRefresh, tokens, signAccess) == Stopped(403, "Forbidden")
  {
    assert WriteRoles == [Admin, Staff];
  }

  /** The dashboard admits bul but not staff, while the catalogue reads admit
      staff but not bul. */
  lemma DashboardAndReadRolesDiffer(email: string)
    ensures CheckRole(Some(Payload(email, Bul)), DashboardRoles) && !CheckRole(Some(Payload(email, Bul)), ReadRoles)
    ensures !CheckRole(Some(Payload(email, Staff)), DashboardRoles) && CheckRole(Some(Payload(email, Staff)), ReadRoles)
  {
    assert DashboardRoles == ["admin", "bul", "user"];
    assert ReadRoles == ["admin", "staff", "user"];
  }
}
