/** The two `UserContext` record shapes of the repository: the shared one that the
    auth service builds, and the gateway-local one the strategy and controllers declare. */
module UserContexts {
  import opened Outcomes

  /** The roles the API documents: OWNER, ADMIN, USER. */
  datatype Role = OWNER | ADMIN | USER

  function RoleName(r: Role): string
  {
    match r
    case OWNER => "OWNER"
    case ADMIN => "ADMIN"
    case USER => "USER"
  }

  /** True when `s` is the name of a declared role. */
  predicate IsDeclaredRole(s: string)
  {
    exists r: Role :: RoleName(r) == s
  }

  /** True when `s` is one of the roles the gateway-local type admits. */
  predicate IsGatewayRole(s: string)
  {
    s == "ADMIN" || s == "USER"
  }

  /** The shared record. `role` holds whatever string was cast to `Role`: the cast
      checks nothing at run time, so any string can be found here. */
  datatype UserContext = UserContext(userId: string, email: string, organizationId: string, role: string)

  /** The gateway-local record: `email` is optional, `role` is declared as ADMIN or USER. */
  datatype GatewayUserContext =
    GatewayUserContext(userId: string, email: Option<string>, organizationId: string, role: string)

  /** The shared record seen through the gateway-local type: the same object, so
      every field keeps its value and `email` is present. */
  function AsGatewayContext(c: UserContext): (g: GatewayUserContext)
    ensures g.email.Some?
  {
    GatewayUserContext(c.userId, Some(c.email), c.organizationId, c.role)
  }

  /** A gateway record read back as a shared one; there is none when `email` is absent. */
  function AsSharedContext(g: GatewayUserContext): (r: Option<UserContext>)
    ensures r.Some? <==> g.email.Some?
  {
    match g.email
    case None => None
    case Some(e) => Some(UserContext(g.userId, e, g.organizationId, g.role))
  }

  /** Viewing the shared record through the gateway type loses nothing. */
  lemma GatewayViewLossless(c: UserContext)
    ensures AsSharedContext(AsGatewayContext(c)) == Some(c)
  {
  }
}
