/**
 * The route guards: `ProtectedRoute` (sign-in, then role, then ownership)
 * and `RoleGuard` (sign-in and role only). Rendering is reduced to which of
 * the possible outcomes is shown.
 */
module ProtectedRoute {
  import opened Wrappers
  import opened Domain
  import opened Storage
  import Auth

  /** The properties of a `ProtectedRoute`; `hasFallback` says whether a truthy `fallback` was given. */
  datatype RouteProps = RouteProps(
    requiredRoles: Option<seq<UserRole>>,
    requireOwnership: bool,
    resourceUserId: Option<string>,
    resourceAdvisorId: Option<string>,
    assignedCommitteeIds: Option<seq<string>>,
    hasFallback: bool)

  /** The two built-in refusal screens, or the caller's fallback. */
  datatype DeniedView = Fallback | NoRoleAccessMessage | OwnDataOnlyMessage

  datatype RouteOutcome = RedirectToLogin | Denied(view: DeniedView) | RenderChildren

  function RoleNames(roles: seq<UserRole>): (r: seq<string>)
    ensures |r| == |roles|
    ensures forall i | 0 <= i < |roles| :: r[i] == RoleName(roles[i])
  {
    if roles == [] then [] else [RoleName(roles[0])] + RoleNames(roles[1..])
  }

  predicate RolePermitted(user: Auth.DecodedToken, requiredRoles: Option<seq<UserRole>>) {
    requiredRoles.None? || Auth.HasRole(user.role, RoleNames(requiredRoles.value))
  }

  predicate OwnershipPermitted(user: Auth.DecodedToken, props: RouteProps) {
    !props.requireOwnership ||
    Auth.CanAccessResource(user.role, user.userId, props.resourceUserId,
                           props.resourceAdvisorId, props.assignedCommitteeIds)
  }

  /** What `ProtectedRoute` renders for the signed-in user `user` (or nobody). */
  function RouteDecision(user: Option<Auth.DecodedToken>, props: RouteProps): (r: RouteOutcome)
    ensures r == RedirectToLogin <==> user.None?
    ensures r == RenderChildren <==> user.Some? && RolePermitted(user.value, props.requiredRoles) && OwnershipPermitted(user.value, props)
    ensures r.Denied? ==> (r.view == Fallback <==> props.hasFallback)
    ensures r == Denied(NoRoleAccessMessage) <==> user.Some? && !RolePermitted(user.value, props.requiredRoles) && !props.hasFallback
    ensures r == Denied(OwnDataOnlyMessage) <==>
      user.Some? && RolePermitted(user.value, props.requiredRoles) && !OwnershipPermitted(user.value, props) && !props.hasFallback
  {
    match user
    case None => RedirectToLogin
    case Some(u) =>
      if !RolePermitted(u, props.requiredRoles) then Denied(if props.hasFallback then Fallback else NoRoleAccessMessage)
      else if !OwnershipPermitted(u, props) then Denied(if props.hasFallback then Fallback else OwnDataOnlyMessage)
      else RenderChildren
  }

  /**
   * `ProtectedRoute`: reads the current user (which may clear expired tokens)
   * and decides. The redirect's assignment to `window.location` is left out.
   */
  method Route(ls: LocalStorage, now: int, decode: string -> Option<Auth.DecodedToken>, props: RouteProps)
    returns (outcome: RouteOutcome)
    modifies ls
    ensures outcome == RouteDecision(Auth.CurrentUserIn(old(ls.items), now, decode), props)
    ensures ls.items == Auth.AfterCurrentUser(old(ls.items), now)
  {
    var user := Auth.GetCurrentUser(ls, now, decode);
    outcome := RouteDecision(user, props);
  }

  /** An empty list of required roles is still a list: nobody passes it. */
  lemma EmptyRequiredRolesDenyEveryone(u: Auth.DecodedToken, props: RouteProps)
    requires props.requiredRoles == Some([])
    ensures RouteDecision(Some(u), props).Denied?
  {
  }

  /** An administrator passes every ownership check. */
  lemma AdminPassesOwnership(u: Auth.DecodedToken, props: RouteProps)
    requires u.role == "admin"
    requires props.requiredRoles.None? || Admin in props.requiredRoles.value
    ensures RouteDecision(Some(u), props) == RenderChildren
  {
    if props.requiredRoles.Some? {
      var rs := props.requiredRoles.value;
      var i :| 0 <= i < |rs| && rs[i] == Admin;
      assert RoleNames(rs)[i] == "admin";
    }
  }

  datatype GuardOutcome = ShowFallback | ShowChildren

  /** What `RoleGuard` renders. */
  function GuardDecision(user: Option<Auth.DecodedToken>, allowedRoles: seq<UserRole>): (r: GuardOutcome)
    ensures r == ShowChildren <==> user.Some? && exists i | 0 <= i < |allowedRoles| :: RoleName(allowedRoles[i]) == user.value.role
  {
    if user.None? || !Auth.HasRole(user.value.role, RoleNames(allowedRoles)) then ShowFallback else ShowChildren
  }

  method RoleGuard(ls: LocalStorage, now: int, decode: string -> Option<Auth.DecodedToken>, allowedRoles: seq<UserRole>)
    returns (outcome: GuardOutcome)
    modifies ls
    ensures outcome == GuardDecision(Auth.CurrentUserIn(old(ls.items), now, decode), allowedRoles)
    ensures ls.items == Auth.AfterCurrentUser(old(ls.items), now)
  {
    var user := Auth.GetCurrentUser(ls, now, decode);
    outcome := GuardDecision(user, allowedRoles);
  }

  /** A role guard and a route with the same roles and no ownership check agree. */
  lemma GuardAgreesWithRoute(user: Option<Auth.DecodedToken>, allowedRoles: seq<UserRole>, props: RouteProps)
    requires props.requiredRoles == Some(allowedRoles) && !props.requireOwnership
    ensures GuardDecision(user, allowedRoles) == ShowChildren <==> RouteDecision(user, props) == RenderChildren
  {
  }
}
