/** The permission guard that wraps page content: it renders its children
    when the current user may perform the action on the resource, and
    otherwise its fallback or the access-denied card. */
module RoleGuard {
  import opened Types
  import opened Rbac

  /** A renderable value as React sees it: a falsy one renders nothing. */
  datatype Node = Falsy | Element(name: string)

  predicate Truthy(n: Option<Node>) {
    n.Some? && n.value.Element?
  }

  datatype Outcome = RenderChildren | RenderFallback(node: Node) | AccessDenied

  /** The action the guard checks: `'view'` when none is given. */
  function EffectiveAction(action: Option<Action>): (a: Action)
    ensures action.Some? ==> a == action.value
    ensures action.None? ==> a == View
  {
    match action
    case Some(a) => a
    case None => View
  }

  /** The role of the signed-in user, if any. */
  function RoleOf(user: Option<User>): (r: Option<Role>)
    ensures r.Some? <==> user.Some?
    ensures user.Some? ==> r.value == user.value.role
  {
    match user
    case Some(u) => Some(u.role)
    case None => None
  }

  function Decide(user: Option<User>, resource: Resource, action: Option<Action>, fallback: Option<Node>): (o: Outcome)
    ensures o.RenderChildren? <==> CanAccess(RoleOf(user), resource, EffectiveAction(action))
    ensures !o.RenderChildren? && Truthy(fallback) ==> o == RenderFallback(fallback.value)
    ensures !o.RenderChildren? && !Truthy(fallback) ==> o.AccessDenied?
    ensures user.None? ==> !o.RenderChildren?
  {
    if !CanAccess(RoleOf(user), resource, EffectiveAction(action)) then
      if Truthy(fallback) then RenderFallback(fallback.value) else AccessDenied
    else RenderChildren
  }

  /** A guarded page is shown to a user exactly when the user's role holds the
      grant, whoever else holds it. */
  lemma GuardFollowsGrants(u: User, resource: Resource, action: Action)
    ensures Decide(Some(u), resource, Some(action), None) == RenderChildren
      <==> action in ReferenceActions(u.role, resource)
    ensures Decide(Some(u), resource, Some(action), None) != RenderChildren
      ==> Decide(Some(u), resource, Some(action), None) == AccessDenied
  {
    CanAccessMatchesReference(u.role, resource, action);
  }
}
