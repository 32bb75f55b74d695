/** The authentication guard around every page of the main layout: a
    loading screen while the session is being checked, a redirect to the
    login page without a session, the page itself otherwise. */
module ProtectedRoute {

  datatype Outcome =
    | Loading
    | Redirect(to: string, from: string, replace: bool)
    | RenderChildren

  const LoginPath: string := "/login"

  function Decide(isLoading: bool, isAuthenticated: bool, location: string): (o: Outcome)
    ensures isLoading ==> o == Loading
    ensures !isLoading && !isAuthenticated ==> o.Redirect? && o.to == LoginPath && o.from == location && o.replace
    ensures !isLoading && isAuthenticated ==> o == RenderChildren
  {
    if isLoading then Loading
    else if !isAuthenticated then Redirect(LoginPath, location, true)
    else RenderChildren
  }

  /** Content is reached only by a settled, authenticated session. */
  lemma ContentNeedsSession(isLoading: bool, isAuthenticated: bool, location: string)
    ensures Decide(isLoading, isAuthenticated, location) == RenderChildren <==> !isLoading && isAuthenticated
  {
  }
}
