/** `ProtectedRoute`: a stateless gate in front of a page. */
module RouteGuard {
  import opened Wrappers

  /** What the gate renders: a redirect, or the wrapped children. */
  datatype Guarded<+T> = Redirect(to: string) | Render(children: T)

  /** Without a user the result is a redirect to the login page and the
      children are not produced; with one, the children are returned as
      they are. The user is an object or null, so only its presence counts. */
  function ProtectedRoute<U, T>(user: Option<U>, children: T): (r: Guarded<T>)
    ensures r.Render? <==> user.Some?
    ensures r.Render? ==> r.children == children
    ensures r.Redirect? ==> r.to == "/login"
  {
    if user.None? then Redirect("/login") else Render(children)
  }
}
