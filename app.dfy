/** The application shell: the session bootstrapper that reconciles the
    stored token with `/users/me`, and the route table with its guarded
    pages. */
module App {
  import opened Wrappers
  import opened Json
  import opened Js
  import opened Api
  import opened RouteGuard

  /** `currentUser`: the bootstrapper sets `{email}`, the login form sets
      `{email, token}`. */
  datatype SessionUser = BootstrapUser(email: JsValue) | LoginUser(address: string, token: JsValue)

  /** The React state of `App`. */
  class Session {
    var currentUser: Option<SessionUser>

    constructor ()
      ensures currentUser == None
    {
      currentUser := None;
    }
  }

  /** How the bootstrap ends: no token to check, a confirmed email, or a
      refused token. */
  datatype Bootstrap = NoToken | Confirmed(email: JsValue) | Refused

  /** `verifyToken`: a reply resolves the session only when it carries a
      truthy body with a truthy email; any other reply and any failure
      refuse the token. */
  function BootstrapOf(stored: Option<string>, reply: Reply): (r: Bootstrap)
    ensures r == NoToken <==> !HasToken(stored)
    ensures r.Confirmed? <==> HasToken(stored) && reply.Response? && Truthy(Val(reply.data))
                              && Truthy(Own(reply.data, "email"))
    ensures r.Confirmed? ==> Truthy(r.email) && r.email == Own(reply.data, "email")
  {
    if !HasToken(stored) then NoToken
    else
      match reply
      case Response(_, data) =>
        if Truthy(Val(data)) && Truthy(Get(Val(data), "email").value) then Confirmed(Get(Val(data), "email").value)
        else Refused
      case _ => Refused
  }

  /** `verifyToken`, run once on mount. */
  method VerifyToken(b: Browser, s: Session, reply: Reply)
    modifies b, s
    ensures var r := BootstrapOf(old(b.storage), reply);
            && (r == NoToken ==> s.currentUser == None && b.storage == old(b.storage) && b.sent == old(b.sent))
            && (r != NoToken ==> b.sent == old(b.sent) + [Outgoing(Authenticated, GET, "/users/me", map[], old(b.storage))])
            && (r.Confirmed? ==> s.currentUser == Some(BootstrapUser(r.email)) && b.storage == old(b.storage))
            && (r == Refused ==> s.currentUser == None && b.storage == None)
    ensures s.currentUser.Some? ==> HasToken(b.storage)
    ensures b.visited == old(b.visited)
  {
    var token := b.storage;
    if !HasToken(token) {
      s.currentUser := None;
      return;
    }
    var _ := b.Send(Authenticated, GET, "/users/me", map[]);
    if reply.Response? && Truthy(Val(reply.data)) && Truthy(Get(Val(reply.data), "email").value) {
      s.currentUser := Some(BootstrapUser(Get(Val(reply.data), "email").value));
    } else {
      s.currentUser := None;
      b.RemoveToken();
    }
  }

  /** The pages of the route table. */
  datatype Page =
    | HistoryPage | HeroPage | RegisterPage | FeaturesPage | LoginPage
    | OauthCallbackPage | DownloadPage | NewMeasurementPage | DbAdminPage

  /** The element the route table renders for a path; None when no route
      matches. */
  function RouteElement(path: string, user: Option<SessionUser>): Option<Guarded<Page>> {
    if path == "/" then Some(Render(if user.Some? then HistoryPage else HeroPage))
    else if path == "/register" then Some(Render(RegisterPage))
    else if path == "/features" then Some(Render(FeaturesPage))
    else if path == "/login" then Some(Render(LoginPage))
    else if path == "/oauth/google/callback" then Some(Render(OauthCallbackPage))
    else if path == "/dashboard" then Some(ProtectedRoute(user, HistoryPage))
    else if path == "/download" then Some(Render(DownloadPage))
    else if path == "/new" then Some(Render(NewMeasurementPage))
    else if path == "/history" then Some(Render(HistoryPage))
    else if path == "/db-admin" then Some(ProtectedRoute(user, DbAdminPage))
    else None
  }

  /** Exactly `/dashboard` and `/db-admin` send a visitor without a session
      to the login page; the others, `/history` included, render as they
      are. Paths are compared as written, without React Router's case folding
      and trailing-slash matching. */
  lemma GuardedRoutes(path: string, user: Option<SessionUser>)
    ensures (exists to :: RouteElement(path, user) == Some(Redirect(to)))
            <==> user.None? && (path == "/dashboard" || path == "/db-admin")
    ensures user.None? && (path == "/dashboard" || path == "/db-admin") ==> RouteElement(path, user) == Some(Redirect("/login"))
    ensures RouteElement("/history", user) == Some(Render(HistoryPage))
  {
    if user.None? && (path == "/dashboard" || path == "/db-admin") {
      assert RouteElement(path, user) == Some(Redirect("/login"));
    }
  }

  /** The root page shows the history exactly when there is a session. */
  lemma RootShowsHistoryIffSession(user: Option<SessionUser>)
    ensures RouteElement("/", user) == Some(Render(HistoryPage)) <==> user.Some?
  {
  }
}
