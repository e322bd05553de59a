/** The navigation bar: which links and buttons a visitor sees, and the
    logout handler. */
module Navbar {
  import opened Wrappers
  import opened Api
  import opened App

  datatype Link = Link(name: string, href: string)

  /** The left and right link groups. */
  datatype Menus = Menus(left: seq<Link>, right: seq<Link>)

  predicate Offers(links: seq<Link>, href: string) {
    exists i :: 0 <= i < |links| && links[i].href == href
  }

  /** A visitor without a session is offered the public pages, registration
      and login; a signed-in one the measurement pages and the database
      view, and no login or registration link. */
  function MenusFor(user: Option<SessionUser>): (m: Menus)
    ensures Offers(m.left + m.right, "/login") <==> user.None?
    ensures Offers(m.left + m.right, "/register") <==> user.None?
    ensures Offers(m.left + m.right, "/new") <==> user.Some?
    ensures Offers(m.left + m.right, "/history") <==> user.Some?
    ensures Offers(m.left + m.right, "/db-admin") <==> user.Some?
    ensures user.Some? ==> m.right == [] && |m.left| == 3
    ensures user.None? ==> |m.left| == 3 && |m.right| == 2
  {
    if user.None? then
      var m := Menus([Link("Ominaisuudet", "/features"), Link("Lataa sovellus", "/download"), Link("FAQ", "#")],
                     [Link("Rekisteröidy", "/register"), Link("Kirjaudu sisään", "/login")]);
      assert (m.left + m.right)[3].href == "/register" && (m.left + m.right)[4].href == "/login";
      m
    else
      var m := Menus([Link("Uusi mittaus", "/new"), Link("Mittaushistoria", "/history"), Link("DB Admin", "/db-admin")], []);
      assert (m.left + m.right)[0].href == "/new" && (m.left + m.right)[1].href == "/history";
      assert (m.left + m.right)[2].href == "/db-admin";
      m
  }

  /** The logout button is rendered exactly when there is a session. */
  function ShowsLogout(user: Option<SessionUser>): (shown: bool)
    ensures shown <==> user.Some?
    ensures shown <==> !Offers(MenusFor(user).right, "/login")
  {
    user.Some?
  }

  /** `handleLogout`: the session and the token go first, so the logout
      request that follows leaves without a credential; its outcome is
      ignored and the page moves to the login form. */
  method HandleLogout(b: Browser, s: Session)
    modifies b, s
    ensures s.currentUser == None && b.storage == None
    ensures b.sent == old(b.sent) + [Outgoing(Authenticated, POST, "/auth/jwt/logout", map[], None)]
    ensures "Authorization" !in b.sent[|b.sent| - 1].headers
    ensures b.visited == old(b.visited) + ["/login"]
  {
    s.currentUser := None;
    b.RemoveToken();
    var _ := b.Send(Authenticated, POST, "/auth/jwt/logout", map[]);
    b.Navigate("/login");
  }
}
