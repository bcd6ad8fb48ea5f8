/**
 * The client's route table and its global `beforeEach` guard. The guard
 * decides from the resolved route and whether the session store holds a
 * token; it either lets the navigation through or redirects it.
 */
module Router {
  import opened Wrappers

  /** A page route: its path, its name and `meta.requiresAuth`. */
  datatype Route = Route(path: string, name: string, requiresAuth: bool)

  /** An entry of the `routes` table: a page, or the catch-all redirect. */
  datatype RouteRecord = Page(route: Route) | CatchAll(redirect: string)

  const LOGIN := Route("/login", "Login", false)
  const REGISTER := Route("/register", "Register", false)
  const HOME := Route("/", "Home", true)

  /** `routes`, in table order; `/:pathMatch(.*)*` matches every path. */
  const ROUTES: seq<RouteRecord> := [Page(LOGIN), Page(REGISTER), Page(HOME), CatchAll("/")]

  predicate RecordMatches(rec: RouteRecord, path: string) {
    match rec
    case Page(r) => r.path == path
    case CatchAll(_) => true
  }

  /** The first record of `table` that matches `path`. */
  function MatchRecord(table: seq<RouteRecord>, path: string): (r: Option<RouteRecord>)
    ensures r.Some? ==> r.value in table && RecordMatches(r.value, path)
    ensures r.None? ==> forall rec | rec in table :: !RecordMatches(rec, path)
  {
    if table == [] then None
    else if RecordMatches(table[0], path) then Some(table[0])
    else MatchRecord(table[1..], path)
  }

  /**
   * The route a navigation to `path` lands on, following the catch-all's
   * redirect once, as the router does before any guard runs.
   */
  function Resolve(path: string): (r: Route)
    ensures r in {LOGIN, REGISTER, HOME}
  {
    match MatchRecord(ROUTES, path)
    case Some(Page(route)) => route
    case Some(CatchAll(target)) =>
      (match MatchRecord(ROUTES, target)
       case Some(Page(route)) => route
       case _ => HOME)
    case None => HOME
  }

  /** `!!state.token`: a non-empty token in the session store. */
  predicate IsAuthenticated(token: Option<string>) {
    token.Some? && token.value != ""
  }

  /** What the guard returns: `true`, or `{ path }` to redirect to. */
  datatype Navigation = Allow | RedirectTo(path: string)

  /**
   * `router.beforeEach((to) => ...)`: a signed-out visitor is only ever sent
   * to `/login` and a signed-in one only to `/`; a signed-out visitor passes
   * exactly the pages that do not require authentication, a signed-in one
   * every page but `/login` and `/register`.
   */
  function BeforeEach(to: Route, isAuthenticated: bool): (nav: Navigation)
    ensures nav.RedirectTo? ==> (nav.path == "/login" <==> !isAuthenticated) && (nav.path == "/" <==> isAuthenticated)
    ensures nav == Allow <==>
      && (isAuthenticated ==> to.path != "/login" && to.path != "/register")
      && (!isAuthenticated ==> !to.requiresAuth)
  {
    if to.requiresAuth && !isAuthenticated then RedirectTo("/login")
    else if (to.path == "/login" || to.path == "/register") && isAuthenticated then RedirectTo("/")
    else Allow
  }

  /** Navigating to `path`: resolve it, then ask the guard. A redirect always names one of the pages. */
  function Navigate(path: string, isAuthenticated: bool): (nav: Navigation)
    ensures nav.RedirectTo? ==> Resolve(nav.path).path == nav.path
  {
    PagesResolveToThemselves();
    BeforeEach(Resolve(path), isAuthenticated)
  }

  /** Any path other than the three pages resolves to the home page. */
  lemma CatchAllResolvesHome(path: string)
    requires path != "/login" && path != "/register" && path != "/"
    ensures Resolve(path) == HOME
  {
    var t1, t2, t3 := ROUTES[1..], ROUTES[2..], ROUTES[3..];
    assert t1[1..] == t2 && t2[1..] == t3 && t3 == [CatchAll("/")];
    assert MatchRecord(t3, path) == Some(CatchAll("/"));
    assert MatchRecord(t2, path) == Some(CatchAll("/"));
    assert MatchRecord(t1, path) == Some(CatchAll("/"));
  }

  /** The three pages resolve to themselves. */
  lemma PagesResolveToThemselves()
    ensures Resolve("/login") == LOGIN && Resolve("/register") == REGISTER && Resolve("/") == HOME
  {
    var t1, t2 := ROUTES[1..], ROUTES[2..];
    assert t1[1..] == t2 && t1[0] == Page(REGISTER) && t2[0] == Page(HOME);
    assert MatchRecord(t2, "/") == Some(Page(HOME));
    assert MatchRecord(t1, "/") == Some(Page(HOME));
    assert MatchRecord(t1, "/register") == Some(Page(REGISTER));
  }

  /**
   * The whole decision: a signed-out visitor is sent from the home page to
   * `/login`, a signed-in user is sent from `/login` and `/register` to `/`,
   * and everything else is allowed.
   */
  lemma {:induction false} NavigateCases(path: string, isAuthenticated: bool)
    ensures Navigate(path, isAuthenticated) == RedirectTo("/login") <==>
      !isAuthenticated && path != "/login" && path != "/register"
    ensures Navigate(path, isAuthenticated) == RedirectTo("/") <==>
      isAuthenticated && (path == "/login" || path == "/register")
    ensures Navigate(path, isAuthenticated) == Allow <==>
      (isAuthenticated && path != "/login" && path != "/register")
      || (!isAuthenticated && (path == "/login" || path == "/register"))
  {
    PagesResolveToThemselves();
    if path != "/login" && path != "/register" && path != "/" {
      CatchAllResolvesHome(path);
    }
  }

  /** A redirect's target is itself allowed under the same session: no chains, no loops. */
  lemma {:induction false} RedirectTargetAllowed(path: string, isAuthenticated: bool)
    ensures Navigate(path, isAuthenticated).RedirectTo? ==>
      Navigate(Navigate(path, isAuthenticated).path, isAuthenticated) == Allow
  {
    NavigateCases(path, isAuthenticated);
    PagesResolveToThemselves();
  }

  /**
   * Where a navigation ends up after at most one redirect, for the token the
   * session store holds.
   */
  function Landing(path: string, token: Option<string>): (page: Route)
    ensures BeforeEach(page, IsAuthenticated(token)) == Allow
    ensures IsAuthenticated(token) <==> page == HOME
  {
    var signedIn := IsAuthenticated(token);
    RedirectTargetAllowed(path, signedIn);
    NavigateCases(path, signedIn);
    PagesResolveToThemselves();
    match Navigate(path, signedIn)
    case Allow => Resolve(path)
    case RedirectTo(target) => Resolve(target)
  }
}
