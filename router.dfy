/**
 * The front end's route table and its `beforeEach` navigation guard. The
 * guard reads the `token` entry of the browser's local storage, and either
 * sends an unauthenticated visitor of a protected page to `/login` (after
 * remembering where they were going under `redirectPath`), sends an
 * authenticated visitor of `/login` home, or lets the navigation proceed.
 */
module Router {
  import opened Wrappers

  /** A route record: its path, its name and `meta.requiresAuth`. */
  datatype Route = Route(path: string, name: string, requiresAuth: bool)

  /** The `routes` table, in declaration order. */
  const Routes: seq<Route> := [
    Route("/login", "Login", false),
    Route("/customers", "Customers", true),
    Route("/financial-report", "FinancialReport", true),
    Route("/", "Home", true)
  ]

  /** The first route record whose path is `path`, if any. */
  function Lookup(routes: seq<Route>, path: string): (r: Option<Route>)
    ensures r.Some? ==> r.value in routes && r.value.path == path
    ensures r.None? <==> forall route :: route in routes ==> route.path != path
  {
    if routes == [] then None
    else if routes[0].path == path then Some(routes[0])
    else Lookup(routes[1..], path)
  }

  /** The resolved target location `to`: its path, its full path (with query and hash) and `to.meta.requiresAuth`. */
  datatype Location = Location(path: string, fullPath: string, requiresAuth: bool)

  /** Resolves a path against the table; an unmatched path has empty `meta`, so `requiresAuth` is falsy. */
  function Resolve(routes: seq<Route>, path: string, fullPath: string): (to: Location)
    ensures to.path == path && to.fullPath == fullPath
    ensures to.requiresAuth ==> exists route :: route in routes && route.path == path && route.requiresAuth
    ensures (forall route :: route in routes ==> route.path != path) ==> !to.requiresAuth
    ensures (forall route :: route in routes && route.path == path ==> route.requiresAuth) ==>
      (to.requiresAuth <==> exists route :: route in routes && route.path == path)
  {
    match Lookup(routes, path)
    case Some(route) => Location(path, fullPath, route.requiresAuth)
    case None => Location(path, fullPath, false)
  }

  /** `localStorage.getItem(key)`: `None` stands for `null`. */
  function GetItem(storage: map<string, string>, key: string): Option<string> {
    if key in storage then Some(storage[key]) else None
  }

  /** Reading after `setItem(key, value)`: that key gives `value`, every other key what it gave before. */
  lemma GetItemAfterSet(storage: map<string, string>, key: string, value: string, other: string)
    ensures GetItem(storage[key := value], key) == Some(value)
    ensures other != key ==> GetItem(storage[key := value], other) == GetItem(storage, other)
  {
  }

  /** JavaScript truthiness of a stored string: `null` and `""` are falsy. */
  predicate Truthy(v: Option<string>) {
    v.Some? && v.value != ""
  }

  predicate HasToken(storage: map<string, string>) {
    Truthy(GetItem(storage, "token"))
  }

  /** The argument passed to `next`: no argument, or a redirect to a path with a query. */
  datatype Navigation = Proceed | Redirect(path: string, query: seq<(string, string)>)

  /** What one run of the guard decides: the call to `next` and the local storage afterwards. */
  datatype GuardResult = GuardResult(next: Navigation, storage: map<string, string>)

  /** The branch that protects pages which need a login. */
  predicate NeedsLogin(to: Location, storage: map<string, string>) {
    to.requiresAuth && !HasToken(storage)
  }

  /** The branch that keeps a logged-in user away from the login page. */
  predicate AlreadyLoggedIn(to: Location, storage: map<string, string>) {
    to.path == "/login" && HasToken(storage)
  }

  /** The `router.beforeEach` guard as a decision on the target and the local storage. */
  function Guard(to: Location, storage: map<string, string>): (r: GuardResult)
    ensures r.next == Redirect("/login", [("redirect", to.fullPath)]) <==> NeedsLogin(to, storage)
    ensures r.next == Redirect("/", []) <==> !NeedsLogin(to, storage) && AlreadyLoggedIn(to, storage)
    ensures r.next == Proceed <==> !NeedsLogin(to, storage) && !AlreadyLoggedIn(to, storage)
    ensures r.storage == if NeedsLogin(to, storage) then storage["redirectPath" := to.fullPath] else storage
  {
    if to.requiresAuth && !Truthy(GetItem(storage, "token")) then
      GuardResult(Redirect("/login", [("redirect", to.fullPath)]), storage["redirectPath" := to.fullPath])
    else if to.path == "/login" && Truthy(GetItem(storage, "token")) then
      GuardResult(Redirect("/", []), storage)
    else
      GuardResult(Proceed, storage)
  }

  /** The table's paths are distinct, so each resolves to its own record. */
  lemma RoutesResolve(fullPath: string)
    ensures !Resolve(Routes, "/login", fullPath).requiresAuth
    ensures Resolve(Routes, "/customers", fullPath).requiresAuth
    ensures Resolve(Routes, "/financial-report", fullPath).requiresAuth
    ensures Resolve(Routes, "/", fullPath).requiresAuth
  {
  }

  /** A path outside the table never needs a login. */
  lemma UnknownPathProceeds(path: string, fullPath: string, storage: map<string, string>)
    requires forall route :: route in Routes ==> route.path != path
    ensures Guard(Resolve(Routes, path, fullPath), storage) == GuardResult(Proceed, storage)
  {
  }

  /** Writing `redirectPath` does not change whether a token is stored. */
  lemma RedirectPathKeepsToken(storage: map<string, string>, value: string)
    ensures HasToken(storage["redirectPath" := value]) == HasToken(storage)
  {
    GetItemAfterSet(storage, "redirectPath", value, "token");
  }

  /**
   * Following a redirect of the guard settles at once: the guard lets the
   * redirect's target through on its next run, whatever full path that
   * navigation carries. In particular the redirect to `/login` does not
   * trigger the login redirect again, and the redirect home is not sent back.
   */
  lemma {:induction false} NavigationSettles(path: string, fullPath: string, storage: map<string, string>, fullPath1: string)
    ensures var r1 := Guard(Resolve(Routes, path, fullPath), storage);
      r1.next.Redirect? ==> Guard(Resolve(Routes, r1.next.path, fullPath1), r1.storage).next == Proceed
  {
    var r1 := Guard(Resolve(Routes, path, fullPath), storage);
    RoutesResolve(fullPath1);
    if r1.next.Redirect? {
      RedirectPathKeepsToken(storage, fullPath);
    }
  }

  /** The browser's local storage, which the guard reads and writes. */
  class LocalStorage {
    var items: map<string, string>

    constructor (initial: map<string, string>)
      ensures items == initial
    {
      items := initial;
    }

    /** `localStorage.setItem(key, value)`. */
    method Set(key: string, value: string)
      modifies this
      ensures items == old(items)[key := value]
    {
      items := items[key := value];
    }

    /** One run of `router.beforeEach` for target `to`: the value passed to `next`, with storage updated. */
    method BeforeEach(to: Location) returns (next: Navigation)
      modifies this
      ensures next == Guard(to, old(items)).next
      ensures items == Guard(to, old(items)).storage
    {
      var token := GetItem(items, "token");
      if to.requiresAuth && !Truthy(token) {
        Set("redirectPath", to.fullPath);
        next := Redirect("/login", [("redirect", to.fullPath)]);
      } else if to.path == "/login" && Truthy(token) {
        next := Redirect("/", []);
      } else {
        next := Proceed;
      }
    }
  }
}
