/** The authentication middleware (`middleware.ts`): for every request the
    matcher selects, it sends a signed-in user away from every public page
    other than the dashboard (the landing page `/` and the sign-in and
    sign-up pages) to the dashboard, sends a signed-out user to the sign-in
    page unless the route is public, and otherwise lets the request through.

    The session lookup is an input (the user id, absent or empty when
    signed out); a request is its path. */
module Middleware {
  import opened Wrappers
  import opened Js

  /** What the middleware answers: a redirect to a path on the same origin,
      or passing the request on. */
  datatype Outcome = Redirect(location: string) | Next

  const Home := "/home"
  const SignIn := "/sign-in"
  const SignUp := "/sign-up"

  // ---------------------------------------------------------------------
  // Route matchers

  /** The public pages: anything under `/sign-in` or `/sign-up` (the
      `(.*)` patterns), and exactly `/` and `/home`. */
  predicate IsPublicRoute(path: string) {
    || StartsWith(path, SignIn)
    || StartsWith(path, SignUp)
    || path == "/"
    || path == Home
  }

  /** The public API route: exactly `/api/videos`. */
  predicate IsPublicApiRoute(path: string) {
    path == "/api/videos"
  }

  predicate IsApiRequest(path: string) {
    StartsWith(path, "/api")
  }

  // ---------------------------------------------------------------------
  // The decision

  /** The handler's branches in order. The second signed-out check is kept
      as written although `SecondCheckNeverFires` shows it cannot change
      the outcome. */
  function Decide(userId: Option<string>, path: string): (o: Outcome)
    ensures o in {Redirect(Home), Redirect(SignIn), Next}
  {
    var isAccessingDashboard := path == Home;
    if Truthy(userId) && IsPublicRoute(path) && !isAccessingDashboard then Redirect(Home)
    else if !Truthy(userId) && !IsPublicRoute(path) && !IsPublicApiRoute(path) then Redirect(SignIn)
    else if !Truthy(userId) && IsApiRequest(path) && !IsPublicApiRoute(path) then Redirect(SignIn)
    else Next
  }

  /** Which paths the middleware runs on: any path whose remainder after
      the leading `/` has no `.` and does not start with `_next`, the root,
      and everything under `/api` or `/trpc`. */
  predicate RunsOn(path: string) {
    || (|path| >= 1 && path[0] == '/' && '.' !in path[1..] && !StartsWith(path[1..], "_next"))
    || path == "/"
    || StartsWith(path, "/api")
    || StartsWith(path, "/trpc")
  }

  /** A request as the framework serves it: the middleware decides on the
      paths it runs on, and every other request goes through. */
  function Handle(userId: Option<string>, path: string): Outcome {
    if RunsOn(path) then Decide(userId, path) else Next
  }

  // ---------------------------------------------------------------------
  // Properties

  /** No public page is an API path, since each of them differs from
      `/api` within its first four characters. */
  lemma PublicRouteIsNotApi(path: string)
    requires IsPublicRoute(path)
    ensures !IsApiRequest(path)
  {
    if StartsWith(path, SignIn) {
      assert path[1] == SignIn[1];
    } else if StartsWith(path, SignUp) {
      assert path[1] == SignUp[1];
    } else if path == Home {
      assert path[1] == 'h';
    }
  }

  /** The second signed-out check never fires: whenever its condition
      holds, the first one already has. */
  lemma SecondCheckNeverFires(path: string)
    requires IsApiRequest(path) && !IsPublicApiRoute(path)
    ensures !IsPublicRoute(path) && !IsPublicApiRoute(path)
  {
    if IsPublicRoute(path) {
      PublicRouteIsNotApi(path);
    }
  }

  /** The decision without the redundant check. */
  function DecideSimplified(userId: Option<string>, path: string): Outcome {
    if Truthy(userId) then
      if IsPublicRoute(path) && path != Home then Redirect(Home) else Next
    else
      if IsPublicRoute(path) || IsPublicApiRoute(path) then Next else Redirect(SignIn)
  }

  /** The handler agrees with the simplified decision everywhere. */
  lemma DecideIsSimplified(userId: Option<string>, path: string)
    ensures Decide(userId, path) == DecideSimplified(userId, path)
  {
    if !Truthy(userId) && IsApiRequest(path) && !IsPublicApiRoute(path) {
      SecondCheckNeverFires(path);
    }
  }

  /** A signed-in user is sent to the dashboard exactly from the public
      pages other than the dashboard itself, and is otherwise let through:
      never to the sign-in page. */
  lemma SignedIn(userId: Option<string>, path: string)
    requires Truthy(userId)
    ensures Decide(userId, path) == Redirect(Home) <==> IsPublicRoute(path) && path != Home
    ensures Decide(userId, path) != Redirect(SignIn)
    ensures Decide(userId, path) != Redirect(Home) ==> Decide(userId, path) == Next
  {
  }

  /** A signed-out user is sent to sign in exactly when the route is
      neither a public page nor the public API route, and is otherwise let
      through: never to the dashboard. */
  lemma SignedOut(userId: Option<string>, path: string)
    requires !Truthy(userId)
    ensures Decide(userId, path) == Redirect(SignIn) <==> !IsPublicRoute(path) && !IsPublicApiRoute(path)
    ensures Decide(userId, path) != Redirect(Home)
    ensures Decide(userId, path) != Redirect(SignIn) ==> Decide(userId, path) == Next
  {
    DecideIsSimplified(userId, path);
  }

  /** A redirect always lands on a page the middleware lets through for
      the same session, so redirects never chain. */
  lemma RedirectsSettle(userId: Option<string>, path: string)
    requires Decide(userId, path).Redirect?
    ensures Decide(userId, Decide(userId, path).location) == Next
  {
    var target := Decide(userId, path).location;
    if Truthy(userId) {
      assert target == Home;
    } else {
      assert target == SignIn;
      assert StartsWith(SignIn, SignIn);
      PublicRouteIsNotApi(SignIn);
    }
  }

  /** Signed-out users reach the home page, the landing page, the sign-in
      and sign-up flows and the public video list. */
  lemma SignedOutReachesPublicRoutes(userId: Option<string>, rest: string)
    requires !Truthy(userId)
    ensures Decide(userId, "/") == Next
    ensures Decide(userId, Home) == Next
    ensures Decide(userId, SignIn + rest) == Next
    ensures Decide(userId, SignUp + rest) == Next
    ensures Decide(userId, "/api/videos") == Next
  {
    assert (SignIn + rest)[..|SignIn|] == SignIn;
    assert (SignUp + rest)[..|SignUp|] == SignUp;
    PublicRouteIsNotApi("/");
    PublicRouteIsNotApi(Home);
    PublicRouteIsNotApi(SignIn + rest);
    PublicRouteIsNotApi(SignUp + rest);
  }

  /** Signed out, any other API route is sent to sign in. */
  lemma SignedOutApiRequiresSignIn(userId: Option<string>, path: string)
    requires !Truthy(userId) && IsApiRequest(path) && !IsPublicApiRoute(path)
    ensures Decide(userId, path) == Redirect(SignIn)
  {
    SecondCheckNeverFires(path);
  }

  /** Requests the matcher skips (files with an extension outside `/api`
      and `/trpc`, and the framework's `/_next` assets) are never
      redirected. */
  lemma SkippedPathsPassThrough(userId: Option<string>, path: string)
    requires |path| >= 1 && path[0] == '/' && path != "/"
    requires '.' in path[1..] || StartsWith(path[1..], "_next")
    requires !StartsWith(path, "/api") && !StartsWith(path, "/trpc")
    ensures Handle(userId, path) == Next
  {
  }
}
