/** The per-request session gate (`middleware`): classify the path as public
    or protected, look at the `token` cookie, and either let the request
    through or redirect it. Token verification (signature and expiry) is an
    oracle `verifies`; it is deterministic within one request. */
module SessionGate {
  import opened Base
  import opened Text

  /** What the gate does with a request. */
  datatype Outcome = Next | Redirect(location: string)

  /** The path prefixes and infixes that make a route public. */
  const LoginPrefix := "/login"
  const AuthApiPrefix := "/api/auth"
  const FrameworkPrefix := "/_next"

  /** `isPublicRoute`. */
  predicate IsPublicRoute(pathname: string) {
    StartsWith(pathname, LoginPrefix)
    || StartsWith(pathname, AuthApiPrefix)
    || StartsWith(pathname, FrameworkPrefix)
    || Contains(pathname, "favicon")
    || Contains(pathname, "public")
  }

  /** A JavaScript-truthy cookie value: present and not the empty string. */
  predicate Truthy(token: Option<string>) {
    token.Some? && token.value != ""
  }

  /** The request carries a cookie that verifies. */
  predicate HasValidSession(token: Option<string>, verifies: string -> bool) {
    Truthy(token) && verifies(token.value)
  }

  /** The middleware, branch for branch: a truthy token is verified once; on
      failure control falls through to the public check, the missing-token
      check, and a second verification of the same token. */
  function Middleware(pathname: string, token: Option<string>, verifies: string -> bool): (o: Outcome)
    ensures o == Next || o == Redirect("/") || o == Redirect("/login")
    ensures o == Redirect("/") <==> HasValidSession(token, verifies) && StartsWith(pathname, LoginPrefix)
    ensures o == Redirect("/login") <==> !HasValidSession(token, verifies) && !IsPublicRoute(pathname)
  {
    if Truthy(token) && verifies(token.value) then
      if StartsWith(pathname, LoginPrefix) then Redirect("/") else Next
    else if IsPublicRoute(pathname) then Next
    else if !Truthy(token) then Redirect("/login")
    else if verifies(token.value) then Next
    else Redirect("/login")
  }

  /** The gate as a decision table over (session, route): a valid session is
      let through except on the login page, which bounces home; without one,
      public routes pass and protected ones go to the login page. */
  lemma DecisionTable(pathname: string, token: Option<string>, verifies: string -> bool)
    ensures Middleware(pathname, token, verifies) ==
      if HasValidSession(token, verifies) then
        (if StartsWith(pathname, LoginPrefix) then Redirect("/") else Next)
      else if IsPublicRoute(pathname) then Next
      else Redirect("/login")
  {
  }

  /** A verifying token on a path under `/login` is sent home. */
  lemma ValidSessionOnLoginGoesHome(pathname: string, token: string, verifies: string -> bool)
    requires token != "" && verifies(token) && StartsWith(pathname, LoginPrefix)
    ensures Middleware(pathname, Some(token), verifies) == Redirect("/")
  {
  }

  /** A verifying token anywhere else, public or protected, passes. */
  lemma ValidSessionElsewherePasses(pathname: string, token: string, verifies: string -> bool)
    requires token != "" && verifies(token) && !StartsWith(pathname, LoginPrefix)
    ensures Middleware(pathname, Some(token), verifies) == Next
  {
  }

  /** Without a valid session a public path passes. */
  lemma PublicWithoutSessionPasses(pathname: string, token: Option<string>, verifies: string -> bool)
    requires !HasValidSession(token, verifies) && IsPublicRoute(pathname)
    ensures Middleware(pathname, token, verifies) == Next
  {
  }

  /** No cookie (or an empty one) on a protected path goes to `/login`. */
  lemma NoTokenProtectedGoesToLogin(pathname: string, token: Option<string>, verifies: string -> bool)
    requires !Truthy(token) && !IsPublicRoute(pathname)
    ensures Middleware(pathname, token, verifies) == Redirect("/login")
  {
  }

  /** A cookie that fails verification on a protected path goes to `/login`:
      the second verification fails as the first did, and failure is never an
      error outcome. */
  lemma FailingTokenProtectedGoesToLogin(pathname: string, token: string, verifies: string -> bool)
    requires token != "" && !verifies(token) && !IsPublicRoute(pathname)
    ensures Middleware(pathname, Some(token), verifies) == Redirect("/login")
  {
  }

  /** A public path is never redirected to `/login`. */
  lemma PublicNeverToLogin(pathname: string, token: Option<string>, verifies: string -> bool)
    requires IsPublicRoute(pathname)
    ensures Middleware(pathname, token, verifies) != Redirect("/login")
  {
  }

  /** `includes("public")` matches anywhere in the path, so a protected-looking
      page whose name merely contains the word is public. */
  lemma PublicationsPageIsPublic()
    ensures IsPublicRoute("/dashboard/publications")
  {
    OccursAtContains("/dashboard/publications", "public", 11);
  }

  /** Apart from the three prefix rules, a path is public iff `favicon` or `public`
      occurs at some index in it. */
  lemma PublicByInfixIff(pathname: string)
    requires !StartsWith(pathname, LoginPrefix) && !StartsWith(pathname, AuthApiPrefix)
    requires !StartsWith(pathname, FrameworkPrefix)
    ensures IsPublicRoute(pathname) <==>
      (exists i: nat :: OccursAt(pathname, "favicon", i)) || (exists i: nat :: OccursAt(pathname, "public", i))
  {
    ContainsIff(pathname, "favicon");
    ContainsIff(pathname, "public");
  }
}
