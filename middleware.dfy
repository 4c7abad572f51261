/** The route guard (src/middleware.ts): for a request path and whether a
    `token` cookie is present, either let the request through or redirect it.
    The tests are raw `startsWith` prefix tests on the path. A redirect target
    is modelled by its path; the origin it is resolved against is not. */
module RouteGuard {
  import opened Wrappers
  import opened Text

  datatype Decision = PassThrough | Redirect(path: string, from: Option<string>)

  predicate IsApiRequest(path: string) { StartsWith(path, "/api") }

  predicate IsAuthPage(path: string) { StartsWith(path, "/signin") || StartsWith(path, "/signup") }

  predicate IsProtected(path: string) { StartsWith(path, "/dashboard") }

  /** `middleware`: API requests always pass; a signed-in visitor of a sign-in or
      sign-up page goes to the dashboard; an anonymous visitor of a dashboard
      page goes to the sign-in page, which is told where they came from;
      everything else passes. */
  function Middleware(path: string, hasToken: bool): (d: Decision)
    ensures IsApiRequest(path) ==> d == PassThrough
    ensures !IsApiRequest(path) && IsAuthPage(path) && hasToken ==> d == Redirect("/dashboard", None)
    ensures !IsApiRequest(path) && IsProtected(path) && !hasToken ==> d == Redirect("/signin", Some(path))
    ensures d == PassThrough <==>
              IsApiRequest(path) || (!(IsAuthPage(path) && hasToken) && !(IsProtected(path) && !hasToken))
  {
    if IsApiRequest(path) then PassThrough
    else if IsAuthPage(path) && hasToken then Redirect("/dashboard", None)
    else if IsProtected(path) && !hasToken then Redirect("/signin", Some(path))
    else PassThrough
  }

  /** No path is both an auth page and a dashboard page, and neither is an API
      path, so at most one rule applies to any request. */
  lemma RulesDisjoint(path: string)
    ensures !(IsAuthPage(path) && IsProtected(path))
    ensures IsAuthPage(path) ==> !IsApiRequest(path)
    ensures IsProtected(path) ==> !IsApiRequest(path)
  {
    if IsAuthPage(path) {
      assert path[1] == 's';
    }
    if IsProtected(path) {
      assert path[1] == 'd';
    }
  }

  /** A redirect never leads to another redirect: the target page passes for
      the same cookie state. */
  lemma RedirectTargetsPass(path: string, hasToken: bool)
    ensures Middleware(path, hasToken).Redirect? ==>
              Middleware(Middleware(path, hasToken).path, hasToken) == PassThrough
  {
    assert "/signin"[..4][1] != "/api"[1];
    assert !IsProtected("/signin") && !IsApiRequest("/signin");
    assert !IsAuthPage("/dashboard") && !IsApiRequest("/dashboard");
  }

  /** The prefix tests also match longer names: `/signinx` counts as an auth
      page and `/dashboardx` as protected, while `/apix` skips every rule. */
  lemma RawPrefixMatches()
    ensures Middleware("/signinx", true) == Redirect("/dashboard", None)
    ensures Middleware("/dashboardx", false) == Redirect("/signin", Some("/dashboardx"))
    ensures Middleware("/apix/dashboard", false) == PassThrough
  {
    assert "/signinx"[..4][1] != "/api"[1];
    assert IsAuthPage("/signinx") && !IsApiRequest("/signinx");
    assert IsProtected("/dashboardx") && !IsApiRequest("/dashboardx");
    assert IsApiRequest("/apix/dashboard");
  }
}
