/**
 * The request guard (middleware.ts): which paths it runs on, and for those
 * whether a request passes through or is redirected, given the session (if
 * any) and the role stored in the session's user metadata. Redirect targets
 * are the paths of the URLs built against the request's origin.
 */
module RouteGuard {
  import opened Wrappers

  /** A signed-in session; `role` is the user's `app_metadata.role`, when present. */
  datatype Session = Session(role: Option<string>)

  datatype Response = Next | Redirect(target: string)

  const ProtectedRoutes: seq<string> := ["/onboarding", "/profile"]

  /** `routes.some((route) => path.startsWith(route))`. */
  function AnyPrefix(routes: seq<string>, path: string): (r: bool)
    ensures r <==> exists i :: 0 <= i < |routes| && routes[i] <= path
  {
    if routes == [] then false else routes[0] <= path || AnyPrefix(routes[1..], path)
  }

  /** A path is protected exactly when it starts with "/onboarding" or "/profile", as plain text. */
  predicate IsProtected(path: string)
    ensures IsProtected(path) <==> "/onboarding" <= path || "/profile" <= path
  {
    assert ProtectedRoutes[0] == "/onboarding" && ProtectedRoutes[1] == "/profile";
    AnyPrefix(ProtectedRoutes, path)
  }

  /** The prefix test is textual: "/profiles" and "/profile-old" are protected too, "/" and "/admin" are not. */
  lemma PrefixMatchIsTextual()
    ensures IsProtected("/profiles") && IsProtected("/profile-old") && IsProtected("/onboarding/step")
    ensures !IsProtected("/") && !IsProtected("/admin") && !IsProtected("/prof")
  {
  }

  /**
   * The guard's decision. The redirects it builds for a request without a
   * session before the protected-path test are never returned, so they have
   * no effect and do not appear here.
   */
  function Middleware(path: string, session: Option<Session>): (r: Response)
    ensures !IsProtected(path) ==> r == Next
    ensures r == Redirect("/sign-in") <==> IsProtected(path) && session.None?
    ensures r == Redirect("/admin") <==> IsProtected(path) && session.Some? && session.value.role == Some("super-admin")
    ensures r == Next <==> !IsProtected(path) || (session.Some? && session.value.role != Some("super-admin"))
  {
    if IsProtected(path) then
      if session.None? then Redirect("/sign-in")
      else if session.value.role == Some("super-admin") then Redirect("/admin")
      else Next
    else Next
  }

  /** Off the protected paths the session makes no difference: with or without one the request passes. */
  lemma SessionIgnoredOffProtected(path: string, s1: Option<Session>, s2: Option<Session>)
    requires !IsProtected(path)
    ensures Middleware(path, s1) == Middleware(path, s2) == Next
  {
  }

  const ImageExtensions: seq<string> := ["svg", "png", "jpg", "jpeg", "gif", "webp"]

  predicate EndsWith(s: string, suffix: string) {
    |suffix| <= |s| && s[|s| - |suffix|..] == suffix
  }

  /** Whether `s` ends with "." followed by one of `extensions`. */
  function AnyExtension(extensions: seq<string>, s: string): (r: bool)
    ensures r <==> exists i :: 0 <= i < |extensions| && EndsWith(s, "." + extensions[i])
  {
    if extensions == [] then false else EndsWith(s, "." + extensions[0]) || AnyExtension(extensions[1..], s)
  }

  /**
   * "favicon.ico" in the matcher is a regular expression whose "." is not
   * escaped: any one character may stand between "favicon" and "ico".
   */
  predicate FaviconLike(rest: string) {
    |rest| >= 11 && rest[..7] == "favicon" && rest[8..11] == "ico"
  }

  /** The matcher's negative look-ahead, applied to the text after the leading "/". */
  predicate ExcludedAfterSlash(rest: string) {
    || "_next/static" <= rest
    || "_next/image" <= rest
    || FaviconLike(rest)
    || AnyExtension(ImageExtensions, rest)
  }

  /** The guard runs on a path that starts with "/" and whose remainder is not excluded. */
  predicate Matched(path: string) {
    path != [] && path[0] == '/' && !ExcludedAfterSlash(path[1..])
  }

  /** What a request to `path` gets: the guard's decision where the matcher applies, otherwise it passes. */
  function Route(path: string, session: Option<Session>): (r: Response)
    ensures !Matched(path) ==> r == Next
    ensures Matched(path) ==> r == Middleware(path, session)
  {
    if Matched(path) then Middleware(path, session) else Next
  }

  /** Every path ending in "." and one of the image extensions passes, whatever the session. */
  lemma ImageFilesPassThrough(path: string, session: Option<Session>, i: nat)
    requires i < |ImageExtensions| && EndsWith(path, "." + ImageExtensions[i])
    ensures Route(path, session) == Next
  {
    var suffix := "." + ImageExtensions[i];
    if path != [] && path[0] == '/' {
      assert |suffix| < |path| by { assert path[|path| - |suffix|] == '.'; }
      assert path[1..][|path| - 1 - |suffix|..] == path[|path| - |suffix|..];
      assert EndsWith(path[1..], suffix);
    }
  }

  /** Every path under "/_next/static" or "/_next/image" passes, whatever the session. */
  lemma InternalAssetsPassThrough(rest: string, session: Option<Session>)
    ensures Route("/_next/static" + rest, session) == Next
    ensures Route("/_next/image" + rest, session) == Next
  {
    assert ("/_next/static" + rest)[1..] == "_next/static" + rest;
    assert ("/_next/image" + rest)[1..] == "_next/image" + rest;
  }

  /** Every path "/favicon", one character, "ico" and anything after it passes, whatever the session. */
  lemma FaviconPassThrough(c: char, rest: string, session: Option<Session>)
    ensures Route("/favicon" + [c] + "ico" + rest, session) == Next
  {
    var path := "/favicon" + [c] + "ico" + rest;
    var after := "favicon" + [c] + "ico" + rest;
    assert path[1..] == after;
    assert after[..7] == "favicon" && after[8..11] == "ico";
  }

  /**
   * On a protected path the matcher's only exclusion that can apply is the
   * image extension: such a path is guarded exactly when it does not end in
   * one, and then a request without a session is sent to sign-in.
   */
  lemma ProtectedRoute(path: string, session: Option<Session>)
    requires IsProtected(path)
    ensures Matched(path) <==> !AnyExtension(ImageExtensions, path[1..])
    ensures Route(path, session) == if AnyExtension(ImageExtensions, path[1..]) then Next else Middleware(path, session)
    ensures Matched(path) ==> Route(path, None) == Redirect("/sign-in")
  {
    var rest := path[1..];
    assert rest[0] == 'o' || rest[0] == 'p';
    assert !("_next/static" <= rest) && !("_next/image" <= rest) && !FaviconLike(rest);
  }

  /** An image under a protected path is excluded by the matcher, so it is served even without a session. */
  lemma ProtectedImageNotGuarded()
    ensures IsProtected("/profile/avatar.png")
    ensures Route("/profile/avatar.png", None) == Next
  {
    ImageFilesPassThrough("/profile/avatar.png", None, 1);
  }
}
