/**
 * The admin authentication gate: admin pages need a valid admin_token cookie,
 * and the login page is skipped once signed in. The framework runs the gate
 * only on paths its route matcher `/admin/:path*` accepts (`Matched`); every
 * other request passes untouched (`Gate`). Token verification is a parameter:
 * `verify(token)` is whether it yields a payload.
 */
module Middleware {
  import opened Common

  datatype Decision = Next | Redirect(location: string)

  const AdminPrefix: string := "/admin"
  const LoginPath: string := "/admin/login"

  /** A cookie that is present, non-empty and verifies. */
  predicate Authenticated(token: Option<string>, verify: string -> bool) {
    Truthy(token) && verify(token.value)
  }

  function Middleware(path: string, token: Option<string>, verify: string -> bool): (d: Decision)
    ensures !(AdminPrefix <= path) ==> d == Next
    ensures path == LoginPath && Authenticated(token, verify) ==> d == Redirect(AdminPrefix)
    ensures AdminPrefix <= path && path != LoginPath && !Authenticated(token, verify) ==> d == Redirect(LoginPath)
    ensures d.Redirect? ==> AdminPrefix <= path
    ensures d.Redirect? ==> d.location != path
  {
    if AdminPrefix <= path then
      var isLoginPage := path == LoginPath;
      var isAuthenticated := Truthy(token) && verify(token.value);
      if isLoginPage && isAuthenticated then Redirect(AdminPrefix)
      else if !isLoginPage && !isAuthenticated then Redirect(LoginPath)
      else Next
    else Next
  }

  /** The requests that pass: any non-admin path, the login page when signed out, other admin pages when signed in. */
  lemma PassesThrough(path: string, token: Option<string>, verify: string -> bool)
    ensures Middleware(path, token, verify) == Next <==>
      !(AdminPrefix <= path) || (path == LoginPath) != Authenticated(token, verify)
  {
  }

  /** A missing or empty cookie counts as signed out, whatever the verifier says. */
  lemma EmptyTokenSignedOut(path: string, verify: string -> bool)
    ensures Middleware(path, None, verify) == Middleware(path, Some(""), verify)
    ensures AdminPrefix <= path && path != LoginPath ==> Middleware(path, Some(""), verify) == Redirect(LoginPath)
  {
  }

  /** Following a redirect never leads to a second one. */
  lemma RedirectSettles(path: string, token: Option<string>, verify: string -> bool)
    requires Middleware(path, token, verify).Redirect?
    ensures Middleware(Middleware(path, token, verify).location, token, verify) == Next
  {
  }

  /** The route matcher `/admin/:path*`: "/admin" itself and every path below it. */
  predicate Matched(path: string) {
    path == AdminPrefix || AdminPrefix + "/" <= path
  }

  /** What a request meets: the gate on matched paths, nothing on the others. */
  function Gate(path: string, token: Option<string>, verify: string -> bool): (d: Decision)
    ensures !Matched(path) ==> d == Next
    ensures path == LoginPath && Authenticated(token, verify) ==> d == Redirect(AdminPrefix)
    ensures Matched(path) && path != LoginPath && !Authenticated(token, verify) ==> d == Redirect(LoginPath)
    ensures Matched(path) && path != LoginPath && Authenticated(token, verify) ==> d == Next
    ensures path == LoginPath && !Authenticated(token, verify) ==> d == Next
  {
    assert Matched(path) ==> AdminPrefix <= path;
    assert AdminPrefix + "/" <= LoginPath;
    if Matched(path) then Middleware(path, token, verify) else Next
  }

  /** Both redirect targets are matched, and the gate lets them through: one redirect at most. */
  lemma GateRedirectSettles(path: string, token: Option<string>, verify: string -> bool)
    requires Gate(path, token, verify).Redirect?
    ensures Matched(Gate(path, token, verify).location)
    ensures Gate(Gate(path, token, verify).location, token, verify) == Next
  {
    assert AdminPrefix + "/" <= LoginPath;
  }

  /**
   * The function's own test is a textual prefix test, so it would guard
   * "/administrator"; the matcher never hands it that path, so the request passes.
   */
  lemma LookalikePathPasses(token: Option<string>, verify: string -> bool)
    requires !Authenticated(token, verify)
    ensures Middleware("/administrator", token, verify) == Redirect(LoginPath)
    ensures !Matched("/administrator") && Gate("/administrator", token, verify) == Next
  {
    assert AdminPrefix <= "/administrator";
    assert "/administrator"[6] != '/';
    assert "/administrator" != AdminPrefix;
  }
}
