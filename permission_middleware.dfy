/** `requireModule(code)`: the route guard that lets a session user through
    when they are an admin or hold the module. */
module PermissionMiddleware {
  import opened Wrappers
  import opened Text

  /** The user the authentication layer put in `res.locals.user`;
      `modules` is `None` when the token carried no list. */
  datatype SessionUser = SessionUser(id: int, username: string, role: string, branchId: Option<int>,
                                     branchName: Option<string>, modules: Option<seq<string>>)

  datatype Decision =
    | RedirectLogin
    | Next
    | DenyJson(error: string)
    | DenyView(message: string)

  const DENIED_JSON := "Acceso denegado a este módulo."
  const DENIED_VIEW_PREFIX := "No tienes permisos para acceder al módulo: "

  predicate HasModule(u: SessionUser, code: string) {
    u.modules.Some? && code in u.modules.value
  }

  predicate WantsJson(xhr: bool, accept: Option<string>) {
    xhr || (accept.Some? && Includes(accept.value, "json"))
  }

  function RequireModule(code: string, user: Option<SessionUser>, xhr: bool, accept: Option<string>): (d: Decision)
    ensures d == RedirectLogin <==> user.None?
    ensures d == Next <==> user.Some? && (user.value.role == "admin" || HasModule(user.value, code))
    ensures d.DenyJson? <==> user.Some? && !(user.value.role == "admin" || HasModule(user.value, code)) && WantsJson(xhr, accept)
    ensures d.DenyJson? ==> d.error == DENIED_JSON
    ensures d.DenyView? ==> d.message == DENIED_VIEW_PREFIX + code
  {
    if user.None? then RedirectLogin
    else if user.value.role == "admin" then Next
    else if HasModule(user.value, code) then Next
    else if WantsJson(xhr, accept) then DenyJson(DENIED_JSON)
    else DenyView(DENIED_VIEW_PREFIX + code)
  }

  /** An admin passes every module guard, whatever modules they hold. */
  lemma AdminPassesEveryGuard(code: string, u: SessionUser, xhr: bool, accept: Option<string>)
    requires u.role == "admin"
    ensures RequireModule(code, Some(u), xhr, accept) == Next
  {
  }

  /** Granting more modules never takes access away, and a user denied a
      module is let through once it is granted. */
  lemma MoreModulesNeverDeny(code: string, u: SessionUser, extra: seq<string>, xhr: bool, accept: Option<string>)
    requires u.modules.Some?
    ensures RequireModule(code, Some(u), xhr, accept) == Next ==>
      RequireModule(code, Some(u.(modules := Some(u.modules.value + extra))), xhr, accept) == Next
    ensures RequireModule(code, Some(u.(modules := Some(u.modules.value + [code]))), xhr, accept) == Next
  {
    assert code in u.modules.value + [code];
  }

  /** How a denial is presented depends only on the request, never on who
      was denied: both kinds of denial are the same 403. */
  lemma DenialShapeFollowsRequest(code: string, u: SessionUser, v: SessionUser, xhr: bool, accept: Option<string>)
    requires RequireModule(code, Some(u), xhr, accept) != Next
    requires RequireModule(code, Some(v), xhr, accept) != Next
    ensures RequireModule(code, Some(u), xhr, accept) == RequireModule(code, Some(v), xhr, accept)
  {
  }
}
