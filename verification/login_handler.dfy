/**
 * `LoginHandler.handle`: the login page for a request without parameters,
 * otherwise a redirect that tells success from failure.
 *
 * Writing the response to the output stream becomes returning it; the
 * handler returns no directory, so login cannot change the directory.
 */
module LoginHandler {
  import opened Outcomes
  import opened Users
  import opened Responses
  import opened HandlerSupport

  const LoginPagePath: string := "login.html"
  const LoginSuccessPath: string := "index.html"
  const LoginFailurePath: string := "401.html"

  /** The resource the login page is read from. */
  const LoginPage: string := ResourcePrefix + LoginPagePath

  /** `loginFail`: a redirect, and never to the success page. */
  function LoginFail(): (r: Response)
    ensures r.Found? && r != Found(LoginSuccessPath)
  {
    Found(LoginFailurePath)
  }

  /** `requestLogin`: the redirect for a user that exists. */
  function RequestLogin(user: User, password: string): (r: Response)
    ensures r == Found(LoginSuccessPath) <==> CheckPassword(user, password)
    ensures r == Found(LoginFailurePath) <==> !CheckPassword(user, password)
  {
    if CheckPassword(user, password) then Found(LoginSuccessPath) else LoginFail()
  }

  /** `handle`: exactly one response per call.  Without parameters it is the
      login page (or the resource failure); with parameters it is always a
      redirect, to the success page exactly when the account exists and its
      password matches, and to the failure page otherwise. */
  function Handle(params: Params, dir: Directory, resources: Resources)
    : (r: Result<Response, HandlerError>)
    ensures IsEmptyParams(params) ==> (r.Success? <==> LoginPage in resources)
    ensures IsEmptyParams(params) && r.Success? ==> r.value == Ok(resources[LoginPage])
    ensures IsEmptyParams(params) && r.Failure? ==> r.error == ResourceNotFound(LoginPage)
    ensures !IsEmptyParams(params) ==> r.Success?
    ensures !IsEmptyParams(params) ==>
              (r.value == Found(LoginSuccessPath) <==>
                 var account := GetParam(params, "account");
                 account in dir && dir[account].password == GetParam(params, "password"))
    ensures !IsEmptyParams(params) ==>
              r.value == Found(LoginSuccessPath) || r.value == Found(LoginFailurePath)
  {
    if IsEmptyParams(params) then ServePage(resources, LoginPage)
    else
      var account := GetParam(params, "account");
      var password := GetParam(params, "password");
      match FindByAccount(dir, account)
      case Some(user) => Success(RequestLogin(user, password))
      case None => Success(LoginFail())
  }

  /** The page served without parameters does not depend on the directory:
      no lookup takes place. */
  lemma PageIgnoresDirectory(params: Params, dir1: Directory, dir2: Directory,
                             resources: Resources)
    requires IsEmptyParams(params)
    ensures Handle(params, dir1, resources) == Handle(params, dir2, resources)
  {
  }

  /** An unknown account and a wrong password look the same to the client. */
  lemma UnknownAccountLikeWrongPassword(unknown: Params, wrong: Params,
                                        dir: Directory, resources: Resources)
    requires !IsEmptyParams(unknown) && GetParam(unknown, "account") !in dir
    requires !IsEmptyParams(wrong) && GetParam(wrong, "account") in dir
    requires !CheckPassword(dir[GetParam(wrong, "account")], GetParam(wrong, "password"))
    ensures Handle(unknown, dir, resources) == Handle(wrong, dir, resources)
    ensures Handle(unknown, dir, resources) == Success(Found(LoginFailurePath))
  {
  }
}
