/**
 * `RegisterHandler.handle`: the registration page for a request without
 * parameters, otherwise a new user saved to the directory and a redirect.
 *
 * The handler returns the response together with the directory as it is
 * afterwards.  A duplicate account escapes as `AlreadyRegisteredUser`
 * before any response is written, so no response comes with it.
 */
module RegisterHandler {
  import opened Outcomes
  import opened Users
  import opened Responses
  import opened HandlerSupport

  const RegisterPagePath: string := "register.html"
  const RegisterSuccessPath: string := "index.html"

  /** The resource the registration page is read from. */
  const RegisterPage: string := ResourcePrefix + RegisterPagePath

  /** `assembleUser`: the parameters become the user's fields unchanged. */
  function AssembleUser(params: Params): (user: User)
    ensures user.account == GetParam(params, "account")
    ensures user.password == GetParam(params, "password")
    ensures user.email == GetParam(params, "email")
  {
    User(GetParam(params, "account"), GetParam(params, "password"), GetParam(params, "email"))
  }

  /** `handle`.  Without parameters: the registration page, directory
      unchanged.  With parameters: failure exactly when the account is
      already present, and then with `AlreadyRegisteredUser`; otherwise the
      assembled user is added under its account, nothing else changes, and
      the response is the redirect to the success page. */
  function Handle(params: Params, dir: Directory, resources: Resources)
    : (r: Result<(Response, Directory), HandlerError>)
    ensures IsEmptyParams(params) ==> (r.Success? <==> RegisterPage in resources)
    ensures IsEmptyParams(params) && r.Success? ==>
              r.value == (Ok(resources[RegisterPage]), dir)
    ensures IsEmptyParams(params) && r.Failure? ==>
              r.error == ResourceNotFound(RegisterPage)
    ensures !IsEmptyParams(params) ==> (r.Failure? <==> GetParam(params, "account") in dir)
    ensures !IsEmptyParams(params) && r.Failure? ==> r.error == AlreadyRegisteredUser
    ensures !IsEmptyParams(params) && r.Success? ==>
              var account := GetParam(params, "account");
              && r.value.0 == Found(RegisterSuccessPath)
              && r.value.1.Keys == dir.Keys + {account}
              && r.value.1[account]
                 == User(account, GetParam(params, "password"), GetParam(params, "email"))
              && (forall a :: a in dir ==> r.value.1[a] == dir[a])
  {
    if IsEmptyParams(params) then
      match ServePage(resources, RegisterPage)
      case Failure(e) => Failure(e)
      case Success(page) => Success((page, dir))
    else
      var user := AssembleUser(params);
      match Save(dir, user)
      case Failure(_) => Failure(AlreadyRegisteredUser)
      case Success(saved) => Success((Found(RegisterSuccessPath), saved))
  }

  /** The redirect is only produced once the save has succeeded, and the
      directory handed back is the one the save produced. */
  lemma RespondsOnlyAfterSave(params: Params, dir: Directory, resources: Resources)
    requires !IsEmptyParams(params)
    requires Handle(params, dir, resources).Success?
    ensures Save(dir, AssembleUser(params)).Success?
    ensures Handle(params, dir, resources).value.1 == Save(dir, AssembleUser(params)).value
  {
  }

  /** Registration keeps every user filed under its own account. */
  lemma HandlePreservesWellKeyed(params: Params, dir: Directory, resources: Resources)
    requires WellKeyed(dir)
    requires Handle(params, dir, resources).Success?
    ensures WellKeyed(Handle(params, dir, resources).value.1)
  {
  }
}
