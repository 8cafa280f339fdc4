/**
 * Properties that tie the two handlers together through the directory they
 * share, and the request sequences the handler tests walk through.
 */
module Scenarios {
  import opened Outcomes
  import opened Users
  import opened Responses
  import opened HandlerSupport
  import LoginHandler
  import RegisterHandler

  /** After registering an account, logging in with the same account and
      password reaches the success page. */
  lemma RegisterThenLogin(reg: Params, login: Params, dir: Directory, resources: Resources)
    requires !IsEmptyParams(reg) && !IsEmptyParams(login)
    requires GetParam(login, "account") == GetParam(reg, "account")
    requires GetParam(login, "password") == GetParam(reg, "password")
    requires RegisterHandler.Handle(reg, dir, resources).Success?
    ensures LoginHandler.Handle(login, RegisterHandler.Handle(reg, dir, resources).value.1, resources)
            == Success(Found(LoginHandler.LoginSuccessPath))
  {
  }

  /** Registering the same account a second time fails. */
  lemma RegisterTwiceFails(first: Params, second: Params, dir: Directory, resources: Resources)
    requires !IsEmptyParams(first) && !IsEmptyParams(second)
    requires GetParam(second, "account") == GetParam(first, "account")
    requires RegisterHandler.Handle(first, dir, resources).Success?
    ensures RegisterHandler.Handle(second, RegisterHandler.Handle(first, dir, resources).value.1, resources)
            == Failure(AlreadyRegisteredUser)
  {
  }

  /** A registration leaves every earlier account's login outcome as it was. */
  lemma RegisterKeepsLogins(reg: Params, login: Params, dir: Directory, resources: Resources)
    requires !IsEmptyParams(reg)
    requires RegisterHandler.Handle(reg, dir, resources).Success?
    requires GetParam(login, "account") in dir
    ensures LoginHandler.Handle(login, RegisterHandler.Handle(reg, dir, resources).value.1, resources)
            == LoginHandler.Handle(login, dir, resources)
  {
  }

  /** The directory the handler tests run against: "gugu" with password
      "password". */
  function TestDirectory(): (dir: Directory)
    ensures WellKeyed(dir)
    ensures "gugu" in dir && dir["gugu"].password == "password"
  {
    map["gugu" := User("gugu", "password", "hkkang@woowahan.com")]
  }

  /** The four login and registration tests, as handler outcomes:
      right password, wrong password and unknown account for `/login`,
      and a new account then "gugu" again for `/register`. */
  lemma HandlerTestOutcomes(resources: Resources)
    ensures LoginHandler.Handle(map["account" := "gugu", "password" := "password"],
                                TestDirectory(), resources)
            == Success(Found("index.html"))
    ensures LoginHandler.Handle(map["account" := "gugu", "password" := "password1"],
                                TestDirectory(), resources)
            == Success(Found("401.html"))
    ensures LoginHandler.Handle(map["account" := "roki", "password" := "password1"],
                                TestDirectory(), resources)
            == Success(Found("401.html"))
    ensures RegisterHandler.Handle(map["account" := "roki", "password" := "password",
                                       "email" := "hkkang%40woowahan.com"],
                                   TestDirectory(), resources).value.0
            == Found("index.html")
    ensures RegisterHandler.Handle(map["account" := "gugu", "password" := "password",
                                       "email" := "hkkang%40woowahan.com"],
                                   TestDirectory(), resources)
            == Failure(AlreadyRegisteredUser)
  {
  }
}
