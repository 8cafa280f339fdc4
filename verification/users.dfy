/**
 * The user record and the in-memory user directory the handlers consult.
 *
 * The directory is a map from account name to user.  It only supports
 * lookup and an insert that refuses an account already present; nothing is
 * ever updated or removed.
 */
module Users {
  import opened Outcomes

  datatype User = User(account: string, password: string, email: string)

  /** The password check of a user: plain string equality. */
  predicate CheckPassword(user: User, password: string) {
    user.password == password
  }

  type Directory = map<string, User>

  /** Why an insert was refused. */
  datatype SaveError = DuplicateAccount(account: string)

  /** Every user is filed under its own account name. */
  predicate WellKeyed(dir: Directory) {
    forall a :: a in dir ==> dir[a].account == a
  }

  /** `findByAccount`. */
  function FindByAccount(dir: Directory, account: string): (r: Option<User>)
    ensures r.Some? <==> account in dir
    ensures r.Some? ==> r.value == dir[account]
  {
    if account in dir then Some(dir[account]) else None
  }

  /** `save`: insert-if-absent.  On success the directory has gained exactly
      `user` under its account and every earlier entry is untouched. */
  function Save(dir: Directory, user: User): (r: Result<Directory, SaveError>)
    ensures r.Failure? <==> user.account in dir
    ensures r.Failure? ==> r.error == DuplicateAccount(user.account)
    ensures r.Success? ==> r.value.Keys == dir.Keys + {user.account}
    ensures r.Success? ==> r.value[user.account] == user
    ensures r.Success? ==> forall a :: a in dir ==> r.value[a] == dir[a]
  {
    if user.account in dir then Failure(DuplicateAccount(user.account))
    else Success(dir[user.account := user])
  }

  /** A successful save keeps every user filed under its own account. */
  lemma SavePreservesWellKeyed(dir: Directory, user: User)
    requires WellKeyed(dir)
    requires Save(dir, user).Success?
    ensures WellKeyed(Save(dir, user).value)
  {
  }

  /** Lookup after a successful save: the saved user under its account,
      and exactly the earlier answer under every other account. */
  lemma FindAfterSave(dir: Directory, user: User, account: string)
    requires Save(dir, user).Success?
    ensures FindByAccount(Save(dir, user).value, account)
            == if account == user.account then Some(user) else FindByAccount(dir, account)
  {
  }

  /** What was saved is found again. */
  lemma SaveThenFind(dir: Directory, user: User)
    requires Save(dir, user).Success?
    ensures FindByAccount(Save(dir, user).value, user.account) == Some(user)
  {
  }
}
