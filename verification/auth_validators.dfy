/** Login by email or phone: one 401 for an unknown login and for a wrong password alike,
    then 403 for an inactive account. */
module AuthValidators {
  import opened Common
  import opened Entities

  const INVALID_LOGIN_MESSAGE := "Неверный логин или пароль"
  const INACTIVE_USER_MESSAGE := "Пользователь неактивен"

  /** `verify_password(password, password_hash)`, which is not part of this model. */
  type PasswordCheck = (string, string) -> bool

  /** `authenticate_user`: the login is stripped, the first user with that email or phone is
      looked up, the password is checked, and only then the account's activity. */
  function AuthenticateUser(users: map<int, User>, verify: PasswordCheck, login: string, password: string)
    : (r: Outcome<User>)
    ensures LoginKey(users, Strip(login)).None? ==> r == HttpFail(401, INVALID_LOGIN_MESSAGE)
    ensures LoginKey(users, Strip(login)).Some? ==>
              var u := users[LoginKey(users, Strip(login)).value];
              (!verify(password, u.passwordHash) ==> r == HttpFail(401, INVALID_LOGIN_MESSAGE))
              && (verify(password, u.passwordHash) && !u.isActive ==> r == HttpFail(403, INACTIVE_USER_MESSAGE))
              && (verify(password, u.passwordHash) && u.isActive ==> r == Ok(u))
    ensures r.Ok? ==> r.value in users.Values && HasLogin(r.value, Strip(login)) && r.value.isActive
  {
    var key := LoginKey(users, Strip(login));
    if key.None? then HttpFail(401, INVALID_LOGIN_MESSAGE)
    else
      var user := users[key.value];
      if !verify(password, user.passwordHash) then HttpFail(401, INVALID_LOGIN_MESSAGE)
      else if !user.isActive then HttpFail(403, INACTIVE_USER_MESSAGE)
      else Ok(user)
  }

  /** An unknown login and a known login with a wrong password give the same answer, so the
      response does not reveal which logins exist. */
  lemma UnknownLoginLooksLikeBadPassword(users: map<int, User>, verify: PasswordCheck,
                                         unknown: string, known: string, password: string)
    requires LoginKey(users, Strip(unknown)).None?
    requires LoginKey(users, Strip(known)).Some?
    requires !verify(password, users[LoginKey(users, Strip(known)).value].passwordHash)
    ensures AuthenticateUser(users, verify, unknown, password) == AuthenticateUser(users, verify, known, password)
  {
  }

  /** The login is stripped before the lookup: surrounding whitespace never matters. */
  lemma LoginIsStripped(users: map<int, User>, verify: PasswordCheck, login: string, password: string)
    ensures AuthenticateUser(users, verify, Strip(login), password) == AuthenticateUser(users, verify, login, password)
  {
    StripIdempotent(login);
  }
}
