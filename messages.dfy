/** The fixed one-shot messages the application stores in the session, with their user-facing texts. */
module Messages {

  datatype Message =
    | LoggedIn          // flash after a successful login
    | Registered        // flash after a successful registration
    | LoggedOut         // flash after logout
    | BadCredentials    // login error: unknown user or wrong password, indistinguishably
    | PasswordsDiffer   // registration error: password and confirmation differ
    | EmptyUsername     // registration error: username is empty after stripping
    | UserExists        // registration error: an account with that username exists
    | CreateFailed      // registration error: the insert hit the uniqueness constraint

  function Text(m: Message): string
  {
    match m
    case LoggedIn => "Вы успешно вошли"
    case Registered => "Регистрация прошла успешно"
    case LoggedOut => "Вы вышли из аккаунта"
    case BadCredentials => "Неверное имя пользователя или пароль"
    case PasswordsDiffer => "Пароли не совпадают"
    case EmptyUsername => "Имя пользователя не может быть пустым"
    case UserExists => "Пользователь с таким именем уже существует"
    case CreateFailed => "Не удалось создать пользователя"
  }

  /** "You are already logged in as ..." shown on the login and registration forms. */
  function AlreadyLoggedIn(username: string): string
  {
    "Вы уже вошли как " + username
  }
}
