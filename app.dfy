/**
  The request handlers: each one reads and writes the session record and
  calls the account store, then renders a page or redirects.
 */
module App {
  import opened Wrappers
  import opened Strings
  import opened Messages
  import opened Database
  import opened Navigation
  import Schemas

  /**
    The signed-cookie session of one browser: the logged-in identity and the
    one-shot messages, each absent until a handler sets it.
   */
  class Session {
    var user: Option<Identity>
    var flash: Option<Message>
    var loginError: Option<Message>
    var registerError: Option<Message>

    constructor ()
      ensures user == None && flash == None && loginError == None && registerError == None
    {
      user, flash, loginError, registerError := None, None, None, None;
    }
  }

  /** Extra values a handler passes to the template: an error to show and an informational line. */
  datatype Context = Context(error: Option<Message>, info: Option<string>)

  /** What a template is rendered with. */
  datatype Page = Page(
    template: string,
    activePage: string,
    nav: seq<NavEntry>,
    user: Option<Identity>,
    flash: Option<Message>,
    error: Option<Message>,
    info: Option<string>)

  /** A handler's answer: a 303 redirect to an endpoint, or an empty body with a status code. */
  datatype Response = SeeOther(endpoint: string) | EmptyBody(status: nat)

  const SeeOtherStatus: nat := 303
  const TeapotStatus: nat := 418

  /**
    `render_page`: the navigation for the current login state, the user, and
    the flash message, which is taken out of the session so that it is shown
    once; nothing else in the session changes.
   */
  method RenderPage(session: Session, template: string, activePage: string, context: Context) returns (page: Page)
    modifies session
    ensures page.nav == Nav(BaseNavItems, session.user.Some?)
    ensures page.user == session.user && page.flash == old(session.flash)
    ensures page.template == template && page.activePage == activePage
    ensures page.error == context.error && page.info == context.info
    ensures session.flash == None
    ensures session.user == old(session.user)
    ensures session.loginError == old(session.loginError) && session.registerError == old(session.registerError)
  {
    var user := session.user;
    var nav := BuildNav(BaseNavItems, user.Some?);
    var flash := session.flash;
    session.flash := None;
    page := Page(template, activePage, nav, user, flash, context.error, context.info);
  }

  /** The informational line shown on the forms to a user who is already logged in. */
  function AlreadyLoggedInInfo(user: Option<Identity>): Option<string>
  {
    if user.Some? then Some(AlreadyLoggedIn(user.value.username)) else None
  }

  /** `login_form`: shows and consumes the pending login error and the flash message. */
  method LoginForm(session: Session) returns (page: Page)
    modifies session
    ensures page.error == old(session.loginError) && session.loginError == None
    ensures page.flash == old(session.flash) && session.flash == None
    ensures page.info == AlreadyLoggedInInfo(session.user)
    ensures page.nav == Nav(BaseNavItems, session.user.Some?) && page.activePage == "login"
    ensures session.user == old(session.user) && session.registerError == old(session.registerError)
  {
    var error := session.loginError;
    session.loginError := None;
    var info := AlreadyLoggedInInfo(session.user);
    page := RenderPage(session, "login.html", "login", Context(error, info));
  }

  /**
    `login_submit`: on correct credentials the session holds exactly the
    account's id and username and the success flash; otherwise the login error
    is set and the identity stays as it was. The store is only read.
   */
  method LoginSubmit(store: AccountStore, session: Session, username: string, password: string) returns (resp: Response)
    requires store.Valid()
    modifies session
    ensures var auth := Authenticate(store.accounts, store.hash, username, password);
      && (auth.Some? ==> && session.user == auth
                         && session.flash == Some(LoggedIn)
                         && session.loginError == old(session.loginError)
                         && resp == SeeOther("home"))
      && (auth.None? ==> && session.user == old(session.user)
                         && session.flash == old(session.flash)
                         && session.loginError == Some(BadCredentials)
                         && resp == SeeOther("login"))
    ensures session.registerError == old(session.registerError)
  {
    var user := Authenticate(store.accounts, store.hash, username, password);
    if user.Some? {
      session.user := Some(Identity(user.value.id, user.value.username));
      session.flash := Some(LoggedIn);
      return SeeOther("home");
    }
    session.loginError := Some(BadCredentials);
    return SeeOther("login");
  }

  /** `register_form`: shows and consumes the pending registration error and the flash message. */
  method RegisterForm(session: Session) returns (page: Page)
    modifies session
    ensures page.error == old(session.registerError) && session.registerError == None
    ensures page.flash == old(session.flash) && session.flash == None
    ensures page.info == AlreadyLoggedInInfo(session.user)
    ensures page.nav == Nav(BaseNavItems, session.user.Some?) && page.activePage == "register"
    ensures session.user == old(session.user) && session.loginError == old(session.loginError)
  {
    var error := session.registerError;
    session.registerError := None;
    var info := AlreadyLoggedInInfo(session.user);
    page := RenderPage(session, "register.html", "register", Context(error, info));
  }

  /**
    The checks `register_submit` makes before touching the store: the
    passwords are compared first, then the stripped username must be non-empty.
   */
  function RegisterPrecheck(username: string, password: string, passwordConfirm: string): (r: Result<string, Message>)
    ensures r.Ok? <==> password == passwordConfirm && Strip(username) != []
    ensures r.Ok? ==> r.value == Strip(username)
    ensures r.Err? ==> r.error == if password != passwordConfirm then PasswordsDiffer else EmptyUsername
  {
    var name := Strip(username);
    if password != passwordConfirm then Err(PasswordsDiffer)
    else if name == [] then Err(EmptyUsername)
    else Ok(name)
  }

  /**
    The registration form schema accepts exactly the submissions the inline
    checks accept, with the same cleaned username; when both checks fail the
    two report different errors, because the schema looks at the username first.
   */
  lemma SchemaAgreesWithPrecheck(username: string, password: string, passwordConfirm: string)
    ensures Schemas.AsForm(username, password, passwordConfirm).Ok?
            <==> RegisterPrecheck(username, password, passwordConfirm).Ok?
    ensures RegisterPrecheck(username, password, passwordConfirm).Ok? ==>
              Schemas.AsForm(username, password, passwordConfirm).value.username
              == RegisterPrecheck(username, password, passwordConfirm).value
    ensures RegisterPrecheck(username, password, passwordConfirm).Err? ==>
              (Schemas.AsForm(username, password, passwordConfirm).error
               == RegisterPrecheck(username, password, passwordConfirm).error
               <==> !(password != passwordConfirm && Strip(username) == []))
  {
  }

  /**
    The decision `register_submit` reaches on a table: the first failing check
    in the order password mismatch, empty username, existing username, or the
    stripped username to create.
   */
  function RegistrationOutcome(rows: map<nat, Account>, username: string, password: string, passwordConfirm: string)
    : (r: Result<string, Message>)
    ensures (r == Err(PasswordsDiffer)) <==> password != passwordConfirm
    ensures (r == Err(EmptyUsername)) <==> password == passwordConfirm && Strip(username) == []
    ensures (r == Err(UserExists)) <==>
              password == passwordConfirm && Strip(username) != [] && UsernameTaken(rows, Strip(username))
    ensures r.Ok? ==> r.value == Strip(username) && r.value != [] && !UsernameTaken(rows, r.value)
    ensures r.Err? ==> r.error in {PasswordsDiffer, EmptyUsername, UserExists}
  {
    match RegisterPrecheck(username, password, passwordConfirm)
    case Err(e) => Err(e)
    case Ok(name) => if UsernameTaken(rows, name) then Err(UserExists) else Ok(name)
  }

  /**
    `register_submit`: every rejection leaves the store and the identity
    untouched and sets the registration error; a success adds exactly one
    account with the stripped username and logs it in.
   */
  method RegisterSubmit(store: AccountStore, session: Session, username: string, password: string, passwordConfirm: string)
    returns (resp: Response)
    requires store.Valid()
    modifies store, session
    ensures store.Valid()
    ensures var outcome := RegistrationOutcome(old(store.accounts), username, password, passwordConfirm);
      && (outcome.Err? ==> && store.accounts == old(store.accounts) && store.nextId == old(store.nextId)
                           && session.user == old(session.user)
                           && session.flash == old(session.flash)
                           && session.registerError == Some(outcome.error)
                           && resp == SeeOther("register"))
      && (outcome.Ok? ==> && store.Snapshot() == Insert(old(store.Snapshot()), outcome.value, store.hash(password))
                          && session.user == Some(Identity(old(store.nextId), outcome.value))
                          && session.flash == Some(Registered)
                          && session.registerError == old(session.registerError)
                          && resp == SeeOther("home"))
    ensures session.loginError == old(session.loginError)
  {
    var name := Strip(username);
    if password != passwordConfirm {
      session.registerError := Some(PasswordsDiffer);
      return SeeOther("register");
    }
    if name == [] {
      session.registerError := Some(EmptyUsername);
      return SeeOther("register");
    }
    var existing := FindByUsername(store.accounts, name);
    if existing.Some? {
      session.registerError := Some(UserExists);
      return SeeOther("register");
    }
    var created := store.CreateUser(name, password);
    session.user := Some(Identity(created.value.id, created.value.username));
    session.flash := Some(Registered);
    return SeeOther("home");
  }

  /** `logout`: the identity is gone and the logout flash is set; the store is not touched. */
  method Logout(session: Session) returns (resp: Response)
    modifies session
    ensures session.user == None && session.flash == Some(LoggedOut)
    ensures session.loginError == old(session.loginError) && session.registerError == old(session.registerError)
    ensures resp == SeeOther("home")
  {
    session.user := None;
    session.flash := Some(LoggedOut);
    return SeeOther("home");
  }

  /** `say_hello`: the greeting "Hello " followed by the name, from which the name can be read back. */
  function SayHello(name: string): (message: string)
    ensures |message| == |name| + 6 && message[..6] == "Hello " && message[6..] == name
  {
    "Hello " + name
  }

  /** Different names give different greetings. */
  lemma SayHelloInjective(a: string, b: string)
    requires SayHello(a) == SayHello(b)
    ensures a == b
  {
  }

  /**
    `coffee`: always 418 with an empty body. Logged in, the counter of the
    account with the session's id grows by one and nothing else changes (no
    change at all when that id has no account); logged out, the store is not touched.
   */
  method Coffee(store: AccountStore, session: Session) returns (resp: Response)
    requires store.Valid()
    modifies store
    ensures resp == EmptyBody(TeapotStatus)
    ensures store.Valid() && store.nextId == old(store.nextId)
    ensures session.user.None? ==> store.accounts == old(store.accounts)
    ensures session.user.Some? && session.user.value.id !in old(store.accounts) ==> store.accounts == old(store.accounts)
    ensures session.user.Some? && session.user.value.id in old(store.accounts) ==>
              var id := session.user.value.id;
              store.accounts == old(store.accounts)[id := old(store.accounts)[id].(coffeeCount := old(store.accounts)[id].coffeeCount + 1)]
  {
    var user := session.user;
    if user.Some? {
      var _ := store.IncrementCoffeeCount(user.value.id);
    }
    return EmptyBody(TeapotStatus);
  }
}
