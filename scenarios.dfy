/**
  The application's end-to-end flows, one client session against a freshly
  seeded store, stated for any password digest function. Each method runs the
  handlers in the order a browser would and states what the pages show.
 */
module Scenarios {
  import opened Wrappers
  import opened Strings
  import opened Messages
  import opened Database
  import opened Navigation
  import opened App

  /** A store seeded with the default accounts and an empty session. */
  method Start(hash: string -> string) returns (store: AccountStore, session: Session)
    ensures fresh(store) && fresh(session) && store.Valid() && store.hash == hash
    ensures store.accounts == map[1 := Account(1, "admin", hash("admin123"), 0),
                                  2 := Account(2, "barista", hash("coffee42"), 0)]
    ensures store.nextId == 3
    ensures session.user == None && session.flash == None
    ensures session.loginError == None && session.registerError == None
  {
    store := new AccountStore(hash);
    store.InitDb();
    SeedingEmptyTable(hash);
    session := new Session();
  }

  /** Logging in as the administrator, then opening the home page. */
  method LoginSuccessFlow(hash: string -> string) returns (resp: Response, home: Page)
    ensures resp == SeeOther("home")
    ensures home.flash == Some(LoggedIn) && home.user == Some(Identity(1, "admin"))
    ensures LogoutEntry in home.nav
    ensures Entry(BaseNavItems[3]) !in home.nav && Entry(BaseNavItems[4]) !in home.nav
  {
    var store, session := Start(hash);
    assert store.accounts[1].username == "admin" && store.accounts[1].passwordHash == hash("admin123");
    resp := LoginSubmit(store, session, "admin", "admin123");
    assert session.user == Some(Identity(1, "admin")) by {
      assert store.accounts[2].username != "admin";
    }
    home := RenderPage(session, "index.html", "home", Context(None, None));
    NavWhenLoggedIn();
  }

  /** A wrong password: the login page shows the error and the user stays logged out. */
  method LoginInvalidCredentialsFlow(hash: string -> string) returns (resp: Response, loginPage: Page, home: Page)
    requires hash("wrong") != hash("admin123")
    ensures resp == SeeOther("login")
    ensures loginPage.error == Some(BadCredentials)
    ensures home.user == None && home.error == None
  {
    var store, session := Start(hash);
    resp := LoginSubmit(store, session, "admin", "wrong");
    loginPage := LoginForm(session);
    home := RenderPage(session, "index.html", "home", Context(None, None));
  }

  /** Registering a new username logs it in as account 3. */
  method RegisterSuccessFlow(hash: string -> string, username: string) returns (resp: Response, home: Page)
    requires Strip(username) != [] && Strip(username) != "admin" && Strip(username) != "barista"
    ensures resp == SeeOther("home")
    ensures home.flash == Some(Registered) && home.user == Some(Identity(3, Strip(username)))
    ensures LogoutEntry in home.nav
  {
    var store, session := Start(hash);
    resp := RegisterSubmit(store, session, username, "secret123", "secret123");
    home := RenderPage(session, "index.html", "home", Context(None, None));
    NavWhenLoggedIn();
  }

  /** Mismatched passwords: the registration page shows the error and no account is created. */
  method RegisterPasswordMismatchFlow(hash: string -> string, username: string) returns (resp: Response, registerPage: Page, accounts: nat)
    ensures resp == SeeOther("register")
    ensures registerPage.error == Some(PasswordsDiffer)
    ensures accounts == 2
  {
    var store, session := Start(hash);
    resp := RegisterSubmit(store, session, username, "secret123", "other");
    registerPage := RegisterForm(session);
    accounts := |store.accounts|;
  }

  /** Registering the same new username twice: the second attempt is refused and adds nothing. */
  method RegisterDuplicateFlow(hash: string -> string, username: string) returns (resp: Response, registerPage: Page, accounts: nat)
    requires Strip(username) != [] && Strip(username) != "admin" && Strip(username) != "barista"
    ensures resp == SeeOther("register")
    ensures registerPage.error == Some(UserExists)
    ensures accounts == 3
  {
    var store, session := Start(hash);
    var _ := RegisterSubmit(store, session, username, "secret123", "secret123");
    assert UsernameTaken(store.accounts, Strip(username)) by {
      assert store.accounts[3].username == Strip(username);
    }
    resp := RegisterSubmit(store, session, username, "secret123", "secret123");
    registerPage := RegisterForm(session);
    accounts := |store.accounts|;
  }

  /** Logging in and out: the home page shows the logout flash and the logged-out menu again. */
  method LogoutFlow(hash: string -> string) returns (resp: Response, home: Page)
    ensures resp == SeeOther("home")
    ensures home.flash == Some(LoggedOut) && home.user == None
    ensures LogoutEntry !in home.nav
    ensures Entry(BaseNavItems[3]) in home.nav && Entry(BaseNavItems[4]) in home.nav
  {
    var store, session := Start(hash);
    var _ := LoginSubmit(store, session, "admin", "admin123");
    resp := Logout(session);
    home := RenderPage(session, "index.html", "home", Context(None, None));
    NavWhenLoggedOut();
  }

  /** Asking for coffee while logged out answers 418 and changes no account. */
  method CoffeeLoggedOutFlow(hash: string -> string) returns (resp: Response, counts: seq<nat>)
    ensures resp == EmptyBody(418)
    ensures counts == [0, 0]
  {
    var store, session := Start(hash);
    resp := Coffee(store, session);
    counts := [store.accounts[1].coffeeCount, store.accounts[2].coffeeCount];
  }

  /** Asking for coffee as the administrator raises the administrator's count by one and only that. */
  method CoffeeLoggedInFlow(hash: string -> string) returns (resp: Response, counts: seq<nat>)
    ensures resp == EmptyBody(418)
    ensures counts == [1, 0]
  {
    var store, session := Start(hash);
    var _ := LoginSubmit(store, session, "admin", "admin123");
    resp := Coffee(store, session);
    counts := [store.accounts[1].coffeeCount, store.accounts[2].coffeeCount];
  }
}
