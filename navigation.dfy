/**
  The navigation bar of every rendered page: the fixed ordered menu, with the
  login and registration entries dropped and a logout entry appended when a
  user is logged in. Links are represented by the name of their endpoint.
 */
module Navigation {

  datatype MenuItem = MenuItem(id: string, title: string, endpoint: string)

  /** A rendered link; `url` is the endpoint name the link resolves to. */
  datatype NavEntry = NavEntry(id: string, title: string, url: string)

  const BaseNavItems: seq<MenuItem> := [
    MenuItem("home", "Главная", "home"),
    MenuItem("catalog", "Каталог", "catalog"),
    MenuItem("about", "О проекте", "about"),
    MenuItem("login", "Войти", "login"),
    MenuItem("register", "Регистрация", "register")
  ]

  const LogoutEntry: NavEntry := NavEntry("logout", "Выйти", "logout")

  /** The menu ids that are not shown to a logged-in user. */
  predicate HiddenWhenLoggedIn(id: string)
  {
    id == "login" || id == "register"
  }

  predicate Shown(item: MenuItem, loggedIn: bool)
  {
    !(loggedIn && HiddenWhenLoggedIn(item.id))
  }

  function Entry(item: MenuItem): NavEntry
  {
    NavEntry(item.id, item.title, item.endpoint)
  }

  /**
    The entries of the shown menu items, in menu order: logged out, one entry
    per item and position by position; logged in, exactly the entries of the
    items that are not hidden.
   */
  function VisibleEntries(items: seq<MenuItem>, loggedIn: bool): (r: seq<NavEntry>)
    ensures !loggedIn ==> |r| == |items| && forall i | 0 <= i < |items| :: r[i] == Entry(items[i])
    ensures forall e | e in r :: exists i | 0 <= i < |items| :: e == Entry(items[i]) && Shown(items[i], loggedIn)
    ensures forall i | 0 <= i < |items| && Shown(items[i], loggedIn) :: Entry(items[i]) in r
    decreases |items|
  {
    if items == [] then []
    else
      var init, last := items[..|items| - 1], items[|items| - 1];
      assert forall i | 0 <= i < |init| :: init[i] == items[i];
      VisibleEntries(init, loggedIn) + (if Shown(last, loggedIn) then [Entry(last)] else [])
  }

  /** The navigation list `render_page` builds from `items`. */
  function Nav(items: seq<MenuItem>, loggedIn: bool): seq<NavEntry>
  {
    VisibleEntries(items, loggedIn) + (if loggedIn then [LogoutEntry] else [])
  }

  /**
    When the menu has no logout item of its own, the navigation holds a logout
    entry exactly when a user is logged in, and then only once, as its last entry.
   */
  lemma LogoutOnlyWhenLoggedIn(items: seq<MenuItem>, loggedIn: bool)
    requires forall i | 0 <= i < |items| :: items[i].id != "logout"
    ensures LogoutEntry in Nav(items, loggedIn) <==> loggedIn
    ensures loggedIn ==> && Nav(items, loggedIn)[|Nav(items, loggedIn)| - 1] == LogoutEntry
                         && LogoutEntry !in Nav(items, loggedIn)[..|Nav(items, loggedIn)| - 1]
  {
  }

  /** Logged out, the navigation is the five menu items in their order, without logout. */
  lemma NavWhenLoggedOut()
    ensures Nav(BaseNavItems, false) == [
      NavEntry("home", "Главная", "home"),
      NavEntry("catalog", "Каталог", "catalog"),
      NavEntry("about", "О проекте", "about"),
      NavEntry("login", "Войти", "login"),
      NavEntry("register", "Регистрация", "register")
    ]
  {
  }

  /** Logged in, the navigation is home, catalog and about in that order, then logout. */
  lemma NavWhenLoggedIn()
    ensures Nav(BaseNavItems, true) == [
      NavEntry("home", "Главная", "home"),
      NavEntry("catalog", "Каталог", "catalog"),
      NavEntry("about", "О проекте", "about"),
      LogoutEntry
    ]
  {
    var items := BaseNavItems;
    assert items[..4][..3] == items[..3] && items[..3][..2] == items[..2];
    assert items[..2][..1] == items[..1] && items[..1][..0] == [];
    assert VisibleEntries(items[..1], true) == [Entry(items[0])];
    assert VisibleEntries(items[..2], true) == [Entry(items[0]), Entry(items[1])];
    assert VisibleEntries(items[..3], true) == [Entry(items[0]), Entry(items[1]), Entry(items[2])];
    assert VisibleEntries(items[..4], true) == VisibleEntries(items[..3], true);
  }

  /** The loop of `render_page` that builds the navigation list entry by entry. */
  method BuildNav(items: seq<MenuItem>, loggedIn: bool) returns (nav: seq<NavEntry>)
    ensures nav == Nav(items, loggedIn)
  {
    nav := [];
    for i := 0 to |items|
      invariant nav == VisibleEntries(items[..i], loggedIn)
    {
      var item := items[i];
      assert items[..i + 1][..i] == items[..i];
      if loggedIn && HiddenWhenLoggedIn(item.id) {
        continue;
      }
      nav := nav + [Entry(item)];
    }
    assert items[..|items|] == items;
    if loggedIn {
      nav := nav + [LogoutEntry];
    }
  }
}
