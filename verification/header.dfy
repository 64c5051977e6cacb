/**
 * The site header's behaviour with its rendering stripped away: the mount
 * effect that restores the signed-in user from storage, the language switch,
 * logout, and the navigation links it offers. Every handler is a pure step
 * from the storage and the header's user state to the new storage, the new
 * user state and the path the router is asked to open.
 */
module Header {
  import opened Options
  import opened Storage
  import opened Translations
  import opened Strings
  import opened Routes

  /** The signed-in user record kept under the `user` key; its fields are carried, never inspected. */
  datatype User = User(name: string, email: string, id: string, token: string)

  /** `JSON.parse` applied to a stored user value: None where it would throw. */
  type Parser = string -> Option<User>

  /** The header's component state and the storage it shares with the rest of the page. */
  datatype HeaderState = HeaderState(store: Store, user: Option<User>, mounted: bool)

  /** A handler's outcome: the state after it and the path passed to `router.push`. */
  datatype Step = Step(state: HeaderState, target: string)

  /** The state on first render: not mounted and nobody signed in. */
  function Initial(store: Store): (h: HeaderState)
    ensures !h.mounted && h.user == None && h.store == store
  {
    HeaderState(store, None, false)
  }

  /** What the header renders. */
  datatype View = Nothing | Bar(links: seq<string>, greeting: Option<string>)

  /**
   * The mount effect. A truthy stored user value is parsed: when it parses
   * it becomes the user, when it does not the corrupted entry is removed.
   * An absent or empty value is neither parsed nor removed.
   */
  function Mount(h: HeaderState, parse: Parser): (h': HeaderState)
    ensures h'.mounted
    ensures !Truthy(GetItem(h.store, UserKey)) ==> h'.store == h.store && h'.user == h.user
    ensures Truthy(GetItem(h.store, UserKey)) && parse(h.store[UserKey]).Some? ==>
      h'.store == h.store && h'.user == parse(h.store[UserKey])
    ensures Truthy(GetItem(h.store, UserKey)) && parse(h.store[UserKey]).None? ==>
      h'.user == h.user && GetItem(h'.store, UserKey) == None && AgreeExcept(h.store, h'.store, UserKey)
  {
    var userData := GetItem(h.store, UserKey);
    if Truthy(userData) then
      match parse(userData.value)
      case Some(u) => HeaderState(h.store, Some(u), true)
      case None => HeaderState(RemoveItem(h.store, UserKey), h.user, true)
    else
      h.(mounted := true)
  }

  /** Every user value left in storage that the header would read is one it can parse. */
  ghost predicate SessionReadable(store: Store, parse: Parser) {
    Truthy(GetItem(store, UserKey)) ==> parse(store[UserKey]).Some?
  }

  /** After mounting, the stored session is readable and the header shows a user exactly when it read one. */
  lemma MountRecovers(store: Store, parse: Parser)
    ensures SessionReadable(Mount(Initial(store), parse).store, parse)
    ensures Mount(Initial(store), parse).user.Some? <==>
      Truthy(GetItem(store, UserKey)) && parse(store[UserKey]).Some?
    ensures GetItem(Mount(Initial(store), parse).store, LanguageKey) == GetItem(store, LanguageKey)
  {
  }

  /** Mounting again changes nothing: the first mount already removed any unreadable entry. */
  lemma MountIdempotent(h: HeaderState, parse: Parser)
    ensures Mount(Mount(h, parse), parse) == Mount(h, parse)
  {
    var userData := GetItem(h.store, UserKey);
    if Truthy(userData) && parse(userData.value).None? {
      assert !Truthy(GetItem(Mount(h, parse).store, UserKey));
    }
  }

  /**
   * `switchLanguage`: stores the new language code, then opens the current
   * path with its first occurrence of `/${current}` replaced by `/${next}`.
   */
  function SwitchLanguage(h: HeaderState, current: Language, next: Language, pathname: string): (s: Step)
    ensures GetItem(s.state.store, LanguageKey) == Some(Code(next))
    ensures AgreeExcept(h.store, s.state.store, LanguageKey)
    ensures GetItem(s.state.store, UserKey) == GetItem(h.store, UserKey)
    ensures s.state.user == h.user && s.state.mounted == h.mounted
    ensures !Contains(pathname, HomePath(current)) ==> s.target == pathname
    ensures forall i: nat :: FirstOccurrence(pathname, HomePath(current), i) ==>
      s.target == pathname[..i] + HomePath(next) + pathname[i + |HomePath(current)|..]
  {
    var store := SetItem(h.store, LanguageKey, Code(next));
    Step(h.(store := store), ReplaceFirst(pathname, HomePath(current), HomePath(next)))
  }

  /** On a path under the current language, the switch swaps the language and keeps the rest of the path. */
  lemma SwitchKeepsRemainder(h: HeaderState, current: Language, next: Language, pathname: string)
    requires |HomePath(current)| <= |pathname| && pathname[..|HomePath(current)|] == HomePath(current)
    ensures SwitchLanguage(h, current, next, pathname).target == HomePath(next) + pathname[|HomePath(current)|..]
  {
    ReplaceAtPrefix(pathname, HomePath(current), HomePath(next));
  }

  /** Switching to the language already shown stores it and reopens the same path. */
  lemma SwitchToCurrentKeepsPath(h: HeaderState, current: Language, pathname: string)
    ensures SwitchLanguage(h, current, current, pathname).target == pathname
  {
    ReplaceBySelf(pathname, HomePath(current));
  }

  /** On a path under the current language, switching away and back returns to the starting path. */
  lemma SwitchAndBack(h: HeaderState, current: Language, next: Language, pathname: string)
    requires |HomePath(current)| <= |pathname| && pathname[..|HomePath(current)|] == HomePath(current)
    ensures
      var there := SwitchLanguage(h, current, next, pathname);
      SwitchLanguage(there.state, next, current, there.target).target == pathname
  {
    ReplaceBackAtPrefix(pathname, HomePath(current), HomePath(next));
  }

  /** Switching from any page of the site lands on the same page in the new language. */
  lemma SwitchLandsOnSamePage(h: HeaderState, current: Language, next: Language, page: Page)
    ensures SwitchLanguage(h, current, next, PagePath(current, page)).target == PagePath(next, page)
    ensures PathLanguage(SwitchLanguage(h, current, next, PagePath(current, page)).target) == Some(next)
  {
    var pathname := PagePath(current, page);
    SwitchKeepsRemainder(h, current, next, pathname);
    assert pathname[|HomePath(current)|..] == Suffix(page);
    PagePathParses(next, page);
  }

  /** `handleLogout`: forgets the stored and the shown user, then opens the language's home page. */
  function Logout(h: HeaderState, current: Language): (s: Step)
    ensures GetItem(s.state.store, UserKey) == None
    ensures AgreeExcept(h.store, s.state.store, UserKey)
    ensures GetItem(s.state.store, LanguageKey) == GetItem(h.store, LanguageKey)
    ensures s.state.user == None && s.state.mounted == h.mounted
    ensures s.target == HomePath(current)
    ensures ParsePath(s.target) == Some(Route(current, Home))
  {
    PagePathParses(current, Home);
    Step(HeaderState(RemoveItem(h.store, UserKey), None, h.mounted), HomePath(current))
  }

  /** Logging out is durable: a later mount finds nobody signed in, whatever the parser. */
  lemma LogoutThenMountSignedOut(h: HeaderState, current: Language, parse: Parser)
    ensures Mount(Logout(h, current).state, parse).user == None
  {
  }

  /** The paths of the given pages in one language, in the same order. */
  function PagePaths(l: Language, pages: seq<Page>): (links: seq<string>)
    ensures |links| == |pages|
    ensures forall k :: 0 <= k < |pages| ==> links[k] == PagePath(l, pages[k])
  {
    if pages == [] then [] else [PagePath(l, pages[0])] + PagePaths(l, pages[1..])
  }

  /** Every path in the list is under the language it was built for. */
  lemma PagePathsUnderLanguage(l: Language, pages: seq<Page>)
    ensures forall k :: 0 <= k < |pages| ==> PathLanguage(PagePaths(l, pages)[k]) == Some(l)
  {
    forall k | 0 <= k < |pages|
      ensures PathLanguage(PagePaths(l, pages)[k]) == Some(l)
    {
      PagePathParses(l, pages[k]);
    }
  }

  /** A page's path is in the list exactly when the page is among those it was built from. */
  lemma PagePathsMember(l: Language, pages: seq<Page>, page: Page)
    ensures PagePath(l, page) in PagePaths(l, pages) <==> page in pages
  {
    var links := PagePaths(l, pages);
    if PagePath(l, page) in links {
      var k :| 0 <= k < |links| && links[k] == PagePath(l, page);
      PagePathInjective(Route(l, pages[k]), Route(l, page));
    }
    if page in pages {
      var k :| 0 <= k < |pages| && pages[k] == page;
      assert links[k] == PagePath(l, page);
    }
  }

  /** The targets of the header's links: home and about, then login and register when nobody is signed in. */
  function NavLinks(current: Language, user: Option<User>): (links: seq<string>)
    ensures |links| == if user.None? then 4 else 2
    ensures forall k :: 0 <= k < |links| ==> PathLanguage(links[k]) == Some(current)
    ensures links[0] == PagePath(current, Home) && links[1] == PagePath(current, About)
    ensures user.None? ==> links[2] == PagePath(current, Login) && links[3] == PagePath(current, Register)
    ensures user.None? <==> PagePath(current, Login) in links
    ensures user.None? <==> PagePath(current, Register) in links
  {
    var pages := if user.None? then [Home, About, Login, Register] else [Home, About];
    PagePathsUnderLanguage(current, pages);
    PagePathsMember(current, pages, Login);
    PagePathsMember(current, pages, Register);
    PagePaths(current, pages)
  }

  /** The header renders nothing until mounted; afterwards the links, and a greeting when someone is signed in. */
  function Render(h: HeaderState, current: Language): (v: View)
    ensures v == Nothing <==> !h.mounted
    ensures v.Bar? ==> v.links == NavLinks(current, h.user)
    ensures v.Bar? ==> (v.greeting.Some? <==> h.user.Some?)
  {
    if !h.mounted then Nothing
    else Bar(NavLinks(current, h.user), if h.user.Some? then Some(h.user.value.name) else None)
  }
}
