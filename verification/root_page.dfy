/**
 * The site root `/`: it shows a loading view until mounted, and on mount
 * redirects to `/` followed by the stored language preference, or to `/en`
 * when there is none. The stored value is used as it is, without checking
 * that it names a supported language.
 */
module RootPage {
  import opened Options
  import opened Storage
  import opened Translations
  import opened Routes
  import opened Strings
  import Header

  /** The page's readiness: before and after its mount effect has run. */
  datatype Phase = Initializing | Ready

  /** The page's state: its phase and the redirect it has issued, if any. */
  datatype PageState = PageState(phase: Phase, redirect: Option<string>)

  datatype View = Loading | Blank

  /** The state on first render: not mounted, no redirect issued. */
  function Initial(): (p: PageState)
    ensures p.phase == Initializing && p.redirect == None
  {
    PageState(Initializing, None)
  }

  /** The loading view is shown exactly while the page is not yet mounted. */
  function Render(p: PageState): (v: View)
    ensures v == Loading <==> p.phase == Initializing
  {
    match p.phase
    case Initializing => Loading
    case Ready => Blank
  }

  /** The language the root redirect falls back to. */
  const DefaultLanguage: Language := En

  /** The mount effect: it only reads storage, and redirects to the saved language or to the default one. */
  function Mount(store: Store): (p: PageState)
    ensures p.phase == Ready
    ensures Truthy(GetItem(store, LanguageKey)) ==> p.redirect == Some("/" + store[LanguageKey])
    ensures !Truthy(GetItem(store, LanguageKey)) ==> p.redirect == Some(HomePath(DefaultLanguage))
  {
    var savedLanguage := OrElse(GetItem(store, LanguageKey), Code(DefaultLanguage));
    PageState(Ready, Some("/" + savedLanguage))
  }

  /** Before mounting, the page shows the loading view and has not redirected; once mounted, whatever is stored, it shows nothing. */
  lemma LoadingBeforeMount(store: Store)
    ensures Render(Initial()) == Loading && Initial().redirect == None
    ensures Render(Mount(store)) == Blank
  {
  }

  /** A stored supported code sends the root to that language's home page. */
  lemma RedirectToSavedLanguage(store: Store, l: Language)
    requires GetItem(store, LanguageKey) == Some(Code(l))
    ensures Mount(store).redirect == Some(PagePath(l, Home))
  {
  }

  /** With no stored preference, or an empty one, the root goes to the English home page. */
  lemma RedirectToDefault(store: Store)
    requires !Truthy(GetItem(store, LanguageKey))
    ensures Mount(store).redirect == Some(PagePath(En, Home))
    ensures ParsePath(Mount(store).redirect.value) == Some(Route(En, Home))
  {
    PagePathParses(En, Home);
  }

  /**
   * Whatever is stored, the redirect is `/` followed by the saved value (the
   * stored string, or `en` when it is absent or empty). A saved value
   * starting with '/' makes it a `//` reference to another host, and one
   * starting with '?' or '#' leaves the path at `/`, the root page itself;
   * neither yields a `[lang]` parameter. Otherwise the parameter is the saved
   * value up to its first '/', '?' or '#', the whole saved value when it has
   * none of them, and the redirect names a supported language exactly when
   * that parameter is a supported code.
   */
  lemma {:induction false} RedirectSegmentIsStoredValue(store: Store)
    ensures
      var saved := OrElse(GetItem(store, LanguageKey), Code(DefaultLanguage));
      var target := Mount(store).redirect.value;
      && target == "/" + saved
      && (saved[0] in {'/', '?', '#'} ==> LanguageSegment(target) == None)
      && (saved[0] in {'?', '#'} ==> PathPart(target) == "/")
      && (saved[0] !in {'/', '?', '#'} ==> LanguageSegment(target) == Some(Segment(PathPart(saved))))
      && ('/' !in saved && '?' !in saved && '#' !in saved ==> LanguageSegment(target) == Some(saved))
      && (PathLanguage(target).Some? <==> LanguageSegment(target).Some? && Supported(LanguageSegment(target).value))
  {
    var saved := OrElse(GetItem(store, LanguageKey), Code(DefaultLanguage));
    var target := Mount(store).redirect.value;
    PathPartAfterSlash(saved);
    var p := PathPart(target);
    assert p[1..] == PathPart(saved);
    if saved[0] in {'?', '#'} {
      assert PathPart(saved) == [];
      assert p == "/" + [];
    }
    if '/' !in saved && '?' !in saved && '#' !in saved {
      PathPartOfPlain(saved);
      assert saved + [] == saved;
      SegmentOfHead(saved, []);
    }
    if LanguageSegment(target).Some? {
      SupportedIffDecodes(LanguageSegment(target).value);
    }
  }

  /**
   * A stored value that is not a supported code is followed all the same:
   * `en/x` leads to `/en/x`, whose first segment is `en`, although it is
   * none of the site's pages.
   */
  lemma StoredPathFollowedIntoLanguage()
    ensures
      var store := map[LanguageKey := "en/x"];
      && !Supported("en/x")
      && Mount(store).redirect == Some("/en/x")
      && PathLanguage("/en/x") == Some(En)
      && ParsePath("/en/x") == None
  {
    var store := map[LanguageKey := "en/x"];
    assert GetItem(store, LanguageKey) == Some("en/x");
    assert "/" + "en/x" == "/en/x";
    assert "/en/x"[1..] == "en" + "/x";
    SegmentOfHead("en", "/x");
    SupportedIffDecodes("en/x");
    PathPartOfPlain("/en/x");
    assert "/en/x"[3..] == "/x";
  }

  /** The redirect is not validated: a stored unsupported code is followed verbatim to a path with no supported language. */
  lemma UnsupportedStoredLanguageFollowed()
    ensures
      var store := map[LanguageKey := "fr"];
      Mount(store).redirect == Some("/fr") && LanguageSegment("/fr") == Some("fr") && PathLanguage("/fr") == None
  {
    var store := map[LanguageKey := "fr"];
    assert GetItem(store, LanguageKey) == Some("fr");
    assert Mount(store).redirect == Some("/" + "fr");
    assert "/" + "fr" == "/fr";
    assert "/fr"[1..] == "fr" + [];
    SegmentOfHead("fr", []);
  }

  /** A query in the stored value is not part of the `[lang]` parameter: a stored `en?x` still lands on English. */
  lemma StoredQueryIgnored()
    ensures Mount(map[LanguageKey := "en?x"]).redirect == Some("/en?x")
    ensures PathLanguage("/en?x") == Some(En)
  {
    var store := map[LanguageKey := "en?x"];
    assert GetItem(store, LanguageKey) == Some("en?x");
    assert "/" + "en?x" == "/en?x";
    assert PathPart("/en?x") == "/en" by {
      assert "/en?x"[3] == '?';
      assert "/en?x"[..3] == "/en";
    }
    assert "/en"[1..] == "en" + [];
    SegmentOfHead("en", []);
  }

  /** A stored value starting with '/' turns the redirect into `//evil.com`, a reference to another host with no language. */
  lemma StoredSlashLeavesSite()
    ensures Mount(map[LanguageKey := "/evil.com"]).redirect == Some("//evil.com")
    ensures LanguageSegment("//evil.com") == None
  {
    var store := map[LanguageKey := "/evil.com"];
    assert GetItem(store, LanguageKey) == Some("/evil.com");
    assert "/" + "/evil.com" == "//evil.com";
  }

  /** After the header's language switch, the root sends the visitor to the chosen language. */
  lemma RedirectFollowsSwitch(h: Header.HeaderState, current: Language, next: Language, pathname: string)
    ensures Mount(Header.SwitchLanguage(h, current, next, pathname).state.store).redirect == Some(PagePath(next, Home))
  {
  }

  /** Logging out leaves the language preference, so the root redirect is the same before and after. */
  lemma RedirectSurvivesLogout(h: Header.HeaderState, current: Language)
    ensures Mount(Header.Logout(h, current).state.store) == Mount(h.store)
  {
  }
}
