/**
 * The routing surface: paths of the form `/{language}{suffix}` where the
 * suffix selects the home, about, login or register page, and the reading
 * of the `[lang]` route parameter back out of a path.
 */
module Routes {
  import opened Options
  import opened Translations
  import opened Strings

  datatype Page = Home | About | Login | Register

  /** A page in a language: what a path under `/[lang]` designates. */
  datatype Route = Route(lang: Language, page: Page)

  /** What follows the language code in the page's path. */
  function Suffix(page: Page): (s: string)
    ensures s == [] <==> page == Home
    ensures s != [] ==> s[0] == '/'
    ensures '?' !in s && '#' !in s
  {
    match page
    case Home => ""
    case About => "/about"
    case Login => "/login"
    case Register => "/register"
  }

  /** The page whose suffix `rest` is, if any. */
  function PageOfSuffix(rest: string): (r: Option<Page>)
    ensures r.Some? ==> Suffix(r.value) == rest
  {
    if rest == "" then Some(Home)
    else if rest == "/about" then Some(About)
    else if rest == "/login" then Some(Login)
    else if rest == "/register" then Some(Register)
    else None
  }

  /**
   * The `[lang]` route parameter a navigation target yields: the first
   * segment of its path part, for a target that starts with a single '/'.
   * A target starting with `//` names another host and yields nothing; one
   * whose path part is just `/` is the root page, which has no `[lang]`
   * parameter, since a dynamic segment never matches the empty string.
   */
  function LanguageSegment(url: string): (seg: Option<string>)
    ensures seg.Some? <==> |url| > 1 && url[0] == '/' && url[1] !in {'/', '?', '#'}
    ensures seg.Some? ==> seg.value != []
    ensures seg.Some? ==> '/' !in seg.value && '?' !in seg.value && '#' !in seg.value
    ensures seg.Some? ==> 1 + |seg.value| <= |url| && url[1..1 + |seg.value|] == seg.value
    ensures seg.Some? && 1 + |seg.value| < |url| ==> url[1 + |seg.value|] in {'/', '?', '#'}
    ensures seg.Some? ==> PathPart(url)[0] == '/' && 1 + |seg.value| <= |PathPart(url)|
    ensures seg.Some? ==> PathPart(url)[1..1 + |seg.value|] == seg.value
  {
    var p := PathPart(url);
    if |p| > 1 && p[0] == '/' && p[1] != '/' then
      var seg := Segment(p[1..]);
      assert p[1..][..|seg|] == seg;
      assert forall i :: 0 <= i < |seg| ==> seg[i] == p[1 + i];
      Some(seg)
    else
      None
  }

  /** The supported language a path's first segment names, if it names one. */
  function PathLanguage(path: string): (l: Option<Language>)
    ensures l.Some? ==> LanguageSegment(path) == Some(Code(l.value))
  {
    match LanguageSegment(path)
    case None => None
    case Some(seg) => FromCode(seg)
  }

  /** The route a navigation target designates, if its path part is one of the site's pages. */
  function ParsePath(path: string): (r: Option<Route>)
    ensures r.Some? ==> PathLanguage(path) == Some(r.value.lang)
  {
    match LanguageSegment(path)
    case None => None
    case Some(seg) =>
      var p := PathPart(path);
      match (FromCode(seg), PageOfSuffix(p[1 + |seg|..]))
      case (Some(l), Some(page)) => Some(Route(l, page))
      case _ => None
  }

  /** The language's home path, `/${lang}`. */
  function HomePath(l: Language): string {
    "/" + Code(l)
  }

  /** The path of a page in a language, `/${lang}` followed by the page's suffix. */
  function PagePath(l: Language, page: Page): (path: string)
    ensures |path| >= |HomePath(l)| && path[..|HomePath(l)|] == HomePath(l)
    ensures |path| == |HomePath(l)| <==> page == Home
    ensures '?' !in path && '#' !in path
    ensures page == Home ==> path == HomePath(l)
  {
    assert HomePath(l) + [] == HomePath(l);
    HomePath(l) + Suffix(page)
  }

  /** Each page is read back from its own suffix. */
  lemma SuffixRoundTrip(page: Page)
    ensures PageOfSuffix(Suffix(page)) == Some(page)
  {
  }

  /** The first segment of a page's path is its language code. */
  lemma {:induction false} PagePathSegment(l: Language, page: Page)
    ensures LanguageSegment(PagePath(l, page)) == Some(Code(l))
  {
    var path := PagePath(l, page);
    PathPartOfPlain(path);
    assert path[1..] == Code(l) + Suffix(page);
    SegmentOfHead(Code(l), Suffix(page));
  }

  /** A page's path parses back to that very page and language. */
  lemma {:induction false} PagePathParses(l: Language, page: Page)
    ensures ParsePath(PagePath(l, page)) == Some(Route(l, page))
    ensures PathLanguage(PagePath(l, page)) == Some(l)
  {
    var path := PagePath(l, page);
    PagePathSegment(l, page);
    PathPartOfPlain(path);
    assert path[1 + |Code(l)|..] == Suffix(page);
    SuffixRoundTrip(page);
    CodeRoundTrip(l, Code(l));
  }

  /** A target that parses has a path part made of '/', its language's code and its page's suffix. */
  lemma ParsedPathParts(path: string)
    requires ParsePath(path).Some?
    ensures PathPart(path) == "/" + Code(ParsePath(path).value.lang) + Suffix(ParsePath(path).value.page)
  {
    var r := ParsePath(path).value;
    var seg := LanguageSegment(path).value;
    var p := PathPart(path);
    var rest := p[1 + |seg|..];
    assert Code(r.lang) == seg;
    assert Suffix(r.page) == rest;
    assert p == [p[0]] + p[1..1 + |seg|] + rest;
  }

  /** Every path that parses is the path of the route it parses to. */
  lemma ParsedPathRebuilds(path: string)
    requires ParsePath(path).Some?
    ensures PagePath(ParsePath(path).value.lang, ParsePath(path).value.page) == PathPart(path)
    ensures '?' !in path && '#' !in path ==> PagePath(ParsePath(path).value.lang, ParsePath(path).value.page) == path
  {
    ParsedPathParts(path);
    if '?' !in path && '#' !in path {
      PathPartOfPlain(path);
    }
  }

  /** Distinct routes have distinct paths. */
  lemma PagePathInjective(a: Route, b: Route)
    requires PagePath(a.lang, a.page) == PagePath(b.lang, b.page)
    ensures a == b
  {
    PagePathParses(a.lang, a.page);
    PagePathParses(b.lang, b.page);
  }
}
