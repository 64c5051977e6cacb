# Language routing and session state of the localized front-end

This project models, in Dafny, the logic that remains of the front-end's
header and root page once their React rendering is stripped away:

- **Translation catalog** (`translations.dfy`, module `Translations`): the
  two-variant `Language`, its code in paths and storage, the `translations`
  table (its contents kept opaque), `getTranslations` and
  `getAvailableLanguages`.
- **Browser storage** (`storage.dfy`, module `Storage`): `localStorage` as an
  immutable `map<string, string>`, with `getItem`/`setItem`/`removeItem` and the
  JavaScript truthiness used by `value || fallback`.
- **String operations** (`strings.dfy`, module `Strings`): `indexOf` and
  `String.prototype.replace` with a string pattern, which replaces only the
  first occurrence, and reading a path's first segment.
- **Routes** (`routes.dfy`, module `Routes`): the paths `/{lang}`,
  `/{lang}/about`, `/{lang}/login`, `/{lang}/register` that the header links to,
  and reading a navigation target back into its `[lang]` parameter, language
  and page: the path part ends at the first `?` or `#`, and a target
  starting with `//` names another host.
- **Header** (`header.dfy`, module `Header`): the mount effect that restores the
  signed-in user and removes an unreadable stored user, `switchLanguage`,
  `handleLogout`, the navigation link targets and what is rendered before and
  after mount. Each handler is a pure step from (storage, user) to
  (storage, user, target path); `router.push` is the returned target.
- **Root page** (`root_page.dfy`, module `RootPage`): the loading view before
  mount, and the redirect to `/` plus the stored language, or `/en` when none is
  stored.

`JSON.parse` is a parameter of the header's mount step
(`parse: string -> Option<User>`, `None` where it would throw), so every
property about mounting holds for any parser.

The root page does not check the stored language against the supported
languages: it redirects to whatever non-empty string is stored under
`language`. `RootPage.UnsupportedStoredLanguageFollowed` exhibits a stored `fr`
being followed to `/fr`, whose first segment names no supported language, and
`RootPage.StoredPathFollowedIntoLanguage` a stored `en/x`, not a supported
code, being followed to `/en/x`, whose first segment is `en` although it is
none of the site's pages; `en?x` lands on the English home page, `?x` leads
back to the root page, and `/evil.com` becomes `//evil.com`, another host.

## Model

| member | source | states |
|---|---|---|
| Translations.Code | frontend/src/lib/translations.ts:4 | each language's code is a two-letter string with no '/', so it fills exactly one path segment |
| Translations.CodeRoundTrip | frontend/src/lib/translations.ts:4 | decoding a language's code gives that language, and a string decodes to a language exactly when it is that language's code |
| Translations.GetTranslations | frontend/src/lib/translations.ts:11-13 | the lookup is defined for every language, returns that language's entry of the table, English for `en` and Romanian for `ro` |
| Translations.CatalogCoversAvailable | frontend/src/lib/translations.ts:6-9 | the table has an entry for exactly the available languages and no other, as many entries as languages |
| Translations.AvailableLanguages | frontend/src/lib/translations.ts:15-17 | the list is `en` then `ro`, two entries, without duplicates |
| Translations.AvailableIsComplete | frontend/src/lib/translations.ts:4-17 | every `Language` variant appears in the available list |
| Translations.SupportedIffDecodes | frontend/src/lib/translations.ts:15-17 | a string is among the available codes exactly when it decodes to a language |
| Storage.GetItem | frontend/src/components/Header.tsx:24 | reading a key yields its value when the key is present and nothing otherwise |
| Storage.SetItem | frontend/src/components/Header.tsx:37 | after writing, the key reads back the written value and every other key reads as before |
| Storage.RemoveItem | frontend/src/components/Header.tsx:30 | after removal the key reads nothing, every other key reads as before, and removing an absent key changes nothing |
| Storage.WritesDetermined | frontend/src/components/Header.tsx:30-37 | a store in which only `key` changed, to a value or to absent, is exactly the result of `setItem` or `removeItem` on that key |
| Storage.OrElse | frontend/src/app/page.tsx:13 | `v || fallback` yields the stored string when it is present and non-empty, and the fallback when it is absent or empty |
| Strings.IndexFrom | frontend/src/components/Header.tsx:40 | the search returns an occurrence at or after the start with none between the start and it, and returns nothing only when no occurrence exists from the start on |
| Strings.IndexOf | frontend/src/components/Header.tsx:40 | the search finds nothing exactly when the pattern does not occur, and otherwise finds its leftmost occurrence |
| Strings.ReplaceFirst | frontend/src/components/Header.tsx:40 | a string without the pattern is unchanged; otherwise only the leftmost occurrence is replaced and the text before and after it is kept |
| Strings.ReplaceAtPrefix | frontend/src/components/Header.tsx:40 | a string starting with the pattern becomes the replacement followed by the unchanged remainder |
| Strings.ReplaceBySelf | frontend/src/components/Header.tsx:40 | replacing a pattern by itself leaves every string unchanged |
| Strings.ReplaceBackAtPrefix | frontend/src/components/Header.tsx:40 | on a string starting with `a`, replacing `a` by `b` and then `b` by `a` gives back the original string |
| Strings.SegmentOfHead | frontend/src/components/Header.tsx:65-152 | a '/'-free head followed by nothing or by '/' is read back as exactly that segment |
| Strings.PathPart | frontend/src/app/page.tsx:14 | a navigation target's path part is its longest prefix free of '?' and '#', ending where a query or fragment begins |
| Routes.LanguageSegment | frontend/src/app/page.tsx:14 | a target yields a `[lang]` parameter exactly when it starts with '/' followed by a character other than '/', '?' or '#' (so neither `//` another host nor a path of just `/`, the root page); the parameter is the non-empty '/'-, '?'- and '#'-free text after that '/', ending at a '/', '?' or '#' or at the end |
| Routes.PathLanguage | frontend/src/app/page.tsx:14 | a target names a language only when its `[lang]` parameter is that language's code |
| Routes.ParsePath | frontend/src/components/Header.tsx:65-152 | a target read as a page in a language has that language as its `[lang]` parameter |
| Routes.PagePath | frontend/src/components/Header.tsx:65-152 | every link target starts with `/` and the language code; the home target is exactly that, the others are longer |
| Routes.PagePathSegment | frontend/src/components/Header.tsx:65-152 | the first segment of a link target is the language code |
| Routes.PagePathParses | frontend/src/components/Header.tsx:65-152 | every link target reads back as the same language and page |
| Routes.ParsedPathRebuilds | frontend/src/components/Header.tsx:65-152 | the path part of every target that reads as a language and page is that page's link target, and a target with no query or fragment is the link target itself: the reverse direction of the round trip |
| Routes.PagePathInjective | frontend/src/components/Header.tsx:65-152 | different language and page pairs have different link targets |
| Header.Initial | frontend/src/components/Header.tsx:16-17 | on first render the header is not mounted and shows no user |
| Header.Mount | frontend/src/components/Header.tsx:20-33 | an absent or empty stored user is not parsed or removed; one that parses becomes the user and storage is unchanged; one that does not parse is removed alone and the user is unchanged |
| Header.MountRecovers | frontend/src/components/Header.tsx:24-32 | after the first mount any stored user the header would read is parseable, a user is shown exactly when a non-empty stored value parsed, and the language key is untouched |
| Header.MountIdempotent | frontend/src/components/Header.tsx:24-32 | running the mount effect a second time changes nothing further |
| Header.SwitchLanguage | frontend/src/components/Header.tsx:35-42 | the language key now holds the new code, no other key changes (the user key included), the user is kept, and the target is the path with only the first `/current` replaced by `/next`, or the path itself if it has none |
| Header.SwitchKeepsRemainder | frontend/src/components/Header.tsx:40 | on a path starting with `/current` the target is `/next` followed by the unchanged rest of the path |
| Header.SwitchToCurrentKeepsPath | frontend/src/components/Header.tsx:40 | switching to the language already shown reopens the same path |
| Header.SwitchAndBack | frontend/src/components/Header.tsx:40 | on a path starting with `/current`, switching to another language and back returns to the starting path |
| Header.SwitchLandsOnSamePage | frontend/src/components/Header.tsx:40 | switching from any of the site's pages opens the same page in the new language |
| Header.Logout | frontend/src/components/Header.tsx:44-48 | the user key is removed, no other key changes (the language included), no user is shown, and the target is `/` plus the current language's code, which reads back as that language's home page |
| Header.LogoutThenMountSignedOut | frontend/src/components/Header.tsx:44-48 | after logging out a later mount shows no user, whatever the parser |
| Header.PagePathsUnderLanguage | frontend/src/components/Header.tsx:65-152 | every link built for a language is under that language |
| Header.PagePathsMember | frontend/src/components/Header.tsx:65-152 | a page's link is among the built links exactly when the page is among those they were built from |
| Header.NavLinks | frontend/src/components/Header.tsx:63-163 | the header links, in this order, to home and about, then to login and register exactly when nobody is signed in; every link is under the current language |
| Header.Render | frontend/src/components/Header.tsx:50-163 | nothing is rendered before mount; after mount the links are shown, with a greeting exactly when a user is signed in |
| RootPage.Initial | frontend/src/app/page.tsx:8 | on first render the page is initializing and has issued no redirect |
| RootPage.Render | frontend/src/app/page.tsx:17-31 | the loading view is shown exactly while the page is not mounted |
| RootPage.Mount | frontend/src/app/page.tsx:10-15 | the page becomes ready and redirects to `/` plus the stored language when that is present and non-empty, and to the English home page otherwise; storage is only read |
| RootPage.LoadingBeforeMount | frontend/src/app/page.tsx:17-31 | before mount the page shows the loading view and has issued no redirect; after mount it shows nothing, whatever is stored |
| RootPage.RedirectToSavedLanguage | frontend/src/app/page.tsx:13-14 | a stored supported code sends the visitor to that language's home page |
| RootPage.RedirectToDefault | frontend/src/app/page.tsx:13 | an absent or empty stored language sends the visitor to `/en`, the English home page |
| RootPage.RedirectSegmentIsStoredValue | frontend/src/app/page.tsx:13-14 | for every store the redirect is `/` plus the saved value (stored string, or `en` when absent or empty); a saved value starting with '/' yields no `[lang]` parameter (another host), one starting with '?' or '#' yields none either, its path being `/`, the root page; otherwise the parameter is the saved value up to its first '/', '?' or '#' (all of it when it has none), and the redirect names a supported language exactly when that parameter is a supported code |
| RootPage.StoredQueryIgnored | frontend/src/app/page.tsx:13-14 | a stored `en?x` is followed to `/en?x`, whose `[lang]` parameter is `en`, so it lands on English |
| RootPage.StoredSlashLeavesSite | frontend/src/app/page.tsx:13-14 | a stored `/evil.com` is followed to `//evil.com`, a reference to another host that yields no `[lang]` parameter |
| RootPage.StoredPathFollowedIntoLanguage | frontend/src/app/page.tsx:13-14 | a stored `en/x`, not a supported code, is followed verbatim to `/en/x`, whose first segment is `en` although it is none of the site's pages |
| RootPage.UnsupportedStoredLanguageFollowed | frontend/src/app/page.tsx:13-14 | a stored `fr` is followed verbatim to `/fr`, a path whose first segment names no supported language |
| RootPage.RedirectFollowsSwitch | frontend/src/components/Header.tsx:37 | after the header switches language, the root page sends the visitor to the chosen language's home page |
| RootPage.RedirectSurvivesLogout | frontend/src/components/Header.tsx:45 | logging out keeps the language preference, so the root page redirects to the same place before and after |

## Left out

- React rendering, hooks, inline styles and markup: only what is rendered (nothing, the loading view, or which links and greeting) is modelled.
- Next.js navigation (`useRouter`, `usePathname`, `redirect`, `Link`): each is a returned target path or a parameter; the navigation itself is not modelled.
- `console.error` logging on a parse failure: it has no effect on state.
- The contents of the English and Romanian translation files: they are static data, kept as two opaque table values.
- `$` substitution patterns of `String.prototype.replace`: the replacement is always `/en` or `/ro`, which contains none.
- Storage.SetItem: `getItem`, `setItem` and `removeItem` are assumed never to throw. In a browser they can (storage full or blocked): a throwing `setItem` in `switchLanguage` would skip the navigation, a throwing `getItem` in the header's mount effect (outside its `try`) would abort the effect after `mounted` is set, leaving no user shown, a throwing `removeItem` in `handleLogout` would skip clearing the user and the navigation, and a throwing `getItem` on the root page would skip its redirect. `Header.SwitchLanguage`, `Header.Mount`, `Header.Logout` and `RootPage.Mount` always complete.
- Header.Mount: `JSON.parse` is a parameter returning a user or failure; a stored value that parses without throwing to a falsy JSON value such as `null` (which the header keeps in storage while showing no user) has no outcome of its own in the model.
- The header's translated labels (`getTranslations(currentLanguage)` used for link text): they only feed rendering.
- frontend/src/app/layout.tsx: static metadata and markup only.
- Routes.LanguageSegment: of URL resolution only the query, the fragment and a leading `//` are interpreted; percent-encoding, a backslash read as '/', dot segments such as `/../en` and other normalization a browser applies are not, so for stored values containing them the model's reading of the `[lang]` parameter may differ from the browser's.
- The `[lang]` layout's validate-and-redirect effect, the `[lang]` pages, the login and register forms, their validators and the authentication client are not part of this model.
