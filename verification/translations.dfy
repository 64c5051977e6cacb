/**
 * The translation catalog: the supported languages, their URL/storage codes,
 * and the lookup from a language to its table of UI strings. The tables
 * themselves are static data and are kept opaque.
 */
module Translations {
  import opened Options

  /** The supported languages: the TypeScript type `Language = 'en' | 'ro'`. */
  datatype Language = En | Ro

  /** The contents of the English and Romanian translation files, left opaque. */
  datatype Table = EnglishTable | RomanianTable

  /** The string a language is written as in paths and in storage. */
  function Code(l: Language): (c: string)
    ensures |c| == 2 && '/' !in c && '?' !in c && '#' !in c
  {
    match l
    case En => "en"
    case Ro => "ro"
  }

  /** The language a string names, if it names a supported one. */
  function FromCode(c: string): (r: Option<Language>)
    ensures r.Some? ==> Code(r.value) == c
  {
    if c == "en" then Some(En)
    else if c == "ro" then Some(Ro)
    else None
  }

  /** The `translations` object: one entry per language. */
  const Catalog: map<Language, Table> := map[En := EnglishTable, Ro := RomanianTable]

  /** `getTranslations`: defined for every language, it returns that language's catalog entry. */
  function GetTranslations(l: Language): (t: Table)
    ensures l in Catalog && t == Catalog[l]
    ensures t == EnglishTable <==> l == En
    ensures t == RomanianTable <==> l == Ro
  {
    match l
    case En => Catalog[En]
    case Ro => Catalog[Ro]
  }

  /** `getAvailableLanguages`: every language, English first, each once. */
  function AvailableLanguages(): (langs: seq<Language>)
    ensures |langs| == 2 && langs[0] == En && langs[1] == Ro
    ensures forall i, j :: 0 <= i < j < |langs| ==> langs[i] != langs[j]
  {
    [En, Ro]
  }

  /** Every language is offered: the list misses none of the `Language` variants. */
  lemma AvailableIsComplete(l: Language)
    ensures l in AvailableLanguages()
  {
    match l
    case En => assert AvailableLanguages()[0] == l;
    case Ro => assert AvailableLanguages()[1] == l;
  }

  /** The catalog has an entry for exactly the available languages and for nothing else. */
  lemma CatalogCoversAvailable()
    ensures forall l: Language :: l in Catalog <==> l in AvailableLanguages()
    ensures |Catalog| == |AvailableLanguages()|
  {
    forall l: Language
      ensures l in Catalog <==> l in AvailableLanguages()
    {
      AvailableIsComplete(l);
    }
    assert Catalog.Keys == {En, Ro};
  }

  /** `code` is the code of a language in `AvailableLanguages()`. */
  predicate Supported(code: string) {
    exists k :: 0 <= k < |AvailableLanguages()| && Code(AvailableLanguages()[k]) == code
  }

  /** A string is among the available codes exactly when it decodes to a language. */
  lemma SupportedIffDecodes(code: string)
    ensures Supported(code) <==> FromCode(code).Some?
  {
    var langs := AvailableLanguages();
    if FromCode(code).Some? {
      var l := FromCode(code).value;
      var k := if l == En then 0 else 1;
      assert Code(langs[k]) == code;
    }
  }

  /** Decoding a code and encoding a decoded language are inverse. */
  lemma CodeRoundTrip(l: Language, c: string)
    ensures FromCode(Code(l)) == Some(l)
    ensures FromCode(c) == Some(l) <==> Code(l) == c
  {
  }
}
