/** The locales the application supports, listed alike in several files, and the default one. */
module Locales {
  import opened Strings

  const Supported: seq<string> := ["en-US", "es-AR", "pt-BR"]
  const Default: string := "es-AR"

  /** `locale.split('-')[0]`: the language part of a locale tag. */
  function Language(locale: string): (r: string)
    ensures StartsWith(locale, r) && '-' !in r
    ensures |r| < |locale| ==> locale[|r|] == '-'
  {
    if locale == [] || locale[0] == '-' then [] else [locale[0]] + Language(locale[1..])
  }

  lemma {:induction false} LanguageIsFirstPart(locale: string)
    ensures Language(locale) == Split(locale, '-')[0]
  {
    if locale != [] && locale[0] != '-' {
      LanguageIsFirstPart(locale[1..]);
    }
  }

  lemma SupportedLanguages()
    ensures Language("en-US") == "en" && Language("es-AR") == "es" && Language("pt-BR") == "pt"
  {
    assert Language("US") == "US";
  }
}
