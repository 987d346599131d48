/**
 * The request middleware: static files and API routes pass, paths that carry
 * a supported locale pass, and every other path is redirected under the
 * locale the Accept-Language header asks for (es-AR when it asks for none).
 */
module Middleware {
  import opened Wrappers
  import opened Strings
  import opened Locales

  /** A header asks for a locale when it mentions the locale tag or its language. */
  predicate Mentions(header: string, locale: string) {
    Contains(header, locale) || Contains(header, Language(locale))
  }

  /** `locales.find`: the first locale of the list the header mentions. */
  function FirstMentioned(header: string, ls: seq<string>): (r: Option<string>)
    ensures r.None? <==> forall i :: 0 <= i < |ls| ==> !Mentions(header, ls[i])
    ensures r.Some? ==> exists i :: 0 <= i < |ls| && ls[i] == r.value && Mentions(header, ls[i])
                                    && forall j :: 0 <= j < i ==> !Mentions(header, ls[j])
  {
    if ls == [] then None
    else if Mentions(header, ls[0]) then Some(ls[0])
    else
      var r := FirstMentioned(header, ls[1..]);
      assert forall i :: 1 <= i < |ls| ==> ls[i] == ls[1..][i - 1];
      r
  }

  /** `getLocale`: the first supported locale the Accept-Language header mentions, else the default. */
  function GetLocale(acceptLanguage: Option<string>): (r: string)
    ensures r in Supported
    ensures acceptLanguage.None? ==> r == Default
    ensures acceptLanguage.Some? && (forall i :: 0 <= i < |Supported| ==> !Mentions(acceptLanguage.value, Supported[i]))
            ==> r == Default
    ensures acceptLanguage.Some? && r != Default ==> Mentions(acceptLanguage.value, r)
    ensures acceptLanguage.Some? ==>
              forall i :: 0 <= i < |Supported| && Mentions(acceptLanguage.value, Supported[i]) ==>
                exists j :: 0 <= j <= i && Supported[j] == r && Mentions(acceptLanguage.value, r)
  {
    if acceptLanguage.Some? && acceptLanguage.value != "" then
      match FirstMentioned(acceptLanguage.value, Supported)
      case Some(locale) => locale
      case None => Default
    else
      EmptyHeaderMentionsNothing();
      Default
  }

  lemma EmptyHeaderMentionsNothing()
    ensures forall i :: 0 <= i < |Supported| ==> !Mentions("", Supported[i])
  {
    SupportedLanguages();
    assert !Contains("", "en") && !Contains("", "es") && !Contains("", "pt");
  }

  /** Static files, Next.js internals, API routes and the favicon are not localised. */
  predicate IsSkipped(path: string) {
    StartsWith(path, "/_next/") || StartsWith(path, "/api/") || Contains(path, ".") || StartsWith(path, "/favicon")
  }

  /** The path is `/L` or lies under `/L/` for a supported locale L. */
  predicate HasLocale(path: string) {
    exists locale :: locale in Supported && (StartsWith(path, "/" + locale + "/") || path == "/" + locale)
  }

  datatype Response = Pass | Redirect(location: string)

  /** `middleware` on the request's path and its Accept-Language header. */
  function Middleware(path: string, acceptLanguage: Option<string>): (r: Response)
    ensures IsSkipped(path) || HasLocale(path) ==> r == Pass
    ensures !IsSkipped(path) && !HasLocale(path) ==>
              r == Redirect("/" + GetLocale(acceptLanguage) + (if path == "/" then "" else path))
  {
    if IsSkipped(path) then
      Pass
    else if HasLocale(path) then
      Pass
    else
      var locale := GetLocale(acceptLanguage);
      Redirect("/" + locale + (if path == "/" then "" else path))
  }

  /**
   * The place a request is redirected to carries a supported locale, so the
   * middleware lets it pass whatever header comes with it.
   */
  lemma RedirectPasses(path: string, acceptLanguage: Option<string>, nextHeader: Option<string>)
    requires path == "" || path[0] == '/'
    requires Middleware(path, acceptLanguage).Redirect?
    ensures HasLocale(Middleware(path, acceptLanguage).location)
    ensures Middleware(Middleware(path, acceptLanguage).location, nextHeader) == Pass
  {
    UnderLocaleHasLocale(GetLocale(acceptLanguage), path);
  }

  /** A path put under a supported locale carries that locale. */
  lemma UnderLocaleHasLocale(locale: string, path: string)
    requires locale in Supported
    requires path == "" || path[0] == '/'
    ensures HasLocale("/" + locale + (if path == "/" then "" else path))
  {
    var location := "/" + locale + (if path == "/" then "" else path);
    if path == "/" || path == "" {
      assert location == "/" + locale;
    } else {
      assert location[..|"/" + locale + "/"|] == "/" + locale + "/";
      assert StartsWith(location, "/" + locale + "/");
    }
  }

  /** A header that lists Portuguese first still gets en-US: list order wins over header order. */
  lemma ListOrderWins()
    ensures GetLocale(Some("pt-BR,en;q=0.8")) == "en-US"
  {
    var h := "pt-BR,en;q=0.8";
    SupportedLanguages();
    assert StartsWith(h[6..], "en");
    assert Mentions(h, "en-US");
  }
}
