/**
 * `LangButtons`: one link per supported locale other than the current one,
 * each pointing at the same page under the other locale.
 */
module LangButtons {
  import opened Wrappers
  import opened Strings
  import opened Locales
  import opened Middleware

  /**
   * The page path with the current locale taken out: the first `/locale` in
   * the path is removed, and an empty result (or no path at all) is the root.
   */
  function BasePath(pathname: Option<string>, currentLocale: string): (r: string)
    ensures r != ""
    ensures pathname.None? || pathname.value == "" ==> r == "/"
  {
    if pathname.None? || pathname.value == "" then
      "/"
    else
      var stripped := ReplaceFirst(pathname.value, "/" + currentLocale, "");
      if stripped == "" then "/" else stripped
  }

  /** A path that begins with the current locale loses exactly that prefix. */
  lemma BasePathOfLocalePath(currentLocale: string, rest: string)
    ensures BasePath(Some("/" + currentLocale + rest), currentLocale) == if rest == "" then "/" else rest
  {
    var path := "/" + currentLocale + rest;
    assert StartsWith(path, "/" + currentLocale);
    assert IndexOf(path, "/" + currentLocale) == 0;
    assert path[|"/" + currentLocale|..] == rest;
  }

  /** A path that does not contain `/locale` is its own base path. */
  lemma BasePathWithoutLocale(pathname: string, currentLocale: string)
    requires pathname != "" && !Contains(pathname, "/" + currentLocale)
    ensures BasePath(Some(pathname), currentLocale) == pathname
  {
  }

  /**
   * Only the first `/locale` of the path is taken out, wherever it stands:
   * `/a/en-US/b` gives `/a/b`.
   */
  lemma BasePathFirstOccurrence(pathname: string, currentLocale: string, i: nat)
    requires i <= |pathname| && StartsWith(pathname[i..], "/" + currentLocale)
    requires forall j :: 0 <= j < i ==> !StartsWith(pathname[j..], "/" + currentLocale)
    ensures var rest := pathname[..i] + pathname[i + |"/" + currentLocale|..];
      BasePath(Some(pathname), currentLocale) == if rest == "" then "/" else rest
  {
    var r := IndexOf(pathname, "/" + currentLocale);
    assert r == i;
  }

  /** A language link: the locale, its address and its button text. */
  datatype Link = Link(locale: string, href: string, text: string)

  /** The links for the locales `ls`, skipping the current one, in the order of `ls`. */
  function LinksFrom(ls: seq<string>, currentLocale: string, basePath: string): (links: seq<Link>)
    ensures |links| <= |ls|
    ensures forall j :: 0 <= j < |links| ==>
              links[j].locale in ls && links[j].locale != currentLocale
              && links[j].href == "/" + links[j].locale + basePath
              && links[j].text == Language(links[j].locale)
    ensures forall i :: 0 <= i < |ls| && ls[i] != currentLocale ==>
              exists j :: 0 <= j < |links| && links[j].locale == ls[i]
  {
    if ls == [] then
      []
    else
      var rest := LinksFrom(ls[1..], currentLocale, basePath);
      var head := if ls[0] == currentLocale then [] else [Link(ls[0], "/" + ls[0] + basePath, Language(ls[0]))];
      LinksConsStep(ls, currentLocale, basePath, head, rest);
      head + rest
  }

  /** The step of `LinksFrom`: its contract for `ls[1..]` gives it for `ls`. */
  lemma LinksConsStep(ls: seq<string>, currentLocale: string, basePath: string, head: seq<Link>, rest: seq<Link>)
    requires ls != []
    requires head == if ls[0] == currentLocale then [] else [Link(ls[0], "/" + ls[0] + basePath, Language(ls[0]))]
    requires |rest| <= |ls[1..]|
    requires forall j :: 0 <= j < |rest| ==>
               rest[j].locale in ls[1..] && rest[j].locale != currentLocale
               && rest[j].href == "/" + rest[j].locale + basePath
               && rest[j].text == Language(rest[j].locale)
    requires forall i :: 0 <= i < |ls[1..]| && ls[1..][i] != currentLocale ==>
               exists j :: 0 <= j < |rest| && rest[j].locale == ls[1..][i]
    ensures |head + rest| <= |ls|
    ensures forall j :: 0 <= j < |head + rest| ==>
              (head + rest)[j].locale in ls && (head + rest)[j].locale != currentLocale
              && (head + rest)[j].href == "/" + (head + rest)[j].locale + basePath
              && (head + rest)[j].text == Language((head + rest)[j].locale)
    ensures forall i :: 0 <= i < |ls| && ls[i] != currentLocale ==>
              exists j :: 0 <= j < |head + rest| && (head + rest)[j].locale == ls[i]
  {
    var links := head + rest;
    var h := |head|;
    forall j | 0 <= j < |links|
      ensures links[j].locale in ls && links[j].locale != currentLocale
              && links[j].href == "/" + links[j].locale + basePath
              && links[j].text == Language(links[j].locale)
    {
      if j < h {
        LanguageIsFirstPart(ls[0]);
        assert links[j] == head[0] && ls[0] in ls;
      } else {
        assert links[j] == rest[j - h];
        var p :| 0 <= p < |ls[1..]| && ls[1..][p] == rest[j - h].locale;
        assert ls[p + 1] == links[j].locale;
      }
    }
    forall i | 0 <= i < |ls| && ls[i] != currentLocale
      ensures exists j :: 0 <= j < |links| && links[j].locale == ls[i]
    {
      if i == 0 {
        assert links[0].locale == ls[0];
      } else {
        assert ls[1..][i - 1] == ls[i];
        var j :| 0 <= j < |rest| && rest[j].locale == ls[1..][i - 1];
        assert links[j + h] == rest[j];
      }
    }
  }

  /** Each pair of links appears in the locale list in the same order. */
  predicate InListOrder(links: seq<Link>, ls: seq<string>) {
    forall j, k :: 0 <= j < k < |links| ==> PairInOrder(links, ls, j, k)
  }

  /** Links `j` and `k` name locales found in that order in `ls`. */
  predicate PairInOrder(links: seq<Link>, ls: seq<string>, j: nat, k: nat)
    requires j < k < |links|
  {
    exists p, q :: 0 <= p < q < |ls| && ls[p] == links[j].locale && ls[q] == links[k].locale
  }

  /** The links keep the order of the locale list, as `locales.map` does. */
  lemma {:induction false} LinksInListOrder(ls: seq<string>, currentLocale: string, basePath: string)
    ensures InListOrder(LinksFrom(ls, currentLocale, basePath), ls)
  {
    if ls != [] {
      var rest := LinksFrom(ls[1..], currentLocale, basePath);
      LinksInListOrder(ls[1..], currentLocale, basePath);
      LinksStep(ls, currentLocale, basePath);
      var head := if ls[0] == currentLocale then [] else [Link(ls[0], "/" + ls[0] + basePath, Language(ls[0]))];
      OrderShift(ls, head, rest);
    }
  }

  /** Prepending at most the link of `ls[0]` to links in the order of `ls[1..]` keeps the order of `ls`. */
  lemma OrderShift(ls: seq<string>, head: seq<Link>, rest: seq<Link>)
    requires ls != [] && |head| <= 1
    requires forall j :: 0 <= j < |head| ==> head[j].locale == ls[0]
    requires forall j :: 0 <= j < |rest| ==> rest[j].locale in ls[1..]
    requires InListOrder(rest, ls[1..])
    ensures InListOrder(head + rest, ls)
  {
    var links := head + rest;
    forall j, k | 0 <= j < k < |links|
      ensures PairInOrder(links, ls, j, k)
    {
      var h := |head|;
      if j < h {
        assert links[k] == rest[k - h];
        var i' :| 0 <= i' < |ls[1..]| && ls[1..][i'] == rest[k - h].locale;
        assert ls[0] == links[j].locale && ls[i' + 1] == links[k].locale;
      } else {
        assert links[j] == rest[j - h] && links[k] == rest[k - h];
        assert PairInOrder(rest, ls[1..], j - h, k - h);
        var p', q' :| 0 <= p' < q' < |ls[1..]| && ls[1..][p'] == rest[j - h].locale && ls[1..][q'] == rest[k - h].locale;
        assert ls[p' + 1] == links[j].locale && ls[q' + 1] == links[k].locale;
      }
    }
    assert InListOrder(links, ls);
  }

  /** The buttons rendered for the current path and locale. */
  function Buttons(pathname: Option<string>, currentLocale: string): seq<Link> {
    LinksFrom(Supported, currentLocale, BasePath(pathname, currentLocale))
  }

  /** Exactly the supported locales other than the current one get a link. */
  lemma {:induction false} ButtonCount(ls: seq<string>, currentLocale: string, basePath: string)
    requires forall i, j :: 0 <= i < j < |ls| ==> ls[i] != ls[j]
    ensures |LinksFrom(ls, currentLocale, basePath)| == if currentLocale in ls then |ls| - 1 else |ls|
  {
    if ls != [] {
      ButtonCount(ls[1..], currentLocale, basePath);
      assert currentLocale in ls <==> currentLocale == ls[0] || currentLocale in ls[1..];
    }
  }

  /**
   * Switching language keeps the page: on `/L/rest` every link leads to
   * `/M/rest` (the root `/M/` when there is no rest), an address the
   * middleware lets through unchanged.
   */
  lemma SwitchKeepsPage(currentLocale: string, rest: string, acceptLanguage: Option<string>)
    requires rest == "" || rest[0] == '/'
    ensures forall link :: link in Buttons(Some("/" + currentLocale + rest), currentLocale) ==>
              link.href == "/" + link.locale + (if rest == "" then "/" else rest)
              && Middleware.Middleware(link.href, acceptLanguage) == Pass
  {
    BasePathOfLocalePath(currentLocale, rest);
    var base := if rest == "" then "/" else rest;
    forall link | link in Buttons(Some("/" + currentLocale + rest), currentLocale)
      ensures Middleware.Middleware(link.href, acceptLanguage) == Pass
    {
      LocalePagePasses(link.locale, base, acceptLanguage);
    }
  }

  /** A page under a supported locale is let through by the middleware. */
  lemma LocalePagePasses(locale: string, base: string, acceptLanguage: Option<string>)
    requires locale in Supported && base != "" && base[0] == '/'
    ensures Middleware.Middleware("/" + locale + base, acceptLanguage) == Pass
  {
    assert ("/" + locale + base)[..|"/" + locale + "/"|] == "/" + locale + "/";
    assert HasLocale("/" + locale + base);
  }

  /** One step of `LinksFrom`: the head locale gets a link unless it is the current one. */
  lemma LinksStep(ls: seq<string>, currentLocale: string, basePath: string)
    requires ls != []
    ensures LinksFrom(ls, currentLocale, basePath)
         == (if ls[0] == currentLocale then [] else [Link(ls[0], "/" + ls[0] + basePath, Language(ls[0]))])
            + LinksFrom(ls[1..], currentLocale, basePath)
  {
  }

  /** Prepending a locale other than the current one prepends its link. */
  lemma LinksCons(l: string, ls: seq<string>, currentLocale: string, basePath: string)
    requires l != currentLocale
    ensures LinksFrom([l] + ls, currentLocale, basePath)
         == [Link(l, "/" + l + basePath, Language(l))] + LinksFrom(ls, currentLocale, basePath)
  {
    LinksStep([l] + ls, currentLocale, basePath);
    assert ([l] + ls)[1..] == ls;
  }

  /** Two locales, neither of them the current one, give two links in their order. */
  lemma LinksOfTwo(l1: string, l2: string, currentLocale: string, basePath: string)
    requires l1 != currentLocale && l2 != currentLocale
    ensures LinksFrom([l1, l2], currentLocale, basePath)
         == [Link(l1, "/" + l1 + basePath, Language(l1)), Link(l2, "/" + l2 + basePath, Language(l2))]
  {
    assert [l2] + [] == [l2];
    assert [l1] + [l2] == [l1, l2];
    LinksCons(l2, [], currentLocale, basePath);
    LinksCons(l1, [l2], currentLocale, basePath);
  }

  /** Spanish then Portuguese, seen from English. */
  lemma SpanishPortugueseLinks(base: string)
    ensures LinksFrom(["es-AR", "pt-BR"], "en-US", base)
         == [Link("es-AR", "/" + "es-AR" + base, "es"), Link("pt-BR", "/" + "pt-BR" + base, "pt")]
  {
    assert "es-AR"[1] != "en-US"[1] && "pt-BR"[1] != "en-US"[1];
    LinksOfTwo("es-AR", "pt-BR", "en-US", base);
    SupportedLanguages();
  }

  /** The links to the other two locales for a page, when the current locale is en-US. */
  lemma EnglishLinks(base: string)
    ensures LinksFrom(Supported, "en-US", base)
         == [Link("es-AR", "/" + "es-AR" + base, "es"), Link("pt-BR", "/" + "pt-BR" + base, "pt")]
  {
    assert ["en-US", "es-AR", "pt-BR"][1..] == ["es-AR", "pt-BR"];
    LinksStep(["en-US", "es-AR", "pt-BR"], "en-US", base);
    SpanishPortugueseLinks(base);
  }

  /**
   * On an en-US page (`/en-US/some-page`, say) the buttons are `es` and `pt`,
   * leading to the same page under es-AR and pt-BR.
   */
  lemma EnglishPageLinks(rest: string)
    requires rest != ""
    ensures Buttons(Some("/" + "en-US" + rest), "en-US")
         == [Link("es-AR", "/" + "es-AR" + rest, "es"), Link("pt-BR", "/" + "pt-BR" + rest, "pt")]
  {
    BasePathOfLocalePath("en-US", rest);
    EnglishLinks(rest);
  }

  /** The links to the other two locales for a page, when the current locale is pt-BR. */
  lemma PortugueseLinks(base: string)
    ensures LinksFrom(Supported, "pt-BR", base)
         == [Link("en-US", "/" + "en-US" + base, "en"), Link("es-AR", "/" + "es-AR" + base, "es")]
  {
    assert "en-US"[0] != "pt-BR"[0] && "es-AR"[0] != "pt-BR"[0];
    LinksOfTwoThenCurrent("en-US", "es-AR", "pt-BR", base);
    SupportedLanguages();
  }

  /** Two locales other than the current one, then the current one: two links. */
  lemma LinksOfTwoThenCurrent(l1: string, l2: string, currentLocale: string, basePath: string)
    requires l1 != currentLocale && l2 != currentLocale
    ensures LinksFrom([l1, l2, currentLocale], currentLocale, basePath)
         == [Link(l1, "/" + l1 + basePath, Language(l1)), Link(l2, "/" + l2 + basePath, Language(l2))]
  {
    assert [currentLocale][1..] == [];
    assert [l2] + [currentLocale] == [l2, currentLocale];
    assert [l1] + [l2, currentLocale] == [l1, l2, currentLocale];
    LinksStep([currentLocale], currentLocale, basePath);
    LinksCons(l2, [currentLocale], currentLocale, basePath);
    LinksCons(l1, [l2, currentLocale], currentLocale, basePath);
  }

  /**
   * On a pt-BR page the buttons are `en` and `es`; on the root `/pt-BR` they
   * lead to `/en-US/` and `/es-AR/` (the framework's link drops the final `/`).
   */
  lemma PortuguesePageLinks(rest: string)
    ensures Buttons(Some("/" + "pt-BR" + rest), "pt-BR")
         == [Link("en-US", "/" + "en-US" + (if rest == "" then "/" else rest), "en"),
             Link("es-AR", "/" + "es-AR" + (if rest == "" then "/" else rest), "es")]
  {
    BasePathOfLocalePath("pt-BR", rest);
    PortugueseLinks(if rest == "" then "/" else rest);
  }
}
