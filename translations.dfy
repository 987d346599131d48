/**
 * The `useTranslations` hook: the route's locale (es-AR when the route has
 * none), that locale's translation tree, and `t`, which looks a dotted key up
 * in the tree and falls back to the key itself.
 */
module Translations {
  import opened Wrappers
  import opened Strings
  import opened Locales

  /** A translation tree: strings, objects of named children, and every other value (`undefined` among them). */
  datatype Json = Str(text: string) | Obj(fields: map<string, Json>) | Scalar

  /** The value at the end of a path of names, if every step finds an object holding the next name. */
  function Resolve(v: Json, path: seq<string>): Option<Json> {
    if path == [] then Some(v)
    else if v.Obj? && path[0] in v.fields then Resolve(v.fields[path[0]], path[1..])
    else None
  }

  /** What `t(key)` returns: the string the dotted key leads to, or else the key. */
  function Translate(translations: Json, key: string): string {
    match Resolve(translations, Split(key, '.'))
    case Some(Str(s)) => s
    case _ => key
  }

  /** Following a path in two pieces is following the first piece, then the second from where it led. */
  lemma {:induction false} ResolveConcat(v: Json, p: seq<string>, q: seq<string>)
    ensures Resolve(v, p + q) == match Resolve(v, p)
                                 case None => None
                                 case Some(u) => Resolve(u, q)
  {
    if p != [] {
      assert (p + q)[0] == p[0] && (p + q)[1..] == p[1..] + q;
      if v.Obj? && p[0] in v.fields {
        ResolveConcat(v.fields[p[0]], p[1..], q);
      }
    } else {
      assert p + q == q;
    }
  }

  /** `t`: one step down the tree per segment of the key, returning the key as soon as a step fails. */
  method T(translations: Json, key: string) returns (r: string)
    ensures r == Translate(translations, key)
  {
    var keys := Split(key, '.');
    var value := translations;
    for i := 0 to |keys|
      invariant Resolve(translations, keys[..i]) == Some(value)
    {
      var k := keys[i];
      ResolveConcat(translations, keys[..i], [k]);
      assert keys[..i + 1] == keys[..i] + [k];
      if value.Obj? && k in value.fields {
        value := value.fields[k];
      } else {
        ResolveConcat(translations, keys[..i + 1], keys[i + 1..]);
        assert keys[..i + 1] + keys[i + 1..] == keys;
        return key;
      }
    }
    assert keys[..|keys|] == keys;
    r := if value.Str? then value.text else key;
  }

  /**
   * A dotted key is resolved segment group by segment group: when `prefix`
   * leads to `sub`, `prefix.rest` translates as `rest` does within `sub`.
   */
  lemma NestedKey(translations: Json, prefix: string, rest: string, sub: Json)
    requires Resolve(translations, Split(prefix, '.')) == Some(sub)
    ensures Resolve(translations, Split(prefix + "." + rest, '.')) == Resolve(sub, Split(rest, '.'))
    ensures Translate(translations, prefix + "." + rest)
         == match Resolve(sub, Split(rest, '.'))
            case Some(Str(s)) => s
            case _ => prefix + "." + rest
  {
    assert prefix + "." + rest == prefix + ['.'] + rest;
    SplitAtSeparator(prefix, rest, '.');
    ResolveConcat(translations, Split(prefix, '.'), Split(rest, '.'));
  }

  /** The result of the hook: the translations, the current locale and the supported locales. */
  datatype Hook = Hook(translations: Json, currentLang: string, langs: seq<string>)

  /**
   * `useTranslations` given the locale bundles and the route's locale
   * parameter; a locale without a bundle has `undefined` translations.
   */
  function UseTranslations(languages: map<string, Json>, routeLocale: Option<string>): (h: Hook)
    ensures h.langs == Supported
    ensures routeLocale.None? || routeLocale.value == "" ==> h.currentLang == Default
    ensures routeLocale.Some? && routeLocale.value != "" ==> h.currentLang == routeLocale.value
    ensures h.currentLang in languages ==> h.translations == languages[h.currentLang]
    ensures h.currentLang !in languages ==> forall key :: Translate(h.translations, key) == key
  {
    var locale := if routeLocale.Some? && routeLocale.value != "" then routeLocale.value else Default;
    var translations := if locale in languages then languages[locale] else Scalar;
    UndefinedTranslatesNothing();
    Hook(translations, locale, Supported)
  }

  /** Without translations every key comes back unchanged. */
  lemma UndefinedTranslatesNothing()
    ensures forall key :: Translate(Scalar, key) == key
  {
  }

  /** A two-level key such as `home.greeting` reaches the string stored under it. */
  lemma TwoLevelLookup(outer: string, inner: string, text: string)
    requires '.' !in outer && '.' !in inner
    ensures Translate(Obj(map[outer := Obj(map[inner := Str(text)])]), outer + "." + inner) == text
  {
    var sub := Obj(map[inner := Str(text)]);
    var tree := Obj(map[outer := sub]);
    SplitWithout(outer, '.');
    SplitWithout(inner, '.');
    assert Resolve(tree, [outer]) == Some(sub) by {
      assert [outer][1..] == [];
    }
    NestedKey(tree, outer, inner, sub);
    assert Resolve(sub, [inner]) == Some(Str(text)) by {
      assert [inner][1..] == [];
    }
  }

  /** A key such as `missing.key` whose first segment is absent comes back unchanged. */
  lemma MissingLookup(translations: Json, first: string, rest: string)
    requires '.' !in first
    requires translations.Obj? && first !in translations.fields
    ensures Translate(translations, first + "." + rest) == first + "." + rest
  {
    SplitWithout(first, '.');
    SplitAtSeparator(first, rest, '.');
    assert first + "." + rest == first + ['.'] + rest;
    assert Split(first + "." + rest, '.')[0] == first;
  }
}
