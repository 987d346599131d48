/**
 * The server-side translation lookup: one bundle per supported locale, and
 * the Spanish bundle for any locale without one.
 */
module TranslationBundles {
  import opened Locales

  /** The three translation files, told apart by their language. */
  datatype Bundle = English | Spanish | Portuguese

  /** The bundle of each supported locale. */
  const Bundles: map<string, Bundle> := map["en-US" := English, "es-AR" := Spanish, "pt-BR" := Portuguese]

  /** Exactly the supported locales have a bundle, each its own. */
  lemma BundlesCoverSupported()
    ensures Bundles.Keys == set l | l in Supported
    ensures forall l, m :: l in Bundles && m in Bundles && l != m ==> Bundles[l] != Bundles[m]
  {
  }

  /**
   * `getStaticTranslations` (and its asynchronous twin `getTranslations`):
   * the locale's bundle, or the default locale's when it has none.
   */
  function StaticTranslations(locale: string): (b: Bundle)
    ensures locale in Supported ==> b == Bundles[locale]
    ensures b == Bundles[Default] <==> locale == Default || locale !in Supported
  {
    BundlesCoverSupported();
    if locale in Bundles then Bundles[locale] else Bundles[Default]
  }
}
