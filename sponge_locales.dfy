/** The Sponge message bundles (SpongeLocales): the core bundle plus the plugin's own. */
module SpongeLocaleBundles {
  import opened Text
  import opened LocaleBundles

  class SpongeLocales {
    const locales: Locales
    /** `plugin.getName()`, not a description name. */
    const pluginName: string

    constructor (pluginName: string)
      ensures fresh(locales) && locales.Valid()
      ensures locales.loadedBundles == {} && locales.forwarded == []
      ensures this.pluginName == pluginName
    {
      locales := new Locales();
      this.pluginName := pluginName;
    }

    /** Loads acf-core, then acf-minecraft, acf-<name> and acf-<name> lower-cased. */
    method LoadLanguages(supported: seq<Locale>)
      requires locales.Valid()
      modifies locales
      ensures locales.Valid()
      ensures locales.State() == PlatformLoad(old(locales.State()), pluginName, supported)
    {
      locales.LoadLanguages(supported);
      var bundle := "acf-" + pluginName;
      locales.AddMessageBundles(["acf-minecraft", bundle, Lower(bundle)], supported);
    }
  }
}
