/** The Bungee message bundles (BungeeLocales): the core bundle plus the plugin's own. */
module BungeeLocaleBundles {
  import opened Text
  import opened LocaleBundles

  class BungeeLocales {
    const locales: Locales
    /** `plugin.getDescription().getName()`. */
    const descriptionName: string

    constructor (descriptionName: string)
      ensures fresh(locales) && locales.Valid()
      ensures locales.loadedBundles == {} && locales.forwarded == []
      ensures this.descriptionName == descriptionName
    {
      locales := new Locales();
      this.descriptionName := descriptionName;
    }

    /** Loads acf-core, then acf-minecraft, acf-<name> and acf-<name> lower-cased. */
    method LoadLanguages(supported: seq<Locale>)
      requires locales.Valid()
      modifies locales
      ensures locales.Valid()
      ensures locales.State() == PlatformLoad(old(locales.State()), descriptionName, supported)
    {
      locales.LoadLanguages(supported);
      var pluginName := "acf-" + descriptionName;
      locales.AddMessageBundles(["acf-minecraft", pluginName, Lower(pluginName)], supported);
    }
  }
}
