/**
 * Message-bundle bookkeeping (core Locales): the set of (bundle, locale)
 * pairs already loaded, and the calls forwarded to the locale manager.
 */
module LocaleBundles {
  import opened Wrappers
  import opened Text

  type Locale = string
  type Bundle = (string, Locale)

  /** The loaded pairs, and the pairs handed to LocaleManager.addMessageBundle, in call order. */
  datatype BundleState = BundleState(loaded: set<Bundle>, forwarded: seq<Bundle>)

  /** Each loaded pair has been forwarded, and forwarded exactly once. */
  ghost predicate Consistent(st: BundleState) {
    NoDuplicates(st.forwarded) && forall b :: b in st.loaded <==> b in st.forwarded
  }

  /** addMessageBundle: record and forward a pair that is not yet loaded. */
  function Add(st: BundleState, b: Bundle): BundleState {
    if b in st.loaded then st else BundleState(st.loaded + {b}, st.forwarded + [b])
  }

  /** The pairs added one after another. */
  function AddAll(st: BundleState, ps: seq<Bundle>): BundleState {
    if |ps| == 0 then st else Add(AddAll(st, ps[..|ps| - 1]), ps[|ps| - 1])
  }

  /** Adding keeps every pair forwarded exactly once, and never forgets or re-forwards a pair. */
  lemma {:induction false} AddAllConsistent(st: BundleState, ps: seq<Bundle>)
    requires Consistent(st)
    ensures Consistent(AddAll(st, ps))
    ensures st.forwarded <= AddAll(st, ps).forwarded
  {
    if |ps| > 0 {
      var mid := AddAll(st, ps[..|ps| - 1]);
      AddAllConsistent(st, ps[..|ps| - 1]);
      var b := ps[|ps| - 1];
      if b !in mid.loaded {
        assert forall i :: 0 <= i < |mid.forwarded| ==> mid.forwarded[i] != b;
      }
    }
  }

  /** After adding, exactly the earlier pairs and the added ones are loaded. */
  lemma {:induction false} AddAllLoaded(st: BundleState, ps: seq<Bundle>)
    ensures forall b :: b in AddAll(st, ps).loaded <==> b in st.loaded || b in ps
  {
    if |ps| > 0 {
      AddAllLoaded(st, ps[..|ps| - 1]);
      assert ps == ps[..|ps| - 1] + [ps[|ps| - 1]];
    }
  }

  lemma {:induction false} AddAllAppend(st: BundleState, a: seq<Bundle>, b: seq<Bundle>)
    ensures AddAll(st, a + b) == AddAll(AddAll(st, a), b)
  {
    if |b| == 0 {
      assert a + b == a;
    } else {
      assert (a + b)[..|a + b| - 1] == a + b[..|b| - 1];
      AddAllAppend(st, a, b[..|b| - 1]);
    }
  }

  /** Adding pairs that are all loaded already changes nothing. */
  lemma {:induction false} AddAllPresent(st: BundleState, ps: seq<Bundle>)
    requires forall i :: 0 <= i < |ps| ==> ps[i] in st.loaded
    ensures AddAll(st, ps) == st
  {
    if |ps| > 0 {
      AddAllPresent(st, ps[..|ps| - 1]);
    }
  }

  /** Adding the same pairs twice is adding them once. */
  lemma AddAllIdempotent(st: BundleState, ps: seq<Bundle>)
    ensures AddAll(AddAll(st, ps), ps) == AddAll(st, ps)
  {
    AddAllLoaded(st, ps);
    AddAllPresent(AddAll(st, ps), ps);
  }

  /** One bundle name with every locale, in locale order. */
  function NameWith(name: string, locales: seq<Locale>): (r: seq<Bundle>)
    ensures |r| == |locales| && forall i :: 0 <= i < |locales| ==> r[i] == (name, locales[i])
  {
    seq(|locales|, i requires 0 <= i < |locales| => (name, locales[i]))
  }

  /** addMessageBundles: for each bundle name in order, for each supported locale. */
  function BundlePairs(names: seq<string>, locales: seq<Locale>): seq<Bundle> {
    if |names| == 0 then [] else BundlePairs(names[..|names| - 1], locales) + NameWith(names[|names| - 1], locales)
  }

  lemma {:induction false} BundlePairsMembers(names: seq<string>, locales: seq<Locale>)
    ensures forall b :: b in BundlePairs(names, locales) <==> b.0 in names && b.1 in locales
  {
    if |names| > 0 {
      BundlePairsMembers(names[..|names| - 1], locales);
      assert names == names[..|names| - 1] + [names[|names| - 1]];
    }
  }

  /** loadMissingBundles: for each supported locale, for each loaded bundle name. */
  function LocalePairs(names: seq<string>, locales: seq<Locale>): seq<Bundle> {
    if |locales| == 0 then []
    else
      var l := locales[|locales| - 1];
      LocalePairs(names, locales[..|locales| - 1]) + seq(|names|, i requires 0 <= i < |names| => (names[i], l))
  }

  lemma {:induction false} LocalePairsMembers(names: seq<string>, locales: seq<Locale>)
    ensures forall b :: b in LocalePairs(names, locales) <==> b.0 in names && b.1 in locales
  {
    if |locales| > 0 {
      LocalePairsMembers(names, locales[..|locales| - 1]);
      assert locales == locales[..|locales| - 1] + [locales[|locales| - 1]];
      var l := locales[|locales| - 1];
      var tail := seq(|names|, i requires 0 <= i < |names| => (names[i], l));
      assert forall b :: b in tail <==> b.0 in names && b.1 == l by {
        forall b: Bundle | b.0 in names && b.1 == l ensures b in tail {
          var i :| 0 <= i < |names| && names[i] == b.0;
          assert tail[i] == b;
        }
      }
    }
  }

  function BundleNames(loaded: set<Bundle>): set<string> {
    set b | b in loaded :: b.0
  }

  /**
   * After back-filling, every loaded bundle name is loaded for every supported
   * locale, and no new bundle name appears.
   */
  lemma LoadMissingSpec(st: BundleState, order: seq<string>, supported: seq<Locale>)
    requires forall n :: n in order <==> n in BundleNames(st.loaded)
    ensures forall n, l :: n in BundleNames(st.loaded) && l in supported ==>
              (n, l) in AddAll(st, LocalePairs(order, supported)).loaded
    ensures BundleNames(AddAll(st, LocalePairs(order, supported)).loaded) == BundleNames(st.loaded)
    ensures forall b :: b in st.loaded ==> b in AddAll(st, LocalePairs(order, supported)).loaded
  {
    var after := AddAll(st, LocalePairs(order, supported)).loaded;
    AddAllLoaded(st, LocalePairs(order, supported));
    LocalePairsMembers(order, supported);
    forall n | n in BundleNames(after) ensures n in BundleNames(st.loaded) {
      var b :| b in after && b.0 == n;
    }
    forall n | n in BundleNames(st.loaded) ensures n in BundleNames(after) {
      var b :| b in st.loaded && b.0 == n;
      assert b in after;
    }
  }

  /**
   * One step of Guava's iteration of the live `loadedBundles.keys()` view: the
   * entry the iterator stands on, and whether more locales of the same bundle
   * name follow it in that name's value set.
   */
  datatype KeyEntry = KeyEntry(pair: Bundle, more: bool)

  /**
   * How a hash multimap lists its entries: every loaded pair exactly once, the
   * pairs of one bundle name next to each other, and `more` set exactly when
   * the next entry has the same name.
   */
  ghost predicate GroupedListing(loaded: set<Bundle>, entries: seq<KeyEntry>) {
    ListsLoaded(loaded, entries) && ListsOnce(entries) && MoreMeansSameName(entries) && NamesTogether(entries)
  }

  ghost predicate ListsLoaded(loaded: set<Bundle>, entries: seq<KeyEntry>) {
    forall b :: b in loaded <==> exists i :: 0 <= i < |entries| && entries[i].pair == b
  }

  ghost predicate ListsOnce(entries: seq<KeyEntry>) {
    forall i, j :: 0 <= i < j < |entries| ==> entries[i].pair != entries[j].pair
  }

  ghost predicate MoreMeansSameName(entries: seq<KeyEntry>) {
    forall i :: 0 <= i < |entries| ==> (entries[i].more <==> i + 1 < |entries| && entries[i + 1].pair.0 == entries[i].pair.0)
  }

  ghost predicate NamesTogether(entries: seq<KeyEntry>) {
    forall i, j :: 0 <= i < j < |entries| && entries[i].pair.0 == entries[j].pair.0 ==> entries[j - 1].pair.0 == entries[i].pair.0
  }

  /** The pairs the inner loop adds for one locale: each listed name with the locale. */
  function Keyed(entries: seq<KeyEntry>, locale: Locale): (r: seq<Bundle>)
    ensures |r| == |entries| && forall i :: 0 <= i < |entries| ==> r[i] == (entries[i].pair.0, locale)
  {
    seq(|entries|, i requires 0 <= i < |entries| => (entries[i].pair.0, locale))
  }

  /** Where the as-written back-fill ends, and whether it ended by ConcurrentModificationException. */
  datatype Walk = Walk(state: BundleState, failed: bool)

  /**
   * The inner loop of loadMissingBundles as written, for one locale, over the
   * live keys() view. A pair that is not loaded yet is put into the value set
   * the iterator is walking; that set's fail-fast iterator then throws on the
   * next `next()` when more of its values follow.
   */
  function KeysWalkAsWritten(st: BundleState, entries: seq<KeyEntry>, locale: Locale): (r: Walk)
    ensures st.loaded <= r.state.loaded
    ensures r.failed ==> exists i :: 0 <= i < |entries| && entries[i].more && (entries[i].pair.0, locale) !in st.loaded
    decreases |entries|
  {
    if |entries| == 0 then Walk(st, false)
    else
      var b := (entries[0].pair.0, locale);
      if b !in st.loaded && entries[0].more then Walk(Add(st, b), true)
      else
        var r := KeysWalkAsWritten(Add(st, b), entries[1..], locale);
        assert r.failed ==> exists i :: 0 <= i < |entries| && entries[i].more && (entries[i].pair.0, locale) !in st.loaded by {
          if r.failed {
            var k :| 0 <= k < |entries[1..]| && entries[1..][k].more && (entries[1..][k].pair.0, locale) !in Add(st, b).loaded;
            assert entries[k + 1] == entries[1..][k];
          }
        }
        r
  }

  /** When the walk does not throw, it adds exactly what the snapshot walk adds for the listed names. */
  lemma {:induction false} KeysWalkCompletes(st: BundleState, entries: seq<KeyEntry>, locale: Locale)
    requires !KeysWalkAsWritten(st, entries, locale).failed
    ensures KeysWalkAsWritten(st, entries, locale).state == AddAll(st, Keyed(entries, locale))
    decreases |entries|
  {
    if |entries| > 0 {
      var b := (entries[0].pair.0, locale);
      KeysWalkCompletes(Add(st, b), entries[1..], locale);
      assert Keyed(entries, locale) == [b] + Keyed(entries[1..], locale);
      AddAllAppend(st, [b], Keyed(entries[1..], locale));
      assert [b][..0] == [];
    }
  }

  /** A walk over names that all have the locale already adds nothing and never throws. */
  lemma {:induction false} KeysWalkPresent(st: BundleState, entries: seq<KeyEntry>, locale: Locale)
    requires forall i :: 0 <= i < |entries| ==> (entries[i].pair.0, locale) in st.loaded
    ensures KeysWalkAsWritten(st, entries, locale) == Walk(st, false)
    decreases |entries|
  {
    if |entries| > 0 {
      KeysWalkPresent(st, entries[1..], locale);
    }
  }

  /**
   * loadMissingBundles as written: for each supported locale a new iterator
   * over keys(); `listing` is the hash multimap's order for the loaded pairs.
   * A thrown exception ends the back-fill.
   */
  function LoadMissingAsWritten(st: BundleState, supported: seq<Locale>, listing: set<Bundle> -> seq<KeyEntry>): (r: Walk)
    ensures st.loaded <= r.state.loaded
    decreases |supported|
  {
    if |supported| == 0 then Walk(st, false)
    else
      var w := KeysWalkAsWritten(st, listing(st.loaded), supported[0]);
      if w.failed then w else LoadMissingAsWritten(w.state, supported[1..], listing)
  }

  /** Two bundles, a and b, each loaded for en and de. */
  function TwoBundles(): BundleState {
    BundleState({("a", "en"), ("a", "de"), ("b", "en"), ("b", "de")},
                [("a", "en"), ("a", "de"), ("b", "en"), ("b", "de")])
  }

  /** A hash multimap's listing of TwoBundles: a's two entries, then b's. */
  function TwoBundlesListing(): seq<KeyEntry> {
    [KeyEntry(("a", "en"), true), KeyEntry(("a", "de"), false),
     KeyEntry(("b", "en"), true), KeyEntry(("b", "de"), false)]
  }

  lemma TwoBundlesConsistent()
    ensures Consistent(TwoBundles())
  {
  }

  lemma TwoBundlesNames()
    ensures BundleNames(TwoBundles().loaded) == {"a", "b"}
  {
    assert ("a", "en") in TwoBundles().loaded && ("b", "en") in TwoBundles().loaded;
  }

  lemma TwoBundlesGrouped()
    ensures GroupedListing(TwoBundles().loaded, TwoBundlesListing())
  {
    TwoBundlesListed();
    TwoBundlesListedOnce();
    TwoBundlesMore();
    TwoBundlesTogether();
  }

  lemma TwoBundlesListed()
    ensures ListsLoaded(TwoBundles().loaded, TwoBundlesListing())
  {
    var st := TwoBundles();
    var entries := TwoBundlesListing();
    forall b | b in st.loaded ensures exists i :: 0 <= i < |entries| && entries[i].pair == b {
      if b == ("a", "en") { assert entries[0].pair == b; }
      else if b == ("a", "de") { assert entries[1].pair == b; }
      else if b == ("b", "en") { assert entries[2].pair == b; }
      else { assert entries[3].pair == b; }
    }
  }

  lemma TwoBundlesListedOnce()
    ensures ListsOnce(TwoBundlesListing())
  {
  }

  lemma TwoBundlesMore()
    ensures MoreMeansSameName(TwoBundlesListing())
  {
  }

  lemma TwoBundlesTogether()
    ensures NamesTogether(TwoBundlesListing())
  {
  }

  /**
   * With fr newly supported the as-written back-fill of TwoBundles throws
   * right after loading a for fr, so b is never loaded for fr.
   */
  lemma AsWrittenStopsBackFill()
    ensures var r := LoadMissingAsWritten(TwoBundles(), ["en", "de", "fr"], (_: set<Bundle>) => TwoBundlesListing());
            r.failed && ("a", "fr") in r.state.loaded && ("b", "fr") !in r.state.loaded
  {
    var st := TwoBundles();
    var entries := TwoBundlesListing();
    var supported := ["en", "de", "fr"];
    var listing := (_: set<Bundle>) => entries;
    KeysWalkPresent(st, entries, "en");
    KeysWalkPresent(st, entries, "de");
    assert supported[1..][1..] == ["fr"];
    assert LoadMissingAsWritten(st, supported, listing) == KeysWalkAsWritten(st, entries, "fr");
  }

  /** The snapshot walk of the same state does load b for fr. */
  lemma SnapshotCompletesBackFill()
    ensures ("b", "fr") in AddAll(TwoBundles(), LocalePairs(["a", "b"], ["en", "de", "fr"])).loaded
  {
    TwoBundlesNames();
    LoadMissingSpec(TwoBundles(), ["a", "b"], ["en", "de", "fr"]);
  }

  /** The bundles a platform adds after the core one: acf-minecraft, acf-<plugin>, and its lower-case form. */
  function PlatformBundleNames(pluginName: string): seq<string> {
    ["acf-minecraft", "acf-" + pluginName, Lower("acf-" + pluginName)]
  }

  /** A platform loadLanguages: the core bundle, then the platform bundles. */
  function PlatformLoad(st: BundleState, pluginName: string, supported: seq<Locale>): BundleState {
    AddAll(AddAll(st, BundlePairs(["acf-core"], supported)), BundlePairs(PlatformBundleNames(pluginName), supported))
  }

  /**
   * A platform load records acf-core, acf-minecraft, acf-<plugin> and its
   * lower-case form for every supported locale, and nothing else.
   */
  lemma PlatformLoadSpec(st: BundleState, pluginName: string, supported: seq<Locale>)
    ensures forall b :: b in PlatformLoad(st, pluginName, supported).loaded <==>
              b in st.loaded ||
              (b.1 in supported && b.0 in ["acf-core", "acf-minecraft", "acf-" + pluginName, Lower("acf-" + pluginName)])
  {
    var mid := AddAll(st, BundlePairs(["acf-core"], supported));
    AddAllLoaded(st, BundlePairs(["acf-core"], supported));
    AddAllLoaded(mid, BundlePairs(PlatformBundleNames(pluginName), supported));
    BundlePairsMembers(["acf-core"], supported);
    BundlePairsMembers(PlatformBundleNames(pluginName), supported);
  }

  /**
   * When the plugin name is already lower case, the lower-cased bundle adds
   * nothing: the load is that of acf-minecraft and acf-<plugin> alone.
   */
  lemma PlatformLoadLowerCase(st: BundleState, pluginName: string, supported: seq<Locale>)
    requires Lower("acf-" + pluginName) == "acf-" + pluginName
    ensures PlatformLoad(st, pluginName, supported) ==
            AddAll(AddAll(st, BundlePairs(["acf-core"], supported)), BundlePairs(["acf-minecraft", "acf-" + pluginName], supported))
  {
    var mid := AddAll(st, BundlePairs(["acf-core"], supported));
    var two := ["acf-minecraft", "acf-" + pluginName];
    var p := "acf-" + pluginName;
    assert PlatformBundleNames(pluginName) == two + [p];
    assert (two + [p])[..2] == two;
    assert BundlePairs(two + [p], supported) == BundlePairs(two, supported) + NameWith(p, supported);
    AddAllAppend(mid, BundlePairs(two, supported), NameWith(p, supported));
    var after := AddAll(mid, BundlePairs(two, supported));
    AddAllLoaded(mid, BundlePairs(two, supported));
    BundlePairsMembers(two, supported);
    forall i | 0 <= i < |supported| ensures NameWith(p, supported)[i] in after.loaded {
      assert NameWith(p, supported)[i] in BundlePairs(two, supported);
    }
    AddAllPresent(after, NameWith(p, supported));
  }

  /** Loading the platform languages twice records nothing new the second time. */
  lemma PlatformLoadIdempotent(st: BundleState, pluginName: string, supported: seq<Locale>)
    ensures PlatformLoad(PlatformLoad(st, pluginName, supported), pluginName, supported) == PlatformLoad(st, pluginName, supported)
  {
    var once := PlatformLoad(st, pluginName, supported);
    var core := BundlePairs(["acf-core"], supported);
    var platform := BundlePairs(PlatformBundleNames(pluginName), supported);
    AddAllAppend(st, core, platform);
    AddAllLoaded(st, core + platform);
    AddAllAppend(once, core, platform);
    forall i | 0 <= i < |core + platform| ensures (core + platform)[i] in once.loaded {
      assert (core + platform)[i] in core + platform;
    }
    AddAllPresent(once, core + platform);
  }

  /** The message text for a key: marks a missing key. */
  function MissingKeyMarker(key: string): string {
    "<MISSING_LANGUAGE_KEY:" + key + ">"
  }

  /** The marker names the missing key, so two missing keys never share a marker. */
  lemma MissingKeyMarkerRecoversKey(key: string)
    ensures var m := MissingKeyMarker(key);
            |m| == |key| + 23 && m[22..|m| - 1] == key
  {
  }

  lemma MissingKeyMarkerInjective(k1: string, k2: string)
    requires MissingKeyMarker(k1) == MissingKeyMarker(k2)
    ensures k1 == k2
  {
    MissingKeyMarkerRecoversKey(k1);
    MissingKeyMarkerRecoversKey(k2);
  }

  /** What getMessage returns and, for a missing key, the error it logs. */
  datatype MessageLookup = MessageLookup(message: string, errorLogged: Option<string>)

  /**
   * getMessage for the locale manager's answer `found`: a message is always
   * returned; a found message is returned as is and nothing is logged.
   */
  function GetMessage(found: Option<string>, key: string): (r: MessageLookup)
    ensures found.Some? ==> r.message == found.value && r.errorLogged.None?
    ensures found.None? ==> r.errorLogged == Some("Missing Language Key: " + key)
    ensures found.None? ==> r.message == "<MISSING_LANGUAGE_KEY:" + key + ">"
    ensures found.None? ==> StartsWith(r.message, "<MISSING_LANGUAGE_KEY:") && |r.message| == |key| + 23 && r.message[22..|r.message| - 1] == key
  {
    if found.None? then MessageLookup(MissingKeyMarker(key), Some("Missing Language Key: " + key))
    else MessageLookup(found.value, None)
  }

  /**
   * replaceI18NStrings: `matches` is the I18N pattern's full match and
   * `substitute` the replacement loop, neither modelled here.
   */
  function ReplaceI18NStrings(message: Option<string>, matches: string -> bool, substitute: string -> string): (r: Option<string>)
    ensures r.None? <==> message.None?
    ensures message.Some? && !matches(message.value) ==> r == message
  {
    if message.None? then None
    else if !matches(message.value) then message
    else Some(substitute(message.value))
  }

  class Locales {
    var loadedBundles: set<Bundle>
    var forwarded: seq<Bundle>

    function State(): BundleState
      reads this
    {
      BundleState(loadedBundles, forwarded)
    }

    ghost predicate Valid()
      reads this
    {
      Consistent(State())
    }

    constructor ()
      ensures Valid() && loadedBundles == {} && forwarded == []
    {
      loadedBundles := {};
      forwarded := [];
    }

    method AddMessageBundle(bundleName: string, locale: Locale)
      requires Valid()
      modifies this
      ensures Valid()
      ensures State() == Add(old(State()), (bundleName, locale))
    {
      if (bundleName, locale) !in loadedBundles {
        assert forall i :: 0 <= i < |forwarded| ==> forwarded[i] != (bundleName, locale);
        loadedBundles := loadedBundles + {(bundleName, locale)};
        forwarded := forwarded + [(bundleName, locale)];
      }
    }

    method AddMessageBundles(bundleNames: seq<string>, supported: seq<Locale>)
      requires Valid()
      modifies this
      ensures Valid()
      ensures State() == AddAll(old(State()), BundlePairs(bundleNames, supported))
    {
      var i := 0;
      while i < |bundleNames|
        invariant 0 <= i <= |bundleNames|
        invariant Valid()
        invariant State() == AddAll(old(State()), BundlePairs(bundleNames[..i], supported))
      {
        var j := 0;
        while j < |supported|
          invariant 0 <= j <= |supported|
          invariant Valid()
          invariant State() == AddAll(AddAll(old(State()), BundlePairs(bundleNames[..i], supported)), NameWith(bundleNames[i], supported[..j]))
        {
          AddMessageBundle(bundleNames[i], supported[j]);
          assert NameWith(bundleNames[i], supported[..j + 1])[..j] == NameWith(bundleNames[i], supported[..j]);
          j := j + 1;
        }
        assert supported[..j] == supported;
        assert bundleNames[..i + 1][..i] == bundleNames[..i];
        AddAllAppend(old(State()), BundlePairs(bundleNames[..i], supported), NameWith(bundleNames[i], supported));
        i := i + 1;
      }
      assert bundleNames[..i] == bundleNames;
    }

    /**
     * Back-fills every loaded bundle for every supported locale. `order` is the
     * iteration order of the loaded bundle names, which the hash multimap leaves open.
     */
    method LoadMissingBundles(supported: seq<Locale>, order: seq<string>)
      requires Valid()
      requires forall n :: n in order <==> n in BundleNames(loadedBundles)
      modifies this
      ensures Valid()
      ensures State() == AddAll(old(State()), LocalePairs(order, supported))
    {
      var i := 0;
      while i < |supported|
        invariant 0 <= i <= |supported|
        invariant Valid()
        invariant State() == AddAll(old(State()), LocalePairs(order, supported[..i]))
      {
        var locale := supported[i];
        var j := 0;
        ghost var row := seq(|order|, k requires 0 <= k < |order| => (order[k], locale));
        while j < |order|
          invariant 0 <= j <= |order|
          invariant Valid()
          invariant State() == AddAll(AddAll(old(State()), LocalePairs(order, supported[..i])), row[..j])
        {
          AddMessageBundle(order[j], locale);
          assert row[..j + 1][..j] == row[..j];
          j := j + 1;
        }
        assert row[..j] == row;
        assert supported[..i + 1][..i] == supported[..i];
        AddAllAppend(old(State()), LocalePairs(order, supported[..i]), row);
        i := i + 1;
      }
      assert supported[..i] == supported;
    }

    method LoadLanguages(supported: seq<Locale>)
      requires Valid()
      modifies this
      ensures Valid()
      ensures State() == AddAll(old(State()), BundlePairs(["acf-core"], supported))
    {
      AddMessageBundles(["acf-core"], supported);
    }
  }
}
