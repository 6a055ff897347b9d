/**
 * Root registration on a Bungee proxy (BungeeCommandManager): the per-root
 * registered flag, the lower-cased name -> root map and the plugin-manager
 * calls made, plus the lazily created locales, contexts and completions.
 */
module BungeeManager {
  import opened Wrappers
  import opened Text
  import opened Registration
  import opened LocaleBundles
  import opened BungeeLocaleBundles
  import opened BungeeRoot

  /** A call into the proxy's plugin manager. */
  datatype ProxyCall =
    | RegisterWithProxy(root: BungeeRootCommand)
    | UnregisterWithProxy(root: BungeeRootCommand)

  type RootEntry = (string, BungeeRootCommand)

  function RegisterCalls(picked: seq<RootEntry>): (r: seq<ProxyCall>)
    ensures |r| == |picked| && forall i :: 0 <= i < |picked| ==> r[i] == RegisterWithProxy(picked[i].1)
  {
    seq(|picked|, i requires 0 <= i < |picked| => RegisterWithProxy(picked[i].1))
  }

  function UnregisterCalls(roots: seq<BungeeRootCommand>): (r: seq<ProxyCall>)
    ensures |r| == |roots| && forall i :: 0 <= i < |roots| ==> r[i] == UnregisterWithProxy(roots[i])
  {
    seq(|roots|, i requires 0 <= i < |roots| => UnregisterWithProxy(roots[i]))
  }

  function UnregisterEntryCalls(picked: seq<RootEntry>): (r: seq<ProxyCall>)
    ensures |r| == |picked| && forall i :: 0 <= i < |picked| ==> r[i] == UnregisterWithProxy(picked[i].1)
  {
    seq(|picked|, i requires 0 <= i < |picked| => UnregisterWithProxy(picked[i].1))
  }

  /** The roots mapped under `order`'s names, in that order. */
  function MappedRoots(m: map<string, BungeeRootCommand>, order: seq<string>): (r: seq<BungeeRootCommand>)
    requires forall k :: k in order ==> k in m
    ensures |r| == |order| && forall i :: 0 <= i < |order| ==> r[i] == m[order[i]]
  {
    seq(|order|, i requires 0 <= i < |order| => m[order[i]])
  }

  /** The roots of the entries that are flagged registered, or not. */
  function Flagged(entries: seq<RootEntry>, registered: bool): set<BungeeRootCommand>
    reads set i | 0 <= i < |entries| :: entries[i].1
  {
    set i | 0 <= i < |entries| && entries[i].1.isRegistered == registered :: entries[i].1
  }

  /** The prefix facts one more walked entry needs. */
  lemma WalkStep(entries: seq<RootEntry>, i: nat, keep: set<BungeeRootCommand>)
    requires i < |entries|
    ensures entries[..i + 1] == entries[..i] + [entries[i]] && entries[..i + 1][..i] == entries[..i]
    ensures FirstEntries(entries[..i + 1], keep) ==
            FirstEntries(entries[..i], keep) + (if entries[i].1 in keep && entries[i].1 !in Roots(entries[..i]) then [entries[i]] else [])
  {
    assert entries[..i + 1] == entries[..i] + [entries[i]];
    FirstEntriesSnoc(entries[..i], entries[i], keep);
  }

  /** BungeeCommandContexts and BungeeCommandCompletions are not part of this model. */
  class CommandContexts {
    constructor () {}
  }

  class CommandCompletions {
    constructor () {}
  }

  /** An object passed as an issuer: its runtime class name and whether it is a CommandSender. */
  datatype PlatformObject = PlatformObject(className: string, isCommandSender: bool)

  /** A command issuer wrapping a sender. */
  datatype Issuer = Issuer(sender: PlatformObject)

  /** Only a CommandSender is an issuer; anything else is an IllegalArgumentException with this message. */
  function GetCommandIssuer(issuer: PlatformObject): (r: Result<Issuer, string>)
    ensures r.Success? <==> issuer.isCommandSender
    ensures r.Success? ==> r.value.sender == issuer
    ensures r.Failure? ==> r.error == issuer.className + " is not a Command Issuer."
  {
    if !issuer.isCommandSender then Failure(issuer.className + " is not a Command Issuer.")
    else Success(Issuer(issuer))
  }

  class BungeeCommandManager {
    /** `plugin.getDescription().getName()`. */
    const descriptionName: string
    var registeredCommands: map<string, BungeeRootCommand>
    var proxyCalls: seq<ProxyCall>
    var locales: BungeeLocales?
    var contexts: CommandContexts?
    var completions: CommandCompletions?

    /** The constructor loads the locales at once. */
    constructor (descriptionName: string, supported: seq<Locale>)
      ensures this.descriptionName == descriptionName
      ensures registeredCommands == map[] && proxyCalls == [] && contexts == null && completions == null
      ensures locales != null && fresh(locales) && fresh(locales.locales) && locales.locales.Valid()
      ensures locales.locales.State() == PlatformLoad(BundleState({}, []), descriptionName, supported)
    {
      this.descriptionName := descriptionName;
      registeredCommands := map[];
      proxyCalls := [];
      locales := null;
      contexts := null;
      completions := null;
      new;
      var l := GetLocales(supported);
    }

    /** Created, and its languages loaded, only on the first call. */
    method GetLocales(supported: seq<Locale>) returns (l: BungeeLocales)
      modifies this
      ensures locales == l
      ensures old(locales) != null ==> l == old(locales)
      ensures old(locales) == null ==>
                fresh(l) && fresh(l.locales) && l.descriptionName == descriptionName && l.locales.Valid() &&
                l.locales.State() == PlatformLoad(BundleState({}, []), descriptionName, supported)
      ensures registeredCommands == old(registeredCommands) && proxyCalls == old(proxyCalls)
      ensures contexts == old(contexts) && completions == old(completions)
    {
      if locales == null {
        locales := new BungeeLocales(descriptionName);
        locales.LoadLanguages(supported);
      }
      l := locales;
    }

    method GetCommandContexts() returns (c: CommandContexts)
      modifies this
      ensures contexts == c && (old(contexts) != null ==> c == old(contexts)) && (old(contexts) == null ==> fresh(c))
      ensures registeredCommands == old(registeredCommands) && proxyCalls == old(proxyCalls)
      ensures locales == old(locales) && completions == old(completions)
    {
      if contexts == null {
        contexts := new CommandContexts();
      }
      c := contexts;
    }

    method GetCommandCompletions() returns (c: CommandCompletions)
      modifies this
      ensures completions == c && (old(completions) != null ==> c == old(completions)) && (old(completions) == null ==> fresh(c))
      ensures registeredCommands == old(registeredCommands) && proxyCalls == old(proxyCalls)
      ensures locales == old(locales) && contexts == old(contexts)
    {
      if completions == null {
        completions := new CommandCompletions();
      }
      c := completions;
    }

    /**
     * Walks `command.registeredCommands` (the entries, in iteration order):
     * each root not yet flagged is registered with the proxy once, then every
     * root is flagged and mapped under its lower-cased name.
     */
    method RegisterCommand(entries: seq<RootEntry>)
      modifies this, Roots(entries)
      ensures registeredCommands == PutAll(old(registeredCommands), entries)
      ensures proxyCalls == old(proxyCalls) + RegisterCalls(FirstEntries(entries, old(Flagged(entries, false))))
      ensures forall i :: 0 <= i < |entries| ==> entries[i].1.isRegistered
      ensures forall i :: 0 <= i < |entries| ==> entries[i].1.OnlyFlagChanged()
      ensures |entries| > 0 ==> HasRegisteredCommands()
      ensures locales == old(locales) && contexts == old(contexts) && completions == old(completions)
    {
      ghost var keep := Flagged(entries, false);
      var i := 0;
      while i < |entries|
        invariant 0 <= i <= |entries|
        invariant registeredCommands == PutAll(old(registeredCommands), entries[..i])
        invariant proxyCalls == old(proxyCalls) + RegisterCalls(FirstEntries(entries[..i], keep))
        invariant forall k :: 0 <= k < |entries| ==>
                    entries[k].1.isRegistered == (entries[k].1 in Roots(entries[..i]) || old(entries[k].1.isRegistered))
        invariant forall k :: 0 <= k < |entries| ==> entries[k].1.OnlyFlagChanged()
        invariant locales == old(locales) && contexts == old(contexts) && completions == old(completions)
      {
        WalkStep(entries, i, keep);
        assert Roots(entries[..i + 1]) == Roots(entries[..i]) + [entries[i].1];
        assert entries[i].1 in keep <==> !old(entries[i].1.isRegistered);
        assert !entries[i].1.isRegistered <==> entries[i].1 in keep && entries[i].1 !in Roots(entries[..i]);
        RegisterEntry(entries[i]);
        i := i + 1;
      }
      assert entries[..i] == entries;
      if |entries| > 0 {
        PutAllNonEmpty(old(registeredCommands), entries);
      }
    }

    /** One step of the registration walk. */
    method RegisterEntry(entry: RootEntry)
      modifies this, entry.1
      ensures registeredCommands == old(registeredCommands)[Lower(entry.0) := entry.1]
      ensures proxyCalls == old(proxyCalls) + (if old(entry.1.isRegistered) then [] else [RegisterWithProxy(entry.1)])
      ensures entry.1.isRegistered && entry.1.OnlyFlagChanged()
      ensures locales == old(locales) && contexts == old(contexts) && completions == old(completions)
    {
      var commandName := Lower(entry.0);
      var bungeeCommand := entry.1;
      if !bungeeCommand.isRegistered {
        proxyCalls := proxyCalls + [RegisterWithProxy(bungeeCommand)];
      }
      bungeeCommand.isRegistered := true;
      registeredCommands := registeredCommands[commandName := bungeeCommand];
    }

    /**
     * Each flagged root is unregistered from the proxy once; then every root
     * is unflagged and its lower-cased name removed from the map.
     */
    method UnregisterCommand(entries: seq<RootEntry>)
      modifies this, Roots(entries)
      ensures registeredCommands == old(registeredCommands) - Names(entries)
      ensures proxyCalls == old(proxyCalls) + UnregisterEntryCalls(FirstEntries(entries, old(Flagged(entries, true))))
      ensures forall i :: 0 <= i < |entries| ==> !entries[i].1.isRegistered
      ensures forall i :: 0 <= i < |entries| ==> entries[i].1.OnlyFlagChanged()
      ensures locales == old(locales) && contexts == old(contexts) && completions == old(completions)
    {
      ghost var keep := Flagged(entries, true);
      var i := 0;
      while i < |entries|
        invariant 0 <= i <= |entries|
        invariant registeredCommands == RemoveAll(old(registeredCommands), entries[..i])
        invariant proxyCalls == old(proxyCalls) + UnregisterEntryCalls(FirstEntries(entries[..i], keep))
        invariant forall k :: 0 <= k < |entries| ==>
                    entries[k].1.isRegistered == (entries[k].1 !in Roots(entries[..i]) && old(entries[k].1.isRegistered))
        invariant forall k :: 0 <= k < |entries| ==> entries[k].1.OnlyFlagChanged()
        invariant locales == old(locales) && contexts == old(contexts) && completions == old(completions)
      {
        WalkStep(entries, i, keep);
        assert Roots(entries[..i + 1]) == Roots(entries[..i]) + [entries[i].1];
        assert entries[i].1 in keep <==> old(entries[i].1.isRegistered);
        assert entries[i].1.isRegistered <==> entries[i].1 in keep && entries[i].1 !in Roots(entries[..i]);
        UnregisterEntry(entries[i]);
        i := i + 1;
      }
      assert entries[..i] == entries;
      RemoveAllSpec(old(registeredCommands), entries);
    }

    /** One step of the unregistration walk. */
    method UnregisterEntry(entry: RootEntry)
      modifies this, entry.1
      ensures registeredCommands == old(registeredCommands) - {Lower(entry.0)}
      ensures proxyCalls == old(proxyCalls) + (if old(entry.1.isRegistered) then [UnregisterWithProxy(entry.1)] else [])
      ensures !entry.1.isRegistered && entry.1.OnlyFlagChanged()
      ensures locales == old(locales) && contexts == old(contexts) && completions == old(completions)
    {
      var commandName := Lower(entry.0);
      var bungeeCommand := entry.1;
      if bungeeCommand.isRegistered {
        UnregisterRoot(bungeeCommand);
      }
      bungeeCommand.isRegistered := false;
      registeredCommands := registeredCommands - {commandName};
    }

    /** `getPluginManager().unregisterCommand(command)`. */
    method UnregisterRoot(command: BungeeRootCommand)
      modifies this
      ensures proxyCalls == old(proxyCalls) + [UnregisterWithProxy(command)]
      ensures registeredCommands == old(registeredCommands)
      ensures locales == old(locales) && contexts == old(contexts) && completions == old(completions)
    {
      proxyCalls := proxyCalls + [UnregisterWithProxy(command)];
    }

    /**
     * Unregisters every mapped root from the proxy; `order` is the map's
     * iteration order. The map and the flags stay as they are.
     */
    method UnregisterCommands(order: seq<string>)
      requires NoDuplicates(order) && forall k :: k in order <==> k in registeredCommands
      modifies this
      ensures registeredCommands == old(registeredCommands)
      ensures proxyCalls == old(proxyCalls) + UnregisterCalls(MappedRoots(registeredCommands, order))
      ensures locales == old(locales) && contexts == old(contexts) && completions == old(completions)
    {
      var i := 0;
      while i < |order|
        invariant 0 <= i <= |order|
        invariant registeredCommands == old(registeredCommands)
        invariant proxyCalls == old(proxyCalls) + UnregisterCalls(MappedRoots(registeredCommands, order[..i]))
        invariant locales == old(locales) && contexts == old(contexts) && completions == old(completions)
      {
        UnregisterRoot(registeredCommands[order[i]]);
        assert MappedRoots(registeredCommands, order[..i + 1]) == MappedRoots(registeredCommands, order[..i]) + [registeredCommands[order[i]]];
        i := i + 1;
      }
      assert order[..i] == order;
    }

    predicate HasRegisteredCommands()
      reads this
    {
      registeredCommands != map[]
    }
  }
}
