/**
 * Root registration on a Bukkit server (BukkitCommandManager): the per-root
 * registered flag, the lower-cased name -> root map, the server's
 * known-command table with forced takeover and guarded removal, the calls made
 * on the command map, and the proxy command map that routes each call to this
 * manager's map or to the one it replaced.
 */
module BukkitManager {
  import opened Text
  import opened Registration
  import LocaleBundles

  /** A root command created by a Bukkit manager; only the fields BukkitCommandManager reads. */
  class BukkitRootCommand {
    const name: string
    const manager: BukkitCommandManager
    var isRegistered: bool

    constructor (manager: BukkitCommandManager, name: string)
      ensures this.manager == manager && this.name == name && !isRegistered
    {
      this.manager := manager;
      this.name := name;
      isRegistered := false;
    }
  }

  /** A value of the server's known-command table: a root of some manager, or any other command. */
  datatype KnownCommand =
    | AcfRoot(root: BukkitRootCommand)
    | OtherCommand(commandLabel: string)

  /** A call made on the server's command map or on a command. */
  datatype CommandMapCall =
    | MapRegister(commandLabel: string, fallbackPrefix: string, root: BukkitRootCommand)
    | UnregisterKnown(commandLabel: string)
    | RootUnregister(root: BukkitRootCommand)

  type RootEntry = (string, BukkitRootCommand)

  /** The roots of the entries that are flagged registered, or not. */
  function Flagged(entries: seq<RootEntry>, registered: bool): set<BukkitRootCommand>
    reads set i | 0 <= i < |entries| :: entries[i].1
  {
    set i | 0 <= i < |entries| && entries[i].1.isRegistered == registered :: entries[i].1
  }

  // ----- registerCommand(command, force) ------------------------------------

  /** The known-command table after registering one picked entry. */
  function KnownAfterStep(known: map<string, KnownCommand>, e: RootEntry, force: bool): map<string, KnownCommand> {
    if force && Lower(e.0) in known then known - {Lower(e.0)} else known
  }

  /** The calls made for one picked entry: the forced takeover, then the registration. */
  function StepCalls(known: map<string, KnownCommand>, e: RootEntry, force: bool, fallbackPrefix: string): seq<CommandMapCall> {
    (if force && Lower(e.0) in known then [UnregisterKnown(Lower(e.0))] else [])
    + [MapRegister(Lower(e.0), fallbackPrefix, e.1)]
  }

  function KnownAfterRegister(known: map<string, KnownCommand>, picked: seq<RootEntry>, force: bool): map<string, KnownCommand> {
    if |picked| == 0 then known
    else KnownAfterStep(KnownAfterRegister(known, picked[..|picked| - 1], force), picked[|picked| - 1], force)
  }

  function RegisterCalls(known: map<string, KnownCommand>, picked: seq<RootEntry>, force: bool, fallbackPrefix: string): seq<CommandMapCall> {
    if |picked| == 0 then []
    else
      var n := |picked| - 1;
      RegisterCalls(known, picked[..n], force, fallbackPrefix)
      + StepCalls(KnownAfterRegister(known, picked[..n], force), picked[n], force, fallbackPrefix)
  }

  /** Registering one more picked entry is one more step. */
  lemma RegisterSnoc(known: map<string, KnownCommand>, picked: seq<RootEntry>, e: RootEntry, force: bool, fallbackPrefix: string)
    ensures KnownAfterRegister(known, picked + [e], force) == KnownAfterStep(KnownAfterRegister(known, picked, force), e, force)
    ensures RegisterCalls(known, picked + [e], force, fallbackPrefix) ==
            RegisterCalls(known, picked, force, fallbackPrefix) + StepCalls(KnownAfterRegister(known, picked, force), e, force, fallbackPrefix)
  {
    assert (picked + [e])[..|picked|] == picked;
  }

  /** Unregistering one more root is one more step. */
  lemma UnregisterSnoc(known: map<string, KnownCommand>, roots: seq<BukkitRootCommand>, r: BukkitRootCommand, pluginLower: string)
    ensures KnownAfterUnregisterAll(known, roots + [r], pluginLower) == KnownAfterUnregister(KnownAfterUnregisterAll(known, roots, pluginLower), r, pluginLower)
    ensures RootUnregisters(roots + [r]) == RootUnregisters(roots) + [RootUnregister(r)]
  {
    assert (roots + [r])[..|roots|] == roots;
  }

  lemma EntryUnregistersSnoc(picked: seq<RootEntry>, e: RootEntry)
    ensures Roots(picked + [e]) == Roots(picked) + [e.1]
    ensures EntryRootUnregisters(picked + [e]) == EntryRootUnregisters(picked) + [RootUnregister(e.1)]
  {
  }

  /**
   * Forced registration removes exactly the registered names from the
   * known-command table; unforced registration leaves it as it is.
   */
  lemma {:induction false} KnownAfterRegisterSpec(known: map<string, KnownCommand>, picked: seq<RootEntry>, force: bool)
    ensures KnownAfterRegister(known, picked, force) == if force then known - Names(picked) else known
  {
    if |picked| > 0 {
      var n := |picked| - 1;
      KnownAfterRegisterSpec(known, picked[..n], force);
      assert picked == picked[..n] + [picked[n]];
      NamesSnoc(picked[..n], picked[n]);
    }
  }

  /**
   * Every picked entry is registered under its lower-cased name with the
   * plugin's prefix, and the only other calls unregister a known command of
   * the same name, which happens only when forced.
   */
  lemma {:induction false} RegisterCallsSpec(known: map<string, KnownCommand>, picked: seq<RootEntry>, force: bool, fallbackPrefix: string)
    ensures forall i :: 0 <= i < |picked| ==>
              MapRegister(Lower(picked[i].0), fallbackPrefix, picked[i].1) in RegisterCalls(known, picked, force, fallbackPrefix)
    ensures forall c :: c in RegisterCalls(known, picked, force, fallbackPrefix) ==>
              (c.MapRegister? && c.fallbackPrefix == fallbackPrefix && (c.commandLabel, c.root) in Lowered(picked))
              || (c.UnregisterKnown? && force && c.commandLabel in known && c.commandLabel in Names(picked))
  {
    if |picked| > 0 {
      var n := |picked| - 1;
      var pre := picked[..n];
      RegisterCallsSpec(known, pre, force, fallbackPrefix);
      KnownAfterRegisterSpec(known, pre, force);
      assert picked == pre + [picked[n]];
      NamesSnoc(pre, picked[n]);
      LoweredSnoc(pre, picked[n]);
      forall i | 0 <= i < n ensures pre[i] == picked[i] { }
    }
  }

  /**
   * Once every root is flagged, registering the same command again picks
   * nothing: no call is made and the known-command table is left as it is.
   */
  lemma RegisterAgainChangesNothing(known: map<string, KnownCommand>, entries: seq<RootEntry>, force: bool, fallbackPrefix: string)
    ensures RegisterCalls(known, FirstEntries(entries, {}), force, fallbackPrefix) == []
    ensures KnownAfterRegister(known, FirstEntries(entries, {}), force) == known
  {
    FirstEntriesSpec(entries, {});
  }

  /** The entries with their names lower-cased. */
  function Lowered(entries: seq<RootEntry>): (r: seq<RootEntry>)
    ensures |r| == |entries| && forall i :: 0 <= i < |entries| ==> r[i] == (Lower(entries[i].0), entries[i].1)
  {
    seq(|entries|, i requires 0 <= i < |entries| => (Lower(entries[i].0), entries[i].1))
  }

  lemma LoweredSnoc(entries: seq<RootEntry>, e: RootEntry)
    ensures Lowered(entries + [e]) == Lowered(entries) + [(Lower(e.0), e.1)]
  {
  }

  // ----- unregisterCommand(root) --------------------------------------------

  /**
   * The known-command table after a root is unregistered: its name is removed
   * only if it maps to this very root; `<plugin>:<name>` is always removed.
   */
  function KnownAfterUnregister(known: map<string, KnownCommand>, root: BukkitRootCommand, pluginLower: string): map<string, KnownCommand> {
    var key := root.name;
    var kept := if key in known && known[key] == AcfRoot(root) then known - {key} else known;
    kept - {pluginLower + ":" + key}
  }

  function KnownAfterUnregisterAll(known: map<string, KnownCommand>, roots: seq<BukkitRootCommand>, pluginLower: string): map<string, KnownCommand> {
    if |roots| == 0 then known
    else KnownAfterUnregister(KnownAfterUnregisterAll(known, roots[..|roots| - 1], pluginLower), roots[|roots| - 1], pluginLower)
  }

  /**
   * Unregistering roots only removes keys, never changes a value, removes
   * every `<plugin>:<name>` key of the roots, leaves no root's name mapped to
   * that root, and keeps every key that is neither a root's name nor its
   * prefixed name.
   */
  lemma {:induction false} KnownAfterUnregisterAllSpec(known: map<string, KnownCommand>, roots: seq<BukkitRootCommand>, pluginLower: string)
    ensures var after := KnownAfterUnregisterAll(known, roots, pluginLower);
            && (forall k :: k in after ==> k in known && after[k] == known[k])
            && (forall i :: 0 <= i < |roots| ==> pluginLower + ":" + roots[i].name !in after)
            && (forall i :: 0 <= i < |roots| && roots[i].name in after ==> after[roots[i].name] != AcfRoot(roots[i]))
            && (forall k :: k in known && (forall i :: 0 <= i < |roots| ==> k != roots[i].name && k != pluginLower + ":" + roots[i].name) ==> k in after)
  {
    if |roots| > 0 {
      var n := |roots| - 1;
      KnownAfterUnregisterAllSpec(known, roots[..n], pluginLower);
      assert forall i :: 0 <= i < n ==> roots[..n][i] == roots[i];
    }
  }

  function EntryRootUnregisters(picked: seq<RootEntry>): (r: seq<CommandMapCall>)
    ensures |r| == |picked| && forall i :: 0 <= i < |picked| ==> r[i] == RootUnregister(picked[i].1)
  {
    seq(|picked|, i requires 0 <= i < |picked| => RootUnregister(picked[i].1))
  }

  function RootUnregisters(roots: seq<BukkitRootCommand>): (r: seq<CommandMapCall>)
    ensures |r| == |roots| && forall i :: 0 <= i < |roots| ==> r[i] == RootUnregister(roots[i])
  {
    seq(|roots|, i requires 0 <= i < |roots| => RootUnregister(roots[i]))
  }

  /** The roots mapped under `order`'s names, in that order. */
  function MappedRoots(m: map<string, BukkitRootCommand>, order: seq<string>): (r: seq<BukkitRootCommand>)
    requires forall k :: k in order ==> k in m
    ensures |r| == |order| && forall i :: 0 <= i < |order| ==> r[i] == m[order[i]]
  {
    seq(|order|, i requires 0 <= i < |order| => m[order[i]])
  }

  /** The prefix facts one more walked entry needs. */
  lemma WalkStep(entries: seq<RootEntry>, i: nat, keep: set<BukkitRootCommand>)
    requires i < |entries|
    ensures entries[..i + 1] == entries[..i] + [entries[i]] && entries[..i + 1][..i] == entries[..i]
    ensures Roots(entries[..i + 1]) == Roots(entries[..i]) + [entries[i].1]
    ensures FirstEntries(entries[..i + 1], keep) ==
            FirstEntries(entries[..i], keep) + (if entries[i].1 in keep && entries[i].1 !in Roots(entries[..i]) then [entries[i]] else [])
  {
    assert entries[..i + 1] == entries[..i] + [entries[i]];
    FirstEntriesSnoc(entries[..i], entries[i], keep);
  }

  class BukkitCommandManager {
    /** `plugin.getName()`. */
    const pluginName: string
    var registeredCommands: map<string, BukkitRootCommand>
    var knownCommands: map<string, KnownCommand>
    var mapCalls: seq<CommandMapCall>

    /** The manager's message bundles, created by the framework's base manager. */
    const locales: LocaleBundles.Locales

    /**
     * The plugin's platform bundles (acf-minecraft, acf-<description name> and
     * its lower-case form) are loaded for every supported locale; the command
     * map and its known commands are taken from the server.
     */
    constructor (pluginName: string, descriptionName: string, locales: LocaleBundles.Locales,
                 supported: seq<LocaleBundles.Locale>, knownCommands: map<string, KnownCommand>)
      requires locales.Valid()
      modifies locales
      ensures this.pluginName == pluginName && this.knownCommands == knownCommands && this.locales == locales
      ensures registeredCommands == map[] && mapCalls == []
      ensures locales.Valid()
      ensures locales.State() ==
              LocaleBundles.AddAll(old(locales.State()), LocaleBundles.BundlePairs(LocaleBundles.PlatformBundleNames(descriptionName), supported))
    {
      this.pluginName := pluginName;
      this.locales := locales;
      this.knownCommands := knownCommands;
      registeredCommands := map[];
      mapCalls := [];
      new;
      locales.AddMessageBundles(LocaleBundles.PlatformBundleNames(descriptionName), supported);
    }

    predicate HasRegisteredCommands()
      reads this
    {
      registeredCommands != map[]
    }

    /**
     * Walks `command.registeredCommands`: each root not yet flagged is
     * registered with the command map once, after removing a known command of
     * the same name when forced; then every root is flagged and mapped under
     * its lower-cased name.
     */
    method RegisterCommand(entries: seq<RootEntry>, force: bool)
      modifies this, Roots(entries)
      ensures registeredCommands == PutAll(old(registeredCommands), entries)
      ensures knownCommands == KnownAfterRegister(old(knownCommands), FirstEntries(entries, old(Flagged(entries, false))), force)
      ensures mapCalls == old(mapCalls) + RegisterCalls(old(knownCommands), FirstEntries(entries, old(Flagged(entries, false))), force, Lower(pluginName))
      ensures forall i :: 0 <= i < |entries| ==> entries[i].1.isRegistered
      ensures Flagged(entries, false) == {}
    {
      ghost var keep := Flagged(entries, false);
      var plugin := Lower(pluginName);
      ghost var picked: seq<RootEntry> := [];
      var i := 0;
      while i < |entries|
        invariant 0 <= i <= |entries|
        invariant picked == FirstEntries(entries[..i], keep)
        invariant registeredCommands == PutAll(old(registeredCommands), entries[..i])
        invariant knownCommands == KnownAfterRegister(old(knownCommands), picked, force)
        invariant mapCalls == old(mapCalls) + RegisterCalls(old(knownCommands), picked, force, plugin)
        invariant forall k :: 0 <= k < |entries| ==>
                    entries[k].1.isRegistered == (entries[k].1 in Roots(entries[..i]) || old(entries[k].1.isRegistered))
      {
        WalkStep(entries, i, keep);
        assert entries[i].1 in keep <==> !old(entries[i].1.isRegistered);
        ghost var isNew := entries[i].1 in keep && entries[i].1 !in Roots(entries[..i]);
        assert !entries[i].1.isRegistered <==> isNew;
        RegisterEntry(entries[i], force, plugin, picked, old(knownCommands), old(mapCalls));
        if isNew {
          picked := picked + [entries[i]];
        }
        i := i + 1;
      }
      assert entries[..i] == entries;
    }

    /**
     * One step of the registration walk: the root, unless already flagged, is
     * registered with the command map (after the forced takeover of its name)
     * and counts as picked; then it is flagged and mapped under its
     * lower-cased name.
     */
    method RegisterEntry(entry: RootEntry, force: bool, plugin: string, ghost picked: seq<RootEntry>,
                         ghost known0: map<string, KnownCommand>, ghost calls0: seq<CommandMapCall>)
      requires knownCommands == KnownAfterRegister(known0, picked, force)
      requires mapCalls == calls0 + RegisterCalls(known0, picked, force, plugin)
      modifies this, entry.1
      ensures registeredCommands == old(registeredCommands)[Lower(entry.0) := entry.1]
      ensures var now := if old(entry.1.isRegistered) then picked else picked + [entry];
              knownCommands == KnownAfterRegister(known0, now, force) &&
              mapCalls == calls0 + RegisterCalls(known0, now, force, plugin)
      ensures entry.1.isRegistered
    {
      var commandName := Lower(entry.0);
      var bukkitCommand := entry.1;
      if !bukkitCommand.isRegistered {
        RegisterSnoc(known0, picked, entry, force, plugin);
        if force {
          if commandName in knownCommands {
            mapCalls := mapCalls + [UnregisterKnown(commandName)];
            knownCommands := knownCommands - {commandName};
          }
        }
        mapCalls := mapCalls + [MapRegister(commandName, plugin, bukkitCommand)];
      }
      bukkitCommand.isRegistered := true;
      registeredCommands := registeredCommands[commandName := bukkitCommand];
    }

    /** The one-argument form: never forced, so the known-command table is left as it is. */
    method RegisterCommandUnforced(entries: seq<RootEntry>)
      modifies this, Roots(entries)
      ensures registeredCommands == PutAll(old(registeredCommands), entries)
      ensures knownCommands == old(knownCommands)
      ensures mapCalls == old(mapCalls) + RegisterCalls(old(knownCommands), FirstEntries(entries, old(Flagged(entries, false))), false, Lower(pluginName))
      ensures forall i :: 0 <= i < |entries| ==> entries[i].1.isRegistered
    {
      ghost var picked := FirstEntries(entries, Flagged(entries, false));
      RegisterCommand(entries, false);
      KnownAfterRegisterSpec(old(knownCommands), picked, false);
    }

    /**
     * Walks `command.registeredCommands.values()`: each flagged root is
     * unregistered once and every root unflagged; the name map is not touched.
     */
    method UnregisterCommand(entries: seq<RootEntry>)
      modifies this, Roots(entries)
      ensures registeredCommands == old(registeredCommands)
      ensures knownCommands == KnownAfterUnregisterAll(old(knownCommands), Roots(FirstEntries(entries, old(Flagged(entries, true)))), Lower(pluginName))
      ensures mapCalls == old(mapCalls) + EntryRootUnregisters(FirstEntries(entries, old(Flagged(entries, true))))
      ensures forall i :: 0 <= i < |entries| ==> !entries[i].1.isRegistered
    {
      ghost var keep := Flagged(entries, true);
      ghost var picked: seq<RootEntry> := [];
      var i := 0;
      while i < |entries|
        invariant 0 <= i <= |entries|
        invariant picked == FirstEntries(entries[..i], keep)
        invariant registeredCommands == old(registeredCommands)
        invariant knownCommands == KnownAfterUnregisterAll(old(knownCommands), Roots(picked), Lower(pluginName))
        invariant mapCalls == old(mapCalls) + EntryRootUnregisters(picked)
        invariant forall k :: 0 <= k < |entries| ==>
                    entries[k].1.isRegistered == (entries[k].1 !in Roots(entries[..i]) && old(entries[k].1.isRegistered))
      {
        WalkStep(entries, i, keep);
        assert entries[i].1 in keep <==> old(entries[i].1.isRegistered);
        ghost var isNew := entries[i].1 in keep && entries[i].1 !in Roots(entries[..i]);
        assert entries[i].1.isRegistered <==> isNew;
        label before:
        UnregisterEntry(entries[i], picked, old(knownCommands), old(mapCalls));
        forall k | 0 <= k < |entries|
          ensures entries[k].1.isRegistered == (entries[k].1 !in Roots(entries[..i + 1]) && old(entries[k].1.isRegistered))
        {
          if entries[k].1 != entries[i].1 {
            assert entries[k].1.isRegistered == old@before(entries[k].1.isRegistered);
          }
        }
        if isNew {
          picked := picked + [entries[i]];
        }
        i := i + 1;
      }
      assert entries[..i] == entries;
    }

    /** One step of the unregistration walk: a flagged root is unregistered and counts as picked; then it is unflagged. */
    method UnregisterEntry(entry: RootEntry, ghost picked: seq<RootEntry>,
                           ghost known0: map<string, KnownCommand>, ghost calls0: seq<CommandMapCall>)
      requires knownCommands == KnownAfterUnregisterAll(known0, Roots(picked), Lower(pluginName))
      requires mapCalls == calls0 + EntryRootUnregisters(picked)
      modifies this, entry.1
      ensures registeredCommands == old(registeredCommands)
      ensures var now := if old(entry.1.isRegistered) then picked + [entry] else picked;
              knownCommands == KnownAfterUnregisterAll(known0, Roots(now), Lower(pluginName)) &&
              mapCalls == calls0 + EntryRootUnregisters(now)
      ensures !entry.1.isRegistered
    {
      var bukkitCommand := entry.1;
      if bukkitCommand.isRegistered {
        EntryUnregistersSnoc(picked, entry);
        UnregisterSnoc(known0, Roots(picked), entry.1, Lower(pluginName));
        UnregisterRoot(bukkitCommand);
      }
      bukkitCommand.isRegistered := false;
    }

    /**
     * Unregisters the root from the command map, removes its name from the
     * known commands only if it maps to this root, and always removes
     * `<plugin>:<name>`.
     */
    method UnregisterRoot(command: BukkitRootCommand)
      modifies this
      ensures mapCalls == old(mapCalls) + [RootUnregister(command)]
      ensures knownCommands == KnownAfterUnregister(old(knownCommands), command, Lower(pluginName))
      ensures registeredCommands == old(registeredCommands)
    {
      var plugin := Lower(pluginName);
      mapCalls := mapCalls + [RootUnregister(command)];
      var key := command.name;
      if key in knownCommands && knownCommands[key] == AcfRoot(command) {
        knownCommands := knownCommands - {key};
      }
      knownCommands := knownCommands - {plugin + ":" + key};
    }

    /** Unregisters every mapped root; `order` is the map's iteration order. */
    method UnregisterCommands(order: seq<string>)
      requires NoDuplicates(order) && forall k :: k in order <==> k in registeredCommands
      modifies this
      ensures registeredCommands == old(registeredCommands)
      ensures knownCommands == KnownAfterUnregisterAll(old(knownCommands), MappedRoots(registeredCommands, order), Lower(pluginName))
      ensures mapCalls == old(mapCalls) + RootUnregisters(MappedRoots(registeredCommands, order))
    {
      var i := 0;
      while i < |order|
        invariant 0 <= i <= |order|
        invariant registeredCommands == old(registeredCommands)
        invariant knownCommands == KnownAfterUnregisterAll(old(knownCommands), MappedRoots(registeredCommands, order[..i]), Lower(pluginName))
        invariant mapCalls == old(mapCalls) + RootUnregisters(MappedRoots(registeredCommands, order[..i]))
      {
        var root := registeredCommands[order[i]];
        assert MappedRoots(registeredCommands, order[..i + 1]) == MappedRoots(registeredCommands, order[..i]) + [root];
        assert MappedRoots(registeredCommands, order[..i + 1])[..i] == MappedRoots(registeredCommands, order[..i]);
        UnregisterRoot(root);
        i := i + 1;
      }
      assert order[..i] == order;
    }
  }

  // ----- ProxyCommandMap ------------------------------------------------------

  /** A call on a command map; the senders are left out. */
  datatype MapCall =
    | RegisterAllCall(fallbackPrefix: string, commands: seq<KnownCommand>)
    | RegisterLabelCall(commandLabel: string, fallbackPrefix: string, command: KnownCommand)
    | RegisterCall(fallbackPrefix: string, command: KnownCommand)
    | DispatchCall(cmdLine: string)
    | GetCommandCall(name: string)
    | TabCompleteCall(cmdLine: string)
    | ClearCommandsCall

  /**
   * The command map put in place of a foreign one: its own (inherited)
   * behaviour is the `ownCalls` log, the replaced map's the `proxiedCalls` log.
   * Its known-command table is the manager's.
   */
  class ProxyCommandMap {
    const manager: BukkitCommandManager
    var ownCalls: seq<MapCall>
    var proxiedCalls: seq<MapCall>

    constructor (manager: BukkitCommandManager)
      ensures this.manager == manager && ownCalls == [] && proxiedCalls == []
    {
      this.manager := manager;
      ownCalls := [];
      proxiedCalls := [];
    }

    /** A root made by this map's manager. */
    predicate IsOurCommand(command: KnownCommand) {
      command.AcfRoot? && command.root.manager == manager
    }

    /** The known command under the first space-separated token, lower-cased, is ours. */
    predicate IsOurCommandLine(cmdLine: string)
      reads manager
    {
      var args := Split(cmdLine, " ");
      |args| != 0 && Lower(args[0]) in manager.knownCommands && IsOurCommand(manager.knownCommands[Lower(args[0])])
    }

    /** Goes to this map iff `ours`, else to the replaced one. */
    method Route(call: MapCall, ours: bool)
      modifies this
      ensures ours ==> ownCalls == old(ownCalls) + [call] && proxiedCalls == old(proxiedCalls)
      ensures !ours ==> proxiedCalls == old(proxiedCalls) + [call] && ownCalls == old(ownCalls)
    {
      if ours {
        ownCalls := ownCalls + [call];
      } else {
        proxiedCalls := proxiedCalls + [call];
      }
    }

    method RegisterAll(fallbackPrefix: string, commands: seq<KnownCommand>)
      modifies this
      ensures proxiedCalls == old(proxiedCalls) + [RegisterAllCall(fallbackPrefix, commands)] && ownCalls == old(ownCalls)
    {
      Route(RegisterAllCall(fallbackPrefix, commands), false);
    }

    method RegisterLabel(commandLabel: string, fallbackPrefix: string, command: KnownCommand)
      modifies this
      ensures IsOurCommand(command) ==> ownCalls == old(ownCalls) + [RegisterLabelCall(commandLabel, fallbackPrefix, command)] && proxiedCalls == old(proxiedCalls)
      ensures !IsOurCommand(command) ==> proxiedCalls == old(proxiedCalls) + [RegisterLabelCall(commandLabel, fallbackPrefix, command)] && ownCalls == old(ownCalls)
    {
      Route(RegisterLabelCall(commandLabel, fallbackPrefix, command), IsOurCommand(command));
    }

    method Register(fallbackPrefix: string, command: KnownCommand)
      modifies this
      ensures IsOurCommand(command) ==> ownCalls == old(ownCalls) + [RegisterCall(fallbackPrefix, command)] && proxiedCalls == old(proxiedCalls)
      ensures !IsOurCommand(command) ==> proxiedCalls == old(proxiedCalls) + [RegisterCall(fallbackPrefix, command)] && ownCalls == old(ownCalls)
    {
      Route(RegisterCall(fallbackPrefix, command), IsOurCommand(command));
    }

    method Dispatch(cmdLine: string)
      modifies this
      ensures IsOurCommandLine(cmdLine) ==> ownCalls == old(ownCalls) + [DispatchCall(cmdLine)] && proxiedCalls == old(proxiedCalls)
      ensures !IsOurCommandLine(cmdLine) ==> proxiedCalls == old(proxiedCalls) + [DispatchCall(cmdLine)] && ownCalls == old(ownCalls)
    {
      Route(DispatchCall(cmdLine), IsOurCommandLine(cmdLine));
    }

    method GetCommand(name: string)
      modifies this
      ensures IsOurCommandLine(name) ==> ownCalls == old(ownCalls) + [GetCommandCall(name)] && proxiedCalls == old(proxiedCalls)
      ensures !IsOurCommandLine(name) ==> proxiedCalls == old(proxiedCalls) + [GetCommandCall(name)] && ownCalls == old(ownCalls)
    {
      Route(GetCommandCall(name), IsOurCommandLine(name));
    }

    method TabComplete(cmdLine: string)
      modifies this
      ensures IsOurCommandLine(cmdLine) ==> ownCalls == old(ownCalls) + [TabCompleteCall(cmdLine)] && proxiedCalls == old(proxiedCalls)
      ensures !IsOurCommandLine(cmdLine) ==> proxiedCalls == old(proxiedCalls) + [TabCompleteCall(cmdLine)] && ownCalls == old(ownCalls)
    {
      Route(TabCompleteCall(cmdLine), IsOurCommandLine(cmdLine));
    }

    /** Clears both maps. */
    method ClearCommands()
      modifies this
      ensures ownCalls == old(ownCalls) + [ClearCommandsCall] && proxiedCalls == old(proxiedCalls) + [ClearCommandsCall]
    {
      ownCalls := ownCalls + [ClearCommandsCall];
      proxiedCalls := proxiedCalls + [ClearCommandsCall];
    }
  }

  /** A line of spaces only has no tokens, so it is never ours. */
  lemma BlankLineIsNotOurs(proxy: ProxyCommandMap, cmdLine: string)
    requires |cmdLine| > 0 && forall i :: 0 <= i < |cmdLine| ==> cmdLine[i] == ' '
    ensures !proxy.IsOurCommandLine(cmdLine)
  {
    SplitIsEmpty(cmdLine, ' ');
  }

  /**
   * A line that is a word, or a word followed by a space and anything, is ours
   * exactly when the known command under the lower-cased word is a root of
   * this map's manager.
   */
  lemma CommandLineDecidedByFirstWord(proxy: ProxyCommandMap, cmdLine: string, word: string)
    requires |word| > 0 && forall i :: 0 <= i < |word| ==> word[i] != ' '
    requires cmdLine == word || StartsWith(cmdLine, word + " ")
    ensures proxy.IsOurCommandLine(cmdLine) <==>
            Lower(word) in proxy.manager.knownCommands && proxy.IsOurCommand(proxy.manager.knownCommands[Lower(word)])
  {
    SplitFirstWord(cmdLine, word);
  }
}
