# Aikar/commands: help index, bundles, registration and resolvers

A Dafny model of the parts of the Aikar command framework (ACF) that keep
bookkeeping and make decisions on their own, without the dispatcher:

- **Help index.** `CommandHelp` lists the sub-commands an issuer may run. Each
  command appears once. It scores entries against search words, ranks them
  stably by descending score and shows one page.
- **Message bundles.** `Locales`, `BungeeLocales` and `SpongeLocales` load each
  (bundle, locale) pair once, back-fill missing locales and mark a missing
  message key.
- **Bungee root command.** `BungeeRootCommand` chooses the default command
  group and merges its children's tab completions.
- **Brigadier projection.** `ACFBrigadierManager` keeps a class to argument-type
  table. It turns a root's sub-commands into literal nodes, each with a chain
  of parameter nodes.
- **Registration.** The Bungee and Bukkit managers keep a registered flag per
  root and a lower-cased name to root map. They call the platform only when the
  flag allows it. For Bukkit the model also covers:
  - forced takeover of a known command name;
  - guarded removal from the server's known-command table;
  - the proxy command map that routes each call to its own map or to the one it
    replaced.
- **Sponge argument resolvers.** `SpongeCommandContexts` resolves online
  players (one or several), worlds, the player issuer, and text colours and
  styles. For each resolver the model states:
  - which arguments it consumes;
  - which platform lookup decides the value;
  - which error it raises and which message it sends.

Modules and files:

- `wrappers.dfy`: Option and Result.
- `text.dfy`: ASCII case folding, containment, and `Pattern.split` on a literal
  separator.
- `commands.dfy`: the values handed in by framework classes that are not part
  of this model.
- `registration.dfy`: the name map and the "first time a root is met" walk
  shared by the managers.
- One file per core class: `command_help.dfy`, `locales.dfy`,
  `bungee_locales.dfy`, `sponge_locales.dfy`, `bungee_root_command.dfy`,
  `bungee_command_manager.dfy`, `bukkit_command_manager.dfy`,
  `brigadier_manager.dfy`, `sponge_command_contexts.dfy`.

Classes whose fields the source updates in place are Dafny classes, and their
methods state the whole new state. Each of them is
proved against a specification function: a method's `ensures` ties its result
or new state to a function of its inputs, and the lemmas beside that function
state what the source promises.

The following are parameters of the model:

- the platform: the proxy plugin manager, the Bukkit command map, the Sponge
  registry, player search, worlds and name simplification;
- the framework parts that are not part of this model: permissions,
  `shouldShow`, `addChildShared` and child tab completion;
- the iteration order of hash maps and multimaps.

Calls into the platform are recorded as call logs.

How some Java constructs are represented:

- `ACFPatterns.SPACE` and `ACFPatterns.COMMA` are taken to be the literal
  patterns `" "` and `","`.
- `Pattern.split` is modelled exactly for a literal separator:
  - trailing empty pieces are dropped;
  - an input without a match is returned whole;
  - an empty separator splits between every two characters.
- Java object identity is Dafny object identity for class instances. For
  `RegisteredCommand` and `BaseCommand` values it is an explicit `identity`
  field.

`ProxyCommandMap.isOurCommand(String)` reads an unqualified `knownCommands`.
Inside the inner class this is the field it inherits from `SimpleCommandMap`,
not the manager's field. The two are the same map, though, because the manager
reads its `knownCommands` by reflection from the command map, and that map is
the proxy whenever a proxy exists. The model therefore reads the manager's
table. That table holds what the server supplied at construction, minus the
manager's own removals; it never gains the entries `SimpleCommandMap.register`
adds, so the routing of a command line is stated for a given table and not for
the table Bukkit builds (see "## Left out").

## Model

| member | source | states |
|---|---|---|
| Help.HelpCommandsSpec | core/src/main/java/co/aikar/commands/CommandHelp.java:52-65 | the help list holds no command twice; each of its commands is permitted and reachable under a key other than `__default`/`__catchunknown`; every such command is in the list |
| Help.CommandHelp.constructor | core/src/main/java/co/aikar/commands/CommandHelp.java:47-66 | the commands of the built list are exactly the help commands in multimap order, each with the initial score; perPage is the manager default, page 0, no search |
| Help.CommandHelp.UpdateSearchScore | core/src/main/java/co/aikar/commands/CommandHelp.java:69-100 | the nested scoring loops compute the search score of the entry's command: 1 for a null or empty search, else the per-word sum |
| Help.WordsScoreInsert | core/src/main/java/co/aikar/commands/CommandHelp.java:76-99 | inserting a word anywhere in the search adds exactly that word's score |
| Help.SearchScoreMonotone | core/src/main/java/co/aikar/commands/CommandHelp.java:76-99 | adding a word to a non-empty search never lowers an entry's score |
| Help.SubCommandsScorePositive | core/src/main/java/co/aikar/commands/CommandHelp.java:79-86 | the sub-commands add something for a word iff one of them contains the word or is contained in it, case-insensitively |
| Help.WordScorePositive | core/src/main/java/co/aikar/commands/CommandHelp.java:77-98 | a word scores for a command iff it matches a sub-command (either direction), the description, the parameter syntax or non-null search tags |
| Help.CommandHelp.SetSearch | core/src/main/java/co/aikar/commands/CommandHelp.java:189-192 | every entry's score is recomputed for the new search; the search is stored; page, perPage and the list otherwise unchanged |
| Help.CommandHelp.SetPerPage | core/src/main/java/co/aikar/commands/CommandHelp.java:176-178 | perPage is set and nothing else changes |
| Help.CommandHelp.SetPage | core/src/main/java/co/aikar/commands/CommandHelp.java:180-182 | page is set and nothing else changes |
| Help.CommandHelp.SetPageAndPerPage | core/src/main/java/co/aikar/commands/CommandHelp.java:184-187 | page and perPage are set and nothing else changes |
| Help.InsertMultiset | core/src/main/java/co/aikar/commands/CommandHelp.java:118 | inserting into the ranking adds exactly the inserted entry |
| Help.InsertSorted | core/src/main/java/co/aikar/commands/CommandHelp.java:118 | insertion into a list sorted by descending score keeps it sorted |
| Help.InsertStable | core/src/main/java/co/aikar/commands/CommandHelp.java:118 | inserting places the entry after every entry of equal score |
| Help.SortByScorePermutation | core/src/main/java/co/aikar/commands/CommandHelp.java:116-118 | the ranking is a permutation of the shown entries |
| Help.SortByScoreSorted | core/src/main/java/co/aikar/commands/CommandHelp.java:118 | the ranking puts higher scores first |
| Help.SortByScoreStable | core/src/main/java/co/aikar/commands/CommandHelp.java:118 | entries with equal scores keep their list order (the stream sort is stable) |
| Help.SortByScoreSpec | core/src/main/java/co/aikar/commands/CommandHelp.java:116-118 | the ranking is a permutation, descending by score, and stable for every score |
| Help.RankedLength | core/src/main/java/co/aikar/commands/CommandHelp.java:116-119 | the ranking has as many entries as pass `shouldShow` |
| Help.TotalPagesIsCeiling | core/src/main/java/co/aikar/commands/CommandHelp.java:150 | for a positive page size the page count is the ceiling of totalResults / perPage |
| Help.PageRange | core/src/main/java/co/aikar/commands/CommandHelp.java:125-146 | where the page walk stops it has shown exactly the clipped positions [min, min+perPage) |
| Help.PageWalk | core/src/main/java/co/aikar/commands/CommandHelp.java:133-146 | the walk stops at the end of the results or at position max, and shows the results from position min up to where it stopped |
| Help.HelpPageShows | core/src/main/java/co/aikar/commands/CommandHelp.java:124-146 | a page shows nothing when min >= the number of help entries, else exactly the ranked results at positions [min, min+perPage) clipped to the results |
| Help.HelpPageSize | core/src/main/java/co/aikar/commands/CommandHelp.java:125-146 | a page never shows more than perPage entries |
| Help.HelpPageSorted | core/src/main/java/co/aikar/commands/CommandHelp.java:116-146 | when an entry passes `shouldShow`, the page's entries are in descending score order |
| Help.NoMatchOutcome | core/src/main/java/co/aikar/commands/CommandHelp.java:119-123 | "no command matched" is sent iff no help entry passes `shouldShow`, and then all entries are walked in list order |
| Help.NoResultsOutcome | core/src/main/java/co/aikar/commands/CommandHelp.java:124-131 | "no results" is sent iff (page-1)*perPage >= the number of help entries |
| Help.PageInformationOutcome | core/src/main/java/co/aikar/commands/CommandHelp.java:147-153 | page information (page, ceiling page count, all help entries) is sent iff the page exists and min > 0 or results follow the page |
| Help.CommandHelp.ShowHelp | core/src/main/java/co/aikar/commands/CommandHelp.java:114-154 | the messages sent are those of HelpPage: the no-match, no-results, help-line and page-information outcomes above, with the corrected end-of-page test |
| Help.WalkAsWritten | core/src/main/java/co/aikar/commands/CommandHelp.java:133-147 | the loop as written emits positions [min, max), but afterwards reports a remaining entry only when at least two entries follow position max - 1 |
| Help.AsWrittenMissesNextPage | core/src/main/java/co/aikar/commands/CommandHelp.java:133-153 | runs the as-written walk for two shown entries, page 1, perPage 1: it shows position 0 only, so an entry follows the page, yet neither `min > 0` nor `results.hasNext()` holds and no page information is sent |
| Help.CorrectedShowsNextPage | core/src/main/java/co/aikar/commands/CommandHelp.java:147-153 | for the same two entries the corrected walk sends page information (page 1 of 2) |
| Help.FormatReplacementsSpec | core/src/main/java/co/aikar/commands/CommandHelp.java:162-170 | `{command}`, `{parameters}` and `{description}` map to the entry's values; `{separator}` is "-" iff the description is non-empty and "" iff it is empty |
| LocaleBundles.Locales.constructor | core/src/main/java/co/aikar/commands/Locales.java:43-46 | no bundle is loaded or forwarded |
| LocaleBundles.Locales.AddMessageBundle | core/src/main/java/co/aikar/commands/Locales.java:79-84 | a pair not yet loaded is recorded and forwarded once; a loaded pair changes nothing; each loaded pair stays forwarded exactly once |
| LocaleBundles.Locales.AddMessageBundles | core/src/main/java/co/aikar/commands/Locales.java:71-77 | the state is that of adding (name, locale) for each name, then each supported locale |
| LocaleBundles.AddAllConsistent | core/src/main/java/co/aikar/commands/Locales.java:79-84 | adding pairs keeps every loaded pair forwarded exactly once and never removes a forwarded pair |
| LocaleBundles.AddAllLoaded | core/src/main/java/co/aikar/commands/Locales.java:79-84 | after adding, exactly the earlier pairs and the added ones are loaded |
| LocaleBundles.AddAllPresent | core/src/main/java/co/aikar/commands/Locales.java:80 | adding pairs that are all loaded already changes nothing |
| LocaleBundles.AddAllIdempotent | core/src/main/java/co/aikar/commands/Locales.java:71-84 | adding the same pairs twice is adding them once |
| LocaleBundles.BundlePairsMembers | core/src/main/java/co/aikar/commands/Locales.java:71-77 | addMessageBundles adds exactly the pairs of a given name and a supported locale |
| LocaleBundles.LocalePairsMembers | core/src/main/java/co/aikar/commands/Locales.java:63-69 | loadMissingBundles adds exactly the pairs of a loaded name and a supported locale |
| LocaleBundles.LoadMissingSpec | core/src/main/java/co/aikar/commands/Locales.java:63-69 | afterwards every loaded bundle name is loaded for every supported locale, no new bundle name appears and nothing is lost |
| LocaleBundles.Locales.LoadMissingBundles | core/src/main/java/co/aikar/commands/Locales.java:63-69 | the nested loops add the pairs of every supported locale with every loaded name, walking a snapshot of the names in iteration order (the corrected form of the live-view walk) |
| LocaleBundles.KeysWalkAsWritten | core/src/main/java/co/aikar/commands/Locales.java:65-67 | the as-written inner loop over the live keys view: loaded pairs only grow, and it throws only at an entry that has more values of its name after it and whose name lacked the locale |
| LocaleBundles.KeysWalkCompletes | core/src/main/java/co/aikar/commands/Locales.java:65-67 | when the as-written inner loop does not throw, it adds exactly the listed names with the locale, as the snapshot walk does |
| LocaleBundles.KeysWalkPresent | core/src/main/java/co/aikar/commands/Locales.java:65-67 | when every listed name already has the locale, the inner loop adds nothing and never throws |
| LocaleBundles.LoadMissingAsWritten | core/src/main/java/co/aikar/commands/Locales.java:63-69 | the as-written back-fill, one new keys iterator per supported locale, ending at the first exception; loaded pairs only grow |
| LocaleBundles.TwoBundlesGrouped | core/src/main/java/co/aikar/commands/Locales.java:65 | the two-bundle listing is a hash multimap's grouped listing of its loaded pairs |
| LocaleBundles.AsWrittenStopsBackFill | core/src/main/java/co/aikar/commands/Locales.java:63-69 | for bundles a and b loaded for en and de, with fr added, the as-written back-fill throws after loading a for fr, and b is never loaded for fr |
| LocaleBundles.SnapshotCompletesBackFill | core/src/main/java/co/aikar/commands/Locales.java:63-69 | the snapshot back-fill of the same state loads b for fr |
| LocaleBundles.Locales.LoadLanguages | core/src/main/java/co/aikar/commands/Locales.java:48-50 | acf-core is added for every supported locale |
| LocaleBundles.MissingKeyMarkerRecoversKey | core/src/main/java/co/aikar/commands/Locales.java:103 | the missing-key marker is `<MISSING_LANGUAGE_KEY:` + key + `>`, from which the key can be read back |
| LocaleBundles.MissingKeyMarkerInjective | core/src/main/java/co/aikar/commands/Locales.java:103 | two different missing keys never share a marker |
| LocaleBundles.GetMessage | core/src/main/java/co/aikar/commands/Locales.java:99-106 | a message is always returned: a found one as is and nothing logged; a missing key returns exactly `<MISSING_LANGUAGE_KEY:` + key + `>`, from which the key can be read back, and logs "Missing Language Key: " + key |
| LocaleBundles.ReplaceI18NStrings | core/src/main/java/co/aikar/commands/Locales.java:108-127 | null gives null and only null does; a message the pattern does not match is returned unchanged |
| LocaleBundles.PlatformLoadSpec | bungee/src/main/java/co/aikar/commands/BungeeLocales.java:14-18 | a platform load records acf-core, acf-minecraft, acf-&lt;name&gt; and its lower-case form for every supported locale, and nothing else |
| LocaleBundles.PlatformLoadLowerCase | bungee/src/main/java/co/aikar/commands/BungeeLocales.java:16-17 | when acf-&lt;name&gt; is already lower case the lower-cased bundle adds nothing |
| LocaleBundles.PlatformLoadIdempotent | sponge/src/main/java/co/aikar/commands/SpongeLocales.java:13-17 | loading the platform languages twice records nothing new the second time |
| BungeeLocaleBundles.BungeeLocales.constructor | bungee/src/main/java/co/aikar/commands/BungeeLocales.java:6-11 | a fresh, empty bundle set; the description name is kept |
| BungeeLocaleBundles.BungeeLocales.LoadLanguages | bungee/src/main/java/co/aikar/commands/BungeeLocales.java:13-18 | the state is the platform load for `acf-` + the description name: acf-core, acf-minecraft, the plugin bundle and its lower-case form |
| SpongeLocaleBundles.SpongeLocales.constructor | sponge/src/main/java/co/aikar/commands/SpongeLocales.java:6-10 | a fresh, empty bundle set; the plugin name is kept |
| SpongeLocaleBundles.SpongeLocales.LoadLanguages | sponge/src/main/java/co/aikar/commands/SpongeLocales.java:12-17 | the state is the platform load for `acf-` + `plugin.getName()` |
| BungeeRoot.BungeeRootCommand.constructor | bungee/src/main/java/co/aikar/commands/BungeeRootCommand.java:36-47 | a new root is unregistered, has no children, sub-commands or default, and keeps its name |
| BungeeRoot.BungeeRootCommand.GetCommandName | bungee/src/main/java/co/aikar/commands/BungeeRootCommand.java:49-52 | the command name is the construction name |
| BungeeRoot.BungeeRootCommand.AddChild | bungee/src/main/java/co/aikar/commands/BungeeRootCommand.java:54-61 | the child becomes the default when there is none or it declares `__default`; children and sub-commands are what addChildShared gives; the default stays the DefaultChild of all added groups |
| BungeeRoot.DefaultChildSpec | bungee/src/main/java/co/aikar/commands/BungeeRootCommand.java:56-57 | a default exists iff a child was added; it is the last child declaring `__default`, or the first child when none does |
| BungeeRoot.BungeeRootCommand.OnTabComplete | bungee/src/main/java/co/aikar/commands/BungeeRootCommand.java:83-87 | the completions are exactly the union of every child's completions, each once |
| BungeeManager.GetCommandIssuer | bungee/src/main/java/co/aikar/commands/BungeeCommandManager.java:132-138 | succeeds iff the object is a CommandSender, wrapping it; otherwise fails with "&lt;class&gt; is not a Command Issuer." |
| BungeeManager.BungeeCommandManager.constructor | bungee/src/main/java/co/aikar/commands/BungeeCommandManager.java:47-54 | nothing registered or called; the locales are created and loaded at once; contexts and completions not yet created |
| BungeeManager.BungeeCommandManager.GetLocales | bungee/src/main/java/co/aikar/commands/BungeeCommandManager.java:76-83 | the first call creates the locales and loads the platform languages; later calls return the same object |
| BungeeManager.BungeeCommandManager.GetCommandContexts | bungee/src/main/java/co/aikar/commands/BungeeCommandManager.java:60-66 | created on the first call only; later calls return the same object |
| BungeeManager.BungeeCommandManager.GetCommandCompletions | bungee/src/main/java/co/aikar/commands/BungeeCommandManager.java:68-74 | created on the first call only; later calls return the same object |
| BungeeManager.BungeeCommandManager.RegisterCommand | bungee/src/main/java/co/aikar/commands/BungeeCommandManager.java:86-98 | each root not flagged before is registered with the proxy once, in walk order; every root is then flagged and mapped under its lower-cased name; the manager then has registered commands |
| BungeeManager.BungeeCommandManager.UnregisterCommand | bungee/src/main/java/co/aikar/commands/BungeeCommandManager.java:100-110 | each root flagged before is unregistered from the proxy once; every root is unflagged and all the command's names are removed from the map, no other key |
| BungeeManager.BungeeCommandManager.UnregisterRoot | bungee/src/main/java/co/aikar/commands/BungeeCommandManager.java:112-114 | one plugin-manager unregister call is made and nothing else changes |
| BungeeManager.BungeeCommandManager.UnregisterCommands | bungee/src/main/java/co/aikar/commands/BungeeCommandManager.java:116-120 | every mapped root is unregistered from the proxy in map order; the map and the flags stay as they are |
| Registration.PutAllSpec | bungee/src/main/java/co/aikar/commands/BungeeCommandManager.java:89-97 | the map gains exactly the lower-cased names; each name maps to its last root; other keys keep their values |
| Registration.PutAllNonEmpty | bungee/src/main/java/co/aikar/commands/BungeeCommandManager.java:122-125 | after registering a command with a root the map is non-empty |
| Registration.RemoveAllSpec | bungee/src/main/java/co/aikar/commands/BungeeCommandManager.java:101-109 | removing by lower-cased name drops exactly the command's names and keeps every other key and value |
| Registration.FirstEntriesSpec | bungee/src/main/java/co/aikar/commands/BungeeCommandManager.java:92-95 | the flag-guarded platform call is made once per root whose flag allowed it, never twice for one root, and for every such root |
| BukkitManager.BukkitRootCommand.constructor | bukkit/src/main/java/co/aikar/commands/BukkitCommandManager.java:204-206 | a new root is unregistered and keeps its manager and name |
| BukkitManager.BukkitCommandManager.constructor | bukkit/src/main/java/co/aikar/commands/BukkitCommandManager.java:66-99 | the plugin's platform bundles (acf-minecraft, acf-<description name> and its lower-case form) are loaded into the manager's locales for every supported locale; the known-command table is the server's; nothing registered and no command-map call |
| BukkitManager.BukkitCommandManager.RegisterCommand | bukkit/src/main/java/co/aikar/commands/BukkitCommandManager.java:131-149 | every root is flagged and mapped under its lower-cased name; each root not flagged before gets one `commandMap.register` call with the lower-cased plugin prefix, after the forced removal of a known command of that name, which is the only edit the manager itself makes to the known commands |
| BukkitManager.BukkitCommandManager.RegisterEntry | bukkit/src/main/java/co/aikar/commands/BukkitCommandManager.java:135-147 | one walk step: an unflagged root gets the takeover and registration calls of one more picked entry; the root is flagged and mapped |
| BukkitManager.KnownAfterRegisterSpec | bukkit/src/main/java/co/aikar/commands/BukkitCommandManager.java:138-143 | forced registration makes the manager itself remove exactly the registered names that are known; unforced, the manager itself removes nothing |
| BukkitManager.RegisterCallsSpec | bukkit/src/main/java/co/aikar/commands/BukkitCommandManager.java:137-145 | every picked root is registered under its lower-cased name with the plugin prefix; the only other calls unregister a known command of the same name, and only when forced |
| BukkitManager.RegisterAgainChangesNothing | bukkit/src/main/java/co/aikar/commands/BukkitCommandManager.java:137 | once every root is flagged, registering again makes no call, and the manager itself removes nothing from the known commands |
| BukkitManager.BukkitCommandManager.RegisterCommandUnforced | bukkit/src/main/java/co/aikar/commands/BukkitCommandManager.java:151-154 | the one-argument form is the unforced case: the manager itself removes nothing from the known-command table |
| BukkitManager.BukkitCommandManager.UnregisterCommand | bukkit/src/main/java/co/aikar/commands/BukkitCommandManager.java:156-164 | each root flagged before is unregistered once; every root is unflagged; the registered map is not touched |
| BukkitManager.BukkitCommandManager.UnregisterEntry | bukkit/src/main/java/co/aikar/commands/BukkitCommandManager.java:158-162 | one walk step: a flagged root is unregistered as one more picked root; the root is unflagged |
| BukkitManager.BukkitCommandManager.UnregisterRoot | bukkit/src/main/java/co/aikar/commands/BukkitCommandManager.java:166-175 | the root is unregistered from the map; its name is removed from the known commands only if it maps to this root; `<plugin>:<name>` is always removed |
| BukkitManager.KnownAfterUnregisterAllSpec | bukkit/src/main/java/co/aikar/commands/BukkitCommandManager.java:166-175 | unregistering roots only removes keys: every prefixed name goes; no root's name is left mapped to that root; every other key stays with its value |
| BukkitManager.BukkitCommandManager.UnregisterCommands | bukkit/src/main/java/co/aikar/commands/BukkitCommandManager.java:177-181 | every mapped root is unregistered in map order; the registered map stays as it is |
| BukkitManager.ProxyCommandMap.constructor | bukkit/src/main/java/co/aikar/commands/BukkitCommandManager.java:248-251 | both call logs start empty |
| BukkitManager.ProxyCommandMap.RegisterAll | bukkit/src/main/java/co/aikar/commands/BukkitCommandManager.java:253-256 | always goes to the replaced map |
| BukkitManager.ProxyCommandMap.RegisterLabel | bukkit/src/main/java/co/aikar/commands/BukkitCommandManager.java:258-265 | goes to this map iff the command is a root of this manager, else to the replaced map |
| BukkitManager.ProxyCommandMap.Register | bukkit/src/main/java/co/aikar/commands/BukkitCommandManager.java:276-283 | goes to this map iff the command is a root of this manager, else to the replaced map |
| BukkitManager.ProxyCommandMap.Dispatch | bukkit/src/main/java/co/aikar/commands/BukkitCommandManager.java:285-292 | goes to this map iff the lower-cased first word of the line is, in the manager's current known-command table, a root of this manager, else to the replaced map |
| BukkitManager.ProxyCommandMap.GetCommand | bukkit/src/main/java/co/aikar/commands/BukkitCommandManager.java:300-307 | goes to this map iff the lower-cased first word of the name is, in the manager's current known-command table, a root of this manager, else to the replaced map |
| BukkitManager.ProxyCommandMap.TabComplete | bukkit/src/main/java/co/aikar/commands/BukkitCommandManager.java:309-316 | goes to this map iff the lower-cased first word of the line is, in the manager's current known-command table, a root of this manager, else to the replaced map |
| BukkitManager.ProxyCommandMap.ClearCommands | bukkit/src/main/java/co/aikar/commands/BukkitCommandManager.java:294-298 | clears both maps |
| BukkitManager.BlankLineIsNotOurs | bukkit/src/main/java/co/aikar/commands/BukkitCommandManager.java:267-270 | a non-empty line of spaces splits into no tokens, so it is never ours |
| BukkitManager.CommandLineDecidedByFirstWord | bukkit/src/main/java/co/aikar/commands/BukkitCommandManager.java:267-274 | a line that is a word, or a word and a space and more, is ours iff the known command under the lower-cased word is a root of this manager |
| Text.SplitIsEmpty | bukkit/src/main/java/co/aikar/commands/BukkitCommandManager.java:268 | splitting on one character gives no tokens iff the input is non-empty and consists of that character only |
| Text.SplitFirstWord | bukkit/src/main/java/co/aikar/commands/BukkitCommandManager.java:268-269 | the first space-separated token of a line starting with a space-free word is that word |
| Text.FirstPiece | bukkit/src/main/java/co/aikar/commands/BukkitCommandManager.java:268 | the first token starts the input, contains no separator and is the whole input or followed by the separator |
| Text.JoinPieces | sponge/src/main/java/co/aikar/commands/SpongeCommandContexts.java:107-112 | joining the raw pieces of a split with the separator, before trailing empty pieces are dropped, gives back the input |
| Text.PiecesAvoidSeparator | sponge/src/main/java/co/aikar/commands/SpongeCommandContexts.java:107-112 | no piece of a split contains the separator |
| Brigadier.BrigadierManager.constructor | brigadier/src/main/java/co.aikar.commands/ACFBrigadierManager.java:38-51 | the table is every context class mapped to the string type, in iteration order, then the five built-ins |
| Brigadier.InitialArgumentsSpec | brigadier/src/main/java/co.aikar.commands/ACFBrigadierManager.java:43-50 | after construction the built-ins map to their own types whatever the context classes; other context classes map to the string type; nothing else is mapped |
| Brigadier.MapToStringSpec | brigadier/src/main/java/co.aikar.commands/ACFBrigadierManager.java:43 | seeding maps exactly the context classes to the string type and keeps other mappings |
| Brigadier.BrigadierManager.RegisterArgument | brigadier/src/main/java/co.aikar.commands/ACFBrigadierManager.java:53-55 | the class's mapping is overwritten |
| Brigadier.LookupAfterRegister | brigadier/src/main/java/co.aikar.commands/ACFBrigadierManager.java:53-60 | after a registration the class looks up to the new type and every other class to what it did before |
| Brigadier.BrigadierManager.ParameterChain | brigadier/src/main/java/co.aikar.commands/ACFBrigadierManager.java:69-75 | the inner loop builds the chain of the shown parameters, in declaration order, typed by the table |
| Brigadier.BrigadierManager.Register | brigadier/src/main/java/co.aikar.commands/ACFBrigadierManager.java:62-78 | one `addChild` call per kept entry, in multimap order, each with a literal named by its key and its parameters' chain; the calls are counted, not the distinct children of Brigadier's tree |
| Brigadier.ChainAppend | brigadier/src/main/java/co.aikar.commands/ACFBrigadierManager.java:70-75 | the chain keeps declaration order: the chain of a concatenation is the concatenation of the chains |
| Brigadier.ChainSingle | brigadier/src/main/java/co.aikar.commands/ACFBrigadierManager.java:71-74 | one parameter gets a node named after it, typed by the table and with the provider, iff it is not issuer-typed or carries `other` |
| Brigadier.ChainNames | brigadier/src/main/java/co.aikar.commands/ACFBrigadierManager.java:70-75 | a node of a name exists iff a shown parameter has that name |
| Brigadier.ProjectionAppend | brigadier/src/main/java/co.aikar.commands/ACFBrigadierManager.java:63-77 | the literals keep multimap order: the projection of a concatenation is the concatenation of the projections |
| Brigadier.ProjectionSingle | brigadier/src/main/java/co.aikar.commands/ACFBrigadierManager.java:64-76 | one entry gives one `addChild` call, a literal named by its key with its chain, iff it is kept |
| Brigadier.InternalAndHelpKeys | brigadier/src/main/java/co.aikar.commands/ACFBrigadierManager.java:64-67 | `__default` and `__catchunknown` never become literals; `help` always does |
| Brigadier.ProjectionCount | brigadier/src/main/java/co.aikar.commands/ACFBrigadierManager.java:63-77 | the number of `addChild` calls is the number of kept entries, at most the number of entries |
| SpongeContexts.ExecutionContext.constructor | sponge/src/main/java/co/aikar/commands/SpongeCommandContexts.java:52 | the context holds the remaining arguments, flags, annotation and source |
| SpongeContexts.ExecutionContext.PopFirstArg | sponge/src/main/java/co/aikar/commands/SpongeCommandContexts.java:104 | returns the first remaining argument and consumes it |
| SpongeContexts.GetOnlinePlayer | sponge/src/main/java/co/aikar/commands/SpongeCommandContexts.java:142-155 | a found player is the result; a missing one gives no player when allowed, else COULD_NOT_FIND_PLAYER with the lookup is sent and the resolution fails silently |
| SpongeContexts.ResolveOnlinePlayer | sponge/src/main/java/co/aikar/commands/SpongeCommandContexts.java:52 | consumes one token; missing is allowed iff the parameter is optional |
| SpongeContexts.EmptySplitterJoins | sponge/src/main/java/co/aikar/commands/SpongeCommandContexts.java:108-112 | an empty splitter cuts the search into characters that join back to it |
| SpongeContexts.FoundPlayersSpec | sponge/src/main/java/co/aikar/commands/SpongeCommandContexts.java:106-117 | an online player is in the set exactly when some lookup finds its player |
| SpongeContexts.FirstMissing | sponge/src/main/java/co/aikar/commands/SpongeCommandContexts.java:112-116 | the index of the first lookup that finds nobody, or none when every lookup finds someone |
| SpongeContexts.CollectPlayers | sponge/src/main/java/co/aikar/commands/SpongeCommandContexts.java:112-117 | fails iff missing players are not allowed and some lookup finds nobody, sending COULD_NOT_FIND_PLAYER for the first such lookup; otherwise the found players |
| SpongeContexts.ResolvePlayersSpec | sponge/src/main/java/co/aikar/commands/SpongeCommandContexts.java:102-125 | the result is exactly the players some piece finds and is non-empty unless `allowempty`; COULD_NOT_FIND_PLAYER iff a piece finds nobody without `allowmissing`; NO_PLAYER_FOUND_SERVER iff otherwise nobody is found without `allowempty` |
| SpongeContexts.ResolveOnlinePlayers | sponge/src/main/java/co/aikar/commands/SpongeCommandContexts.java:102-125 | consumes one token, splits it on the literal splitter flag or a comma, and resolves as ResolvePlayersOutcome |
| SpongeContexts.WorldResolution | sponge/src/main/java/co/aikar/commands/SpongeCommandContexts.java:126-139 | the first token is consumed iff it names a world, which is then the value; else a player's own world; else INVALID_WORLD |
| SpongeContexts.ResolveWorld | sponge/src/main/java/co/aikar/commands/SpongeCommandContexts.java:126-139 | result and remaining arguments are those of the world outcome |
| SpongeContexts.ResolvePlayer | sponge/src/main/java/co/aikar/commands/SpongeCommandContexts.java:91-101 | fails with NOT_ALLOWED_ON_CONSOLE iff the source is not a player and the parameter is not optional; otherwise the player issuer or no player |
| SpongeContexts.OfferedFromCatalog | sponge/src/main/java/co/aikar/commands/SpongeCommandContexts.java:64-66 | at most one offered name per catalog value, each the decorated simplified name of one |
| SpongeContexts.OfferedUnfiltered | sponge/src/main/java/co/aikar/commands/SpongeCommandContexts.java:55-66 | without a filter every catalog value is offered, in registry order |
| SpongeContexts.OfferedFiltered | sponge/src/main/java/co/aikar/commands/SpongeCommandContexts.java:56-61 | with a filter every offered name is the simplified filter |
| SpongeContexts.ResolveCatalog | sponge/src/main/java/co/aikar/commands/SpongeCommandContexts.java:53-88 | succeeds iff the registry knows the simplified token, with that value; else PLEASE_SPECIFY_ONE_OF with the offered names joined by `<c1>,</c1> ` |
| SpongeContexts.ValidListEmpty | sponge/src/main/java/co/aikar/commands/SpongeCommandContexts.java:64-66 | the joined list of valid names is empty iff no name is offered |
| SpongeContexts.ResolveCatalogArgument | sponge/src/main/java/co/aikar/commands/SpongeCommandContexts.java:53-88 | consumes one token and resolves it in the catalog with the `filter` flag |

## Left out

- Help.SearchScoreMonotone: holds only when the search was already non-empty. An empty or null search scores 1, so the first word can lower a score to 0.
- Help.CommandHelp.UpdateSearchScore: returns the updated entry rather than mutating a shared HelpEntry object, so HelpEntry aliasing is not modelled.
- Help.CommandHelp.constructor: `initialScore` stands for HelpEntry's starting score, and `hasPermission` for RegisteredCommand.hasPermission. HelpEntry and RegisteredCommand are not part of this model.
- Help.CommandHelp.ShowHelp: `(page-1)*perPage` and `min + perPage` use unbounded integers, so Java's 32-bit overflow is not modelled.
- Help.TotalPages: uses exact integer ceiling division instead of the float `Math.ceil`. The two differ once the totals exceed float precision.
- Help.CommandHelp.ShowHelp: each help line stands for the formatted message. Message formatting, newline splitting and `rtrim` go through the manager's formatter and ACFUtil, which are not part of this model.
- Help.CommandHelp.ShowHelp: the `{search}` text of "no command matched" is represented by the search words themselves; ACFUtil.join is not part of this model.
- Text.Lower: lower-cases ASCII letters only. This is exact for `Pattern.CASE_INSENSITIVE`, but `String.toLowerCase()` in the registration paths also folds non-ASCII letters.
- Text.ContainsIgnoreCase: a `.*w.*` match is modelled as substring containment. The fact that `.` does not match line terminators is ignored.
- LocaleBundles.ReplaceI18NStrings: the I18N pattern and its substitution loop are parameters, because ACFPatterns.I18N_STRING is not part of this model.
- LocaleBundles.Locales.LoadMissingBundles: walks a snapshot of the loaded bundle names, the corrected form of the second row under "## Findings". Java walks the live `keys()` view of the multimap while adding to it. Once a bundle name has two or more loaded locales, the first put for a new locale makes the fail-fast iterator throw ConcurrentModificationException, and the back-fill stops partway; LocaleBundles.LoadMissingAsWritten models that walk.
- LocaleBundles.LoadMissingAsWritten: the multimap's iteration order is the `listing` parameter; the exception is the `failed` flag, and its propagation to the caller is not modelled. Guava's fail-fast check is modelled only for the value set under iteration, the only collection a put can change here.
- LocaleBundles.Locales.constructor: the LocaleManager and its message storage (`addMessages`, `addMessage`, `getDefaultLocale`, `setDefaultLocale`) are foreign calls. Only the forwarded bundle pairs are recorded.
- BungeeLocaleBundles.BungeeLocales.constructor and SpongeLocaleBundles.SpongeLocales.constructor: `addBundleClassLoader` is a foreign call and is left out.
- BungeeRoot.BungeeRootCommand.AddChild: `addChildShared` is a parameter. `getManager`, `getSubCommands`, `getDefCommand` and `execute` are field reads or dispatcher calls and are not modelled.
- BungeeRoot.BungeeRootCommand.OnTabComplete: states the completions as a duplicate-free list with the right members; their order, which in Java is HashSet order, is left open.
- BungeeManager.BungeeCommandManager.RegisterCommand and BukkitManager.BukkitCommandManager.RegisterCommand: `command.onRegister(this)` belongs to BaseCommand, which is not part of this model.
- BungeeManager: `isCommandIssuer`, `createRootCommand`, `createCommandContext`, `createCompletionContext`, `createRegisteredCommand`, `log` and the message formatters only construct platform objects or write logs. They are left out.
- Brigadier.BrigadierManager.constructor: `manager.verifyUnstableAPI("brigadier")`, which can refuse construction, and the lazy creation of the contexts by `manager.getCommandContexts()` belong to the base CommandManager, which is not part of this model. The context classes are a constructor parameter, and construction always succeeds.
- BukkitManager.BukkitCommandManager.RegisterCommand, BukkitManager.BukkitCommandManager.RegisterCommandUnforced and BukkitManager.KnownAfterRegisterSpec: `knownCommands` shows only the manager's own edits. It is the command map's own table, and what `commandMap.register` adds to it is left to the recorded call, because SimpleCommandMap is not part of this model.
- BukkitManager.BukkitCommandManager.constructor: the manager's `locales` object comes from the framework's base CommandManager, which is not part of this model, and is a constructor parameter. Command-map hijacking by reflection, the event listener, timings, the formatters, `log` and the lazy contexts and completions are platform I/O or reflection. The known-command table is a constructor parameter. `isCommandIssuer` and `getCommandIssuer` are the same guard as Bungee's and are not repeated.
- BukkitManager.ProxyCommandMap.Dispatch, BukkitManager.ProxyCommandMap.GetCommand and BukkitManager.ProxyCommandMap.TabComplete: the known-command table they read never gains the label and `<prefix>:<label>` entries that `SimpleCommandMap.register` adds when the proxy registers one of this manager's roots into its own map. A line for a command the manager registered is therefore routed to the replaced map in the model, where Java sends it to the proxy's own map. The routing is proved only for a table that already holds such entries, for example one supplied at construction. SimpleCommandMap's registration rules (labels, aliases, conflicts) are not part of this model.
- BukkitManager.ProxyCommandMap: what the own and replaced command maps do with a call (SimpleCommandMap's behaviour) is recorded as a call log and not modelled.
- SpongeContexts.ResolveOnlinePlayers: the result is a set. Java returns an array in HashSet order.
- SpongeContexts.ExecutionContext.PopFirstArg: requires a remaining argument, which the dispatcher (not part of this model) guarantees before a resolver runs.
- SpongeContexts: the CommandResultSupplier and CommandSource resolvers only construct a value or return the source. They are left out.
- SpongeContexts: `ACFSpongeUtil.findPlayerSmart`, `Sponge.getServer().getWorld`, the Sponge registry and `ACFUtil.simplifyString` are parameters. InvalidCommandArgument's default for `showSyntax`, assumed true, comes from a class that is not part of this model.
- SpongeCommandIssuer.java and BungeeCommandIssuer.java only delegate to the platform sender; the build script and the generated Javadoc index hold no logic.

## Findings

| source | as written | input that shows it | evidently intended | confidence | as-written member | corrected member |
|---|---|---|---|---|---|---|
| core/src/main/java/co/aikar/commands/CommandHelp.java:133-147 | the loop calls `results.next()` before testing `i >= max`, so the entry that ends the page is consumed; `results.hasNext()` is then false when exactly one entry follows the page, and no page information is sent | two entries shown, page 1, perPage 1: page 2 exists but no page information is sent | page information whenever an entry follows the page | not executed | Help.WalkAsWritten, Help.AsWrittenMissesNextPage | Help.CommandHelp.ShowHelp, Help.CorrectedShowsNextPage |
| core/src/main/java/co/aikar/commands/Locales.java:63-69 | the inner loop iterates the live `loadedBundles.keys()` view while `addMessageBundle` puts into the same multimap; a put into the value set under iteration makes the next `next()` throw ConcurrentModificationException, so the back-fill stops partway | bundles a and b loaded for en and de, then fr supported: a is loaded for fr, the iterator throws, and b is never loaded for fr | every loaded bundle is loaded for every supported locale, by walking a snapshot of the bundle names | not executed | LocaleBundles.LoadMissingAsWritten, LocaleBundles.AsWrittenStopsBackFill | LocaleBundles.Locales.LoadMissingBundles, LocaleBundles.SnapshotCompletesBackFill |
