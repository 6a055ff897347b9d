/**
 * The Sponge argument resolvers (SpongeCommandContexts): how each resolver
 * moves the argument cursor, which platform lookup decides its value, and
 * which error it raises and message it sends when the lookup fails. Platform
 * lookups (player search, worlds, the catalog registry, name simplification)
 * are parameters.
 */
module SpongeContexts {
  import opened Wrappers
  import opened Text

  datatype World = World(id: nat)
  datatype Player = Player(id: nat, world: World)

  /** Who ran the command. */
  datatype CommandSource = PlayerSource(player: Player) | OtherSource(id: nat)

  /** The resolved value of an online-player parameter; equal iff the players are. */
  datatype OnlinePlayer = OnlinePlayer(player: Player)

  datatype MessageKey =
    | PleaseSpecifyOneOf
    | NotAllowedOnConsole
    | CouldNotFindPlayer
    | NoPlayerFoundServer
    | InvalidWorld

  /** The thrown argument error: an optional message key, whether to show syntax, and the replacements. */
  datatype InvalidCommandArgument = InvalidCommandArgument(key: Option<MessageKey>, showSyntax: bool, replacements: seq<string>)

  /** `InvalidCommandArgument(false)`: no message, no syntax. */
  const SILENT_FAILURE: InvalidCommandArgument := InvalidCommandArgument(None, false, [])

  /** An error message sent to the issuer before a silent failure. */
  datatype SentError = SentError(key: MessageKey, replacements: seq<string>)

  /** A resolver's value or thrown error, with the error messages it sent. */
  datatype Resolved<T> = Resolved(result: Result<T, InvalidCommandArgument>, sent: seq<SentError>)

  /** The remaining arguments of one parameter resolution, and its flags and annotation. */
  class ExecutionContext {
    var args: seq<string>
    const flags: map<string, string>
    /** `hasAnnotation(Optional.class)`. */
    const isOptional: bool
    const source: CommandSource

    constructor (args: seq<string>, flags: map<string, string>, isOptional: bool, source: CommandSource)
      ensures this.args == args && this.flags == flags && this.isOptional == isOptional && this.source == source
    {
      this.args := args;
      this.flags := flags;
      this.isOptional := isOptional;
      this.source := source;
    }

    function GetFirstArg(): Option<string>
      reads this
    {
      if |args| == 0 then None else Some(args[0])
    }

    method PopFirstArg() returns (first: string)
      requires |args| > 0
      modifies this
      ensures first == old(args)[0] && args == old(args)[1..]
    {
      first := args[0];
      args := args[1..];
    }

    function GetFlagValue(name: string): Option<string> {
      if name in flags then Some(flags[name]) else None
    }
  }

  // ----- getOnlinePlayer ------------------------------------------------------

  /**
   * A found player becomes an online player; a missing one is skipped when
   * allowed, else COULD_NOT_FIND_PLAYER is sent with the lookup and the
   * resolution fails silently.
   */
  function GetOnlinePlayer(findPlayer: (CommandSource, string) -> Option<Player>, source: CommandSource,
                           lookup: string, allowMissing: bool): (r: Resolved<Option<OnlinePlayer>>)
    ensures r.result.Success? ==> r.sent == []
    ensures r.result.Success? && r.result.value.Some? <==> findPlayer(source, lookup).Some?
    ensures r.result.Success? && r.result.value.Some? ==> r.result.value.value.player == findPlayer(source, lookup).value
    ensures r.result.Failure? <==> findPlayer(source, lookup).None? && !allowMissing
    ensures r.result.Failure? ==> r.result.error == SILENT_FAILURE && r.sent == [SentError(CouldNotFindPlayer, ["{search}", lookup])]
  {
    match findPlayer(source, lookup)
    case None =>
      if allowMissing then Resolved(Success(None), [])
      else Resolved(Failure(SILENT_FAILURE), [SentError(CouldNotFindPlayer, ["{search}", lookup])])
    case Some(player) => Resolved(Success(Some(OnlinePlayer(player))), [])
  }

  /** The `OnlinePlayer` resolver: one token, missing allowed iff the parameter is optional. */
  method ResolveOnlinePlayer(c: ExecutionContext, findPlayer: (CommandSource, string) -> Option<Player>)
    returns (r: Resolved<Option<OnlinePlayer>>)
    requires |c.args| > 0
    modifies c
    ensures c.args == old(c.args)[1..]
    ensures r == GetOnlinePlayer(findPlayer, c.source, old(c.args)[0], c.isOptional)
  {
    var first := c.PopFirstArg();
    r := GetOnlinePlayer(findPlayer, c.source, first, c.isOptional);
  }

  // ----- OnlinePlayer[] -------------------------------------------------------

  /** The separator: the literal `splitter` flag value, else a comma. */
  function Splitter(flags: map<string, string>): string {
    if "splitter" in flags then flags["splitter"] else ","
  }

  /** The empty separator cuts a search into its characters, which join back to it. */
  lemma {:induction false} EmptySplitterJoins(s: string)
    ensures Join(Split(s, ""), "") == s
    decreases |s|
  {
    if |s| > 1 {
      EmptySplitterJoins(s[1..]);
      assert Split(s, "")[1..] == Split(s[1..], "");
    }
  }

  /** The players found by the lookups, as a set. */
  function FoundPlayers(findPlayer: (CommandSource, string) -> Option<Player>, source: CommandSource,
                        lookups: seq<string>): set<OnlinePlayer> {
    if |lookups| == 0 then {}
    else
      var n := |lookups| - 1;
      FoundPlayers(findPlayer, source, lookups[..n])
      + (match findPlayer(source, lookups[n]) case Some(p) => {OnlinePlayer(p)} case None => {})
  }

  /** An online player is in the result exactly when some lookup finds its player. */
  lemma {:induction false} FoundPlayersSpec(findPlayer: (CommandSource, string) -> Option<Player>, source: CommandSource,
                                             lookups: seq<string>, p: OnlinePlayer)
    ensures p in FoundPlayers(findPlayer, source, lookups) <==>
            exists i :: 0 <= i < |lookups| && findPlayer(source, lookups[i]) == Some(p.player)
  {
    if |lookups| > 0 {
      var n := |lookups| - 1;
      FoundPlayersSpec(findPlayer, source, lookups[..n], p);
      assert forall i :: 0 <= i < n ==> lookups[..n][i] == lookups[i];
    }
  }

  /** The first lookup that finds nobody. */
  function FirstMissing(findPlayer: (CommandSource, string) -> Option<Player>, source: CommandSource,
                        lookups: seq<string>): (r: Option<nat>)
    ensures r.Some? ==> r.value < |lookups| && findPlayer(source, lookups[r.value]).None? &&
                        forall j :: 0 <= j < r.value ==> findPlayer(source, lookups[j]).Some?
    ensures r.None? ==> forall j :: 0 <= j < |lookups| ==> findPlayer(source, lookups[j]).Some?
  {
    if |lookups| == 0 then None
    else if findPlayer(source, lookups[0]).None? then Some(0)
    else match FirstMissing(findPlayer, source, lookups[1..])
      case None => None
      case Some(k) => Some(k + 1)
  }

  /**
   * The lookup loop: stops at the first lookup that finds nobody unless
   * missing players are allowed; otherwise collects every found player.
   */
  method CollectPlayers(findPlayer: (CommandSource, string) -> Option<Player>, source: CommandSource,
                        lookups: seq<string>, allowMissing: bool) returns (r: Resolved<set<OnlinePlayer>>)
    ensures r.result.Failure? <==> !allowMissing && FirstMissing(findPlayer, source, lookups).Some?
    ensures r.result.Failure? ==> (r.result.error == SILENT_FAILURE &&
              r.sent == [SentError(CouldNotFindPlayer, ["{search}", lookups[FirstMissing(findPlayer, source, lookups).value]])])
    ensures r.result.Success? ==> r.result.value == FoundPlayers(findPlayer, source, lookups) && r.sent == []
  {
    var players: set<OnlinePlayer> := {};
    var i := 0;
    while i < |lookups|
      invariant 0 <= i <= |lookups|
      invariant players == FoundPlayers(findPlayer, source, lookups[..i])
      invariant !allowMissing ==> forall j :: 0 <= j < i ==> findPlayer(source, lookups[j]).Some?
    {
      assert lookups[..i + 1][..i] == lookups[..i];
      var player := GetOnlinePlayer(findPlayer, source, lookups[i], allowMissing);
      if player.result.Failure? {
        var k := FirstMissing(findPlayer, source, lookups);
        assert k.Some? && k.value == i;
        return Resolved(Failure(player.result.error), player.sent);
      }
      if player.result.value.Some? {
        players := players + {player.result.value.value};
      }
      i := i + 1;
    }
    assert lookups[..i] == lookups;
    assert !allowMissing ==> FirstMissing(findPlayer, source, lookups).None?;
    r := Resolved(Success(players), []);
  }

  /** The `OnlinePlayer[]` resolver's outcome for the popped search token. */
  function ResolvePlayersOutcome(findPlayer: (CommandSource, string) -> Option<Player>, source: CommandSource,
                                 search: string, flags: map<string, string>): Resolved<set<OnlinePlayer>> {
    var lookups := Split(search, Splitter(flags));
    var missing := FirstMissing(findPlayer, source, lookups);
    if "allowmissing" !in flags && missing.Some? then
      Resolved(Failure(SILENT_FAILURE), [SentError(CouldNotFindPlayer, ["{search}", lookups[missing.value]])])
    else
      var players := FoundPlayers(findPlayer, source, lookups);
      if players == {} && "allowempty" !in flags then
        Resolved(Failure(SILENT_FAILURE), [SentError(NoPlayerFoundServer, ["{search}", search])])
      else Resolved(Success(players), [])
  }

  /**
   * The resolved players are exactly those some piece of the search finds,
   * and there is at least one unless `allowempty` is set; the resolution
   * fails with COULD_NOT_FIND_PLAYER exactly when a piece finds nobody and
   * missing players are not allowed, and with NO_PLAYER_FOUND_SERVER exactly
   * when otherwise nobody is found and empty results are not allowed.
   */
  lemma ResolvePlayersSpec(findPlayer: (CommandSource, string) -> Option<Player>, source: CommandSource,
                           search: string, flags: map<string, string>)
    ensures var r := ResolvePlayersOutcome(findPlayer, source, search, flags);
            var lookups := Split(search, Splitter(flags));
            var someMissing := exists i :: 0 <= i < |lookups| && findPlayer(source, lookups[i]).None?;
            && (r.result.Success? ==> (r.sent == [] && (r.result.value != {} || "allowempty" in flags) &&
                  forall p :: p in r.result.value <==> exists i :: 0 <= i < |lookups| && findPlayer(source, lookups[i]) == Some(p.player)))
            && (r.result.Failure? ==> r.result.error == SILENT_FAILURE && |r.sent| == 1)
            && ((r.result.Failure? && r.sent[0].key == CouldNotFindPlayer) <==> "allowmissing" !in flags && someMissing)
            && ((r.result.Failure? && r.sent[0].key == NoPlayerFoundServer) <==>
                  ("allowmissing" in flags || !someMissing) && "allowempty" !in flags &&
                  forall i :: 0 <= i < |lookups| ==> findPlayer(source, lookups[i]).None?)
  {
    var lookups := Split(search, Splitter(flags));
    var players := FoundPlayers(findPlayer, source, lookups);
    forall p ensures p in players <==> exists i :: 0 <= i < |lookups| && findPlayer(source, lookups[i]) == Some(p.player) {
      FoundPlayersSpec(findPlayer, source, lookups, p);
    }
    forall i | 0 <= i < |lookups| && findPlayer(source, lookups[i]).Some?
      ensures OnlinePlayer(findPlayer(source, lookups[i]).value) in players
    {
    }
    if players != {} {
      var p :| p in players;
      assert exists i :: 0 <= i < |lookups| && findPlayer(source, lookups[i]) == Some(p.player);
    }
  }

  /** The `OnlinePlayer[]` resolver: pops the search, splits it, collects, then checks for an empty result. */
  method ResolveOnlinePlayers(c: ExecutionContext, findPlayer: (CommandSource, string) -> Option<Player>)
    returns (r: Resolved<set<OnlinePlayer>>)
    requires |c.args| > 0
    modifies c
    ensures c.args == old(c.args)[1..]
    ensures r == ResolvePlayersOutcome(findPlayer, c.source, old(c.args)[0], c.flags)
  {
    var search := c.PopFirstArg();
    var allowMissing := "allowmissing" in c.flags;
    var split := ",";
    var splitter := c.GetFlagValue("splitter");
    if splitter.Some? {
      split := splitter.value;
    }
    var collected := CollectPlayers(findPlayer, c.source, Split(search, split), allowMissing);
    if collected.result.Failure? {
      return collected;
    }
    if collected.result.value == {} && !("allowempty" in c.flags) {
      return Resolved(Failure(SILENT_FAILURE), [SentError(NoPlayerFoundServer, ["{search}", search])]);
    }
    r := collected;
  }

  // ----- World ----------------------------------------------------------------

  /** The World resolver's value for the remaining arguments, and whether it consumes the first. */
  function ResolveWorldOutcome(args: seq<string>, source: CommandSource, getWorld: string -> Option<World>)
    : (Result<World, InvalidCommandArgument>, bool)
  {
    var named := if |args| > 0 then getWorld(args[0]) else None;
    if named.Some? then (Success(named.value), true)
    else if source.PlayerSource? then (Success(source.player.world), false)
    else (Failure(InvalidCommandArgument(Some(InvalidWorld), true, [])), false)
  }

  /**
   * The first token is consumed exactly when it names a world, which is then
   * the value; otherwise a player issuer's own world is used; otherwise the
   * resolution fails with INVALID_WORLD.
   */
  lemma WorldResolution(args: seq<string>, source: CommandSource, getWorld: string -> Option<World>)
    ensures var (result, consumed) := ResolveWorldOutcome(args, source, getWorld);
            && (consumed <==> |args| > 0 && getWorld(args[0]).Some?)
            && (consumed ==> result == Success(getWorld(args[0]).value))
            && (!consumed && source.PlayerSource? ==> result == Success(source.player.world))
            && (result.Failure? <==> !consumed && !source.PlayerSource?)
            && (result.Failure? ==> result.error.key == Some(InvalidWorld))
  {
  }

  method ResolveWorld(c: ExecutionContext, getWorld: string -> Option<World>) returns (r: Result<World, InvalidCommandArgument>)
    modifies c
    ensures var (result, consumed) := ResolveWorldOutcome(old(c.args), c.source, getWorld);
            r == result && c.args == (if consumed then old(c.args)[1..] else old(c.args))
  {
    var firstArg := c.GetFirstArg();
    var world: Option<World> := if firstArg.Some? then getWorld(firstArg.value) else None;
    if world.Some? {
      var _ := c.PopFirstArg();
    }
    if world.None? && c.source.PlayerSource? {
      world := Some(c.source.player.world);
    }
    if world.None? {
      return Failure(InvalidCommandArgument(Some(InvalidWorld), true, []));
    }
    r := Success(world.value);
  }

  // ----- Player ---------------------------------------------------------------

  /**
   * The Player resolver consumes nothing: a player issuer is the value; any
   * other issuer gives no player on an optional parameter and fails with
   * NOT_ALLOWED_ON_CONSOLE otherwise.
   */
  function ResolvePlayer(source: CommandSource, isOptional: bool): (r: Result<Option<Player>, InvalidCommandArgument>)
    ensures r.Failure? <==> !source.PlayerSource? && !isOptional
    ensures r.Failure? ==> r.error == InvalidCommandArgument(Some(NotAllowedOnConsole), false, [])
    ensures r.Success? ==> (r.value.Some? <==> source.PlayerSource?)
    ensures r.Success? && r.value.Some? ==> r.value.value == source.player
  {
    var player := if source.PlayerSource? then Some(source.player) else None;
    if player.None? && !isOptional then Failure(InvalidCommandArgument(Some(NotAllowedOnConsole), false, []))
    else Success(player)
  }

  // ----- TextColor and TextStyle.Base ------------------------------------------

  const VALID_SEPARATOR: string := "<c1>,</c1> "

  function Decorate(name: string): string {
    "<c2>" + name + "</c2>"
  }

  /** The decorated simplified names of the catalog values that pass the simplified `filter`, in registry order. */
  function Offered<T>(all: seq<T>, nameOf: T -> string, simplify: string -> string, filter: Option<string>): seq<string> {
    if |all| == 0 then []
    else
      var n := |all| - 1;
      var name := simplify(nameOf(all[n]));
      Offered(all[..n], nameOf, simplify, filter)
      + (if filter.None? || simplify(filter.value) == name then [Decorate(name)] else [])
  }

  /** At most one name per catalog value, each that of some catalog value. */
  lemma {:induction false} OfferedFromCatalog<T>(all: seq<T>, nameOf: T -> string, simplify: string -> string, filter: Option<string>)
    ensures |Offered(all, nameOf, simplify, filter)| <= |all|
    ensures forall j :: 0 <= j < |Offered(all, nameOf, simplify, filter)| ==>
              exists i :: 0 <= i < |all| && Offered(all, nameOf, simplify, filter)[j] == Decorate(simplify(nameOf(all[i])))
  {
    if |all| > 0 {
      var n := |all| - 1;
      OfferedFromCatalog(all[..n], nameOf, simplify, filter);
      var pre := Offered(all[..n], nameOf, simplify, filter);
      var whole := Offered(all, nameOf, simplify, filter);
      forall j | 0 <= j < |whole|
        ensures exists i :: 0 <= i < |all| && whole[j] == Decorate(simplify(nameOf(all[i])))
      {
        if j < |pre| {
          var i :| 0 <= i < n && pre[j] == Decorate(simplify(nameOf(all[..n][i])));
          assert whole[j] == pre[j] && all[..n][i] == all[i];
        } else {
          assert whole[j] == Decorate(simplify(nameOf(all[n])));
        }
      }
    }
  }

  /** Without a filter every catalog value is offered, in registry order. */
  lemma {:induction false} OfferedUnfiltered<T>(all: seq<T>, nameOf: T -> string, simplify: string -> string)
    ensures |Offered(all, nameOf, simplify, None)| == |all|
    ensures forall i :: 0 <= i < |all| ==> Offered(all, nameOf, simplify, None)[i] == Decorate(simplify(nameOf(all[i])))
  {
    if |all| > 0 {
      var n := |all| - 1;
      OfferedUnfiltered(all[..n], nameOf, simplify);
      var pre := Offered(all[..n], nameOf, simplify, None);
      var whole := Offered(all, nameOf, simplify, None);
      assert whole == pre + [Decorate(simplify(nameOf(all[n])))];
      forall i | 0 <= i < |all| ensures whole[i] == Decorate(simplify(nameOf(all[i]))) {
        if i < n {
          assert whole[i] == pre[i] && all[..n][i] == all[i];
        }
      }
    }
  }

  /** With a filter, every offered name is the simplified filter. */
  lemma {:induction false} OfferedFiltered<T>(all: seq<T>, nameOf: T -> string, simplify: string -> string, filter: string)
    ensures forall j :: 0 <= j < |Offered(all, nameOf, simplify, Some(filter))| ==>
              Offered(all, nameOf, simplify, Some(filter))[j] == Decorate(simplify(filter))
  {
    if |all| > 0 {
      var n := |all| - 1;
      OfferedFiltered(all[..n], nameOf, simplify, filter);
      var pre := Offered(all[..n], nameOf, simplify, Some(filter));
      var whole := Offered(all, nameOf, simplify, Some(filter));
      forall j | 0 <= j < |whole| ensures whole[j] == Decorate(simplify(filter)) {
        if j < |pre| {
          assert whole[j] == pre[j];
        }
      }
    }
  }

  /**
   * A catalog lookup by the simplified token: the registered value, or
   * PLEASE_SPECIFY_ONE_OF with the offered names joined as its replacement.
   */
  function ResolveCatalog<T>(first: string, all: seq<T>, nameOf: T -> string, getType: string -> Option<T>,
                             simplify: string -> string, filter: Option<string>): (r: Result<T, InvalidCommandArgument>)
    ensures r.Success? <==> getType(simplify(first)).Some?
    ensures r.Success? ==> r.value == getType(simplify(first)).value
    ensures r.Failure? ==> (r.error.key == Some(PleaseSpecifyOneOf) && r.error.showSyntax &&
              r.error.replacements == [Join(Offered(all, nameOf, simplify, filter), VALID_SEPARATOR)])
  {
    match getType(simplify(first))
    case Some(t) => Success(t)
    case None => Failure(InvalidCommandArgument(Some(PleaseSpecifyOneOf), true, [Join(Offered(all, nameOf, simplify, filter), VALID_SEPARATOR)]))
  }

  /** The list of valid names is empty exactly when no catalog value passes the filter. */
  lemma ValidListEmpty(names: seq<string>)
    requires forall j :: 0 <= j < |names| ==> exists n :: names[j] == Decorate(n)
    ensures Join(names, VALID_SEPARATOR) == "" <==> names == []
  {
    if names != [] {
      var n :| names[0] == Decorate(n);
      JoinStartsWith(names);
    }
  }

  lemma JoinStartsWith(names: seq<string>)
    requires names != []
    ensures |Join(names, VALID_SEPARATOR)| >= |names[0]|
  {
  }

  /** The TextColor and TextStyle.Base resolvers: one token, looked up in the platform catalog. */
  method ResolveCatalogArgument<T>(c: ExecutionContext, all: seq<T>, nameOf: T -> string, getType: string -> Option<T>,
                                   simplify: string -> string) returns (r: Result<T, InvalidCommandArgument>)
    requires |c.args| > 0
    modifies c
    ensures c.args == old(c.args)[1..]
    ensures r == ResolveCatalog(old(c.args)[0], all, nameOf, getType, simplify, c.GetFlagValue("filter"))
  {
    var first := c.PopFirstArg();
    r := ResolveCatalog(first, all, nameOf, getType, simplify, c.GetFlagValue("filter"));
  }
}
