/**
 * The Brigadier projection (ACFBrigadierManager): a class -> argument-type
 * table defaulting to the string type, and the translation of a root
 * command's sub-commands into literal nodes, each followed by a chain of
 * argument nodes for its shown parameters.
 */
module Brigadier {
  import opened Text
  import opened Commands

  /** A Brigadier argument type, as far as the table tells them apart. */
  datatype ArgumentType =
    | StringArgument
    | FloatArgument
    | DoubleArgument
    | BoolArgument
    | IntegerArgument
    | CustomArgument(id: nat)

  /** The suggestion provider handed to `register`; only its identity matters here. */
  type SuggestionProvider = nat

  /** A required-argument node: parameter name, argument type and suggestion provider. */
  datatype ArgumentNode = ArgumentNode(name: string, argType: ArgumentType, suggests: SuggestionProvider)

  /**
   * A literal node for a sub-command. Each parameter node is the only child
   * of the one before it, so the nodes under the literal are a chain.
   */
  datatype LiteralNode = LiteralNode(name: string, chain: seq<ArgumentNode>)

  /** `getOrDefault(clazz, string())`. */
  function Lookup(arguments: map<JavaClass, ArgumentType>, clazz: JavaClass): ArgumentType {
    if clazz in arguments then arguments[clazz] else StringArgument
  }

  /** A registration overwrites the class's mapping and no other. */
  lemma LookupAfterRegister(arguments: map<JavaClass, ArgumentType>, clazz: JavaClass, t: ArgumentType, other: JavaClass)
    ensures Lookup(arguments[clazz := t], clazz) == t
    ensures other != clazz ==> Lookup(arguments[clazz := t], other) == Lookup(arguments, other)
  {
  }

  function BuiltinType(clazz: JavaClass): ArgumentType {
    match clazz
    case FloatPrimitive => FloatArgument
    case DoublePrimitive => DoubleArgument
    case BooleanPrimitive => BoolArgument
    case IntPrimitive => IntegerArgument
    case _ => StringArgument
  }

  predicate IsBuiltin(clazz: JavaClass) {
    !clazz.NamedClass?
  }

  /** Every class in `classes` mapped to the string type, on top of `m`. */
  function MapToString(m: map<JavaClass, ArgumentType>, classes: seq<JavaClass>): map<JavaClass, ArgumentType> {
    if |classes| == 0 then m
    else MapToString(m, classes[..|classes| - 1])[classes[|classes| - 1] := StringArgument]
  }

  /** The table the constructor builds from the context-resolver classes, in their iteration order. */
  function InitialArguments(contextClasses: seq<JavaClass>): map<JavaClass, ArgumentType> {
    var seeded := MapToString(map[], contextClasses);
    seeded[StringClass := StringArgument][FloatPrimitive := FloatArgument][DoublePrimitive := DoubleArgument]
          [BooleanPrimitive := BoolArgument][IntPrimitive := IntegerArgument]
  }

  lemma {:induction false} MapToStringSpec(m: map<JavaClass, ArgumentType>, classes: seq<JavaClass>)
    ensures forall c :: c in MapToString(m, classes) <==> c in m || c in classes
    ensures forall c :: c in classes ==> MapToString(m, classes)[c] == StringArgument
    ensures forall c :: c in m && c !in classes ==> MapToString(m, classes)[c] == m[c]
  {
    if |classes| > 0 {
      var n := |classes| - 1;
      MapToStringSpec(m, classes[..n]);
      assert classes == classes[..n] + [classes[n]];
    }
  }

  /**
   * After construction the built-ins map to their own types, whatever the
   * context classes were; every other context class maps to the string
   * type; and nothing else is mapped.
   */
  lemma InitialArgumentsSpec(contextClasses: seq<JavaClass>)
    ensures forall c :: c in InitialArguments(contextClasses) <==> IsBuiltin(c) || c in contextClasses
    ensures forall c :: IsBuiltin(c) ==> Lookup(InitialArguments(contextClasses), c) == BuiltinType(c)
    ensures forall c :: !IsBuiltin(c) ==> Lookup(InitialArguments(contextClasses), c) == StringArgument
  {
    MapToStringSpec(map[], contextClasses);
  }

  /** The parameter gets a node: it is not of an issuer type, or it carries the `other` flag. */
  predicate Shown(p: CommandParameter, isCommandIssuer: JavaClass -> bool) {
    !isCommandIssuer(p.paramType) || "other" in p.flags
  }

  /** The sub-command gets a literal: not internal (`__`), and not an alias of `help`. */
  predicate Kept(entry: SubCommandEntry) {
    !(StartsWith(entry.0, "__") || (entry.0 != "help" && entry.1.prefSubCommand == "help"))
  }

  function Chain(arguments: map<JavaClass, ArgumentType>, params: seq<CommandParameter>,
                 isCommandIssuer: JavaClass -> bool, provider: SuggestionProvider): seq<ArgumentNode> {
    if |params| == 0 then []
    else
      var n := |params| - 1;
      var p := params[n];
      Chain(arguments, params[..n], isCommandIssuer, provider)
      + (if Shown(p, isCommandIssuer) then [ArgumentNode(p.name, Lookup(arguments, p.paramType), provider)] else [])
  }

  function Projection(arguments: map<JavaClass, ArgumentType>, subCommands: seq<SubCommandEntry>,
                      isCommandIssuer: JavaClass -> bool, provider: SuggestionProvider): seq<LiteralNode> {
    if |subCommands| == 0 then []
    else
      var n := |subCommands| - 1;
      var e := subCommands[n];
      Projection(arguments, subCommands[..n], isCommandIssuer, provider)
      + (if Kept(e) then [LiteralNode(e.0, Chain(arguments, e.1.parameters, isCommandIssuer, provider))] else [])
  }

  /**
   * The chain keeps declaration order: the chain of a concatenation is the
   * concatenation of the chains.
   */
  lemma {:induction false} ChainAppend(arguments: map<JavaClass, ArgumentType>, a: seq<CommandParameter>, b: seq<CommandParameter>,
                                        isCommandIssuer: JavaClass -> bool, provider: SuggestionProvider)
    ensures Chain(arguments, a + b, isCommandIssuer, provider) ==
            Chain(arguments, a, isCommandIssuer, provider) + Chain(arguments, b, isCommandIssuer, provider)
    decreases |b|
  {
    if |b| == 0 {
      assert a + b == a;
    } else {
      var n := |b| - 1;
      var ab := a + b;
      assert ab[..|ab| - 1] == a + b[..n];
      assert ab[|ab| - 1] == b[n];
      ChainAppend(arguments, a, b[..n], isCommandIssuer, provider);
      var step := if Shown(b[n], isCommandIssuer) then [ArgumentNode(b[n].name, Lookup(arguments, b[n].paramType), provider)] else [];
      assert Chain(arguments, ab, isCommandIssuer, provider) == Chain(arguments, a + b[..n], isCommandIssuer, provider) + step;
      assert Chain(arguments, b, isCommandIssuer, provider) == Chain(arguments, b[..n], isCommandIssuer, provider) + step;
    }
  }

  /** A single parameter gets its own node, named after it and typed by the table, exactly when it is shown. */
  lemma ChainSingle(arguments: map<JavaClass, ArgumentType>, p: CommandParameter, isCommandIssuer: JavaClass -> bool, provider: SuggestionProvider)
    ensures Chain(arguments, [p], isCommandIssuer, provider) ==
            if Shown(p, isCommandIssuer) then [ArgumentNode(p.name, Lookup(arguments, p.paramType), provider)] else []
  {
    assert [p][..0] == [];
  }

  /** There is a node for a parameter's name exactly when some shown parameter has that name. */
  lemma {:induction false} ChainNames(arguments: map<JavaClass, ArgumentType>, params: seq<CommandParameter>,
                                       isCommandIssuer: JavaClass -> bool, provider: SuggestionProvider, name: string)
    ensures (exists j :: 0 <= j < |Chain(arguments, params, isCommandIssuer, provider)| &&
                         Chain(arguments, params, isCommandIssuer, provider)[j].name == name)
        <==> (exists i :: 0 <= i < |params| && params[i].name == name && Shown(params[i], isCommandIssuer))
  {
    if |params| > 0 {
      var n := |params| - 1;
      var pre := Chain(arguments, params[..n], isCommandIssuer, provider);
      ChainNames(arguments, params[..n], isCommandIssuer, provider, name);
      var whole := Chain(arguments, params, isCommandIssuer, provider);
      assert forall j :: 0 <= j < |pre| ==> whole[j] == pre[j];
      assert forall i :: 0 <= i < n ==> params[..n][i] == params[i];
      if exists i :: 0 <= i < |params| && params[i].name == name && Shown(params[i], isCommandIssuer) {
        var i :| 0 <= i < |params| && params[i].name == name && Shown(params[i], isCommandIssuer);
        if i == n {
          assert whole[|pre|].name == name;
        } else {
          assert params[..n][i] == params[i];
        }
      }
    }
  }

  /**
   * The literals keep the multimap's order: the projection of a
   * concatenation is the concatenation of the projections.
   */
  lemma {:induction false} ProjectionAppend(arguments: map<JavaClass, ArgumentType>, a: seq<SubCommandEntry>, b: seq<SubCommandEntry>,
                                             isCommandIssuer: JavaClass -> bool, provider: SuggestionProvider)
    ensures Projection(arguments, a + b, isCommandIssuer, provider) ==
            Projection(arguments, a, isCommandIssuer, provider) + Projection(arguments, b, isCommandIssuer, provider)
    decreases |b|
  {
    if |b| == 0 {
      assert a + b == a;
    } else {
      var n := |b| - 1;
      var ab := a + b;
      assert ab[..|ab| - 1] == a + b[..n];
      assert ab[|ab| - 1] == b[n];
      ProjectionAppend(arguments, a, b[..n], isCommandIssuer, provider);
      var step := if Kept(b[n]) then [LiteralNode(b[n].0, Chain(arguments, b[n].1.parameters, isCommandIssuer, provider))] else [];
      assert Projection(arguments, ab, isCommandIssuer, provider) == Projection(arguments, a + b[..n], isCommandIssuer, provider) + step;
      assert Projection(arguments, b, isCommandIssuer, provider) == Projection(arguments, b[..n], isCommandIssuer, provider) + step;
    }
  }

  /** A single entry gets one literal, named by its key and carrying its parameters' chain, exactly when it is kept. */
  lemma ProjectionSingle(arguments: map<JavaClass, ArgumentType>, e: SubCommandEntry, isCommandIssuer: JavaClass -> bool, provider: SuggestionProvider)
    ensures Projection(arguments, [e], isCommandIssuer, provider) ==
            if Kept(e) then [LiteralNode(e.0, Chain(arguments, e.1.parameters, isCommandIssuer, provider))] else []
  {
    assert [e][..0] == [];
  }

  /** The default and catch-unknown handlers never become literals; `help` itself always does. */
  lemma InternalAndHelpKeys(c: RegisteredCommand)
    ensures !Kept((DEFAULT, c)) && !Kept((CATCHUNKNOWN, c))
    ensures Kept(("help", c))
  {
    assert DEFAULT[..2] == "__";
    assert CATCHUNKNOWN[..2] == "__";
    assert "help"[..2] == "he";
  }

  /** The number of literals is the number of kept entries. */
  function KeptCount(subCommands: seq<SubCommandEntry>): nat {
    if |subCommands| == 0 then 0
    else KeptCount(subCommands[..|subCommands| - 1]) + (if Kept(subCommands[|subCommands| - 1]) then 1 else 0)
  }

  lemma {:induction false} ProjectionCount(arguments: map<JavaClass, ArgumentType>, subCommands: seq<SubCommandEntry>,
                                            isCommandIssuer: JavaClass -> bool, provider: SuggestionProvider)
    ensures |Projection(arguments, subCommands, isCommandIssuer, provider)| == KeptCount(subCommands) <= |subCommands|
  {
    if |subCommands| > 0 {
      ProjectionCount(arguments, subCommands[..|subCommands| - 1], isCommandIssuer, provider);
    }
  }

  /**
   * The Brigadier root node a command is registered under. `children` is the
   * log of `addChild` calls made on it, in call order; Brigadier's merging of
   * a child into an existing child of the same name is not modelled.
   */
  class RootNode {
    var children: seq<LiteralNode>

    constructor ()
      ensures children == []
    {
      children := [];
    }
  }

  class BrigadierManager {
    /** `manager.isCommandIssuer`. */
    const isCommandIssuer: JavaClass -> bool
    var arguments: map<JavaClass, ArgumentType>

    /**
     * Every context-resolver class is mapped to the string type, in the
     * table's iteration order; then the five built-ins are registered.
     */
    constructor (contextClasses: seq<JavaClass>, isCommandIssuer: JavaClass -> bool)
      ensures this.isCommandIssuer == isCommandIssuer
      ensures arguments == InitialArguments(contextClasses)
    {
      this.isCommandIssuer := isCommandIssuer;
      arguments := map[];
      new;
      var i := 0;
      while i < |contextClasses|
        invariant 0 <= i <= |contextClasses|
        invariant arguments == MapToString(map[], contextClasses[..i])
      {
        assert contextClasses[..i + 1][..i] == contextClasses[..i];
        arguments := arguments[contextClasses[i] := StringArgument];
        i := i + 1;
      }
      assert contextClasses[..i] == contextClasses;
      arguments := arguments[StringClass := StringArgument];
      arguments := arguments[FloatPrimitive := FloatArgument];
      arguments := arguments[DoublePrimitive := DoubleArgument];
      arguments := arguments[BooleanPrimitive := BoolArgument];
      arguments := arguments[IntPrimitive := IntegerArgument];
    }

    method RegisterArgument(clazz: JavaClass, t: ArgumentType)
      modifies this
      ensures arguments == old(arguments)[clazz := t]
    {
      arguments := arguments[clazz := t];
    }

    function GetArgumentTypeByClazz(clazz: JavaClass): ArgumentType
      reads this
    {
      Lookup(arguments, clazz)
    }

    /** The inner loop: each shown parameter's node becomes the child of the previous node. */
    method ParameterChain(params: seq<CommandParameter>, provider: SuggestionProvider) returns (chain: seq<ArgumentNode>)
      ensures chain == Chain(arguments, params, isCommandIssuer, provider)
    {
      chain := [];
      var i := 0;
      while i < |params|
        invariant 0 <= i <= |params|
        invariant chain == Chain(arguments, params[..i], isCommandIssuer, provider)
      {
        assert params[..i + 1][..i] == params[..i];
        var param := params[i];
        if !(isCommandIssuer(param.paramType) && !("other" in param.flags)) {
          chain := chain + [ArgumentNode(param.name, GetArgumentTypeByClazz(param.paramType), provider)];
        }
        i := i + 1;
      }
      assert params[..i] == params;
    }

    /** Makes one `addChild` call on the root per kept sub-command entry, in the multimap's order. */
    method Register(subCommands: seq<SubCommandEntry>, root: RootNode, provider: SuggestionProvider)
      modifies root
      ensures root.children == old(root.children) + Projection(arguments, subCommands, isCommandIssuer, provider)
    {
      var i := 0;
      while i < |subCommands|
        invariant 0 <= i <= |subCommands|
        invariant root.children == old(root.children) + Projection(arguments, subCommands[..i], isCommandIssuer, provider)
      {
        assert subCommands[..i + 1][..i] == subCommands[..i];
        var subCommand := subCommands[i];
        if StartsWith(subCommand.0, "__") || (subCommand.0 != "help" && subCommand.1.prefSubCommand == "help") {
          i := i + 1;
          continue;
        }
        var chain := ParameterChain(subCommand.1.parameters, provider);
        root.children := root.children + [LiteralNode(subCommand.0, chain)];
        i := i + 1;
      }
      assert subCommands[..i] == subCommands;
    }
  }
}
