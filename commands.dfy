/**
 * Values CommandHelp, ACFBrigadierManager and the managers receive from parts
 * of the framework that are not part of this model (RegisteredCommand,
 * BaseCommand, CommandParameter). Only the fields those classes read are kept.
 */
module Commands {
  import opened Wrappers

  /** The sub-command key of a command group's default handler. */
  const DEFAULT: string := "__default"
  /** The sub-command key of a command group's catch-unknown handler. */
  const CATCHUNKNOWN: string := "__catchunknown"

  /** A Java class, as far as the Brigadier table tells classes apart. */
  datatype JavaClass =
    | StringClass
    | FloatPrimitive
    | DoublePrimitive
    | BooleanPrimitive
    | IntPrimitive
    | NamedClass(name: string)

  /** One declared parameter of a command method. */
  datatype CommandParameter = CommandParameter(name: string, paramType: JavaClass, flags: map<string, string>)

  /**
   * One command method. `identity` stands for Java object identity: two
   * values are the same registered command iff they are equal.
   */
  datatype RegisteredCommand = RegisteredCommand(
    identity: nat,
    command: string,
    prefSubCommand: string,
    registeredSubcommands: seq<string>,
    description: string,
    parameterSyntax: string,
    searchTags: Option<string>,
    parameters: seq<CommandParameter>)

  /** One entry of a sub-command multimap, in its iteration order. */
  type SubCommandEntry = (string, RegisteredCommand)

  /** A command group, with its own sub-command multimap. */
  datatype BaseCommand = BaseCommand(identity: nat, subCommands: seq<SubCommandEntry>)

  /** `subCommands.get("__default")` is non-empty. */
  predicate DeclaresDefault(command: BaseCommand) {
    exists i :: 0 <= i < |command.subCommands| && command.subCommands[i].0 == DEFAULT
  }
}
