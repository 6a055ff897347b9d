/**
 * A Bungee root command (BungeeRootCommand): the command groups attached
 * under one name, the default group, and tab completion over all groups.
 */
module BungeeRoot {
  import opened Wrappers
  import opened Text
  import opened Commands

  /** The default group after one more child: the first child, or a later one declaring `__default`. */
  function DefaultAfter(current: Option<BaseCommand>, child: BaseCommand): Option<BaseCommand> {
    if current.None? || DeclaresDefault(child) then Some(child) else current
  }

  /** The default group after the children were added in order. */
  function DefaultChild(added: seq<BaseCommand>): Option<BaseCommand> {
    if |added| == 0 then None else DefaultAfter(DefaultChild(added[..|added| - 1]), added[|added| - 1])
  }

  /**
   * A default exists iff some child was added; it is the last child declaring
   * `__default`, or the first child when none does.
   */
  lemma {:induction false} DefaultChildSpec(added: seq<BaseCommand>)
    ensures DefaultChild(added).Some? <==> |added| > 0
    ensures forall i ::
              (0 <= i < |added| && DeclaresDefault(added[i]) && forall j :: i < j < |added| ==> !DeclaresDefault(added[j]))
              ==> DefaultChild(added) == Some(added[i])
    ensures |added| > 0 && (forall i :: 0 <= i < |added| ==> !DeclaresDefault(added[i])) ==>
              DefaultChild(added) == Some(added[0])
  {
    if |added| > 0 {
      var n := |added| - 1;
      var pre := added[..n];
      DefaultChildSpec(pre);
      assert forall i :: 0 <= i < n ==> pre[i] == added[i];
    }
  }

  class BungeeRootCommand {
    const name: string
    var defCommand: Option<BaseCommand>
    var children: seq<BaseCommand>
    var subCommands: seq<SubCommandEntry>
    var isRegistered: bool
    /** The groups passed to addChild, in order. */
    ghost var added: seq<BaseCommand>

    ghost predicate Valid()
      reads this
    {
      defCommand == DefaultChild(added)
    }

    /** Since the previous state at most the registered flag changed. */
    twostate predicate OnlyFlagChanged()
      reads this
    {
      defCommand == old(defCommand) && children == old(children) && subCommands == old(subCommands) && added == old(added)
    }

    /** A new root is unregistered, has no children and reports its name. */
    constructor (name: string)
      ensures Valid() && this.name == name && !isRegistered
      ensures defCommand == None && children == [] && subCommands == [] && added == []
    {
      this.name := name;
      defCommand := None;
      children := [];
      subCommands := [];
      isRegistered := false;
      added := [];
    }

    function GetCommandName(): (r: string)
      ensures r == name
    {
      name
    }

    /**
     * The child becomes the default when there is none yet or it declares
     * `__default`. `addChildShared`, which is not part of this model, updates
     * the children and the sub-command multimap.
     */
    method AddChild(command: BaseCommand,
                    addChildShared: (seq<BaseCommand>, seq<SubCommandEntry>, BaseCommand) -> (seq<BaseCommand>, seq<SubCommandEntry>))
      requires Valid()
      modifies this
      ensures Valid() && added == old(added) + [command]
      ensures defCommand == DefaultAfter(old(defCommand), command)
      ensures (children, subCommands) == addChildShared(old(children), old(subCommands), command)
      ensures isRegistered == old(isRegistered)
    {
      if defCommand.None? || DeclaresDefault(command) {
        defCommand := Some(command);
      }
      var shared := addChildShared(children, subCommands, command);
      children := shared.0;
      subCommands := shared.1;
      added := added + [command];
      assert added[..|added| - 1] == old(added);
    }

    /**
     * The completions of every child, each once; `tabComplete` is each child's
     * own completion for the issuer and arguments.
     */
    method OnTabComplete(tabComplete: BaseCommand -> seq<string>) returns (completions: seq<string>)
      ensures NoDuplicates(completions)
      ensures forall s :: s in completions <==> exists i :: 0 <= i < |children| && s in tabComplete(children[i])
    {
      completions := [];
      var i := 0;
      while i < |children|
        invariant 0 <= i <= |children|
        invariant NoDuplicates(completions)
        invariant forall s :: s in completions <==> exists k :: 0 <= k < i && s in tabComplete(children[k])
      {
        var more := tabComplete(children[i]);
        var j := 0;
        while j < |more|
          invariant 0 <= j <= |more|
          invariant NoDuplicates(completions)
          invariant forall s :: s in completions <==>
                      (exists k :: 0 <= k < i && s in tabComplete(children[k])) || s in more[..j]
        {
          if more[j] !in completions {
            completions := completions + [more[j]];
          }
          j := j + 1;
        }
        assert more[..j] == more;
        i := i + 1;
      }
    }
  }
}
