/**
 * `maya_runtime_command.py` (fg_tools) and `mayaRuntimeCommand.py` (fcTools):
 * creating a runtime command only when no command of that name exists.
 * The host's command table is a map from names to commands; the warnings
 * shown are kept in order.
 */
module RuntimeCommands {

  /** What `runTimeCommand(name, annotation=..., ...)` stores for a name. */
  datatype RuntimeCommand = RuntimeCommand(
    command: string,
    annotation: string,
    category: string,
    language: string,
    isDefault: bool)

  function AlreadyExistsWarning(name: string): string {
    "The runtime command \"" + name + "\" already exists and can not be overwritten. "
    + "To change an established runtime command you need to restart maya and create it again."
  }

  /** `if not annotation: annotation = command_name`. */
  function EffectiveAnnotation(name: string, annotation: string): (a: string)
    ensures annotation != "" ==> a == annotation
    ensures a == "" ==> name == ""
  {
    if annotation == "" then name else annotation
  }

  /** The table after asking for `entry` under `name`: an existing entry is kept. */
  function Registered(commands: map<string, RuntimeCommand>, name: string, entry: RuntimeCommand): map<string, RuntimeCommand> {
    if name in commands then commands else commands[name := entry]
  }

  /**
   * Insert-if-absent: the name is present afterwards, holding the OLD entry
   * when there was one; no other name changes; asking again with any entry
   * changes nothing.
   */
  lemma RegisteredSpec(commands: map<string, RuntimeCommand>, name: string, entry: RuntimeCommand, again: RuntimeCommand)
    ensures var after := Registered(commands, name, entry);
      && after.Keys == commands.Keys + {name}
      && after[name] == (if name in commands then commands[name] else entry)
      && (forall n :: n in commands && n != name ==> after[n] == commands[n])
      && Registered(after, name, again) == after
  {
  }

  /** The host's runtime-command table and the warnings it has shown. */
  class Registry {
    var commands: map<string, RuntimeCommand>
    var warnings: seq<string>

    constructor (commands: map<string, RuntimeCommand>)
      ensures this.commands == commands && warnings == []
    {
      this.commands := commands;
      warnings := [];
    }

    /**
     * `create_runtime_command(command_name, command, annotation='',
     * category='', command_language='python', default=True)`.
     */
    method CreateRuntimeCommand(name: string, command: string, annotation: string := "", category: string := "",
                                language: string := "python", isDefault: bool := true)
      modifies this
      ensures commands == Registered(old(commands), name,
        RuntimeCommand(command, EffectiveAnnotation(name, annotation), category, language, isDefault))
      ensures warnings == if name in old(commands) then old(warnings) + [AlreadyExistsWarning(name)] else old(warnings)
    {
      var text := annotation;
      if text == "" {
        text := name;
      }
      if name !in commands {
        commands := commands[name := RuntimeCommand(command, text, category, language, isDefault)];
      } else {
        warnings := warnings + [AlreadyExistsWarning(name)];
      }
    }
  }
}
