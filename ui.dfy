/**
 * `ui/__init__.py` of fg_tools, fcTools and fc_tools: the one-time
 * initialisation that registers the display commands, `saveSnapshot` and
 * the two toggle commands that act on the current model panel.
 */
module Ui {
  import opened Outcomes
  import opened Text
  import FileSystem
  import opened Viewport
  import opened RuntimeCommands

  // ----- initialize -----

  /** One `create_runtime_command(command_name=..., annotation=..., command=..., category=...)` call. */
  datatype CommandSpec = CommandSpec(name: string, annotation: string, command: string, category: string)

  const FgCategory: string := "fg-Tools.Display"
  const FcCategory: string := "FC-Tools.Display"

  /** The three commands fg_tools registers. */
  const FgCommands: seq<CommandSpec> := [
    CommandSpec("fgToggleSmoothShaded", "Toggles smooth shading in the current viewport.",
      "import fg_tools.ui\nfg_tools.ui.toggle_smooth_shaded()", FgCategory),
    CommandSpec("fgToggleWireframe", "Toggles wireframe in the current viewport.",
      "import fg_tools.ui\nfg_tools.ui.toggleWireframe()", FgCategory),
    CommandSpec("fgSaveSnapshot", "create a snapshot of the viewport and save it in the render folder.",
      "import fg_tools.ui\nfg_tools.ui.saveSnapshot()", FgCategory)]

  /** The two commands fcTools registers. */
  const FcToolsCommands: seq<CommandSpec> := [
    CommandSpec("fcToggleSmoothShaded", "Toggles smooth shading in the current viewport.",
      "import fcTools.ui\nfcTools.ui.toggleSmoothShaded()", FcCategory),
    CommandSpec("fcToggleWireframe", "Toggles wireframe in the current viewport.",
      "import fcTools.ui\nfcTools.ui.toggleWireframe()", FcCategory)]

  /** The two commands fc_tools registers. */
  const FcSnakeCommands: seq<CommandSpec> := [
    CommandSpec("fcToggleSmoothShaded", "Toggles smooth shading in the current viewport.",
      "import fc_tools.ui\nfc_tools.ui.toggle_smooth_shaded()", FcCategory),
    CommandSpec("fcToggleWireframe", "Toggles wireframe in the current viewport.",
      "import fc_tools.ui\nfc_tools.ui.toggleWireframe()", FcCategory)]

  const FgBatchMessage: string := "The menu for fg Tools can not be created in batch-mode."
  const FcBatchMessage: string := "The menu for FC Tools can not be created in batch-mode."

  /** The entry a spec asks for, with the registry's defaults for language and flag. */
  function EntryOf(spec: CommandSpec): RuntimeCommand {
    RuntimeCommand(spec.command, EffectiveAnnotation(spec.name, spec.annotation), spec.category, "python", true)
  }

  /** The table after registering `specs` in order. */
  function RegisterAll(commands: map<string, RuntimeCommand>, specs: seq<CommandSpec>): map<string, RuntimeCommand> {
    if specs == [] then commands
    else
      var last := specs[|specs| - 1];
      Registered(RegisterAll(commands, specs[..|specs| - 1]), last.name, EntryOf(last))
  }

  /** The warnings registering `specs` in order shows: one per name that was already taken. */
  function WarningsOf(commands: map<string, RuntimeCommand>, specs: seq<CommandSpec>): seq<string> {
    if specs == [] then []
    else
      var init, last := specs[..|specs| - 1], specs[|specs| - 1];
      WarningsOf(commands, init)
      + (if last.name in RegisterAll(commands, init) then [AlreadyExistsWarning(last.name)] else [])
  }

  /** Registering a batch adds exactly the batch's names. */
  lemma {:induction false} RegisterAllKeys(commands: map<string, RuntimeCommand>, specs: seq<CommandSpec>)
    ensures forall n :: n in RegisterAll(commands, specs) <==>
      n in commands || exists k :: 0 <= k < |specs| && specs[k].name == n
  {
    if specs != [] {
      var init, last := specs[..|specs| - 1], specs[|specs| - 1];
      RegisterAllKeys(commands, init);
      forall n ensures n in RegisterAll(commands, specs) <==> n in commands || exists k :: 0 <= k < |specs| && specs[k].name == n {
        if n in RegisterAll(commands, init) && n !in commands {
          var k :| 0 <= k < |init| && init[k].name == n;
          assert specs[k].name == n;
        }
        if n != last.name && exists k :: 0 <= k < |specs| && specs[k].name == n {
          var k :| 0 <= k < |specs| && specs[k].name == n;
          assert init[k].name == n;
        }
      }
    }
  }

  /** Registering a batch never changes an entry that existed before. */
  lemma {:induction false} RegisterAllKeepsOld(commands: map<string, RuntimeCommand>, specs: seq<CommandSpec>)
    ensures forall n :: n in commands ==> n in RegisterAll(commands, specs) && RegisterAll(commands, specs)[n] == commands[n]
  {
    if specs != [] {
      RegisterAllKeepsOld(commands, specs[..|specs| - 1]);
    }
  }

  /** A name new to the table gets the entry of the first spec that carries it. */
  lemma {:induction false} RegisterAllFirstWins(commands: map<string, RuntimeCommand>, specs: seq<CommandSpec>, k: nat)
    requires k < |specs| && specs[k].name !in commands
    requires forall m :: 0 <= m < k ==> specs[m].name != specs[k].name
    ensures specs[k].name in RegisterAll(commands, specs)
    ensures RegisterAll(commands, specs)[specs[k].name] == EntryOf(specs[k])
  {
    var init, last := specs[..|specs| - 1], specs[|specs| - 1];
    if k < |init| {
      assert init[k] == specs[k];
      RegisterAllFirstWins(commands, init, k);
    } else {
      RegisterAllKeys(commands, init);
      assert forall j :: 0 <= j < |init| ==> init[j] == specs[j];
    }
  }

  /** Every name is new to the table and to the batch before it. */
  predicate FreshNames(commands: map<string, RuntimeCommand>, specs: seq<CommandSpec>) {
    forall k :: 0 <= k < |specs| ==> specs[k].name !in commands && forall m :: 0 <= m < k ==> specs[m].name != specs[k].name
  }

  /** No warning is shown exactly when every name is new to the table and to the batch before it. */
  lemma {:induction false} NoWarningsIffFresh(commands: map<string, RuntimeCommand>, specs: seq<CommandSpec>)
    ensures WarningsOf(commands, specs) == [] <==> FreshNames(commands, specs)
  {
    if specs != [] {
      var init, last := specs[..|specs| - 1], specs[|specs| - 1];
      NoWarningsIffFresh(commands, init);
      RegisterAllKeys(commands, init);
      FreshNamesSplit(commands, specs);
    }
  }

  /** A batch has fresh names when its front does and its last name is new to both. */
  lemma FreshNamesSplit(commands: map<string, RuntimeCommand>, specs: seq<CommandSpec>)
    requires specs != []
    ensures var init, last := specs[..|specs| - 1], specs[|specs| - 1];
      FreshNames(commands, specs) <==>
      FreshNames(commands, init) && last.name !in commands && forall m :: 0 <= m < |init| ==> init[m].name != last.name
  {
    var init := specs[..|specs| - 1];
    assert forall j :: 0 <= j < |init| ==> init[j] == specs[j];
  }

  /**
   * When every name is already taken nothing changes and each spec shows
   * its warning, in order: running `initialize` a second time only warns.
   */
  lemma {:induction false} RegisterAllTaken(commands: map<string, RuntimeCommand>, specs: seq<CommandSpec>)
    requires forall k :: 0 <= k < |specs| ==> specs[k].name in commands
    ensures RegisterAll(commands, specs) == commands
    ensures WarningsOf(commands, specs) == seq(|specs|, k requires 0 <= k < |specs| => AlreadyExistsWarning(specs[k].name))
  {
    if specs != [] {
      var init := specs[..|specs| - 1];
      assert forall j :: 0 <= j < |init| ==> init[j] == specs[j];
      RegisterAllTaken(commands, init);
    }
  }

  /** A second registration of the same batch changes nothing and warns once per command. */
  lemma SecondRegistrationOnlyWarns(commands: map<string, RuntimeCommand>, specs: seq<CommandSpec>)
    ensures var after := RegisterAll(commands, specs);
      && RegisterAll(after, specs) == after
      && |WarningsOf(after, specs)| == |specs|
  {
    RegisterAllKeys(commands, specs);
    RegisterAllTaken(RegisterAll(commands, specs), specs);
  }

  /** On a table without them, fg_tools' three commands are all created, with no warning. */
  lemma FgCommandsOnFreshTable()
    ensures WarningsOf(map[], FgCommands) == []
    ensures RegisterAll(map[], FgCommands).Keys == {"fgToggleSmoothShaded", "fgToggleWireframe", "fgSaveSnapshot"}
  {
    var names := [FgCommands[0].name, FgCommands[1].name, FgCommands[2].name];
    assert names == ["fgToggleSmoothShaded", "fgToggleWireframe", "fgSaveSnapshot"];
    assert |names[0]| == 20 && |names[1]| == 17 && |names[2]| == 14;
    assert FreshNames(map[], FgCommands);
    NoWarningsIffFresh(map[], FgCommands);
    RegisterAllKeys(map[], FgCommands);
    var keys := RegisterAll(map[], FgCommands).Keys;
    forall n | n in keys ensures n in names {
      var k :| 0 <= k < 3 && FgCommands[k].name == n;
    }
    assert names[0] in keys && names[1] in keys && names[2] in keys;
  }

  /** The UI module's `__..UIInitialized` flag. */
  class UiModule {
    var initialized: bool

    constructor ()
      ensures !initialized
    {
      initialized := false;
    }

    /**
     * `initialize()`: in batch mode a RuntimeError and nothing else; otherwise
     * every command of the copy is created, in order, and the flag is set.
     */
    method Initialize(batch: bool, registry: Registry, batchMessage: string, specs: seq<CommandSpec>) returns (r: Result<()>)
      modifies this, registry
      ensures batch ==> (r == Err(RuntimeError(batchMessage)) && initialized == old(initialized)
        && registry.commands == old(registry.commands) && registry.warnings == old(registry.warnings))
      ensures !batch ==> (r == Ok(()) && initialized
        && registry.commands == RegisterAll(old(registry.commands), specs)
        && registry.warnings == old(registry.warnings) + WarningsOf(old(registry.commands), specs))
    {
      if batch {
        return Err(RuntimeError(batchMessage));
      }
      var i := 0;
      while i < |specs|
        invariant 0 <= i <= |specs|
        invariant registry.commands == RegisterAll(old(registry.commands), specs[..i])
        invariant registry.warnings == old(registry.warnings) + WarningsOf(old(registry.commands), specs[..i])
      {
        var spec := specs[i];
        assert specs[..i + 1][..i] == specs[..i];
        registry.CreateRuntimeCommand(spec.name, spec.command, spec.annotation, spec.category);
        i := i + 1;
      }
      assert specs[..i] == specs;
      initialized := true;
      return Ok(());
    }

    /**
     * A run of the module body: it first sets the flag to False and then
     * tests it with `if not initialized: initialize()`. The test therefore
     * always passes, and every run behaves as `initialize`, whatever the
     * flag held before.
     */
    method Import(batch: bool, registry: Registry, batchMessage: string, specs: seq<CommandSpec>) returns (r: Result<()>)
      modifies this, registry
      ensures batch ==> (r == Err(RuntimeError(batchMessage)) && !initialized
        && registry.commands == old(registry.commands) && registry.warnings == old(registry.warnings))
      ensures !batch ==> (r == Ok(()) && initialized
        && registry.commands == RegisterAll(old(registry.commands), specs)
        && registry.warnings == old(registry.warnings) + WarningsOf(old(registry.commands), specs))
    {
      initialized := false;
      r := Initialize(batch, registry, batchMessage, specs);
    }
  }

  // ----- saveSnapshot -----

  /** The snapshot's name: like the playblast's, but ':' in the camera name becomes '_'. */
  function SnapshotName(stamp: string, sceneName: string, camera: string): string {
    NiceFileName(stamp, sceneName, ReplaceAll(camera, ":", "_"))
  }

  /** The camera part of a snapshot name is the camera name, as long, with every ':' turned into '_'. */
  lemma SnapshotNameSpec(stamp: string, sceneName: string, camera: string)
    ensures var name, cam := SnapshotName(stamp, sceneName, camera), ReplaceAll(camera, ":", "_");
      && name == stamp + "_" + Strip(sceneName, CharSet(".ma")) + "_" + cam
      && |cam| == |camera|
      && (forall k :: 0 <= k < |camera| ==> cam[k] == (if camera[k] == ':' then '_' else camera[k]))
      && (forall k :: 0 <= k < |cam| ==> cam[k] != ':')
  {
    ReplaceCharSpec(camera, ':', '_');
  }

  const SnapshotModeProject: string := "project"
  const SnapshotModeDialog: string := "dialog"

  /** `get_render_folder()`: the expanded 'images' file rule with a '/' appended. */
  function RenderFolder(imagesRule: string): (f: string)
    ensures |f| > 0 && f[|f| - 1] == '/'
  {
    imagesRule + "/"
  }

  /**
   * The file `saveSnapshot(mode)` writes: in the render folder for 'project';
   * the first chosen path for 'dialog', or no snapshot at all when the dialog
   * was cancelled; on the desktop otherwise.
   */
  function SnapshotTarget(mode: string, home: string, imagesRule: string, name: string,
                          dialog: Option<seq<string>>): Result<Option<string>>
  {
    if mode == SnapshotModeProject then Ok(Some(RenderFolder(imagesRule) + name + ".jpg"))
    else if mode == SnapshotModeDialog then
      match dialog
      case None => Ok(None)
      case Some(paths) => if paths == [] then Err(IndexError) else Ok(Some(paths[0]))
    else Ok(Some(FileSystem.DesktopFolder(home) + name + ".jpg"))
  }

  /**
   * Outside the dialog a snapshot is always a jpg named `<name>.jpg` in the
   * render or desktop folder; a cancelled dialog writes nothing; a chosen
   * path is used as given.
   */
  lemma SnapshotTargetSpec(mode: string, home: string, imagesRule: string, name: string, dialog: Option<seq<string>>)
    requires forall k :: 0 <= k < |name| ==> name[k] != '.'
    ensures var r := SnapshotTarget(mode, home, imagesRule, name, dialog);
      && (mode != SnapshotModeDialog ==> r.Ok? && r.value.Some? && SnapshotCompression(r.value.value) == "jpg")
      && (mode == SnapshotModeProject ==> r == Ok(Some(imagesRule + "/" + name + ".jpg")))
      && (mode != SnapshotModeProject && mode != SnapshotModeDialog ==>
            r == Ok(Some(FileSystem.DesktopFolder(home) + name + ".jpg")))
      && (mode == SnapshotModeDialog ==> (r == Ok(None) <==> dialog.None?))
  {
    var folder := if mode == SnapshotModeProject then RenderFolder(imagesRule) else FileSystem.DesktopFolder(home);
    assert folder + name + ".jpg" == (folder + name) + "." + "jpg";
    SnapshotCompressionOfExtension(folder + name, "jpg");
    assert Lower("jpg") == "jpg";
  }

  /**
   * `saveSnapshot(mode)`: asks for the current model panel and its camera
   * (an error there ends the command), names the snapshot after the camera
   * with ':' turned into '_', picks the target and, unless the dialog was
   * cancelled, captures it through `create_viewport_snapshot`.
   */
  method SaveSnapshot(host: Host, style: QueryStyle, modelPanels: seq<string>, visiblePanels: seq<string>,
                      focus: Option<string>, order: seq<string>, cameraOf: string -> Result<string>,
                      mode: string, stamp: string, sceneName: string, home: string, imagesRule: string,
                      dialog: Option<seq<string>>, makesFolder: bool) returns (r: Result<()>)
    requires Enumerates(order, Candidates(modelPanels, visiblePanels))
    modifies host
    ensures host.displays == old(host.displays)
    ensures var camera := CurrentCamera(style, modelPanels, visiblePanels, focus, order, cameraOf);
      && (camera.Err? ==> r == Err(camera.error) && host.folders == old(host.folders) && host.snapshots == old(host.snapshots))
      && (camera.Ok? ==>
            var target := SnapshotTarget(mode, home, imagesRule, SnapshotName(stamp, sceneName, camera.value), dialog);
            && (target.Err? ==>
                  r == Err(target.error) && host.folders == old(host.folders) && host.snapshots == old(host.snapshots))
            && (target == Ok(None) ==>
                  r == Ok(()) && host.folders == old(host.folders) && host.snapshots == old(host.snapshots))
            && (target.Ok? && target.value.Some? ==>
                  var file := target.value.value;
                  var folder := FileSystem.Dirname(file);
                  && (makesFolder && folder == "" ==>
                        r == Err(OSError(MissingFolderMessage))
                        && host.folders == old(host.folders) && host.snapshots == old(host.snapshots))
                  && (!(makesFolder && folder == "") ==>
                        && r == Ok(())
                        && host.folders == (if makesFolder then old(host.folders) + {folder} else old(host.folders))
                        && host.snapshots == old(host.snapshots) + [Snapshot(SnapshotCompression(file), file)])))
  {
    var camera := CurrentCamera(style, modelPanels, visiblePanels, focus, order, cameraOf);
    if camera.Err? {
      return Err(camera.error);
    }
    var target := SnapshotTarget(mode, home, imagesRule, SnapshotName(stamp, sceneName, camera.value), dialog);
    if target.Err? {
      return Err(target.error);
    }
    if target.value.None? {
      return Ok(());
    }
    r := host.CreateViewportSnapshot(target.value.value, makesFolder);
  }

  // ----- the toggle commands -----

  /** Every model panel has a model editor whose display the host knows. */
  ghost predicate EditorsKnown(host: Host, modelPanels: seq<string>)
    reads host
  {
    forall p :: p in modelPanels ==> p in host.displays
  }

  /** `toggle_smooth_shaded()`: toggles the current model panel, if there is one. */
  method ToggleSmoothShaded(host: Host, style: QueryStyle, modelPanels: seq<string>, visiblePanels: seq<string>,
                            focus: Option<string>, order: seq<string>) returns (r: Result<()>)
    requires Enumerates(order, Candidates(modelPanels, visiblePanels))
    requires EditorsKnown(host, modelPanels)
    modifies host
    ensures host.folders == old(host.folders) && host.snapshots == old(host.snapshots)
    ensures match GetModelPanel(style, modelPanels, visiblePanels, focus, order)
      case Err(e) => r == Err(e) && host.displays == old(host.displays)
      case Ok(p) => (r == Ok(()) &&
        host.displays == if p == "" then old(host.displays)
                         else old(host.displays)[p := SmoothShadedToggled(old(host.displays)[p])])
  {
    GetModelPanelSpec(style, modelPanels, visiblePanels, focus, order);
    var panel := GetModelPanel(style, modelPanels, visiblePanels, focus, order);
    if panel.Err? {
      return Err(panel.error);
    }
    if panel.value != "" {
      host.ToggleSmoothShaded(panel.value);
    }
    return Ok(());
  }

  /** `toggleWireframe()`: toggles the current model panel, if there is one. */
  method ToggleWireframe(host: Host, style: QueryStyle, modelPanels: seq<string>, visiblePanels: seq<string>,
                         focus: Option<string>, order: seq<string>) returns (r: Result<()>)
    requires Enumerates(order, Candidates(modelPanels, visiblePanels))
    requires EditorsKnown(host, modelPanels)
    modifies host
    ensures host.folders == old(host.folders) && host.snapshots == old(host.snapshots)
    ensures match GetModelPanel(style, modelPanels, visiblePanels, focus, order)
      case Err(e) => r == Err(e) && host.displays == old(host.displays)
      case Ok(p) => (r == Ok(()) &&
        host.displays == if p == "" then old(host.displays)
                         else old(host.displays)[p := WireframeToggled(old(host.displays)[p])])
  {
    GetModelPanelSpec(style, modelPanels, visiblePanels, focus, order);
    var panel := GetModelPanel(style, modelPanels, visiblePanels, focus, order);
    if panel.Err? {
      return Err(panel.error);
    }
    if panel.value != "" {
      host.ToggleWireframe(panel.value);
    }
    return Ok(());
  }
}
