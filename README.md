# fg-tools / FC-Tools core, modelled in Dafny

The repository is a set of Maya tool scripts in three generations: `fg_tools`, `fcTools`/`fc_tools` and `fcore`. Most of it is glue around Maya commands. Below the glue are small rules that this project models once and proves properties about:

- **Point arithmetic** (`math_extended.py` / `mathExtended.py`): `average`, `midpoint` (`averageVector` in fcore), `distance` and `spherify`.
- **File names and paths** (`file_system.py` / `fileSystem.py`):
  - the workspace walk up the folders until `workspace.mel` exists;
  - the desktop folder;
  - the rename inside `incremental_save`: the last digit run goes up by one and keeps its zero padding.
- **Viewport** (`ui/viewport.py`, `ui/playblast.py`):
  - the choice of the current model panel;
  - the smooth-shaded / wireframe toggles as a state machine over (`displayAppearance`, `wireframeOnShaded`);
  - the viewport snapshot and the playblast target and format.
- **UI module** (`ui/__init__.py`): `initialize` with its batch guard, the module body that calls it on every run, `saveSnapshot`, and the toggle commands.
- **Runtime commands** (`maya_runtime_command.py` / `mayaRuntimeCommand.py`): a registry that inserts only when the name is absent.
- **Scene edits** over abstract maps:
  - the pivot clipboard and the pivot moves (`pivot.py`);
  - axis flattening, freezing transforms and the x-ray toggles (`modeling.py`, `FC_Modeling.py`);
  - locking and deleting nodes;
  - the hard-edge and UV-seam filters and the selection-preserving mesh queries (`components.py`).
- **Utilities** (`util.py`): the upstream-node search, `attr_changed_between`, and the `UserSelection` context manager.
- **Test harness** (`tests/mayaUnittest.py`): unique temp file names, `sys.path` insertion, temp-file cleanup, plug-in bookkeeping and script-editor output suppression.

Each behaviour is modelled once. Where the copies differ, the difference is a parameter:

- `QueryStyle`: how a panel query's empty answer is normalised (`or []` versus `is None`);
- `makesFolder`: fcore's snapshot does not create the folder;
- `TransformLookup`: the owner of the first vertex (fg_tools) or the parent of its shape (fc_tools, fcTools);
- the list of commands each `initialize` registers.

How the host is represented:

- Every Maya or OS query is an input: which paths exist, the panel lists, the focus, the camera of a panel, `polyInfo` lines, UV points, the file dialog's answer, the time stamp, the home folder and `math.sqrt`.
- Host state that the tools change is held in classes:
  - `SceneState.Scene`: nodes, pivots, vertex positions, x-ray and lock flags, selection and select mode;
  - `Viewport.Host`: editor displays, folders and snapshots;
  - `RuntimeCommands.Registry`;
  - `FileSystem.OpenScene`;
  - the `MayaUnittest` classes;
  - module globals: `Pivot.PivotClipboard` and `Ui.UiModule`.
- Floats are `real`.
- `math.sqrt` is a function parameter `sqrt` that callers must supply as a true square root (`IsSqrt`).

Python errors are modelled as `Outcomes.Result` values carrying a `PyError`: IndexError, TypeError, NameError, OSError, RuntimeError and AttributeError. This keeps the error paths the source reaches in the code it shows. Errors the host raises from inside its own commands are not modelled; see "## Left out".

## Model

| member | source | states |
|---|---|---|
| Text.Str | FG-Tools/scripts/fg_tools/file_system.py:76 | `str(n)` prints at least one ASCII digit and has no leading zero unless it is "0" |
| Text.StrRoundTrip | FG-Tools/scripts/fg_tools/file_system.py:75-76 | `int(str(n)) == n`: parsing what `str` printed gives the number back |
| Text.StrInjective | FC-Tools/scripts/fc_tools/components.py:139 | different numbers print as different strings |
| Text.ZFillSpec | FG-Tools/scripts/fg_tools/file_system.py:76 | `zfill(width)` pads to `width` when shorter, keeps the digits as the tail, and keeps their value |
| Text.ReplaceAllAbsent | FG-Tools/scripts/fg_tools/file_system.py:61 | `replace` leaves a string without the pattern unchanged |
| Text.ReplaceAllLeftmost | FG-Tools/scripts/fg_tools/ui/viewport.py:80 | `replace` keeps the text before the leftmost occurrence, writes the replacement, and resumes the scan right after the occurrence |
| Text.ReplaceCharSpec | FG-Tools/scripts/fg_tools/ui/__init__.py:63 | replacing one character by another keeps the length, turns every such character into the new one and keeps the rest |
| Text.StripSpec | FG-Tools/scripts/fg_tools/ui/viewport.py:77 | `strip(chars)` keeps a slice whose removed ends are all in the character set and whose own end characters are not |
| Text.AfterLastSpec | FG-Tools/scripts/fg_tools/ui/viewport.py:143 | `split(sep)[-1]` is a suffix without `sep`, preceded by `sep` unless it is the whole string |
| Text.BeforeFirst | FG-Tools/scripts/fg_tools/pivot.py:19 | `split(sep)[0]` is a prefix without `sep`, followed by `sep` unless it is the whole string |
| Text.LowerSpec | FG-Tools/scripts/fg_tools/ui/viewport.py:143 | `lower()` keeps the length, leaves no upper-case ASCII letter, changes nothing else and is idempotent |
| VectorMath.Average | FG-Tools/scripts/fg_tools/math_extended.py:44-50 | the average of no numbers is 0; otherwise the average times the count is the sum |
| VectorMath.AverageOfCopies | FC-Tools/scripts/fcTools/mathExtended.py:44-50 | the average of equal numbers is that number |
| VectorMath.Midpoint | FG-Tools/scripts/fg_tools/math_extended.py:53-69 | no vectors give the origin; otherwise each coordinate times the count is the sum of that coordinate over the vectors |
| VectorMath.MidpointOfCopies | FC-Tools/scripts/fcore/mathExtended.py:50-66 | the midpoint of copies of one point is that point |
| VectorMath.SqDistNonNegative | FG-Tools/scripts/fg_tools/math_extended.py:39-41 | the sum of squared coordinate differences is never negative |
| VectorMath.Distance | FG-Tools/scripts/fg_tools/math_extended.py:32-41 | the distance is non-negative and its square is the squared distance |
| VectorMath.DistanceSymmetric | FC-Tools/scripts/fcore/mathExtended.py:29-38 | the distance from a to b equals the distance from b to a |
| VectorMath.DistanceToSelf | FC-Tools/scripts/fcTools/mathExtended.py:32-41 | a point is at distance 0 from itself |
| VectorMath.SqDistMoved | FG-Tools/scripts/fg_tools/math_extended.py:25-27 | moving a point along the ray from the midpoint by factor f multiplies its squared distance by f² |
| VectorMath.SpherifiedPointSpec | FG-Tools/scripts/fg_tools/math_extended.py:20-28 | a point on the midpoint stays put; any other point ends at distance abs(radius); a point already at distance radius stays put; for radius ≥ 0 the point moves outward along its own ray |
| VectorMath.SpherifiedPointAway | FC-Tools/scripts/fcore/mathExtended.py:17-25 | a point away from the centre ends at distance abs(radius) from it |
| VectorMath.Spherify | FG-Tools/scripts/fg_tools/math_extended.py:7-29 | one output point per input point, in input order, each spherified around the midpoint of the input |
| Components.EdgeNameInjective | FC-Tools/scripts/fc_tools/components.py:139 | two edge indices of one object give the same `obj.e[i]` name only if they are equal |
| Components.HardIndicesSpec | FC-Tools/scripts/fc_tools/components.py:139-141 | the hard indices are exactly the indices whose info line ends in 'Hard\n', each once, in increasing order |
| Components.HardEdgesSpec | scripts/fcore/components.py:143-145 | hard-edge names exist exactly for the hard lines, with no duplicates and no more names than lines |
| Components.SeamEdgesSpec | FC-Tools/scripts/fc_tools/components.py:112-130 | the seam edges are exactly the listed edges with more than two UV points, in list order; filtering distributes over concatenation |
| Components.Positions | FC-Tools/scripts/fc_tools/components.py:154 | one position per vertex, in vertex order |
| Components.GetMidpoint | FC-Tools/scripts/fc_tools/components.py:144-155 | no vertices give the origin |
| Components.GetMidpointOfCoincident | scripts/fcore/components.py:148-159 | vertices that all sit at one point have that point as midpoint |
| Components.GetMeshComponents | FC-Tools/scripts/fc_tools/components.py:20-40 | the call returns the host's answer to the constraint of the chosen query on the given objects, or on the user's selection when none are given; the user's select mode and the surviving part of the user's selection come back |
| Util.UpstreamUnique | FG-Tools/scripts/fg_tools/util.py:7-12 | the set of transitive inputs of a node, without the node itself, is uniquely determined |
| Util.RecursiveInputs | FG-Tools/scripts/fg_tools/util.py:19-28 | on success the result holds the inputs of `obj` and the inputs of each member found; no inputs give the empty set; on a ring the call reaches the recursion limit; when every walk along inputs from `obj` is shorter than the frames left (`Shallow`), the call returns. In a ring every node has exactly one input, which is neither the node itself nor a node whose input is the node, so every walk along inputs reaches a cycle of three or more |
| Util.UpstreamNodes | FG-Tools/scripts/fg_tools/util.py:7-32 | when it returns, the answer is exactly the transitive inputs without the start node; a node without inputs gives none; a ring always ends in RuntimeError; on an acyclic graph a limit above the number of nodes plus one always gives an answer |
| Util.UpstreamOfThreeCycle | FC-Tools/scripts/fcTools/util.py:44-53 | on the three-node cycle the search fails with RuntimeError whatever the recursion limit |
| Util.UpstreamOfChain | FG-Tools/scripts/fg_tools/util.py:7-32 | on two nodes, one the input of the other, a limit above three frames gives exactly the input |
| Util.LevelShallow | FG-Tools/scripts/fg_tools/util.py:19-28 | in an acyclic graph every walk along inputs from a node is no longer than the node's place in a topological order, which bounds the frames the search needs |
| Util.UpstreamNodesIntended | FG-Tools/scripts/fg_tools/util.py:7-32 | a visited-set search ends on every graph with exactly the transitive inputs without the start node |
| Util.AttrChangedBetween | FG-Tools/scripts/fg_tools/util.py:35-52 | true exactly when some frame in start+1..end has a value different from the value at start |
| Util.ModeOfName | FG-Tools/scripts/fg_tools/util.py:86-101 | each of the seven mode names switches to its own mode and any other name switches nothing, so setting the name that `_get_select_mode` reported restores that mode |
| Util.SurvivingSpec | FG-Tools/scripts/fg_tools/util.py:117-119 | the reselection holds exactly the saved items that still exist, in saved order, and all of them when none was removed |
| Util.UserSelection.constructor | FG-Tools/scripts/fg_tools/util.py:103-105 | a new guard holds no mode name and no selection |
| Util.UserSelection.Enter | FC-Tools/scripts/fcTools/util.py:132-135 | records the current mode's name and the selection, and returns the selection |
| Util.UserSelection.Exit | FG-Tools/scripts/fg_tools/util.py:112-120 | restores the recorded mode, reselects the surviving recorded items, and returns False |
| FileSystem.Dirname | FG-Tools/scripts/fg_tools/file_system.py:18 | `os.path.dirname` returns a prefix of the path |
| FileSystem.DirnameShortensOrFixes | FG-Tools/scripts/fg_tools/file_system.py:20-21 | `dirname` either shortens the path or returns it unchanged, so the walk ends |
| FileSystem.DirnameOfChild | FG-Tools/scripts/fg_tools/file_system.py:18-24 | the parent of `folder/name` is `folder` |
| FileSystem.DirnameOfRoot | FC-Tools/scripts/fcore/fileSystem.py:20-22 | a root made of slashes is its own parent, where the walk raises OSError |
| FileSystem.WorkspaceFromClimb | FG-Tools/scripts/fg_tools/file_system.py:19-24 | the walk answers with the first marked folder among the folder and its successive parents |
| FileSystem.FirstMarkedIsNearest | FG-Tools/scripts/fg_tools/file_system.py:19-24 | the first marked folder is the marked folder of smallest index; the search fails with OSError only when none is marked |
| FileSystem.WorkspaceFromIsNearest | FC-Tools/scripts/fcore/fileSystem.py:10-25 | the walk finds the nearest ancestor-or-self holding `workspace.mel`, and raises OSError exactly when none does |
| FileSystem.GetWorkspace | FG-Tools/scripts/fg_tools/file_system.py:10-25 | the loop answers what the walk from `dirname(file_path)` answers |
| FileSystem.DesktopFolder | FG-Tools/scripts/fg_tools/file_system.py:56-61 | the desktop folder ends with '/' |
| FileSystem.DesktopFolderSpec | FC-Tools/scripts/fcore/fileSystem.py:55-56 | a home folder without "Documents" gets only the '/'; otherwise the first "Documents" becomes "Desktop" and the scan goes on after it |
| FileSystem.LastRun | FG-Tools/scripts/fg_tools/file_system.py:70-73 | a found run is a non-empty digit run inside the name |
| FileSystem.LastRunSpec | FG-Tools/scripts/fg_tools/file_system.py:70-73 | nothing is found exactly when the name has no digit; otherwise the last maximal digit run is found |
| FileSystem.LastRunUnique | FC-Tools/scripts/fcore/fileSystem.py:62-66 | only one run of a name is its last maximal digit run |
| FileSystem.BumpedSpec | FG-Tools/scripts/fg_tools/file_system.py:75-76 | the new run's value is one more, and its width is the old width or the new number's width, whichever is larger |
| FileSystem.BumpedPadded | FG-Tools/scripts/fg_tools/file_system.py:76 | "009" becomes "010" |
| FileSystem.BumpedCarry | FC-Tools/scripts/fcore/fileSystem.py:68-69 | "99" becomes "100" |
| FileSystem.NextNameIncrements | FG-Tools/scripts/fg_tools/file_system.py:70-78 | reading the new name back finds its last digit run at the same place, holding the bumped run; the text before and after is kept verbatim |
| FileSystem.NextNameShape | FG-Tools/scripts/fg_tools/file_system.py:78 | the new name is the old one with its last digit run replaced by the bumped run |
| FileSystem.NextNameKeepsPadding | FG-Tools/scripts/fg_tools/file_system.py:70-78 | "shot_v009.ma" becomes "shot_v010.ma" |
| FileSystem.NextNameCarries | FC-Tools/scripts/fcore/fileSystem.py:62-71 | "v99" becomes "v100" |
| FileSystem.NextNameWithoutDigits | FG-Tools/scripts/fg_tools/file_system.py:70-73 | there is no next name exactly when the name has no digit |
| FileSystem.NextNameKeepsSaveType | FG-Tools/scripts/fg_tools/file_system.py:82-85 | the rename never changes whether the file is saved as mayaBinary or mayaAscii |
| FileSystem.OpenScene.constructor | FG-Tools/scripts/fg_tools/file_system.py:69 | an open scene has its name and no saves or warnings yet |
| FileSystem.OpenScene.IncrementalSaveAsWritten | FG-Tools/scripts/fg_tools/file_system.py:64-89 | a name without digits raises IndexError and changes nothing; otherwise the scene is renamed to the next name and saved with the old name's type; the warning is never shown |
| FileSystem.OpenScene.IncrementalSave | FC-Tools/scripts/fcore/fileSystem.py:59-82 | saves exactly when the name has a digit; otherwise only the warning is added |
| Viewport.Candidates | FG-Tools/scripts/fg_tools/ui/viewport.py:42 | the candidates are exactly the panels that are model panels and visible |
| Viewport.FocusHits | FG-Tools/scripts/fg_tools/ui/viewport.py:54 | the hits are exactly the listed panels whose name contains the focus |
| Viewport.FocusHitsFirst | FC-Tools/scripts/fc_tools/ui/viewport.py:54-57 | the first hit is the first listed panel whose name contains the focus |
| Viewport.GetModelPanelSpec | FG-Tools/scripts/fg_tools/ui/viewport.py:32-60 | '' when no candidate (and only then, unless '' is a panel); a single candidate is returned; among several, one containing the focus wins when there is one, else the first listed; any non-empty answer is a visible model panel; TypeError exactly when several compete and the focus became `[]` |
| Viewport.WireframeToggledSpec | FG-Tools/scripts/fg_tools/ui/viewport.py:156-160 | the wireframe toggle is an involution, never changes the appearance, and changes something exactly under smooth shading |
| Viewport.SmoothShadedToggledSpec | FG-Tools/scripts/fg_tools/ui/viewport.py:148-153 | when it acts, the overlay ends on and the appearance is wireframe or smooth shaded; it undoes itself between those two with the overlay on; without the overlay and outside wireframe it does nothing |
| Viewport.SnapshotCompressionOfExtension | FG-Tools/scripts/fg_tools/ui/viewport.py:143 | the snapshot compression is the lower-cased extension |
| Viewport.PlayblastFor | FG-Tools/scripts/fg_tools/ui/viewport.py:108-126 | a target ending in 'mov' is written as qt/H.264, anything else as jpg images, always to the target |
| Viewport.StripIsCharacterSet | FG-Tools/scripts/fg_tools/ui/viewport.py:77 | `'anim.ma'.strip('.ma')` is 'ni': a character set, not a suffix |
| Viewport.CreatePlayblastSpec | FG-Tools/scripts/fg_tools/ui/viewport.py:63-126 | an error of the panel query or of the panel's camera query is the command's error, so several visible panels with no focused one give TypeError; once the camera is known, project and desktop modes write a QuickTime movie named after time, scene and camera in their folder, a cancelled dialog raises TypeError, an empty answer raises IndexError, and a chosen path decides the format |
| Viewport.CreatePlayblastIntended | FG-Tools/scripts/fg_tools/ui/viewport.py:72-108 | a failing panel or camera query is still an error; once the camera is known, a cancelled dialog makes no playblast; every other input gives the same answer as the code as written |
| Viewport.CancelledPlayblastDiffers | FG-Tools/scripts/fg_tools/ui/viewport.py:84-91 | on a cancelled dialog the code as written fails with TypeError while the intended version makes no playblast |
| Viewport.FcModelingNameError | FC-Tools/FC_Modeling.py:4-19 | in the module as written, whose names are its four imports and four functions, every call of `make_playblast` fails with NameError for `get_model_panel` |
| Viewport.FcModelingPlayblastImported | FC-Tools/FC_Modeling.py:11-75 | in a module that has the name `get_model_panel`, `make_playblast` gives the same result as the viewport module's `create_playblast` on every input |
| Viewport.Host.ToggleSmoothShaded | FG-Tools/scripts/fg_tools/ui/viewport.py:148-153 | the edits of the branch taken leave the editor in the toggled display; nothing else changes |
| Viewport.Host.ToggleWireframe | FC-Tools/scripts/fc_tools/ui/viewport.py:166-170 | the guarded branches leave the editor in the toggled display; nothing else changes |
| Viewport.Host.CreateViewportSnapshot | FG-Tools/scripts/fg_tools/ui/viewport.py:131-145 | a missing folder is created first (not in fcore); the folder '' never exists and raises OSError, whatever folders are known; otherwise one snapshot with the extension's compression is added |
| RuntimeCommands.EffectiveAnnotation | FG-Tools/scripts/fg_tools/maya_runtime_command.py:21-22 | a given annotation is kept; an empty one becomes the command name |
| RuntimeCommands.RegisteredSpec | FG-Tools/scripts/fg_tools/maya_runtime_command.py:24-34 | the name is present afterwards, holding the old entry when there was one; no other name changes; asking again changes nothing |
| RuntimeCommands.Registry.CreateRuntimeCommand | FC-Tools/scripts/fcTools/mayaRuntimeCommand.py:7-34 | an absent name gets the entry, with defaults 'python' and True; a present name is kept and one warning is shown |
| Ui.RegisterAllKeys | FG-Tools/scripts/fg_tools/ui/__init__.py:28-51 | registering a batch adds exactly the batch's names |
| Ui.RegisterAllKeepsOld | FC-Tools/scripts/fcTools/ui/__init__.py:28-54 | registering a batch never changes an entry that existed before |
| Ui.RegisterAllFirstWins | FC-Tools/scripts/fc_tools/ui/__init__.py:28-46 | a new name gets the entry of the first spec in the batch that carries it |
| Ui.NoWarningsIffFresh | FG-Tools/scripts/fg_tools/maya_runtime_command.py:31-34 | registering a batch shows no warning exactly when every name is new to the table and to the batch |
| Ui.RegisterAllTaken | FG-Tools/scripts/fg_tools/ui/__init__.py:35-51 | when every name is taken nothing changes, and each spec shows its warning in order |
| Ui.SecondRegistrationOnlyWarns | FG-Tools/scripts/fg_tools/ui/__init__.py:14-25 | a second registration of the same batch changes nothing and warns once per command |
| Ui.FgCommandsOnFreshTable | FG-Tools/scripts/fg_tools/ui/__init__.py:28-51 | on a table without them, the three fg commands are all created, with no warning |
| Ui.UiModule.constructor | FG-Tools/scripts/fg_tools/ui/__init__.py:11 | the module starts uninitialised |
| Ui.UiModule.Initialize | FG-Tools/scripts/fg_tools/ui/__init__.py:14-25 | in batch mode RuntimeError and nothing changes; otherwise every command is registered in order and the flag is set |
| Ui.UiModule.Import | FG-Tools/scripts/fg_tools/ui/__init__.py:11-102 | a run of the module body resets the flag before testing it, so every run behaves as `initialize`, whatever the flag held before |
| Ui.SnapshotNameSpec | FG-Tools/scripts/fg_tools/ui/__init__.py:62-67 | the snapshot name is stamp, stripped scene name and camera name, the camera name as long as before with every ':' turned into '_' |
| Ui.RenderFolder | FG-Tools/scripts/fg_tools/file_system.py:40-45 | the render folder ends with '/' |
| Ui.SnapshotTargetSpec | FG-Tools/scripts/fg_tools/ui/__init__.py:69-84 | project mode writes `<render folder><name>.jpg`; other non-dialog modes write `<desktop><name>.jpg` (both captured as jpg); in dialog mode nothing is written exactly when the dialog was cancelled |
| Ui.SaveSnapshot | FG-Tools/scripts/fg_tools/ui/__init__.py:54-86 | a panel, camera or target error changes nothing; a cancelled dialog changes nothing; otherwise the capture's error or new state: OSError for the folder '' where folders are made, else the target's folder is added (not in fcore) and one snapshot of the target is captured |
| Ui.ToggleSmoothShaded | FG-Tools/scripts/fg_tools/ui/__init__.py:89-92 | toggles the current model panel when there is one, and does nothing when none is found |
| Ui.ToggleWireframe | FC-Tools/scripts/fcTools/ui/__init__.py:97-100 | toggles the current model panel when there is one, and does nothing when none is found |
| Pivot.PivotClipboard.constructor | FG-Tools/scripts/fg_tools/pivot.py:8-9 | the clipboard starts as two zero vectors |
| Pivot.PivotClipboard.CopyPivot | FG-Tools/scripts/fg_tools/pivot.py:55-65 | both clipboard values become the object's pivots; no object changes |
| Pivot.PivotClipboard.PastePivot | FC-Tools/scripts/fc_tools/pivot.py:51-58 | the object's pivots become the clipboard values; the clipboard and all other objects are unchanged |
| Pivot.CopyThenPaste | FC-Tools/scripts/fcTools/pivot.py:31-41 | copy from one object and paste onto another gives the target the source's pivots; every other object keeps its pivots |
| Pivot.MovePivotToWorldCenter | FG-Tools/scripts/fg_tools/pivot.py:27-34 | both pivots of the object go to the origin; nothing else changes |
| Pivot.BottomCentre | FG-Tools/scripts/fg_tools/pivot.py:44-48 | the point is at the bounding box's floor in y and halfway between the box's sides in x and z |
| Pivot.PivotToBottom | FG-Tools/scripts/fg_tools/pivot.py:37-52 | every listed object gets both pivots at the bottom centre; other objects keep theirs |
| Pivot.PivotOwner | FC-Tools/scripts/fc_tools/pivot.py:18-20 | fg_tools takes the text before the first '.'; fc_tools fails exactly when the shape has no parent |
| Pivot.MovePivotToComponents | FG-Tools/scripts/fg_tools/pivot.py:12-24 | no vertex raises IndexError; otherwise both pivots of the owning transform go to the vertices' midpoint, or the parent lookup's error is returned |
| Pivot.PivotOfCoincidentVertices | FC-Tools/scripts/fcTools/pivot.py:12-23 | vertices that sit at one point put both pivots there |
| Modeling.AxisOf | FC-Tools/scripts/fc_tools/modeling.py:15-20 | 'x' selects x and 'y' selects y; every other string selects z |
| Modeling.WithCoord | FC-Tools/scripts/fcore/modeling.py:17-22 | a move along one axis sets that coordinate and keeps the other two |
| Modeling.MoveComponentsToAxis | FC-Tools/scripts/fc_tools/modeling.py:8-20 | the vertices move along the chosen axis to their midpoint's coordinate on that axis |
| Modeling.MoveComponentsToAxisSpec | FC-Tools/scripts/fcTools/modeling.py:8-20 | afterwards the vertices agree on the axis, the other coordinates and the other points are unchanged, and the midpoint keeps its coordinate on the axis |
| Modeling.FreezeTransforms | FC-Tools/scripts/fc_tools/modeling.py:23-40 | the three attempts run in order, and exactly the ones that do not fail are applied |
| Modeling.FreezeTransformsSpec | FC-Tools/FC_Modeling.py:87-101 | a failing channel never stops the others: no failure freezes all three, and a rotate failure still freezes translate and scale |
| Modeling.ToggleXRayDisplay | FC-Tools/scripts/fc_tools/modeling.py:43-51 | no objects change nothing; otherwise every object gets the negation of the first object's flag |
| Modeling.ToggleXRayDisplaySpec | FC-Tools/scripts/fcTools/modeling.py:43-51 | after one toggle all objects agree, other shapes are untouched; a second toggle gives all of them the first's old flag and restores the state exactly when they agreed |
| Modeling.ToggleXRay | FC-Tools/FC_Modeling.py:104-109 | each listed shape flips its own flag, once per time it is listed |
| Modeling.ToggleXRaySpec | FC-Tools/FC_Modeling.py:104-109 | without repeats exactly the listed shapes flip; two toggles restore every flag |
| Modeling.TogglesAgreeOnUniformFlags | FC-Tools/scripts/fc_tools/modeling.py:48-51 | the uniform and the per-object toggles agree exactly when the objects' flags agree |
| Modeling.DeletedBy | FC-Tools/FC_Modeling.py:83-84 | only touched nodes are deleted |
| Modeling.LockQuery | FC-Tools/FC_Modeling.py:81 | the lock query answers with a one-element list holding the flag |
| Modeling.ChangeLockNodeAsWritten | FC-Tools/FC_Modeling.py:78-84 | every selected node gets the requested flag, and unlocking with deletion deletes every selected node |
| Modeling.ChangeLockNode | FC-Tools/FC_Modeling.py:78-84 | only nodes whose flag differs are touched, and only those are deleted |
| Modeling.ChangeLockNodeSpec | FC-Tools/FC_Modeling.py:80-84 | every selected node that is left has the requested flag; only locked nodes are deleted; unselected nodes keep their flag; a second run finds nothing to do |
| Modeling.ChangeLockNodeDeletesUnlockedNode | FC-Tools/FC_Modeling.py:81-84 | an unlocked selected node is deleted by the code as written and kept by the intended version |
| MayaUnittest.Settings.constructor | FC-Tools/scripts/tests/mayaUnittest.py:45-61 | the temp directory is the given folder and all three switches are on |
| MayaUnittest.SetTempDir | FC-Tools/scripts/tests/mayaUnittest.py:64-72 | an existing directory is taken; otherwise RuntimeError and the setting is unchanged |
| MayaUnittest.PathWith | FC-Tools/scripts/tests/mayaUnittest.py:105-106 | an existing path is in `sys.path` afterwards, which grows by at most one |
| MayaUnittest.AddToPath | FC-Tools/scripts/tests/mayaUnittest.py:99-108 | returns True exactly when the path exists and was absent; `sys.path` becomes the path-inserted list |
| MayaUnittest.AddToPathSpec | FC-Tools/scripts/tests/mayaUnittest.py:105-108 | adding twice equals adding once; only the path is inserted, at the front, or nothing changes |
| MayaUnittest.RFind | FC-Tools/scripts/tests/mayaUnittest.py:171 | `rfind` gives the last index holding the character, or -1 |
| MayaUnittest.SplitExt | FC-Tools/scripts/tests/mayaUnittest.py:171 | `splitext` splits the path into two parts whose concatenation is the path |
| MayaUnittest.SplitExtSpec | FC-Tools/scripts/tests/mayaUnittest.py:171 | the extension is empty or a single dotted suffix of the last path component |
| MayaUnittest.SplitExtRoundTrip | FC-Tools/scripts/tests/mayaUnittest.py:171-172 | a name with a real stem and a dotted extension splits back into the two |
| MayaUnittest.Candidate | FC-Tools/scripts/tests/mayaUnittest.py:172-177 | each candidate path is at least as long as the directory, '/', stem and extension |
| MayaUnittest.CandidateInjective | FC-Tools/scripts/tests/mayaUnittest.py:172-177 | different counts give different candidate paths |
| MayaUnittest.LaterCandidateIsNew | FC-Tools/scripts/tests/mayaUnittest.py:174-177 | a later candidate is none of the earlier ones |
| MayaUnittest.CandidateSetStep | FC-Tools/scripts/tests/mayaUnittest.py:174-177 | each taken candidate leaves fewer existing paths unseen, so the search ends |
| MayaUnittest.SmallestFreeUnique | FC-Tools/scripts/tests/mayaUnittest.py:174-177 | there is only one smallest free count |
| MayaUnittest.FirstCandidateIsFileName | FC-Tools/scripts/tests/mayaUnittest.py:171-172 | the first candidate is the file name inside the temp directory |
| MayaUnittest.TreeRemoved | FC-Tools/scripts/tests/mayaUnittest.py:156-157 | `rmtree` removes the directory and adds nothing |
| MayaUnittest.TempFilesRemoved | FC-Tools/scripts/tests/mayaUnittest.py:151-157 | the cleanup only removes paths, and none of the listed files is left |
| MayaUnittest.RemoveFiles | FC-Tools/scripts/tests/mayaUnittest.py:152-154 | exactly the listed files are gone afterwards |
| MayaUnittest.UnloadAll | FC-Tools/scripts/tests/mayaUnittest.py:142-143 | exactly the recorded plug-ins are unloaded, in any order |
| MayaUnittest.WithPlugin | FC-Tools/scripts/tests/mayaUnittest.py:137 | recording succeeds exactly on a set record and adds the plug-in to it |
| MayaUnittest.LoadAfterUnload | FC-Tools/scripts/tests/mayaUnittest.py:137-144 | after `unload_plugins` the next `load_plugin` fails with AttributeError; with an empty set it records the plug-in |
| MayaUnittest.TestCase.constructor | FC-Tools/scripts/tests/mayaUnittest.py:118-122 | no temp files, no plug-ins recorded, and no `files_create` attribute yet |
| MayaUnittest.TestCase.GetTempFilename | FC-Tools/scripts/tests/mayaUnittest.py:159-179 | the temp directory exists afterwards; the path did not exist and is the first free candidate; it is appended to `files_created` |
| MayaUnittest.TestCase.DeleteTempFilesAsWritten | FC-Tools/scripts/tests/mayaUnittest.py:146-157 | with deletion off nothing changes; with it on the files and the directory tree are removed and `files_create` becomes []; `files_created` keeps its entries |
| MayaUnittest.TestCase.DeleteTempFiles | FC-Tools/scripts/tests/mayaUnittest.py:146-157 | as above, but the cache `files_created` is cleared |
| MayaUnittest.DeleteTempFilesKeepsCache | FC-Tools/scripts/tests/mayaUnittest.py:155 | after one temp file, the cache keeps it as written and is empty as intended |
| MayaUnittest.TestCase.LoadPlugin | FC-Tools/scripts/tests/mayaUnittest.py:130-137 | Maya loads the plug-in; a set record gains it; a list record raises AttributeError |
| MayaUnittest.TestCase.UnloadPluginsAsWritten | FC-Tools/scripts/tests/mayaUnittest.py:139-144 | every recorded plug-in is unloaded and the record becomes the list [] |
| MayaUnittest.TestCase.UnloadPlugins | FC-Tools/scripts/tests/mayaUnittest.py:139-144 | every recorded plug-in is unloaded and the record becomes an empty set |
| MayaUnittest.RestoredFlags | FC-Tools/scripts/tests/mayaUnittest.py:223-228 | when any saved value is None the flags stay as they are |
| MayaUnittest.RestoreSaved | FC-Tools/scripts/tests/mayaUnittest.py:220-228 | restoring the four saved flags gives them back exactly, whatever the flags are now |
| MayaUnittest.ScriptEditorState.constructor | FC-Tools/scripts/tests/mayaUnittest.py:200-204 | all four saved flags start as None |
| MayaUnittest.ScriptEditorState.SuppressOutput | FC-Tools/scripts/tests/mayaUnittest.py:206-218 | with buffering on, the four flags are saved and all output is suppressed; otherwise nothing changes |
| MayaUnittest.ScriptEditorState.RestoreOutput | FC-Tools/scripts/tests/mayaUnittest.py:220-228 | the saved flags are written back only when none of them is None |
| MayaUnittest.SuppressThenRestore | FC-Tools/scripts/tests/mayaUnittest.py:206-228 | a suppression followed by a restoration leaves the script editor as it was |

## Left out

- `CaptureThumbnail`, `saveRenderViewImage`, `open_explorer` and `get_sourceimages_folder`: these only drive Maya's capture component, the render view or the Windows shell.
- `removePlugin` (fcTools `util.py`): plug-in unloading in the host.
- `convert_to_vertices` and the meaning of each `polySelectConstraint` setting: host mesh queries. Their answers (the vertices, the faces found) are inputs.
- `set_delete_files`, `set_buffer_output`, `set_file_new`: each only assigns one `Settings` switch; the switches are fields of `MayaUnittest.Settings`.
- `tearDownClass`, `tearDown` and `assertListAlmostEqual`: unittest glue. `tearDownClass` is `delete_temp_files` followed by `unload_plugins`, both modelled.
- The playblast window (`window`, `paneLayout`, `modelEditor`, `showWindow`, `deleteUI`) and the playback range: only the target, format and compression are modelled.
- `datetime.now()` and its formatting, the home folder, the project folder, the camera and the scene name: these are inputs.
- `print` output is not modelled.
- Text.LowerSpec: `lower()` is modelled on ASCII letters only, and the digit runs of `\d+` use ASCII digits only. Scene names are taken to be ASCII; Unicode case mapping and Unicode digits are not modelled.
- Floating point: all arithmetic is over `real`; IEEE rounding and `float()` coercion are not modelled. `math.sqrt` is the parameter `sqrt`, required to be a true square root.
- Set iteration order: `Viewport.GetModelPanel` takes the listing `order` of the candidate set as an input. `Util.RecursiveInputs` visits its nodes in an arbitrary order.
- Util.UpstreamNodes: returns the set of nodes rather than `list(result_nodes)`. The list's order is that of a Python set and is unspecified.
- Util.UpstreamNodes: `depth` stands for the interpreter's recursion limit. The contract proves the answer correct whenever the search returns, failure on every ring, and an answer on every acyclic graph whose node count plus one is below the limit. It does not say which other cyclic graphs exhaust the limit; an acyclic graph with more nodes may exhaust it too.
- Paths: only POSIX '/'-separated paths are modelled. Windows drive letters and backslashes are not.
- `os.makedirs` creates intermediate folders. `Viewport.Host.CreateViewportSnapshot` records only the leaf folder, and `GetTempFilename` records only the temp directory.
- The uuid temp directory of `Settings` is a constructor parameter.
- `TestCase.files_created` and `plugins_loaded` are class attributes shared by every test-case class. The model has one `TestCase` object, so sharing across subclasses is not modelled.
- Modeling.MoveComponentsToAxis: with an empty component list, `cmds.move` acts on the current selection. The model moves nothing in that case.
- Pivot.PivotToBottom: the bounding box is an input, not computed from the objects' geometry.
- Pivot.PivotClipboard.CopyPivot: requires the node to have pivots. In the host, `xform` on a node that does not exist raises, and that error is not modelled.
- Pivot.PivotClipboard.PastePivot: writes pivots for any name. The host's error for a node that does not exist is not modelled.
- Pivot.MovePivotToWorldCenter: writes pivots for any name. The host's error for a node that does not exist is not modelled.
- Pivot.PivotToBottom: writes pivots for every listed name. The host's error for a listed node that does not exist is not modelled.
- Pivot.MovePivotToComponents: requires every vertex to have a known position; in the host, only existing vertices can be passed.
- Modeling.ChangeLockNode: `cmds.delete` also deletes a node's DAG children, which is not modelled. The method requires a selection without repeats, as `ls(selection=True, long=True)` returns.
- FileSystem.DesktopFolderSpec: states the replacement of "Documents" occurrence by occurrence (the first one, then the scan after it) rather than as one closed formula.
- Text.ReplaceAllLeftmost: states one step of the left-to-right scan; the whole replacement follows by repeating it.
- `fcTools/__init__.py`, `fc_tools/__init__.py`, `fcontroller.py`, the menus and the command plug-ins are not part of this model.

## Findings

| source | as written | input that shows it | evidently intended | confidence | as-written member | corrected member |
|---|---|---|---|---|---|---|
| FG-Tools/scripts/fg_tools/file_system.py:70-73 | `if match:` tests the iterator `re.finditer` returns, which is always true, so `[...][-1]` indexes an empty list | the scene name "untitled.ma" | a name without digits only shows the warning 'Filename has no Numbers in it!' | high; not executed | FileSystem.OpenScene.IncrementalSaveAsWritten | FileSystem.OpenScene.IncrementalSave |
| FG-Tools/scripts/fg_tools/ui/viewport.py:84-91 | `fileDialog2(...)[0]` indexes the dialog's answer before the later `save_dir is not None` test, and a cancelled dialog answers None | mode 'dialog' with the dialog cancelled: TypeError | a cancelled dialog makes no playblast | high; not executed | Viewport.CancelledPlayblastDiffers | Viewport.CreatePlayblastIntended |
| FC-Tools/FC_Modeling.py:19 | `make_playblast` calls `get_model_panel`, which the module neither defines nor imports | any call, e.g. mode 'desktop': NameError | the same playblast as the viewport module's `create_playblast` | high; not executed | Viewport.FcModelingNameError | Viewport.FcModelingPlayblastImported |
| FG-Tools/scripts/fg_tools/util.py:19-28 | each call passes down only its own results, so on a cycle of three or more nodes the calls go round the cycle until the recursion limit | the three nodes a, b, c, each the input of the next, searched from a: RuntimeError | the transitive inputs of the node, on every graph | high; not executed | Util.UpstreamOfThreeCycle | Util.UpstreamNodesIntended |
| FC-Tools/scripts/tests/mayaUnittest.py:155 | the cache is cleared into a new attribute `files_create`, so `files_created` keeps every path | one temp file from `get_temp_filename`, then `delete_temp_files`: the path is still listed | the docstring's "clear the cache" | high; not executed | MayaUnittest.DeleteTempFilesKeepsCache | MayaUnittest.TestCase.DeleteTempFiles |
| FC-Tools/scripts/tests/mayaUnittest.py:144 | `unload_plugins` resets the record to the list `[]`, and `load_plugin` then calls `.add` on it | `load_plugin('p')` after `unload_plugins()` on the same class: AttributeError | an empty set, so plug-ins can be loaded and recorded again | high; not executed | MayaUnittest.LoadAfterUnload | MayaUnittest.TestCase.UnloadPlugins |
| FC-Tools/FC_Modeling.py:81 | the lock query answers with a list, which never equals the bool `lock`, so every selected node passes the guard | `change_lock_node(False, True)` with the unlocked node "pCube1" selected: the node is deleted | only nodes whose lock state differs are changed, so already-unlocked nodes are never deleted | medium; not executed | Modeling.ChangeLockNodeDeletesUnlockedNode | Modeling.ChangeLockNode |
