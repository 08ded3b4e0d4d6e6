/**
 * `ui/viewport.py` (fg_tools, fc_tools), `fcTools/ui/playblast.py` and
 * `fcore/ui/playblast.py`: which model panel is "current", the two display
 * toggles of a model editor, the viewport snapshot and the playblast target.
 * Host queries (the panel lists, the focus, the camera, the scene name, the
 * clock, the file dialog) are inputs; the editors' display settings, the
 * folders on disk and the captured images are the state of `Host`.
 */
module Viewport {
  import opened Outcomes
  import opened Text
  import FileSystem

  // ----- get_model_panel / getModelPanel -----

  /** How a copy normalises a panel query that returned nothing. */
  datatype QueryStyle =
    | OrEmpty     // `cmds.getPanel(...) or []`: None and '' both become []
    | NoneToEmpty // `if x is None: x = []` (fcore): only None becomes []

  /** After normalisation the focus is the list `[]`, not a panel name. */
  predicate FocusIsList(style: QueryStyle, focus: Option<string>) {
    focus.None? || (style == OrEmpty && focus.value == "")
  }

  predicate Distinct(s: seq<string>) {
    forall i, j :: 0 <= i < j < |s| ==> s[i] != s[j]
  }

  /** The panels that are both model panels and visible. */
  function Candidates(modelPanels: seq<string>, visiblePanels: seq<string>): (c: set<string>)
    ensures forall p :: p in c <==> p in modelPanels && p in visiblePanels
  {
    set p | p in modelPanels && p in visiblePanels
  }

  /**
   * `order` is one listing of the set `s`, each member once; it stands for
   * the unspecified iteration order of `list(set(...))`.
   */
  ghost predicate Enumerates(order: seq<string>, s: set<string>) {
    Distinct(order) && forall p :: p in order <==> p in s
  }

  lemma {:induction false} EnumerationSize(order: seq<string>, s: set<string>)
    requires Enumerates(order, s)
    ensures |s| == |order|
    decreases |order|
  {
    if order != [] {
      var rest := order[1..];
      assert Enumerates(rest, s - {order[0]}) by {
        forall p ensures p in rest <==> p in s - {order[0]} {
          if p in rest {
            var k :| 0 <= k < |rest| && rest[k] == p;
            assert order[k + 1] == p;
          }
          if p in s && p != order[0] {
            var k :| 0 <= k < |order| && order[k] == p;
            assert rest[k - 1] == p;
          }
        }
      }
      EnumerationSize(rest, s - {order[0]});
    } else {
      assert forall p :: p !in s;
      assert s == {};
    }
  }

  /** `[pnl for pnl in vis_mod_pan if foc_pan in pnl]` with a panel name as focus. */
  function FocusHits(order: seq<string>, focus: string): (hits: seq<string>)
    ensures forall p :: p in hits <==> p in order && Contains(p, focus)
  {
    if order == [] then []
    else (if Contains(order[0], focus) then [order[0]] else []) + FocusHits(order[1..], focus)
  }

  /** The first hit is the first panel of `order` whose name contains the focus. */
  lemma {:induction false} FocusHitsFirst(order: seq<string>, focus: string)
    requires FocusHits(order, focus) != []
    ensures exists i :: (0 <= i < |order| && order[i] == FocusHits(order, focus)[0] &&
                         forall j :: 0 <= j < i ==> !Contains(order[j], focus))
  {
    if !Contains(order[0], focus) {
      FocusHitsFirst(order[1..], focus);
      var i :| 0 <= i < |order[1..]| && order[1..][i] == FocusHits(order[1..], focus)[0]
        && forall j :: 0 <= j < i ==> !Contains(order[1..][j], focus);
      assert order[i + 1] == FocusHits(order, focus)[0];
      forall j | 0 <= j < i + 1 ensures !Contains(order[j], focus) {
        if j > 0 {
          assert order[j] == order[1..][j - 1];
        }
      }
    }
  }

  /**
   * `get_model_panel()`: '' when no model panel is visible; the only one
   * when there is one; otherwise the first (in `order`) whose name contains
   * the focused panel's name, else the first of all. When the focus query
   * was normalised to `[]`, `[] in pnl` raises TypeError.
   */
  function GetModelPanel(style: QueryStyle, modelPanels: seq<string>, visiblePanels: seq<string>,
                         focus: Option<string>, order: seq<string>): Result<string>
    requires Enumerates(order, Candidates(modelPanels, visiblePanels))
  {
    if |order| == 0 then Ok("")
    else if |order| == 1 then Ok(order[0])
    else if FocusIsList(style, focus) then Err(TypeError)
    else
      var hits := FocusHits(order, focus.value);
      if hits != [] then Ok(hits[0]) else Ok(order[0])
  }

  /**
   * The choice rule: nothing visible gives ''; every other answer is a visible
   * model panel; a single one is returned as is; among several, one whose name
   * contains the focus wins when there is one; and the TypeError happens
   * exactly when several panels compete and the focus became `[]`.
   */
  lemma GetModelPanelSpec(style: QueryStyle, modelPanels: seq<string>, visiblePanels: seq<string>,
                          focus: Option<string>, order: seq<string>)
    requires Enumerates(order, Candidates(modelPanels, visiblePanels))
    ensures var r, c := GetModelPanel(style, modelPanels, visiblePanels, focus, order), Candidates(modelPanels, visiblePanels);
      && (c == {} ==> r == Ok(""))
      && ("" !in c ==> (r == Ok("") <==> c == {}))
      && (r.Ok? && r.value != "" ==> r.value in modelPanels && r.value in visiblePanels)
      && (forall p :: c == {p} ==> r == Ok(p))
      && (r.Err? <==> |c| > 1 && FocusIsList(style, focus))
      && (r.Err? ==> r.error == TypeError)
      && (|c| > 1 && !FocusIsList(style, focus) ==>
            && r.Ok? && r.value in c
            && ((exists p :: p in c && Contains(p, focus.value)) ==> Contains(r.value, focus.value))
            && ((forall p :: p in c ==> !Contains(p, focus.value)) ==> r.value == order[0]))
  {
    var c := Candidates(modelPanels, visiblePanels);
    EnumerationSize(order, c);
    if |order| == 1 {
      forall p | c == {p} ensures order[0] == p {
        assert order[0] in c;
      }
    }
    if |order| > 0 {
      assert order[0] in c;
    }
    if |order| > 1 && !FocusIsList(style, focus) {
      var hits := FocusHits(order, focus.value);
      if hits != [] {
        assert hits[0] in hits;
      }
    }
  }

  /**
   * `p = get_model_panel()` followed by `modelEditor(p, query=True,
   * camera=True)`: the camera of the current model panel. `cameraOf` is the
   * host's answer to that query, or the error it raises for a panel it does
   * not know (such as '').
   */
  function CurrentCamera(style: QueryStyle, modelPanels: seq<string>, visiblePanels: seq<string>,
                         focus: Option<string>, order: seq<string>, cameraOf: string -> Result<string>): Result<string>
    requires Enumerates(order, Candidates(modelPanels, visiblePanels))
  {
    var panel :- GetModelPanel(style, modelPanels, visiblePanels, focus, order);
    cameraOf(panel)
  }

  // ----- the display toggles -----

  /** The values of a model editor's `displayAppearance`. */
  datatype Appearance = Wireframe | Points | BoundingBox | SmoothShaded | FlatShaded

  /** What the toggles read and write: `displayAppearance` and `wireframeOnShaded`. */
  datatype Display = Display(appearance: Appearance, wireframeOnShaded: bool)

  /**
   * `toggle_smooth_shaded`: wireframe becomes smooth shading with the
   * wireframe drawn on top; any other appearance with the overlay on becomes
   * wireframe; everything else stays.
   */
  function SmoothShadedToggled(d: Display): Display {
    if d.appearance == Wireframe then Display(SmoothShaded, true)
    else if d.wireframeOnShaded then Display(Wireframe, d.wireframeOnShaded)
    else d
  }

  /** `toggle_wireframe`: under smooth shading the overlay flips; otherwise nothing changes. */
  function WireframeToggled(d: Display): Display {
    if d.appearance == SmoothShaded then Display(SmoothShaded, !d.wireframeOnShaded) else d
  }

  /**
   * The wireframe toggle is an involution and only ever touches the overlay,
   * and only under smooth shading.
   */
  lemma WireframeToggledSpec(d: Display)
    ensures WireframeToggled(WireframeToggled(d)) == d
    ensures WireframeToggled(d).appearance == d.appearance
    ensures WireframeToggled(d) != d <==> d.appearance == SmoothShaded
  {
  }

  /**
   * The smooth-shaded toggle switches between wireframe and smooth shading
   * with the overlay on, and undoes itself there; it always leaves the overlay
   * on when it acts; an editor without the overlay that is not in wireframe
   * is left alone.
   */
  lemma SmoothShadedToggledSpec(d: Display)
    ensures SmoothShadedToggled(d) != d ==> SmoothShadedToggled(d).wireframeOnShaded
    ensures SmoothShadedToggled(d).appearance in {Wireframe, SmoothShaded} || SmoothShadedToggled(d) == d
    ensures d.wireframeOnShaded && d.appearance in {Wireframe, SmoothShaded} ==>
      SmoothShadedToggled(SmoothShadedToggled(d)) == d
    ensures SmoothShadedToggled(SmoothShadedToggled(SmoothShadedToggled(d))) == SmoothShadedToggled(d)
    ensures d.appearance != Wireframe && !d.wireframeOnShaded ==> SmoothShadedToggled(d) == d
  {
  }

  // ----- snapshots -----

  /** `image_file.split('.')[-1].lower()`: the compression handed to the playblast. */
  function SnapshotCompression(imageFile: string): string {
    Lower(AfterLast(imageFile, '.'))
  }

  /** The text after the last '.' of `base + "." + ext` is `ext` when `ext` has no '.'. */
  lemma {:induction false} AfterLastOfExtension(base: string, ext: string)
    requires forall k :: 0 <= k < |ext| ==> ext[k] != '.'
    ensures AfterLast(base + "." + ext, '.') == ext
    decreases |ext|
  {
    var s := base + "." + ext;
    if ext == [] {
      assert s[|s| - 1] == '.';
    } else {
      var e := ext[..|ext| - 1];
      assert s[..|s| - 1] == base + "." + e;
      assert s[|s| - 1] == ext[|ext| - 1];
      AfterLastOfExtension(base, e);
      assert e + [ext[|ext| - 1]] == ext;
    }
  }

  /** The compression is the lower-cased extension: "shot.JPG" is captured as "jpg". */
  lemma SnapshotCompressionOfExtension(base: string, ext: string)
    requires forall k :: 0 <= k < |ext| ==> ext[k] != '.'
    ensures SnapshotCompression(base + "." + ext) == Lower(ext)
  {
    AfterLastOfExtension(base, ext);
  }

  /** One `playblast(frame=..., format='image', ...)` still image. */
  datatype Snapshot = Snapshot(compression: string, completeFilename: string)

  const MissingFolderMessage: string := "No such file or directory: ''"

  // ----- playblasts -----

  /** `playblast(format=..., compression=..., filename=...)`; percent 100 and quality 90 are fixed. */
  datatype Playblast = Playblast(format: string, compression: string, filename: string)

  /** A target ending with 'mov' is written as a QuickTime H.264 movie, anything else as jpg images. */
  function PlayblastFor(target: string): (p: Playblast)
    ensures p.filename == target
    ensures p.format == "qt" <==> EndsWith(target, "mov")
    ensures p.format in {"qt", "image"} && (p.format == "qt" <==> p.compression == "H.264")
  {
    if EndsWith(target, "mov") then Playblast("qt", "H.264", target) else Playblast("image", "jpg", target)
  }

  /** `'{0:%Y%m%d_%H%M%S}_{1:s}_{2:s}'.format(now, scene.strip('.ma'), camera)`, with the time already formatted. */
  function NiceFileName(stamp: string, sceneName: string, camera: string): string {
    stamp + "_" + Strip(sceneName, CharSet(".ma")) + "_" + camera
  }

  lemma CharSetOfDotMa()
    ensures CharSet(".ma") == {'.', 'm', 'a'}
  {
    assert ".ma"[0] == '.' && ".ma"[1] == 'm' && ".ma"[2] == 'a';
  }

  /** `strip('.ma')` removes the characters '.', 'm' and 'a' from both ends, not the suffix ".ma". */
  lemma StripIsCharacterSet()
    ensures Strip("anim.ma", CharSet(".ma")) == "ni"
  {
    CharSetOfDotMa();
    var cs: set<char> := {'.', 'm', 'a'};
    var s := "anim.ma";
    LeadingInExact(s, cs, 1);
    var t := s[1..];
    assert t == "nim.ma";
    TrailingInExact(t, cs, 4);
    assert t[..2] == "ni";
  }

  const PlayblastModeProject: string := "project"
  const PlayblastModeDialog: string := "dialog"

  /**
   * Where `create_playblast(mode)` writes: `<project>/images/<name>.mov` for
   * 'project'; the first path chosen in the dialog for 'dialog' (the dialog
   * answers None when cancelled, and `None[0]` raises TypeError); otherwise
   * the home folder with 'Documents' replaced by 'Desktop/', followed by
   * `<name>.mov`.
   */
  function PlayblastTarget(mode: string, home: string, projectDir: string, name: string,
                           dialog: Option<seq<string>>): Result<string>
  {
    if mode == PlayblastModeProject then Ok(projectDir + "/images/" + name + ".mov")
    else if mode == PlayblastModeDialog then
      match dialog
      case None => Err(TypeError)
      case Some(paths) => if paths == [] then Err(IndexError) else Ok(paths[0])
    else Ok(ReplaceAll(home, "Documents", "Desktop/") + name + ".mov")
  }

  /**
   * `create_playblast(mode)` as written (fg_tools, fc_tools, and
   * `makePlayblast` in fcTools): the current panel's camera, the target
   * named after it, then the format chosen from the target. The
   * `save_dir is not None` test after the dialog can never fail.
   */
  function CreatePlayblast(style: QueryStyle, modelPanels: seq<string>, visiblePanels: seq<string>,
                           focus: Option<string>, order: seq<string>, cameraOf: string -> Result<string>,
                           mode: string, home: string, projectDir: string, stamp: string, sceneName: string,
                           dialog: Option<seq<string>>): Result<Playblast>
    requires Enumerates(order, Candidates(modelPanels, visiblePanels))
  {
    var camera :- CurrentCamera(style, modelPanels, visiblePanels, focus, order, cameraOf);
    var target :- PlayblastTarget(mode, home, projectDir, NiceFileName(stamp, sceneName, camera), dialog);
    Ok(PlayblastFor(target))
  }

  lemma EndsWithMov(s: string)
    ensures EndsWith(s + ".mov", "mov")
  {
    assert (s + ".mov")[|s| + 1..] == "mov";
  }

  /**
   * A failing panel or camera query ends the command before anything is
   * written; in particular several visible model panels with no focused one
   * give TypeError. Past the queries, without the dialog a playblast is
   * always a QuickTime movie named after the time, the scene and the camera;
   * a cancelled dialog ends in TypeError, an empty answer in IndexError, and
   * a chosen path decides the format by itself.
   */
  lemma CreatePlayblastSpec(style: QueryStyle, modelPanels: seq<string>, visiblePanels: seq<string>,
                            focus: Option<string>, order: seq<string>, cameraOf: string -> Result<string>,
                            mode: string, home: string, projectDir: string, stamp: string, sceneName: string,
                            dialog: Option<seq<string>>)
    requires Enumerates(order, Candidates(modelPanels, visiblePanels))
    ensures var r := CreatePlayblast(style, modelPanels, visiblePanels, focus, order, cameraOf,
                                     mode, home, projectDir, stamp, sceneName, dialog);
      var camera := CurrentCamera(style, modelPanels, visiblePanels, focus, order, cameraOf);
      && (camera.Err? ==> r == Err(camera.error))
      && (|Candidates(modelPanels, visiblePanels)| > 1 && FocusIsList(style, focus) ==> r == Err(TypeError))
      && (camera.Ok? ==>
            var name := NiceFileName(stamp, sceneName, camera.value);
            && (mode == PlayblastModeProject ==> r == Ok(Playblast("qt", "H.264", projectDir + "/images/" + name + ".mov")))
            && (mode != PlayblastModeProject && mode != PlayblastModeDialog ==>
                  r == Ok(Playblast("qt", "H.264", ReplaceAll(home, "Documents", "Desktop/") + name + ".mov")))
            && (mode == PlayblastModeDialog && dialog.None? ==> r == Err(TypeError))
            && (mode == PlayblastModeDialog && dialog == Some([]) ==> r == Err(IndexError))
            && (mode == PlayblastModeDialog && dialog.Some? && dialog.value != [] ==> r == Ok(PlayblastFor(dialog.value[0]))))
  {
    GetModelPanelSpec(style, modelPanels, visiblePanels, focus, order);
    var camera := CurrentCamera(style, modelPanels, visiblePanels, focus, order, cameraOf);
    if camera.Ok? {
      var name := NiceFileName(stamp, sceneName, camera.value);
      EndsWithMov(projectDir + "/images/" + name);
      EndsWithMov(ReplaceAll(home, "Documents", "Desktop/") + name);
    }
  }

  /**
   * `create_playblast` as its `save_dir is not None` test intends: a
   * cancelled dialog makes no playblast instead of failing.
   */
  function CreatePlayblastIntended(style: QueryStyle, modelPanels: seq<string>, visiblePanels: seq<string>,
                                   focus: Option<string>, order: seq<string>, cameraOf: string -> Result<string>,
                                   mode: string, home: string, projectDir: string, stamp: string, sceneName: string,
                                   dialog: Option<seq<string>>): (r: Result<Option<Playblast>>)
    requires Enumerates(order, Candidates(modelPanels, visiblePanels))
    ensures var camera := CurrentCamera(style, modelPanels, visiblePanels, focus, order, cameraOf);
      && (camera.Err? ==> r == Err(camera.error))
      && (camera.Ok? && mode == PlayblastModeDialog && dialog.None? ==> r == Ok(None))
    ensures !(mode == PlayblastModeDialog && dialog.None?) ==>
      match CreatePlayblast(style, modelPanels, visiblePanels, focus, order, cameraOf,
                            mode, home, projectDir, stamp, sceneName, dialog)
      case Ok(p) => r == Ok(Some(p))
      case Err(e) => r == Err(e)
  {
    var camera :- CurrentCamera(style, modelPanels, visiblePanels, focus, order, cameraOf);
    if mode == PlayblastModeDialog && dialog.None? then Ok(None)
    else
      var target :- PlayblastTarget(mode, home, projectDir, NiceFileName(stamp, sceneName, camera), dialog);
      Ok(Some(PlayblastFor(target)))
  }

  /**
   * Once the panel and its camera are known, a cancelled dialog is where the
   * written and the intended playblast part: TypeError against no playblast.
   */
  lemma CancelledPlayblastDiffers(style: QueryStyle, modelPanels: seq<string>, visiblePanels: seq<string>,
                                  focus: Option<string>, order: seq<string>, cameraOf: string -> Result<string>,
                                  home: string, projectDir: string, stamp: string, sceneName: string)
    requires Enumerates(order, Candidates(modelPanels, visiblePanels))
    requires CurrentCamera(style, modelPanels, visiblePanels, focus, order, cameraOf).Ok?
    ensures CreatePlayblast(style, modelPanels, visiblePanels, focus, order, cameraOf,
                            PlayblastModeDialog, home, projectDir, stamp, sceneName, None) == Err(TypeError)
    ensures CreatePlayblastIntended(style, modelPanels, visiblePanels, focus, order, cameraOf,
                                    PlayblastModeDialog, home, projectDir, stamp, sceneName, None) == Ok(None)
  {
  }

  /** The name `make_playblast` calls for the current panel. */
  const PanelQueryName: string := "get_model_panel"

  /** The module-level names of `FC_Modeling.py`: its imports and its four functions. */
  const FcModelingNames: set<string> :=
    {"datetime", "os", "pm", "cmds", "make_playblast", "change_lock_node", "freeze_transforms", "toggle_xray"}

  /**
   * `FC_Modeling.make_playblast(mode)` run in a module whose names are
   * `names`: `get_model_panel` is looked up first, a NameError when the
   * module lacks it; then come the steps of `create_playblast`, with `pm`
   * in the place of `core` (both are `pymel.core`).
   */
  function FcModelingMakePlayblast(names: set<string>, style: QueryStyle, modelPanels: seq<string>,
                                   visiblePanels: seq<string>, focus: Option<string>, order: seq<string>,
                                   cameraOf: string -> Result<string>, mode: string, home: string,
                                   projectDir: string, stamp: string, sceneName: string,
                                   dialog: Option<seq<string>>): Result<Playblast>
    requires Enumerates(order, Candidates(modelPanels, visiblePanels))
  {
    if PanelQueryName !in names then Err(NameError(PanelQueryName))
    else
      var camera :- CurrentCamera(style, modelPanels, visiblePanels, focus, order, cameraOf);
      var target :- PlayblastTarget(mode, home, projectDir, NiceFileName(stamp, sceneName, camera), dialog);
      Ok(PlayblastFor(target))
  }

  /** As the module is written, every call of `make_playblast` raises NameError for `get_model_panel`. */
  lemma FcModelingNameError(style: QueryStyle, modelPanels: seq<string>, visiblePanels: seq<string>,
                            focus: Option<string>, order: seq<string>, cameraOf: string -> Result<string>,
                            mode: string, home: string, projectDir: string, stamp: string, sceneName: string,
                            dialog: Option<seq<string>>)
    requires Enumerates(order, Candidates(modelPanels, visiblePanels))
    ensures FcModelingMakePlayblast(FcModelingNames, style, modelPanels, visiblePanels, focus, order, cameraOf,
                                    mode, home, projectDir, stamp, sceneName, dialog) == Err(NameError("get_model_panel"))
  {
    assert PanelQueryName !in FcModelingNames by {
      assert PanelQueryName[0] == 'g';
    }
  }

  /**
   * With `get_model_panel` imported, `make_playblast` is the viewport
   * module's `create_playblast` on every input.
   */
  lemma FcModelingPlayblastImported(names: set<string>, style: QueryStyle, modelPanels: seq<string>,
                                    visiblePanels: seq<string>, focus: Option<string>, order: seq<string>,
                                    cameraOf: string -> Result<string>, mode: string, home: string,
                                    projectDir: string, stamp: string, sceneName: string,
                                    dialog: Option<seq<string>>)
    requires Enumerates(order, Candidates(modelPanels, visiblePanels))
    requires PanelQueryName in names
    ensures FcModelingMakePlayblast(names, style, modelPanels, visiblePanels, focus, order, cameraOf,
                                    mode, home, projectDir, stamp, sceneName, dialog)
         == CreatePlayblast(style, modelPanels, visiblePanels, focus, order, cameraOf,
                            mode, home, projectDir, stamp, sceneName, dialog)
  {
  }

  // ----- the host -----

  /**
   * The Maya session as the viewport functions see it: each model editor's
   * display settings, the folders that exist, and the still images captured.
   */
  class Host {
    var displays: map<string, Display>
    var folders: set<string>
    var snapshots: seq<Snapshot>

    constructor (displays: map<string, Display>, folders: set<string>)
      ensures this.displays == displays && this.folders == folders && snapshots == []
    {
      this.displays := displays;
      this.folders := folders;
      snapshots := [];
    }

    /** `toggle_smooth_shaded(model_editor)`, edit by edit. */
    method ToggleSmoothShaded(editor: string)
      requires editor in displays
      modifies this
      ensures displays == old(displays)[editor := SmoothShadedToggled(old(displays)[editor])]
      ensures folders == old(folders) && snapshots == old(snapshots)
    {
      var d := displays[editor];
      if d.appearance == Wireframe {
        displays := displays[editor := Display(d.appearance, true)];
        displays := displays[editor := Display(SmoothShaded, displays[editor].wireframeOnShaded)];
      } else if d.wireframeOnShaded {
        displays := displays[editor := Display(Wireframe, d.wireframeOnShaded)];
      }
    }

    /** `toggle_wireframe(model_editor)`: the two guarded branches of the source. */
    method ToggleWireframe(editor: string)
      requires editor in displays
      modifies this
      ensures displays == old(displays)[editor := WireframeToggled(old(displays)[editor])]
      ensures folders == old(folders) && snapshots == old(snapshots)
    {
      var d := displays[editor];
      if d.appearance == SmoothShaded && d.wireframeOnShaded {
        displays := displays[editor := Display(d.appearance, false)];
      } else if d.appearance == SmoothShaded && !d.wireframeOnShaded {
        displays := displays[editor := Display(d.appearance, true)];
      }
    }

    /**
     * `create_viewport_snapshot(image_file)`. With `makesFolder` (every copy
     * but fcore) a missing `dirname(image_file)` is created first; a file name
     * without a folder part has the folder '', for which `os.path.exists` is
     * always False (whatever `folders` holds) and which `os.makedirs` refuses
     * with OSError.
     */
    method CreateViewportSnapshot(imageFile: string, makesFolder: bool) returns (r: Result<()>)
      modifies this
      ensures displays == old(displays)
      ensures var folder := FileSystem.Dirname(imageFile);
        && (makesFolder && folder == "" ==>
              r == Err(OSError(MissingFolderMessage)) && folders == old(folders) && snapshots == old(snapshots))
        && (!(makesFolder && folder == "") ==>
              && r == Ok(())
              && folders == (if makesFolder then old(folders) + {folder} else old(folders))
              && snapshots == old(snapshots) + [Snapshot(SnapshotCompression(imageFile), imageFile)])
    {
      if makesFolder {
        var folder := FileSystem.Dirname(imageFile);
        if folder == "" {
          return Err(OSError(MissingFolderMessage));
        }
        if folder !in folders {
          folders := folders + {folder};
        }
      }
      snapshots := snapshots + [Snapshot(SnapshotCompression(imageFile), imageFile)];
      return Ok(());
    }
  }
}
