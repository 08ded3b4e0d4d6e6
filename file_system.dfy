/**
 * `file_system.py` (fg_tools) and `fileSystem.py` (fcore): the workspace
 * discovery walk, the desktop folder and the incremental-save rename.
 * The two copies agree line for line on everything modelled here.
 * Paths are '/'-separated (POSIX `os.path.dirname`); the file system is the
 * set of paths that exist.
 */
module FileSystem {
  import opened Outcomes
  import opened Text

  // ----- os.path.dirname -----

  /** One past the last '/' of `p`, or 0 when there is none. */
  function LastSlashEnd(p: string): (i: nat)
    ensures i <= |p|
    ensures i > 0 ==> p[i - 1] == '/'
    ensures forall k :: i <= k < |p| ==> p[k] != '/'
  {
    if p == [] then 0
    else if p[|p| - 1] == '/' then |p|
    else LastSlashEnd(p[..|p| - 1])
  }

  predicate AllSlashes(s: string) { forall k :: 0 <= k < |s| ==> s[k] == '/' }

  /**
   * POSIX `os.path.dirname`: everything up to the last '/', with trailing
   * slashes removed unless the head consists of slashes only.
   */
  function Dirname(p: string): (d: string)
    ensures |d| <= |p| && p[..|d|] == d
  {
    var head := p[..LastSlashEnd(p)];
    if head != [] && !AllSlashes(head) then head[..|head| - TrailingIn(head, {'/'})] else head
  }

  /** `dirname` either shortens a path or has reached its fixpoint. */
  lemma DirnameShortensOrFixes(p: string)
    ensures Dirname(p) == p || |Dirname(p)| < |p|
  {
  }

  /** The parent of `folder/name` is `folder`. */
  lemma DirnameOfChild(folder: string, name: string)
    requires folder != [] && folder[|folder| - 1] != '/'
    requires forall k :: 0 <= k < |name| ==> name[k] != '/'
    ensures Dirname(folder + "/" + name) == folder
  {
    var p := folder + "/" + name;
    assert p[|folder|] == '/';
    assert LastSlashEnd(p) == |folder| + 1;
    var head := p[..|folder| + 1];
    assert head == folder + "/";
    assert head[|folder| - 1] == folder[|folder| - 1];
    assert !AllSlashes(head);
    assert TrailingIn(head, {'/'}) == 1;
  }

  /** A root made of slashes is its own parent: the walk stops there. */
  lemma DirnameOfRoot(p: string)
    requires AllSlashes(p)
    ensures Dirname(p) == p
  {
  }

  // ----- get_workspace / findWorkspace -----

  const WorkspaceMarker: string := "/workspace.mel"

  const NoWorkspaceMessage: string := "Could not find workspace.mel"

  predicate HasMarker(existing: set<string>, folder: string) {
    folder + WorkspaceMarker in existing
  }

  /** The folders the walk visits from `folder`: itself, then each `dirname` until the fixpoint. */
  function Climb(folder: string): (c: seq<string>)
    ensures |c| >= 1 && c[0] == folder
    decreases |folder|
  {
    var up := Dirname(folder);
    if up == folder then [folder] else [folder] + Climb(up)
  }

  /** What the walk answers when it starts at `folder`. */
  function WorkspaceFrom(existing: set<string>, folder: string): Result<string>
    decreases |folder|
  {
    if HasMarker(existing, folder) then Ok(folder)
    else if Dirname(folder) == folder then Err(OSError(NoWorkspaceMessage))
    else WorkspaceFrom(existing, Dirname(folder))
  }

  /** The first folder of `c` holding the marker, or the OSError when none does. */
  function FirstMarked(existing: set<string>, c: seq<string>): Result<string> {
    if c == [] then Err(OSError(NoWorkspaceMessage))
    else if HasMarker(existing, c[0]) then Ok(c[0])
    else FirstMarked(existing, c[1..])
  }

  /** The walk answers with the first marked folder of its climb. */
  lemma {:induction false} WorkspaceFromClimb(existing: set<string>, folder: string)
    ensures WorkspaceFrom(existing, folder) == FirstMarked(existing, Climb(folder))
    decreases |folder|
  {
    var up := Dirname(folder);
    if up != folder {
      assert Climb(folder)[1..] == Climb(up);
      WorkspaceFromClimb(existing, up);
    } else {
      assert Climb(folder)[1..] == [];
    }
  }

  /** `FirstMarked` finds the marked folder of smallest index, and fails only when none is marked. */
  lemma {:induction false} FirstMarkedIsNearest(existing: set<string>, c: seq<string>)
    ensures FirstMarked(existing, c).Ok? <==> exists k :: 0 <= k < |c| && HasMarker(existing, c[k])
    ensures FirstMarked(existing, c).Err? ==> FirstMarked(existing, c).error == OSError(NoWorkspaceMessage)
    ensures FirstMarked(existing, c).Ok? ==>
      exists k :: 0 <= k < |c| && c[k] == FirstMarked(existing, c).value
        && HasMarker(existing, c[k])
        && forall m :: 0 <= m < k ==> !HasMarker(existing, c[m])
  {
    if c != [] && !HasMarker(existing, c[0]) {
      var t := c[1..];
      FirstMarkedIsNearest(existing, t);
      if FirstMarked(existing, t).Ok? {
        var k :| 0 <= k < |t| && t[k] == FirstMarked(existing, t).value
          && HasMarker(existing, t[k])
          && forall m :: 0 <= m < k ==> !HasMarker(existing, t[m]);
        assert c[k + 1] == t[k];
        forall m | 0 <= m < k + 1 ensures !HasMarker(existing, c[m]) {
          if m > 0 {
            assert c[m] == t[m - 1];
          }
        }
      } else {
        forall k | 0 <= k < |c| ensures !HasMarker(existing, c[k]) {
          if k > 0 {
            assert c[k] == t[k - 1];
          }
        }
      }
    } else if c != [] {
      assert HasMarker(existing, c[0]);
    }
  }

  /**
   * The walk finds the NEAREST marked folder on the climb, and fails with
   * OSError exactly when no folder on the climb is marked.
   */
  lemma WorkspaceFromIsNearest(existing: set<string>, folder: string)
    ensures WorkspaceFrom(existing, folder).Ok? <==> exists k :: 0 <= k < |Climb(folder)| && HasMarker(existing, Climb(folder)[k])
    ensures WorkspaceFrom(existing, folder).Err? ==> WorkspaceFrom(existing, folder).error == OSError(NoWorkspaceMessage)
    ensures WorkspaceFrom(existing, folder).Ok? ==>
      exists k :: 0 <= k < |Climb(folder)| && Climb(folder)[k] == WorkspaceFrom(existing, folder).value
        && HasMarker(existing, Climb(folder)[k])
        && forall m :: 0 <= m < k ==> !HasMarker(existing, Climb(folder)[m])
  {
    WorkspaceFromClimb(existing, folder);
    FirstMarkedIsNearest(existing, Climb(folder));
  }

  /**
   * `get_workspace(file_path)` (fcore: `findWorkspace(filePath)`): climbs from
   * `dirname(file_path)` until `<folder>/workspace.mel` exists, raising
   * OSError once `dirname` stops changing.
   */
  method GetWorkspace(existing: set<string>, filePath: string) returns (r: Result<string>)
    ensures r == WorkspaceFrom(existing, Dirname(filePath))
  {
    var folder := Dirname(filePath);
    while !HasMarker(existing, folder)
      invariant WorkspaceFrom(existing, folder) == WorkspaceFrom(existing, Dirname(filePath))
      decreases |folder|
    {
      var next := Dirname(folder);
      if next == folder {
        return Err(OSError(NoWorkspaceMessage));
      }
      folder := next;
    }
    return Ok(folder);
  }

  // ----- get_desktop_folder / getDesktopFolder -----

  /** `expanduser('~').replace('Documents', 'Desktop') + '/'`, with the home folder as input. */
  function DesktopFolder(home: string): (d: string)
    ensures |d| > 0 && d[|d| - 1] == '/'
  {
    ReplaceAll(home, "Documents", "Desktop") + "/"
  }

  /** A home folder without "Documents" in it is kept; the first "Documents" becomes "Desktop". */
  lemma DesktopFolderSpec(home: string)
    ensures !Contains(home, "Documents") ==> DesktopFolder(home) == home + "/"
    ensures forall k: nat :: OccursAt(home, "Documents", k) && (forall i: nat :: i < k ==> !OccursAt(home, "Documents", i)) ==>
      DesktopFolder(home) == home[..k] + "Desktop" + ReplaceFrom(home, "Documents", "Desktop", k + 9) + "/"
  {
    if !Contains(home, "Documents") {
      ReplaceAllAbsent(home, "Documents", "Desktop");
    }
    forall k: nat | OccursAt(home, "Documents", k) && (forall i: nat :: i < k ==> !OccursAt(home, "Documents", i))
      ensures DesktopFolder(home) == home[..k] + "Desktop" + ReplaceFrom(home, "Documents", "Desktop", k + 9) + "/"
    {
      ReplaceAllLeftmost(home, "Documents", "Desktop", k);
    }
  }

  // ----- the digit run that incremental_save bumps -----

  predicate NoDigits(s: string) { forall k :: 0 <= k < |s| ==> !IsDigit(s[k]) }

  /** One past the last digit of `s`, or 0 when `s` has no digit. */
  function LastDigitEnd(s: string): (j: nat)
    ensures j <= |s| && NoDigits(s[j..])
    ensures j > 0 ==> IsDigit(s[j - 1])
  {
    if s == [] then 0
    else if IsDigit(s[|s| - 1]) then |s|
    else
      var j := LastDigitEnd(s[..|s| - 1]);
      assert s[j..] == s[..|s| - 1][j..] + [s[|s| - 1]];
      j
  }

  /** How many digits end `s`. */
  function TrailingDigits(s: string): (n: nat)
    ensures n <= |s| && AllDigits(s[|s| - n..])
    ensures n < |s| ==> !IsDigit(s[|s| - n - 1])
  {
    if s != [] && IsDigit(s[|s| - 1]) then
      var n := TrailingDigits(s[..|s| - 1]);
      TrailingDigitsStep(s, n);
      n + 1
    else 0
  }

  /** One more trailing digit: the step of `TrailingDigits`. */
  lemma TrailingDigitsStep(s: string, n: nat)
    requires s != [] && IsDigit(s[|s| - 1])
    requires n <= |s| - 1 && AllDigits(s[..|s| - 1][|s| - 1 - n..])
    requires n < |s| - 1 ==> !IsDigit(s[..|s| - 1][|s| - 1 - n - 1])
    ensures AllDigits(s[|s| - (n + 1)..])
    ensures n + 1 < |s| ==> !IsDigit(s[|s| - (n + 1) - 1])
  {
    var t := s[..|s| - 1];
    assert s[|s| - (n + 1)..] == t[|t| - n..] + [s[|s| - 1]];
  }

  /** A maximal run of digits `s[start..end]` with no digit after it. */
  datatype Run = Run(start: nat, end: nat)

  ghost predicate IsLastRun(s: string, r: Run) {
    && r.start < r.end <= |s|
    && AllDigits(s[r.start..r.end])
    && (r.start == 0 || !IsDigit(s[r.start - 1]))
    && NoDigits(s[r.end..])
  }

  /** The last match of `\d+` in `s`, as `[...][-1]` picks it. */
  function LastRun(s: string): (r: Option<Run>)
    ensures r.Some? ==> r.value.start < r.value.end <= |s| && AllDigits(s[r.value.start..r.value.end])
  {
    var j := LastDigitEnd(s);
    if j == 0 then None
    else
      var n := TrailingDigits(s[..j]);
      assert s[..j][j - n..] == s[j - n..j];
      Some(Run(j - n, j))
  }

  /** `LastRun` finds nothing exactly when there is no digit, and otherwise the last maximal run. */
  lemma LastRunSpec(s: string)
    ensures LastRun(s).None? <==> NoDigits(s)
    ensures LastRun(s).Some? ==> IsLastRun(s, LastRun(s).value)
  {
    var j := LastDigitEnd(s);
    if j == 0 {
      assert s[j..] == s;
    } else {
      var n := TrailingDigits(s[..j]);
      assert s[..j][j - n..] == s[j - n..j];
      assert j - n > 0 ==> s[..j][j - n - 1] == s[j - n - 1];
    }
  }

  lemma DigitsWithin(s: string, i: nat, j: nat)
    requires i <= j <= |s| && AllDigits(s[i..j])
    ensures forall k :: i <= k < j ==> IsDigit(s[k])
  {
    forall k | i <= k < j ensures IsDigit(s[k]) {
      assert s[i..j][k - i] == s[k];
    }
  }

  lemma NoDigitsAfter(s: string, j: nat)
    requires j <= |s| && NoDigits(s[j..])
    ensures forall k :: j <= k < |s| ==> !IsDigit(s[k])
  {
    forall k | j <= k < |s| ensures !IsDigit(s[k]) {
      assert s[j..][k - j] == s[k];
    }
  }

  /** Only one run of `s` is the last maximal one. */
  lemma LastRunUnique(s: string, r: Run)
    requires IsLastRun(s, r)
    ensures LastRun(s) == Some(r)
  {
    DigitsWithin(s, r.start, r.end);
    assert IsDigit(s[r.start]);
    LastRunSpec(s);
    var q := LastRun(s).value;
    DigitsWithin(s, q.start, q.end);
    NoDigitsAfter(s, q.end);
    NoDigitsAfter(s, r.end);
    assert IsDigit(s[q.end - 1]) && IsDigit(s[r.end - 1]);
    assert q.end == r.end;
    assert q.start > 0 ==> !IsDigit(s[q.start - 1]);
    assert r.start > 0 ==> !IsDigit(s[r.start - 1]);
  }

  /** The digit run `digits` counted up by one and `zfill`ed to its old width. */
  function Bumped(digits: string): (z: string)
    requires AllDigits(digits)
    ensures AllDigits(z)
  {
    ZFill(Str(DigitsValue(digits) + 1), |digits|)
  }

  /** The bumped run is one higher and as wide as the old run or the new number, whichever is wider. */
  lemma BumpedSpec(digits: string)
    requires AllDigits(digits)
    ensures DigitsValue(Bumped(digits)) == DigitsValue(digits) + 1
    ensures |Bumped(digits)| == Max(|digits|, |Str(DigitsValue(digits) + 1)|)
  {
    var t := Str(DigitsValue(digits) + 1);
    ZFillSpec(t, |digits|);
    StrRoundTrip(DigitsValue(digits) + 1);
  }

  function Max(a: nat, b: nat): nat { if a < b then b else a }

  /**
   * The rename at the heart of `incremental_save`: the last digit run is
   * replaced by its value plus one, `zfill`ed to the run's old width; `None`
   * when the name has no digit at all.
   */
  function NextName(name: string): Option<string> {
    match LastRun(name)
    case None => None
    case Some(r) => Some(name[..r.start] + Bumped(name[r.start..r.end]) + name[r.end..])
  }

  /**
   * Reading the new name back finds its last digit run at the same place,
   * holding the bumped run (one higher, see `BumpedSpec`); the text around
   * the run is kept verbatim.
   */
  lemma NextNameIncrements(name: string)
    requires !NoDigits(name)
    ensures NextName(name).Some? && LastRun(NextName(name).value).Some?
    ensures
      var r, n := LastRun(name).value, NextName(name).value;
      var q := LastRun(n).value;
      && q.start == r.start
      && n[q.start..q.end] == Bumped(name[r.start..r.end])
      && DigitsValue(n[q.start..q.end]) == DigitsValue(name[r.start..r.end]) + 1
      && n[..q.start] == name[..r.start]
      && n[q.end..] == name[r.end..]
  {
    LastRunSpec(name);
    var r := LastRun(name).value;
    var digits := name[r.start..r.end];
    var z := Bumped(digits);
    var pre, post := name[..r.start], name[r.end..];
    var n := pre + z + post;
    assert NextName(name) == Some(n) by {
      NextNameShape(name);
    }
    BumpedSpec(digits);
    if r.start > 0 {
      assert pre[|pre| - 1] == name[r.start - 1];
    }
    assert |pre| == r.start;
    LastRunOfSplice(pre, z, post);
    SpliceParts(pre, z, post);
  }

  /** The new name is the old one with its last run replaced by the bumped run. */
  lemma NextNameShape(name: string)
    requires !NoDigits(name)
    ensures NextName(name).Some?
    ensures
      var r := LastRun(name).value;
      NextName(name).value == name[..r.start] + Bumped(name[r.start..r.end]) + name[r.end..]
  {
    LastRunSpec(name);
  }

  /** Digits between a non-digit (or the start) and a digit-free tail are what `LastRun` finds. */
  lemma LastRunOfSplice(pre: string, z: string, post: string)
    requires |z| > 0 && AllDigits(z)
    requires pre == [] || !IsDigit(pre[|pre| - 1])
    requires NoDigits(post)
    ensures LastRun(pre + z + post) == Some(Run(|pre|, |pre| + |z|))
  {
    SpliceRun(pre, z, post);
    LastRunUnique(pre + z + post, Run(|pre|, |pre| + |z|));
  }

  lemma SpliceParts(pre: string, z: string, post: string)
    ensures (pre + z + post)[..|pre|] == pre
    ensures (pre + z + post)[|pre|..|pre| + |z|] == z
    ensures (pre + z + post)[|pre| + |z|..] == post
  {
  }

  /** Digits placed between a non-digit (or the start) and a digit-free tail form the last run. */
  lemma SpliceRun(pre: string, z: string, post: string)
    requires |z| > 0 && AllDigits(z)
    requires pre == [] || !IsDigit(pre[|pre| - 1])
    requires NoDigits(post)
    ensures IsLastRun(pre + z + post, Run(|pre|, |pre| + |z|))
  {
    var n := pre + z + post;
    assert n[|pre|..|pre| + |z|] == z;
    assert n[|pre| + |z|..] == post;
    if pre != [] {
      assert n[|pre| - 1] == pre[|pre| - 1];
    }
  }

  lemma BumpedPadded()
    ensures Bumped("009") == "010"
  {
    assert DigitsValue("009") == 9 by {
      assert "009"[..2] == "00" && "00"[..1] == "0" && "0"[..0] == [];
    }
    assert Str(10) == "10" by {
      assert Str(1) == "1" && Str(0) == "0";
    }
    assert Zeros(1) == "0";
  }

  lemma BumpedCarry()
    ensures Bumped("99") == "100"
  {
    assert DigitsValue("99") == 99 by {
      assert "99"[..1] == "9" && "9"[..0] == [];
    }
    assert Str(100) == "100" by {
      assert Str(10) == "10" && Str(1) == "1" && Str(0) == "0";
    }
  }

  /** A zero-padded run keeps its width: "shot_v009.ma" becomes "shot_v010.ma". */
  lemma NextNameKeepsPadding()
    ensures NextName("shot_v009.ma") == Some("shot_v010.ma")
  {
    var pre, d, post := "shot_v", "009", ".ma";
    var name := pre + d + post;
    assert name == "shot_v009.ma";
    assert LastRun(name) == Some(Run(6, 9)) by {
      LastRunOfSplice(pre, d, post);
    }
    assert NextName(name) == Some(pre + Bumped(d) + post) by {
      NextNameShape(name);
      SpliceParts(pre, d, post);
    }
    assert Bumped(d) == "010" by {
      BumpedPadded();
    }
    assert pre + "010" + post == "shot_v010.ma";
  }

  /** A run of nines grows by a digit: "v99" becomes "v100". */
  lemma NextNameCarries()
    ensures NextName("v99") == Some("v100")
  {
    var pre, d, post := "v", "99", "";
    var name := pre + d + post;
    assert name == "v99";
    assert LastRun(name) == Some(Run(1, 3)) by {
      LastRunOfSplice(pre, d, post);
    }
    assert NextName(name) == Some(pre + Bumped(d) + post) by {
      NextNameShape(name);
      SpliceParts(pre, d, post);
    }
    assert Bumped(d) == "100" by {
      BumpedCarry();
    }
    assert pre + "100" + post == "v100";
  }

  /** A name without digits has no next name. */
  lemma NextNameWithoutDigits(name: string)
    ensures NextName(name).None? <==> NoDigits(name)
  {
    LastRunSpec(name);
  }

  // ----- incremental_save -----

  datatype FileType = MayaBinary | MayaAscii

  /** `'mayaBinary'` when the current name ends with 'mb', `'mayaAscii'` otherwise. */
  function SaveType(name: string): FileType {
    if EndsWith(name, "mb") then MayaBinary else MayaAscii
  }

  /** A name ending in a digit run followed by `post` ends with "mb" exactly when `post` does. */
  lemma EndsWithMbAfterDigits(pre: string, d: string, post: string)
    requires |d| > 0 && AllDigits(d)
    ensures EndsWith(pre + d + post, "mb") <==> EndsWith(post, "mb")
  {
    var s := pre + d + post;
    if |post| >= 2 {
      assert s[|s| - 2..] == post[|post| - 2..];
    } else {
      var i := |pre| + |d| - 1;
      assert s[i] == d[|d| - 1];
    }
  }

  /** The rename never changes which type the file is saved as. */
  lemma NextNameKeepsSaveType(name: string)
    requires NextName(name).Some?
    ensures SaveType(NextName(name).value) == SaveType(name)
  {
    LastRunSpec(name);
    NextNameShape(name);
    var r := LastRun(name).value;
    var pre, digits, post := name[..r.start], name[r.start..r.end], name[r.end..];
    assert name == pre + digits + post;
    EndsWithMbAfterDigits(pre, digits, post);
    EndsWithMbAfterDigits(pre, Bumped(digits), post);
    BumpedSpec(digits);
    StrRoundTrip(DigitsValue(digits) + 1);
  }

  const NoNumbersWarning: string := "Filename has no Numbers in it!"

  /** The scene file open in the host: its name, the saves made and the warnings shown. */
  class OpenScene {
    var sceneName: string
    var saves: seq<(string, FileType)>
    var warnings: seq<string>

    constructor (name: string)
      ensures sceneName == name && saves == [] && warnings == []
    {
      sceneName := name;
      saves := [];
      warnings := [];
    }

    /**
     * `incremental_save()` as written: `re.finditer` returns an iterator,
     * which is always true, so a name without digits reaches `[...][-1]` on an
     * empty list and raises IndexError; the warning is never shown.
     */
    method IncrementalSaveAsWritten() returns (r: Result<string>)
      modifies this
      ensures NextName(old(sceneName)).None? ==> r == Err(IndexError) && unchanged(this)
      ensures NextName(old(sceneName)).Some? ==> r == Ok(sceneName) && NextName(old(sceneName)) == Some(sceneName)
      ensures NextName(old(sceneName)).Some? ==> saves == old(saves) + [(sceneName, SaveType(old(sceneName)))]
      ensures warnings == old(warnings)
    {
      var next := NextName(sceneName);
      if next.None? {
        return Err(IndexError);
      }
      var fileType := SaveType(sceneName);
      sceneName := next.value;
      saves := saves + [(sceneName, fileType)];
      return Ok(sceneName);
    }

    /**
     * `incremental_save()` as its `else` branch intends: a name without digits
     * only shows the warning; the file is neither renamed nor saved.
     */
    method IncrementalSave() returns (saved: bool)
      modifies this
      ensures saved <==> !NoDigits(old(sceneName))
      ensures !saved ==> sceneName == old(sceneName) && saves == old(saves) && warnings == old(warnings) + [NoNumbersWarning]
      ensures saved ==> NextName(old(sceneName)) == Some(sceneName)
      ensures saved ==> saves == old(saves) + [(sceneName, SaveType(old(sceneName)))]
      ensures saved ==> warnings == old(warnings)
    {
      var next := NextName(sceneName);
      if next.None? {
        warnings := warnings + [NoNumbersWarning];
        return false;
      }
      var fileType := SaveType(sceneName);
      sceneName := next.value;
      saves := saves + [(sceneName, fileType)];
      return true;
    }
  }
}
