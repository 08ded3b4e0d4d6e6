/**
 * `tests/mayaUnittest.py`: the settings of the Maya test runner, the
 * `sys.path` helper, the temp-file bookkeeping and plug-in bookkeeping of
 * `TestCase`, and `ScriptEditorState`. The file system, `sys.path`, the
 * loaded plug-ins and the script editor's flags are the fields of a
 * `Session`.
 */
module MayaUnittest {
  import opened Outcomes
  import opened Text

  /** The four `scriptEditorInfo` suppression flags. */
  datatype EditorFlags = EditorFlags(results: bool, errors: bool, warnings: bool, info: bool)

  /** Everything suppressed. */
  const Silent: EditorFlags := EditorFlags(true, true, true, true)

  /** The process and host state the helpers touch. */
  class Session {
    /** The paths that exist, files and directories alike. */
    var existing: set<string>
    var sysPath: seq<string>
    /** The plug-ins Maya has loaded. */
    var plugins: set<string>
    var editor: EditorFlags

    constructor (existing: set<string>, sysPath: seq<string>, plugins: set<string>, editor: EditorFlags)
      ensures this.existing == existing && this.sysPath == sysPath
      ensures this.plugins == plugins && this.editor == editor
    {
      this.existing := existing;
      this.sysPath := sysPath;
      this.plugins := plugins;
      this.editor := editor;
    }
  }

  // ----- Settings and set_temp_dir -----

  /** `Settings`: the temp directory (a fresh uuid folder, given here) and three switches, all on. */
  class Settings {
    var tempDir: string
    var deleteFiles: bool
    var bufferOutput: bool
    var fileNew: bool

    constructor (tempDir: string)
      ensures this.tempDir == tempDir && deleteFiles && bufferOutput && fileNew
    {
      this.tempDir := tempDir;
      deleteFiles := true;
      bufferOutput := true;
      fileNew := true;
    }
  }

  /** `'{0} does not exist.'.format(directory)`. */
  function MissingDirectoryMessage(directory: string): string {
    directory + " does not exist."
  }

  /** `set_temp_dir(directory)`: only an existing directory is taken; otherwise RuntimeError. */
  method SetTempDir(settings: Settings, session: Session, directory: string) returns (r: Result<()>)
    modifies settings`tempDir
    ensures directory in session.existing ==> r == Ok(()) && settings.tempDir == directory
    ensures directory !in session.existing ==>
              r == Err(RuntimeError(MissingDirectoryMessage(directory))) && settings.tempDir == old(settings.tempDir)
  {
    if directory in session.existing {
      settings.tempDir := directory;
      return Ok(());
    }
    return Err(RuntimeError(MissingDirectoryMessage(directory)));
  }

  // ----- add_to_path -----

  /** `sys.path` after `add_to_path(path)`: the path in front when it exists and is not there yet. */
  function PathWith(entries: seq<string>, existing: set<string>, path: string): (r: seq<string>)
    ensures path in existing ==> path in r
    ensures |r| <= |entries| + 1
  {
    if path in existing && path !in entries then [path] + entries else entries
  }

  /** `add_to_path(path)`: True exactly when it inserted at index 0; otherwise `sys.path` is unchanged. */
  method AddToPath(session: Session, path: string) returns (added: bool)
    modifies session`sysPath
    ensures added <==> path in session.existing && path !in old(session.sysPath)
    ensures session.sysPath == PathWith(old(session.sysPath), session.existing, path)
  {
    if path in session.existing && path !in session.sysPath {
      session.sysPath := [path] + session.sysPath;
      return true;
    }
    return false;
  }

  /** Adding a path twice is the same as adding it once, and nothing but the path is inserted. */
  lemma AddToPathSpec(entries: seq<string>, existing: set<string>, path: string)
    ensures PathWith(PathWith(entries, existing, path), existing, path) == PathWith(entries, existing, path)
    ensures forall p :: p in PathWith(entries, existing, path) <==> p in entries || (p == path && path in existing)
    ensures PathWith(entries, existing, path) == entries || PathWith(entries, existing, path)[1..] == entries
  {
  }

  // ----- os.path.splitext -----

  /** `s.rfind(c)`: the last index holding `c`, or -1. */
  function RFind(s: string, c: char): (i: int)
    ensures -1 <= i < |s|
    ensures 0 <= i ==> s[i] == c
    ensures forall k :: i < k < |s| ==> s[k] != c
  {
    if s == [] then -1
    else if s[|s| - 1] == c then |s| - 1
    else RFind(s[..|s| - 1], c)
  }

  /** Whether a character other than '.' occurs. */
  predicate HasNonDot(s: string) {
    exists k :: 0 <= k < |s| && s[k] != '.'
  }

  /**
   * `os.path.splitext(p)` (POSIX): the extension starts at the last '.' of
   * the last path component, unless only dots come before it in that
   * component; then there is none.
   */
  function SplitExt(p: string): (r: (string, string))
    ensures r.0 + r.1 == p
  {
    var sep, dot := RFind(p, '/'), RFind(p, '.');
    if sep < dot && HasNonDot(p[sep + 1..dot]) then (p[..dot], p[dot..]) else (p, "")
  }

  /** The extension is empty or a single dotted suffix of the last path component. */
  lemma SplitExtSpec(p: string)
    ensures var ext := SplitExt(p).1;
            ext == [] || (ext[0] == '.' && '/' !in ext && '.' !in ext[1..])
  {
    var sep, dot := RFind(p, '/'), RFind(p, '.');
    if sep < dot && HasNonDot(p[sep + 1..dot]) {
      var ext := p[dot..];
      assert forall k :: 0 <= k < |ext| ==> ext[k] == p[dot + k];
      assert '/' !in ext;
      assert forall k :: 1 <= k < |ext| ==> ext[k] != '.';
    }
  }

  /** Looking past a tail that does not hold `c` finds the same index as in the head. */
  lemma {:induction false} RFindAppend(s: string, t: string, c: char)
    requires c !in t
    ensures RFind(s + t, c) == RFind(s, c)
  {
    if t != [] {
      assert (s + t)[..|s + t| - 1] == s + t[..|t| - 1];
      RFindAppend(s, t[..|t| - 1], c);
    } else {
      assert s + t == s;
    }
  }

  /**
   * A name with a real stem and a dotted extension splits back into the
   * two: `splitext('shots/scene.ma') == ('shots/scene', '.ma')`.
   */
  lemma SplitExtRoundTrip(base: string, ext: string)
    requires ext != [] && ext[0] == '.' && '/' !in ext && '.' !in ext[1..]
    requires HasNonDot(base[RFind(base, '/') + 1..])
    ensures SplitExt(base + ext) == (base, ext)
  {
    var p := base + ext;
    var sep := RFind(base, '/');
    RFindAppend(base, ext, '/');
    assert forall k :: 1 <= k < |ext| ==> ext[k] == ext[1..][k - 1];
    RFindLastDot(base, ext);
    assert p[sep + 1..|base|] == base[sep + 1..];
    assert p[..|base|] == base && p[|base|..] == ext;
  }

  /** The last '.' of `base + ext` is the one that starts `ext`. */
  lemma {:induction false} RFindLastDot(base: string, ext: string)
    requires ext != [] && ext[0] == '.' && forall k :: 1 <= k < |ext| ==> ext[k] != '.'
    ensures RFind(base + ext, '.') == |base|
  {
    var q := base + ext;
    if |ext| > 1 {
      var front := ext[..|ext| - 1];
      assert q[..|q| - 1] == base + front;
      RFindLastDot(base, front);
    }
  }

  // ----- TestCase: temp files -----

  /** `'{0}/{1}{2}'` for count 0 and `'{0}/{1}{2}{3}'` with the count after. */
  function Candidate(dir: string, base: string, ext: string, count: nat): (path: string)
    ensures |path| >= |dir| + 1 + |base| + |ext|
  {
    if count == 0 then dir + "/" + base + ext else dir + "/" + base + Str(count) + ext
  }

  /** Different counts give different paths. */
  lemma CandidateInjective(dir: string, base: string, ext: string, m: nat, n: nat)
    requires Candidate(dir, base, ext, m) == Candidate(dir, base, ext, n)
    ensures m == n
  {
    var front := dir + "/" + base;
    if m != 0 && n != 0 {
      var a, b := Candidate(dir, base, ext, m), Candidate(dir, base, ext, n);
      assert a[|front|..|a| - |ext|] == Str(m);
      assert b[|front|..|b| - |ext|] == Str(n);
      StrInjective(m, n);
    }
  }

  /** The first `n` candidates. */
  ghost function CandidateSet(dir: string, base: string, ext: string, n: nat): set<string> {
    if n == 0 then {} else CandidateSet(dir, base, ext, n - 1) + {Candidate(dir, base, ext, n - 1)}
  }

  /** A later candidate is none of the first `n`. */
  lemma {:induction false} LaterCandidateIsNew(dir: string, base: string, ext: string, n: nat, k: nat)
    requires n <= k
    ensures Candidate(dir, base, ext, k) !in CandidateSet(dir, base, ext, n)
  {
    if n > 0 {
      LaterCandidateIsNew(dir, base, ext, n - 1, k);
      if Candidate(dir, base, ext, n - 1) == Candidate(dir, base, ext, k) {
        CandidateInjective(dir, base, ext, n - 1, k);
      }
    }
  }

  /**
   * One more existing candidate leaves fewer existing paths outside the
   * candidates seen: the search for a free name ends.
   */
  lemma CandidateSetStep(existing: set<string>, dir: string, base: string, ext: string, n: nat)
    requires CandidateSet(dir, base, ext, n) <= existing && Candidate(dir, base, ext, n) in existing
    requires Taken(existing, dir, base, ext, n)
    ensures CandidateSet(dir, base, ext, n + 1) <= existing && Taken(existing, dir, base, ext, n + 1)
    ensures |existing - CandidateSet(dir, base, ext, n + 1)| < |existing - CandidateSet(dir, base, ext, n)|
  {
    var c := Candidate(dir, base, ext, n);
    LaterCandidateIsNew(dir, base, ext, n, n);
    var before, after := existing - CandidateSet(dir, base, ext, n), existing - CandidateSet(dir, base, ext, n + 1);
    assert before == after + {c};
  }

  /** The candidates before the `n`-th all exist. */
  predicate Taken(existing: set<string>, dir: string, base: string, ext: string, n: nat) {
    forall m :: 0 <= m < n ==> Candidate(dir, base, ext, m) in existing
  }

  /** Candidate `n` is the first one that does not exist. */
  predicate SmallestFree(existing: set<string>, dir: string, base: string, ext: string, n: nat) {
    Candidate(dir, base, ext, n) !in existing && Taken(existing, dir, base, ext, n)
  }

  /** There is only one smallest free candidate. */
  lemma SmallestFreeUnique(existing: set<string>, dir: string, base: string, ext: string, m: nat, n: nat)
    requires SmallestFree(existing, dir, base, ext, m) && SmallestFree(existing, dir, base, ext, n)
    ensures m == n
  {
  }

  /** The first candidate rebuilds the given file name inside the temp directory. */
  lemma FirstCandidateIsFileName(dir: string, fileName: string)
    ensures Candidate(dir, SplitExt(fileName).0, SplitExt(fileName).1, 0) == dir + "/" + fileName
  {
  }

  /** `rmtree(dir)`: the directory and everything below it are gone. */
  function TreeRemoved(existing: set<string>, dir: string): (r: set<string>)
    ensures r <= existing && dir !in r
  {
    set p | p in existing && p != dir && !(|dir| + 1 <= |p| && p[..|dir| + 1] == dir + "/")
  }

  /** The record of loaded plug-ins: a set at first, the list `[]` after `unload_plugins`. */
  datatype PluginRecord = PluginSet(names: set<string>) | PluginList(entries: seq<string>)

  function Recorded(record: PluginRecord): set<string> {
    match record
    case PluginSet(names) => names
    case PluginList(entries) => set p | p in entries
  }

  /** `cls.plugins_loaded.add(plugin)`: a list has no `add`. */
  function WithPlugin(record: PluginRecord, plugin: string): (r: Result<PluginRecord>)
    ensures r.Ok? <==> record.PluginSet?
    ensures r.Ok? ==> Recorded(r.value) == Recorded(record) + {plugin}
  {
    match record
    case PluginSet(names) => Ok(PluginSet(names + {plugin}))
    case PluginList(_) => Err(AttributeError("'list' object has no attribute 'add'"))
  }

  /** What `unload_plugins` leaves behind: `cls.plugins_loaded = []`. */
  const AfterUnload: PluginRecord := PluginList([])

  /** What it evidently means to leave: an empty set. */
  const AfterUnloadIntended: PluginRecord := PluginSet({})

  /**
   * Once `unload_plugins` has run, the next `load_plugin` of the same test
   * case fails on `.add`; with an empty set it records the plug-in.
   */
  lemma LoadAfterUnload(plugin: string)
    ensures WithPlugin(AfterUnload, plugin) == Err(AttributeError("'list' object has no attribute 'add'"))
    ensures WithPlugin(AfterUnloadIntended, plugin) == Ok(PluginSet({plugin}))
  {
    assert {} + {plugin} == {plugin};
  }

  /** `TestCase`'s class attributes: the temp files handed out and the plug-ins loaded. */
  class TestCase {
    var filesCreated: seq<string>
    /** The attribute `delete_temp_files` assigns by mistake; absent until then. */
    var filesCreate: Option<seq<string>>
    var pluginsLoaded: PluginRecord

    constructor ()
      ensures filesCreated == [] && filesCreate == None && pluginsLoaded == PluginSet({})
    {
      filesCreated := [];
      filesCreate := None;
      pluginsLoaded := PluginSet({});
    }

    /**
     * `get_temp_filename(file_name)`: creates the temp directory when
     * missing and hands out the first candidate path that does not exist,
     * remembering it in `files_created`.
     */
    method GetTempFilename(settings: Settings, session: Session, fileName: string) returns (path: string)
      modifies this`filesCreated, session`existing
      ensures session.existing == old(session.existing) + {settings.tempDir}
      ensures path !in session.existing
      ensures exists n: nat :: SmallestFree(session.existing, settings.tempDir, SplitExt(fileName).0, SplitExt(fileName).1, n) &&
                               path == Candidate(settings.tempDir, SplitExt(fileName).0, SplitExt(fileName).1, n)
      ensures filesCreated == old(filesCreated) + [path]
    {
      var dir := settings.tempDir;
      if dir !in session.existing {
        session.existing := session.existing + {dir};
      }
      var base, ext := SplitExt(fileName).0, SplitExt(fileName).1;
      var count: nat := 0;
      path := Candidate(dir, base, ext, 0);
      while path in session.existing
        invariant path == Candidate(dir, base, ext, count)
        invariant session.existing == old(session.existing) + {dir}
        invariant filesCreated == old(filesCreated)
        invariant Taken(session.existing, dir, base, ext, count)
        invariant CandidateSet(dir, base, ext, count) <= session.existing
        decreases |session.existing - CandidateSet(dir, base, ext, count)|
      {
        CandidateSetStep(session.existing, dir, base, ext, count);
        count := count + 1;
        path := Candidate(dir, base, ext, count);
      }
      assert SmallestFree(session.existing, dir, base, ext, count);
      filesCreated := filesCreated + [path];
    }

    /**
     * `delete_temp_files()` as written: with `delete_files` on, the recorded
     * files and the temp directory are removed, but the assignment goes to
     * `files_create`, so `files_created` still lists them.
     */
    method DeleteTempFilesAsWritten(settings: Settings, session: Session)
      modifies this`filesCreate, session`existing
      ensures !settings.deleteFiles ==> session.existing == old(session.existing) && filesCreate == old(filesCreate)
      ensures settings.deleteFiles ==> filesCreate == Some([]) && session.existing == TempFilesRemoved(old(session.existing), filesCreated, settings.tempDir)
      ensures filesCreated == old(filesCreated)
    {
      if settings.deleteFiles {
        RemoveFiles(session, filesCreated);
        filesCreate := Some([]);
        if settings.tempDir in session.existing {
          session.existing := TreeRemoved(session.existing, settings.tempDir);
        }
      }
    }

    /** `delete_temp_files()` as its docstring says: the cache is cleared as well. */
    method DeleteTempFiles(settings: Settings, session: Session)
      modifies this`filesCreated, session`existing
      ensures !settings.deleteFiles ==> session.existing == old(session.existing) && filesCreated == old(filesCreated)
      ensures settings.deleteFiles ==> filesCreated == [] && session.existing == TempFilesRemoved(old(session.existing), old(filesCreated), settings.tempDir)
    {
      if settings.deleteFiles {
        RemoveFiles(session, filesCreated);
        filesCreated := [];
        if settings.tempDir in session.existing {
          session.existing := TreeRemoved(session.existing, settings.tempDir);
        }
      }
    }

    /** `load_plugin(plugin)`: Maya loads it, then it is recorded; a list record raises AttributeError. */
    method LoadPlugin(session: Session, plugin: string) returns (r: Result<()>)
      modifies this`pluginsLoaded, session`plugins
      ensures session.plugins == old(session.plugins) + {plugin}
      ensures WithPlugin(old(pluginsLoaded), plugin).Ok? ==>
                r == Ok(()) && pluginsLoaded == WithPlugin(old(pluginsLoaded), plugin).value
      ensures WithPlugin(old(pluginsLoaded), plugin).Err? ==>
                r == Err(WithPlugin(old(pluginsLoaded), plugin).error) && pluginsLoaded == old(pluginsLoaded)
    {
      session.plugins := session.plugins + {plugin};
      var recorded := WithPlugin(pluginsLoaded, plugin);
      if recorded.Err? {
        return Err(recorded.error);
      }
      pluginsLoaded := recorded.value;
      return Ok(());
    }

    /** `unload_plugins()` as written: every recorded plug-in is unloaded, then the record becomes `[]`. */
    method UnloadPluginsAsWritten(session: Session)
      modifies this`pluginsLoaded, session`plugins
      ensures session.plugins == old(session.plugins) - Recorded(old(pluginsLoaded))
      ensures pluginsLoaded == AfterUnload
    {
      UnloadAll(session, Recorded(pluginsLoaded));
      pluginsLoaded := AfterUnload;
    }

    /** `unload_plugins()` with the record reset to an empty set, so loading works again. */
    method UnloadPlugins(session: Session)
      modifies this`pluginsLoaded, session`plugins
      ensures session.plugins == old(session.plugins) - Recorded(old(pluginsLoaded))
      ensures pluginsLoaded == AfterUnloadIntended
    {
      UnloadAll(session, Recorded(pluginsLoaded));
      pluginsLoaded := AfterUnloadIntended;
    }
  }

  /** The paths left after removing the listed files and the temp directory tree. */
  function TempFilesRemoved(existing: set<string>, files: seq<string>, dir: string): (r: set<string>)
    ensures r <= existing
    ensures forall f :: f in files ==> f !in r
  {
    var left := existing - set f | f in files;
    if dir in left then TreeRemoved(left, dir) else left
  }

  /** `for f in files: if os.path.exists(f): os.remove(f)`. */
  method RemoveFiles(session: Session, files: seq<string>)
    modifies session`existing
    ensures session.existing == old(session.existing) - set f | f in files
  {
    var i := 0;
    while i < |files|
      invariant 0 <= i <= |files|
      invariant session.existing == old(session.existing) - set f | f in files[..i]
    {
      assert forall f :: f in files[..i + 1] <==> f in files[..i] || f == files[i];
      if files[i] in session.existing {
        session.existing := session.existing - {files[i]};
      }
      i := i + 1;
    }
    assert files[..i] == files;
  }

  /** `for plugin in cls.plugins_loaded: cmds.unloadPlugin(plugin)`, in whatever order the set yields. */
  method UnloadAll(session: Session, names: set<string>)
    modifies session`plugins
    ensures session.plugins == old(session.plugins) - names
  {
    var rest := names;
    while rest != {}
      invariant rest <= names
      invariant session.plugins == old(session.plugins) - (names - rest)
      decreases |rest|
    {
      var p :| p in rest;
      session.plugins := session.plugins - {p};
      rest := rest - {p};
    }
  }

  /**
   * The cache keeps its entries after the as-written cleanup and is empty
   * after the intended one: two test cases that each handed out one temp
   * file, then each cleanup once.
   */
  method DeleteTempFilesKeepsCache() returns (asWritten: seq<string>, intended: seq<string>)
    ensures asWritten == ["/tmp/unittest/scene.ma"] && intended == []
  {
    var settings := new Settings("/tmp/unittest");
    var session := new Session({"/tmp/unittest", "/tmp/unittest/scene.ma"}, [], {}, Silent);
    var first := new TestCase();
    var second := new TestCase();
    first.filesCreated := ["/tmp/unittest/scene.ma"];
    second.filesCreated := first.filesCreated;
    first.DeleteTempFilesAsWritten(settings, session);
    second.DeleteTempFiles(settings, session);
    asWritten, intended := first.filesCreated, second.filesCreated;
  }

  // ----- ScriptEditorState -----

  /** The flags `restore_output` writes back: all four saved values, or nothing when one is None. */
  function RestoredFlags(results: Option<bool>, errors: Option<bool>, warnings: Option<bool>, info: Option<bool>,
                         current: EditorFlags): (f: EditorFlags)
    ensures (results.None? || errors.None? || warnings.None? || info.None?) ==> f == current
  {
    if results.Some? && errors.Some? && warnings.Some? && info.Some?
    then EditorFlags(results.value, errors.value, warnings.value, info.value)
    else current
  }

  /** Restoring what was saved from `flags` gives `flags` back, whatever the flags are now. */
  lemma RestoreSaved(flags: EditorFlags, current: EditorFlags)
    ensures RestoredFlags(Some(flags.results), Some(flags.errors), Some(flags.warnings), Some(flags.info), current) == flags
  {
  }

  /** `ScriptEditorState`: the four saved flags, None until the first suppression. */
  class ScriptEditorState {
    var suppressResults: Option<bool>
    var suppressErrors: Option<bool>
    var suppressWarnings: Option<bool>
    var suppressInfo: Option<bool>

    constructor ()
      ensures suppressResults == None && suppressErrors == None && suppressWarnings == None && suppressInfo == None
    {
      suppressResults, suppressErrors, suppressWarnings, suppressInfo := None, None, None, None;
    }

    /** `suppress_output()`: with output buffering on, save the four flags and silence everything. */
    method SuppressOutput(settings: Settings, session: Session)
      modifies this, session`editor
      ensures !settings.bufferOutput ==> (session.editor == old(session.editor) &&
        suppressResults == old(suppressResults) && suppressErrors == old(suppressErrors) &&
        suppressWarnings == old(suppressWarnings) && suppressInfo == old(suppressInfo))
      ensures settings.bufferOutput ==> (session.editor == Silent &&
        suppressResults == Some(old(session.editor).results) && suppressErrors == Some(old(session.editor).errors) &&
        suppressWarnings == Some(old(session.editor).warnings) && suppressInfo == Some(old(session.editor).info))
    {
      if settings.bufferOutput {
        var e := session.editor;
        suppressResults, suppressErrors := Some(e.results), Some(e.errors);
        suppressWarnings, suppressInfo := Some(e.warnings), Some(e.info);
        session.editor := Silent;
      }
    }

    /** `restore_output()`: write the saved flags back, only when none of them is None. */
    method RestoreOutput(session: Session)
      modifies session`editor
      ensures session.editor == RestoredFlags(suppressResults, suppressErrors, suppressWarnings, suppressInfo, old(session.editor))
    {
      if suppressResults.Some? && suppressErrors.Some? && suppressWarnings.Some? && suppressInfo.Some? {
        session.editor := EditorFlags(suppressResults.value, suppressErrors.value, suppressWarnings.value, suppressInfo.value);
      }
    }
  }

  /**
   * A suppression followed by a restoration leaves the script editor as it
   * was; without buffering, a first restoration changes nothing.
   */
  method SuppressThenRestore(settings: Settings, session: Session, state: ScriptEditorState)
    requires settings.bufferOutput || (state.suppressResults == None)
    modifies state, session`editor
    ensures session.editor == old(session.editor)
  {
    state.SuppressOutput(settings, session);
    state.RestoreOutput(session);
  }
}
