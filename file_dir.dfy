/**
 * The `file_dir` Ansible module: drives one path toward the state `file`,
 * `directory` or `absent`, reporting whether it changed anything and a
 * before/after diff.
 *
 * Each handler exists twice: as a function (`EnsureFileStep`, ...) that
 * gives the outcome and the filesystem afterwards and carries what the module
 * promises in its `ensures`, and as a method on a `Disk` (`EnsureFile`, ...)
 * that does the work step by step, as the module does, and is proved to agree
 * with the function.
 */
module FileDir {
  import opened Wrappers
  import opened FileSystem

  /** The three states a path can be in, with the strings Ansible uses for them. */
  datatype State = File | Directory | Absent
  {
    function Value(): (v: string)
      ensures v == "file" <==> this == File
      ensures v == "directory" <==> this == Directory
      ensures v == "absent" <==> this == Absent
    {
      match this
      case File => "file"
      case Directory => "directory"
      case Absent => "absent"
    }
  }

  /** Classifies the path: ABSENT when nothing is there, DIRECTORY for a directory, FILE otherwise. */
  function CurrentState(t: Tree, path: Path): (s: State)
    ensures s == Absent <==> path !in t
    ensures s == Directory <==> path in t && t[path] == Dir
    ensures s == File <==> path in t && t[path] != Dir
  {
    if path in t then
      if t[path] == Dir then Directory else File
    else
      Absent
  }

  /** One side of the diff: the path, and the state only when it changes. */
  datatype Side = Side(path: Path, state: Option<string>)

  datatype Diff = Diff(before: Side, after: Side)

  /**
   * The diff for moving `path` from `current` to `next`: both sides name the
   * path, and both carry a state exactly when the two states differ.
   */
  function InitDiff(path: Path, next: State, current: State): (d: Diff)
    ensures d.before.path == path && d.after.path == path
    ensures d.before.state.Some? <==> d.after.state.Some?
    ensures d.before.state.Some? <==> current != next
    ensures d.before.state.Some? ==> d.before.state.value == current.Value() && d.after.state.value == next.Value()
  {
    if current != next then
      Diff(Side(path, Some(current.Value())), Side(path, Some(next.Value())))
    else
      Diff(Side(path, None), Side(path, None))
  }

  /**
   * The dictionary handed back to Ansible: a handler always fills in `path`
   * and `diff`; the dispatcher's default holds only `changed`.
   */
  datatype Report = Report(changed: bool, path: Path, diff: Diff) | Fallback(changed: bool)

  /** Which of the module's failure messages is raised. */
  datatype Failure =
    | CannotCreateFile
    | PathIsDirectory
    | CannotCreateDirectory
    | CannotDeleteDirectory
    | CannotDeleteFile

  /** How a call ends: `exit_json` with a report, or `fail_json` with a message. */
  datatype Outcome = Exit(report: Report) | Fail(failure: Failure)

  /** The outcome of a handler together with the filesystem it leaves behind. */
  datatype Step = Step(outcome: Outcome, tree: Tree)

  /** The module's parameters; `state` is the raw string Ansible passes in. */
  datatype Params = Params(path: Path, state: string, nested: bool)

  /** The check-mode prediction: a change, with the given diff, and nothing done. */
  function CheckModeResult(diff: Diff, path: Path): (r: Report)
    ensures r.Report? && r.changed
    ensures r.path == path && r.diff == diff
  {
    Report(true, path, diff)
  }

  /** `ensure_file` as a function of the filesystem before the call. */
  function EnsureFileStep(t: Tree, refused: set<Path>, path: Path, nested: bool, checkMode: bool): (r: Step)
    requires WellFormed(t)
    ensures WellFormed(r.tree)
    ensures r.outcome.Exit? ==> r.outcome.report == Report(r.outcome.report.changed, path, InitDiff(path, File, CurrentState(t, path)))
    ensures r.outcome.Exit? ==> (r.outcome.report.changed <==> CurrentState(t, path) == Absent)
    ensures checkMode ==> r.tree == t
    ensures checkMode && CurrentState(t, path) == Absent ==> r.outcome.Exit?
    ensures CurrentState(t, path) == Directory ==> r == Step(Fail(PathIsDirectory), t)
    ensures r.outcome.Exit? && !checkMode ==> CurrentState(r.tree, path) == File
    ensures r.outcome.Exit? && !checkMode ==> (r.outcome.report.changed <==> r.tree != t)
    ensures GrowsAlong(t, r.tree, path)
    ensures r.outcome.Fail? ==> path !in r.tree || CurrentState(t, path) == Directory
    ensures r.outcome.Fail? && CurrentState(t, path) == Absent ==> r.outcome.failure == CannotCreateFile
  {
    var current := CurrentState(t, path);
    var diff := InitDiff(path, File, current);
    match current
    case Absent =>
      if checkMode then
        Step(Exit(CheckModeResult(diff, path)), t)
      else
        var made := MakeDir(t, refused, Parent(path), nested);
        var touched := if made.ok then TouchFile(made.tree, refused, path) else made;
        if touched.ok then Step(Exit(Report(true, path, diff)), touched.tree)
        else Step(Fail(CannotCreateFile), touched.tree)
    case Directory =>
      Step(Fail(PathIsDirectory), t)
    case File =>
      Step(Exit(Report(false, path, diff)), t)
  }

  /** `ensure_directory` as a function of the filesystem before the call. */
  function EnsureDirectoryStep(t: Tree, refused: set<Path>, path: Path, nested: bool, checkMode: bool): (r: Step)
    requires WellFormed(t)
    ensures WellFormed(r.tree)
    ensures r.outcome.Exit? ==> r.outcome.report == Report(r.outcome.report.changed, path, InitDiff(path, Directory, CurrentState(t, path)))
    ensures r.outcome.Exit? ==> (r.outcome.report.changed <==> CurrentState(t, path) == Absent)
    ensures checkMode ==> r.tree == t
    ensures checkMode && CurrentState(t, path) == Absent ==> r.outcome.Exit?
    ensures CurrentState(t, path) != Absent ==> r.tree == t && r.outcome.Exit?
    ensures r.outcome.Exit? && !checkMode ==>
      CurrentState(r.tree, path) == if CurrentState(t, path) == File then File else Directory
    ensures r.outcome.Exit? && !checkMode ==> (r.outcome.report.changed <==> r.tree != t)
    ensures GrowsAlong(t, r.tree, path)
    ensures forall q :: q in r.tree && q !in t ==> r.tree[q] == Dir
    ensures r.outcome.Fail? ==> r.outcome.failure == CannotCreateDirectory && path !in r.tree
    ensures r.outcome.Fail? && !nested ==> r.tree == t
  {
    var current := CurrentState(t, path);
    var diff := InitDiff(path, Directory, current);
    if current == Absent then
      if checkMode then
        Step(Exit(CheckModeResult(diff, path)), t)
      else
        var made := MakeDir(t, refused, path, nested);
        if made.ok then Step(Exit(Report(true, path, diff)), made.tree)
        else Step(Fail(CannotCreateDirectory), made.tree)
    else
      Step(Exit(Report(false, path, diff)), t)
  }

  /** `ensure_absent` as a function of the filesystem before the call. */
  function EnsureAbsentStep(t: Tree, refused: set<Path>, path: Path, checkMode: bool): (r: Step)
    requires WellFormed(t)
    ensures WellFormed(r.tree)
    ensures r.outcome.Exit? ==> r.outcome.report == Report(r.outcome.report.changed, path, InitDiff(path, Absent, CurrentState(t, path)))
    ensures r.outcome.Exit? ==> (r.outcome.report.changed <==> CurrentState(t, path) != Absent)
    ensures checkMode ==> r.tree == t
    ensures checkMode ==> r.outcome.Exit?
    ensures CurrentState(t, path) == Absent ==> r.tree == t && r.outcome.Exit?
    ensures r.outcome.Exit? && !checkMode ==> r.tree == Pruned(t, path)
    ensures r.outcome.Exit? && !checkMode ==> (r.outcome.report.changed <==> r.tree != t)
    ensures r.outcome.Fail? ==> r.tree == t
    ensures r.outcome.Fail? ==>
      r.outcome.failure == if CurrentState(t, path) == Directory then CannotDeleteDirectory else CannotDeleteFile
    ensures !checkMode ==>
      (r.outcome.Fail? <==>
         || (CurrentState(t, path) == Directory && (path == [] || RefusedBelow(t, refused, path)))
         || (CurrentState(t, path) == File && path in refused))
  {
    var current := CurrentState(t, path);
    var diff := InitDiff(path, Absent, current);
    match current
    case Directory =>
      if checkMode then
        Step(Exit(CheckModeResult(diff, path)), t)
      else
        var removed := RemoveDirTree(t, refused, path);
        if removed.ok then Step(Exit(Report(true, path, diff)), removed.tree)
        else Step(Fail(CannotDeleteDirectory), removed.tree)
    case File =>
      if checkMode then
        Step(Exit(CheckModeResult(diff, path)), t)
      else
        var removed := UnlinkFile(t, refused, path);
        PrunedLeaf(t, path);
        if removed.ok then Step(Exit(Report(true, path, diff)), removed.tree)
        else Step(Fail(CannotDeleteFile), removed.tree)
    case Absent =>
      PrunedLeaf(t, path);
      Step(Exit(Report(false, path, diff)), t)
  }

  /**
   * `run_proper_handler`: the handler whose state value equals the `state`
   * parameter runs; any other string gives the default `{changed: false}`.
   */
  function RunStep(t: Tree, refused: set<Path>, params: Params, checkMode: bool): (r: Step)
    requires WellFormed(t)
    ensures WellFormed(r.tree)
    ensures params.state !in {File.Value(), Directory.Value(), Absent.Value()} ==> r == Step(Exit(Fallback(false)), t)
  {
    if params.state == File.Value() then
      EnsureFileStep(t, refused, params.path, params.nested, checkMode)
    else if params.state == Directory.Value() then
      EnsureDirectoryStep(t, refused, params.path, params.nested, checkMode)
    else if params.state == Absent.Value() then
      EnsureAbsentStep(t, refused, params.path, checkMode)
    else
      Step(Exit(Fallback(false)), t)
  }

  method EnsureFile(fs: Disk, path: Path, nested: bool, checkMode: bool) returns (o: Outcome)
    requires fs.Valid()
    modifies fs
    ensures fs.Valid()
    ensures Step(o, fs.entries) == EnsureFileStep(old(fs.entries), fs.refused, path, nested, checkMode)
  {
    var current := CurrentState(fs.entries, path);
    var changed := false;
    var diff := InitDiff(path, File, current);
    if current == Absent {
      if checkMode {
        return Exit(CheckModeResult(diff, path));
      }
      var ok := fs.Mkdir(Parent(path), nested);
      if ok {
        ok := fs.Touch(path);
      }
      if !ok {
        return Fail(CannotCreateFile);
      }
      changed := true;
    }
    if current == Directory {
      return Fail(PathIsDirectory);
    }
    o := Exit(Report(changed, path, diff));
  }

  method EnsureDirectory(fs: Disk, path: Path, nested: bool, checkMode: bool) returns (o: Outcome)
    requires fs.Valid()
    modifies fs
    ensures fs.Valid()
    ensures Step(o, fs.entries) == EnsureDirectoryStep(old(fs.entries), fs.refused, path, nested, checkMode)
  {
    var current := CurrentState(fs.entries, path);
    var changed := false;
    var diff := InitDiff(path, Directory, current);
    if current == Absent {
      if checkMode {
        return Exit(CheckModeResult(diff, path));
      }
      var ok := fs.Mkdir(path, nested);
      if !ok {
        return Fail(CannotCreateDirectory);
      }
      changed := true;
    }
    o := Exit(Report(changed, path, diff));
  }

  method EnsureAbsent(fs: Disk, path: Path, checkMode: bool) returns (o: Outcome)
    requires fs.Valid()
    modifies fs
    ensures fs.Valid()
    ensures Step(o, fs.entries) == EnsureAbsentStep(old(fs.entries), fs.refused, path, checkMode)
  {
    var current := CurrentState(fs.entries, path);
    var changed := false;
    var diff := InitDiff(path, Absent, current);
    if current == Directory {
      if checkMode {
        return Exit(CheckModeResult(diff, path));
      }
      var ok := fs.Rmtree(path);
      if !ok {
        return Fail(CannotDeleteDirectory);
      }
      changed := true;
    } else if current == File {
      if checkMode {
        return Exit(CheckModeResult(diff, path));
      }
      var ok := fs.Unlink(path);
      if !ok {
        return Fail(CannotDeleteFile);
      }
      changed := true;
    }
    o := Exit(Report(changed, path, diff));
  }

  method RunProperHandler(fs: Disk, params: Params, checkMode: bool) returns (result: Outcome)
    requires fs.Valid()
    modifies fs
    ensures fs.Valid()
    ensures Step(result, fs.entries) == RunStep(old(fs.entries), fs.refused, params, checkMode)
  {
    result := Exit(Fallback(false));
    var state, path, nested := params.state, params.path, params.nested;
    if state == File.Value() {
      result := EnsureFile(fs, path, nested, checkMode);
    } else if state == Directory.Value() {
      result := EnsureDirectory(fs, path, nested, checkMode);
    } else if state == Absent.Value() {
      result := EnsureAbsent(fs, path, checkMode);
    }
  }
}
