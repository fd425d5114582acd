/**
 * What the `file_dir` module promises across calls and across the `nested`
 * and check-mode settings: dispatch, convergence, idempotence, the relation
 * between a check-mode prediction and the real run, and how `nested` gates
 * the creation of missing parents.
 */
module FileDirProperties {
  import opened FileSystem
  import opened FileDir

  /** The handler for a state, chosen by matching on the state itself. */
  function Handle(t: Tree, refused: set<Path>, s: State, path: Path, nested: bool, checkMode: bool): Step
    requires WellFormed(t)
  {
    match s
    case File => EnsureFileStep(t, refused, path, nested, checkMode)
    case Directory => EnsureDirectoryStep(t, refused, path, nested, checkMode)
    case Absent => EnsureAbsentStep(t, refused, path, checkMode)
  }

  /**
   * Dispatching on the state's string value runs exactly the handler of that
   * state: no two states share a value, so no other branch is taken.
   */
  lemma DispatchSelectsHandler(t: Tree, refused: set<Path>, s: State, path: Path, nested: bool, checkMode: bool)
    requires WellFormed(t)
    ensures RunStep(t, refused, Params(path, s.Value(), nested), checkMode) == Handle(t, refused, s, path, nested, checkMode)
    ensures forall s': State :: s'.Value() == s.Value() ==> s' == s
  {
  }

  /**
   * Two diffs that record a change are equal only for the same path and the
   * same pair of states: the diff identifies the transition it describes.
   */
  lemma DiffIdentifiesTransition(path: Path, next: State, current: State, path': Path, next': State, current': State)
    requires current != next
    requires InitDiff(path, next, current) == InitDiff(path', next', current')
    ensures path == path' && next == next' && current == current'
  {
  }

  /**
   * After a call that did not fail outside check mode, the path is in the
   * requested state, except that a directory requested over an existing
   * file leaves the file in place.
   */
  lemma RunConverges(t: Tree, refused: set<Path>, s: State, path: Path, nested: bool)
    requires WellFormed(t)
    requires RunStep(t, refused, Params(path, s.Value(), nested), false).outcome.Exit?
    ensures var r := RunStep(t, refused, Params(path, s.Value(), nested), false);
      CurrentState(r.tree, path) == s || (s == Directory && CurrentState(t, path) == File && r.tree == t)
  {
  }

  /**
   * Repeating a call that did not fail changes nothing and reports no change;
   * the diff then names no state, except for a directory requested over a
   * file.
   */
  lemma RunIdempotent(t: Tree, refused: set<Path>, params: Params)
    requires WellFormed(t)
    requires RunStep(t, refused, params, false).outcome.Exit?
    ensures var t1 := RunStep(t, refused, params, false).tree;
      var again := RunStep(t1, refused, params, false);
      && again.tree == t1
      && again.outcome.Exit? && !again.outcome.report.changed
      && (again.outcome.report.Report? ==>
            (again.outcome.report.diff.before.state.Some? <==>
               params.state == Directory.Value() && CurrentState(t1, params.path) == File))
  {
  }

  /** Check mode never touches the filesystem, whatever it predicts. */
  lemma CheckModeIsPure(t: Tree, refused: set<Path>, params: Params)
    requires WellFormed(t)
    ensures RunStep(t, refused, params, true).tree == t
    ensures RunStep(t, refused, params, true).outcome.Fail? ==>
      params.state == File.Value() && CurrentState(t, params.path) == Directory
  {
  }

  /**
   * Whenever the real call succeeds, check mode predicted exactly its
   * report.
   */
  lemma CheckModePredictsSuccess(t: Tree, refused: set<Path>, params: Params)
    requires WellFormed(t)
    requires RunStep(t, refused, params, false).outcome.Exit?
    ensures RunStep(t, refused, params, true) == Step(RunStep(t, refused, params, false).outcome, t)
  {
  }

  /**
   * Check mode does not test feasibility: a directory two levels below an
   * empty root is predicted as a change although the real call, without
   * `nested`, fails.
   */
  lemma CheckModeIgnoresFeasibility()
    ensures var t := map[[] := Dir];
      var params := Params(["a", "b"], "directory", false);
      && RunStep(t, {}, params, true).outcome == Exit(Report(true, ["a", "b"], InitDiff(["a", "b"], Directory, Absent)))
      && RunStep(t, {}, params, false) == Step(Fail(CannotCreateDirectory), t)
  {
  }

  /**
   * With `nested`, creating a directory over a path whose existing prefixes
   * are all directories creates every missing level, unless the operating
   * system refuses one of them.
   */
  lemma NestedDirectoryCreatesEveryLevel(t: Tree, refused: set<Path>, path: Path)
    requires WellFormed(t) && path !in t
    requires forall k :: 0 <= k <= |path| && path[..k] in t ==> t[path[..k]] == Dir
    requires forall k :: 0 <= k <= |path| && path[..k] !in t ==> path[..k] !in refused
    ensures var r := EnsureDirectoryStep(t, refused, path, true, false);
      && r.outcome == Exit(Report(true, path, InitDiff(path, Directory, Absent)))
      && forall k :: 0 <= k <= |path| ==> path[..k] in r.tree && r.tree[path[..k]] == Dir
  {
    MakeDirCreatesChain(t, refused, path);
  }

  /**
   * With `nested`, creating a file whose existing proper prefixes are all
   * directories creates every missing parent and then the file.
   */
  lemma NestedFileCreatesEveryLevel(t: Tree, refused: set<Path>, path: Path)
    requires WellFormed(t) && path !in t
    requires forall k :: 0 <= k < |path| && path[..k] in t ==> t[path[..k]] == Dir
    requires forall k :: 0 <= k <= |path| && path[..k] !in t ==> path[..k] !in refused
    ensures var r := EnsureFileStep(t, refused, path, true, false);
      && r.outcome == Exit(Report(true, path, InitDiff(path, File, Absent)))
      && (forall k :: 0 <= k < |path| ==> path[..k] in r.tree && r.tree[path[..k]] == Dir)
      && path in r.tree && r.tree[path] == Regular
  {
    var q := Parent(path);
    forall k | 0 <= k <= |q| ensures q[..k] == path[..k] { }
    MakeDirCreatesChain(t, refused, q);
    assert path[..|path|] == path;
    var r := EnsureFileStep(t, refused, path, true, false);
    forall k | 0 <= k < |path| ensures path[..k] in r.tree && r.tree[path[..k]] == Dir {
      AncestorIsDir(r.tree, path, k);
    }
  }

  /** Without `nested`, a directory whose parent is missing is not created, and nothing else is. */
  lemma FlatDirectoryNeedsParent(t: Tree, refused: set<Path>, path: Path)
    requires WellFormed(t) && path != [] && Parent(path) !in t
    ensures EnsureDirectoryStep(t, refused, path, false, false) == Step(Fail(CannotCreateDirectory), t)
  {
  }

  /** Without `nested`, a directory whose parent exists is created as the one new entry. */
  lemma FlatDirectoryCreatesOneLevel(t: Tree, refused: set<Path>, path: Path)
    requires WellFormed(t) && path != [] && path !in t && path !in refused
    requires Parent(path) in t && t[Parent(path)] == Dir
    ensures EnsureDirectoryStep(t, refused, path, false, false)
      == Step(Exit(Report(true, path, InitDiff(path, Directory, Absent))), t[path := Dir])
  {
  }

  /**
   * Without `nested`, a file fails only when its grandparent is missing
   * too; nothing is created then.
   */
  lemma FlatFileNeedsGrandparent(t: Tree, refused: set<Path>, path: Path)
    requires WellFormed(t) && |path| >= 2
    requires Parent(path) !in t && Parent(Parent(path)) !in t
    ensures EnsureFileStep(t, refused, path, false, false) == Step(Fail(CannotCreateFile), t)
  {
  }

  /**
   * Without `nested`, a file whose parent is an existing directory is
   * created as the one new entry.
   */
  lemma FlatFileUnderDirectory(t: Tree, refused: set<Path>, path: Path)
    requires WellFormed(t) && path != [] && path !in t && path !in refused
    requires Parent(path) in t && t[Parent(path)] == Dir
    ensures EnsureFileStep(t, refused, path, false, false)
      == Step(Exit(Report(true, path, InitDiff(path, File, Absent))), t[path := Regular])
  {
  }

  /**
   * Outside check mode, `ensure_absent` removes a directory with everything
   * below it, or unlinks a file, whenever the operating system refuses
   * nothing there; an absent path stays as it is.
   */
  lemma AbsentRemovesWhenPermitted(t: Tree, refused: set<Path>, path: Path)
    requires WellFormed(t) && path != [] && !RefusedBelow(t, refused, path)
    ensures var r := EnsureAbsentStep(t, refused, path, false);
      && r.outcome == Exit(Report(path in t, path, InitDiff(path, Absent, CurrentState(t, path))))
      && r.tree == Pruned(t, path)
  {
    if CurrentState(t, path) != Directory {
      PrunedLeaf(t, path);
    }
  }

  /**
   * Without `nested`, a file whose parent is missing but whose grandparent
   * is a directory is still created, together with its parent.
   */
  lemma FlatFileCreatesMissingParent(t: Tree, refused: set<Path>, path: Path)
    requires WellFormed(t) && |path| >= 2
    requires Parent(path) !in t && Parent(Parent(path)) in t && t[Parent(Parent(path))] == Dir
    requires Parent(path) !in refused && path !in refused
    ensures EnsureFileStep(t, refused, path, false, false)
      == Step(Exit(Report(true, path, InitDiff(path, File, Absent))), t[Parent(path) := Dir][path := Regular])
  {
  }

  /**
   * When the operating system refuses nothing along the path, a failing
   * `ensure_file` has created nothing.
   */
  lemma FileFailureCreatesNothing(t: Tree, refused: set<Path>, path: Path, nested: bool, checkMode: bool)
    requires WellFormed(t)
    requires forall k :: 0 <= k <= |path| ==> path[..k] !in refused
    ensures var r := EnsureFileStep(t, refused, path, nested, checkMode);
      r.outcome.Fail? ==> r.tree == t
  {
    if path !in t && !checkMode {
      var q := Parent(path);
      forall k | 0 <= k <= |q| ensures q[..k] !in refused {
        assert q[..k] == path[..k];
      }
      MakeDirFailsCleanly(t, refused, q, nested);
      assert path[..|path|] == path;
    }
  }

  /**
   * When the operating system refuses nothing along the path, a failing
   * `ensure_directory` has created nothing.
   */
  lemma DirectoryFailureCreatesNothing(t: Tree, refused: set<Path>, path: Path, nested: bool, checkMode: bool)
    requires WellFormed(t)
    requires forall k :: 0 <= k <= |path| ==> path[..k] !in refused
    ensures var r := EnsureDirectoryStep(t, refused, path, nested, checkMode);
      r.outcome.Fail? ==> r.tree == t
  {
    MakeDirFailsCleanly(t, refused, path, nested);
  }
}
