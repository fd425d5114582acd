# file_dir — a verified model of the reconciler

`file_dir` is an Ansible module that drives one path toward a requested state:
`file`, `directory` or `absent`. It reads the path's current state,
builds a before/after diff, and then either does nothing, reports a
check-mode prediction, performs one filesystem call (touch, mkdir with or
without parents, unlink, or rmtree) or fails through `fail_json`.

This project models that module in Dafny over an abstract filesystem and
proves what it promises.

- `wrappers.dfy` (module `Wrappers`): `Option`, used for dictionary keys that may be absent.
- `filesystem.dfy` (module `FileSystem`): the filesystem and the operating-system calls the module makes.
  - A filesystem is a `Tree`, a map from `Path` (a sequence of segments below the root `[]`) to a `Kind` (`Regular` or `Dir`).
  - `WellFormed` says the root is a directory and every other entry's parent exists and is a directory.
  - `MakeDir`, `TouchFile`, `UnlinkFile` and `RemoveDirTree` give the effect of `Path.mkdir(parents, exist_ok=True)`, `Path.touch()`, `Path.unlink(missing_ok=True)` and `shutil.rmtree`. Each returns the new tree and whether the call raised.
  - The class `Disk` holds the one mutable filesystem. Its methods apply those calls in place.
  - The constant `refused` is the set of paths at which the operating system refuses to create or remove an entry. It stands for permission and I/O errors, so the module's `except` branches can be reached.
- `file_dir.dfy` (module `FileDir`): the module itself.
  - `State`, `get_current_state` (`CurrentState`), `init_diff` (`InitDiff`) and `get_check_mode_result` (`CheckModeResult`) are functions.
  - Each handler appears twice. A specification function (`EnsureFileStep`, `EnsureDirectoryStep`, `EnsureAbsentStep`, `RunStep`) returns the outcome and the tree left behind. Its `ensures` carry the single-call promises.
  - An imperative method on a `Disk` (`EnsureFile`, `EnsureDirectory`, `EnsureAbsent`, `RunProperHandler`) follows the source step by step: a local `changed` flag, an early return for check mode, and `fail_json` as a `Fail` outcome. Each method is proved to agree with its function.
- `properties.dfy` (module `FileDirProperties`): promises that span several calls or settings. These are dispatch, convergence, idempotence, check mode against the real run, nested gating, and clean failure.

Two behaviours of the source are modelled as written, not corrected:

- **Nested gating for files is looser than for directories.** `ensure_file` calls `file.parent.mkdir(parents=nested, exist_ok=True)`. So with `nested=false` a single missing parent is still created, as long as the grandparent exists (`FlatFileCreatesMissingParent`). The call fails only when the grandparent is missing too (`FlatFileNeedsGrandparent`). `ensure_directory` without `nested` fails as soon as the parent is missing (`FlatDirectoryNeedsParent`). The test at tests/test_file_dir.py:32-36 is named as if any missing parent made a flat file creation fail, but its path has two missing levels, so it exercises only the grandparent case.
- **`ensure_directory` over an existing file does nothing.** It exits with `changed=false` and leaves the file in place. Its diff still records `file` → `directory`. By contrast, `ensure_file` over a directory fails.

Check mode is optimistic. It predicts a change on every branch that would mutate, without checking that the mutation can succeed (`CheckModeIgnoresFeasibility`). Whenever the real call does succeed, the prediction is exactly its report (`CheckModePredictsSuccess`).

## Model

| member | source | states |
|---|---|---|
| `FileDir.State.Value` | roles/server/library/file_dir.py:94-97 | Each state has its own string value (`file`, `directory`, `absent`), so a value names exactly one state |
| `FileDir.CurrentState` | roles/server/library/file_dir.py:104-109 | Exactly one state: ABSENT iff no entry exists, DIRECTORY iff the entry is a directory, FILE iff it exists and is not a directory |
| `FileDir.InitDiff` | roles/server/library/file_dir.py:112-122 | Both sides carry the path; the `state` keys appear on both sides or on neither, exactly when current ≠ next, with `before` = current and `after` = next values |
| `FileDirProperties.DiffIdentifiesTransition` | roles/server/library/file_dir.py:112-122 | A diff that records a change determines its path, current state and next state |
| `FileDir.CheckModeResult` | roles/server/library/file_dir.py:125-126 | The check-mode report always claims a change and echoes the given path and diff |
| `FileDir.EnsureFileStep` | roles/server/library/file_dir.py:129-157 | The report's diff is taken from the state before any change; changed iff the path was absent; check mode leaves the tree alone and predicts the change; a directory fails with nothing mutated; success leaves a file at the path and changed iff the tree changed; new entries lie only along the path, a failure never creates the file, and a failure on an absent path is the cannot-create-file error |
| `FileDir.EnsureFile` | roles/server/library/file_dir.py:129-157 | Mkdir of the parent then touch, with the changed flag and result built as the source does; outcome and new filesystem equal `EnsureFileStep` of the old one |
| `FileDir.EnsureDirectoryStep` | roles/server/library/file_dir.py:160-182 | Changed iff the path was absent; check mode leaves the tree alone and predicts the change; an existing directory or file is left alone with changed=false; success leaves a directory, except over a file, which stays; changed iff the tree changed; only directories along the path are created; failure never creates the path, and without `nested` creates nothing |
| `FileDir.EnsureDirectory` | roles/server/library/file_dir.py:160-182 | Step-by-step handler whose outcome and new filesystem equal `EnsureDirectoryStep` of the old one |
| `FileDir.EnsureAbsentStep` | roles/server/library/file_dir.py:185-217 | Changed iff the path existed; check mode never fails and leaves the tree alone; an absent path is left alone with changed=false; success removes exactly the path and everything below it; a failure (rmtree for a directory, unlink for a file) mutates nothing, and outside check mode it fails exactly when rmtree meets the root or a refused entry at or below the path, or unlink meets a refused file |
| `FileDir.EnsureAbsent` | roles/server/library/file_dir.py:185-217 | Step-by-step handler (rmtree for a directory, unlink for a file) whose outcome and new filesystem equal `EnsureAbsentStep` of the old one |
| `FileDir.RunStep` | roles/server/library/file_dir.py:220-236 | A `state` string that names none of the three states yields `{changed: false}` and leaves the filesystem alone |
| `FileDir.RunProperHandler` | roles/server/library/file_dir.py:220-236 | Starts from `{changed: false}` and reassigns the result by branch; outcome and new filesystem equal `RunStep` of the old one |
| `FileDirProperties.DispatchSelectsHandler` | roles/server/library/file_dir.py:220-236 | Dispatching on a state's string value runs exactly that state's handler, and no two states share a value |
| `FileDirProperties.RunConverges` | roles/server/library/file_dir.py:129-217 | After a successful non-check call the path is in the requested state, except a directory requested over a file, which stays a file with the tree unchanged |
| `FileDirProperties.RunIdempotent` | tests/test_file_dir.py:67-80 | Repeating a successful call changes nothing and reports changed=false; its diff names no state, except a directory over a file |
| `FileDirProperties.CheckModeIsPure` | roles/server/library/file_dir.py:129-217 | In check mode the filesystem is unchanged for every request, and the only failure is a file requested over a directory |
| `FileDirProperties.CheckModePredictsSuccess` | roles/server/library/file_dir.py:125-126 | Whenever the real call succeeds, the check-mode call returns exactly the same outcome |
| `FileDirProperties.CheckModeIgnoresFeasibility` | roles/server/library/file_dir.py:169-178 | Check mode predicts a change for a directory two levels below an empty root, although the real call without `nested` fails and creates nothing |
| `FileDirProperties.NestedDirectoryCreatesEveryLevel` | tests/test_file_dir.py:60-64 | With `nested`, a directory whose existing prefixes are all directories is created together with every missing level, with changed=true, unless the OS refuses a level |
| `FileDirProperties.NestedFileCreatesEveryLevel` | tests/test_file_dir.py:39-43 | With `nested`, every missing parent directory is created and then the file, with changed=true |
| `FileDirProperties.FlatDirectoryNeedsParent` | tests/test_file_dir.py:53-57 | Without `nested`, a directory whose parent is missing fails and nothing is created |
| `FileDirProperties.FlatDirectoryCreatesOneLevel` | tests/test_file_dir.py:46-50 | Without `nested`, a directory whose parent exists becomes the one new entry, with changed=true |
| `FileDirProperties.FlatFileNeedsGrandparent` | tests/test_file_dir.py:32-36 | Without `nested`, a file whose parent and grandparent are missing fails and nothing is created |
| `FileDirProperties.FlatFileUnderDirectory` | tests/test_file_dir.py:25-29 | Without `nested`, a file whose parent is an existing directory becomes the one new entry, with changed=true and the absent-to-file diff |
| `FileDirProperties.AbsentRemovesWhenPermitted` | tests/test_file_dir.py:83-118 | Outside check mode, when the OS refuses nothing at or below a non-root path, `ensure_absent` succeeds, removes the path with everything below it, and reports changed iff the path existed |
| `FileDirProperties.FlatFileCreatesMissingParent` | roles/server/library/file_dir.py:142-143 | Without `nested`, a file whose parent is missing but whose grandparent is a directory is created together with that one parent |
| `FileDirProperties.FileFailureCreatesNothing` | roles/server/library/file_dir.py:141-149 | When the OS refuses nothing along the path, a failing `ensure_file` leaves the filesystem unchanged |
| `FileDirProperties.DirectoryFailureCreatesNothing` | roles/server/library/file_dir.py:172-178 | When the OS refuses nothing along the path, a failing `ensure_directory` leaves the filesystem unchanged |
| `FileSystem.MakeDir` | roles/server/library/file_dir.py:173 | `mkdir(parents, exist_ok=True)` keeps the tree well formed and every existing entry unchanged. It adds only directories along the path. It succeeds iff the path ends up a directory. Without `parents` it adds at most the path itself |
| `FileSystem.MakeDirFailureStopsShort` | roles/server/library/file_dir.py:173 | A mkdir that raised created only proper prefixes of the path |
| `FileSystem.MakeDirFailsCleanly` | roles/server/library/file_dir.py:173 | When the OS refuses nothing along the path, a mkdir that raised created nothing |
| `FileSystem.MakeDirCreatesChain` | roles/server/library/file_dir.py:173 | With `parents`, mkdir succeeds when no prefix is a non-directory and no missing prefix is refused, and then every prefix is a directory |
| `FileSystem.TouchFile` | roles/server/library/file_dir.py:143 | Touch succeeds iff the path then exists; it adds at most a regular file at the path |
| `FileSystem.UnlinkFile` | roles/server/library/file_dir.py:208 | `unlink(missing_ok=True)` succeeds iff the path is then absent; success removes only that entry; failure changes nothing |
| `FileSystem.PrunedLeaf` | roles/server/library/file_dir.py:208 | Unlinking a missing path or a non-directory removes the same entries as removing the path with everything below it |
| `FileSystem.RemoveDirTree` | roles/server/library/file_dir.py:198 | rmtree succeeds iff the path is an existing non-root directory none of whose entries is refused. Success removes exactly the subtree and keeps the tree well formed |
| `FileSystem.Disk.Mkdir` | roles/server/library/file_dir.py:173 | Applies `MakeDir` to the disk in place |
| `FileSystem.Disk.Touch` | roles/server/library/file_dir.py:143 | Applies `TouchFile` to the disk in place |
| `FileSystem.Disk.Unlink` | roles/server/library/file_dir.py:208 | Applies `UnlinkFile` to the disk in place |
| `FileSystem.Disk.Rmtree` | roles/server/library/file_dir.py:198 | Applies `RemoveDirTree` to the disk in place |

## Left out

- `run_module`, the `AnsibleModule` argument specification and its validation of `state` against `State.to_choices`, and the `exit_json`/`fail_json` plumbing. These form the framework boundary. The parameters and the check-mode flag are explicit inputs; `fail_json` is the `Fail` outcome; `exit_json` is the `Exit` outcome.
- The text of the failure messages and the embedded exception text. Only which message is raised is modelled (`Failure`).
- The `DOCUMENTATION` and `EXAMPLES` strings and `State.to_choices`. They are metadata only.
- Path strings. A path is taken as its sequence of segments below the filesystem root. Relative paths, `.`/`..`, `~` expansion and symbolic links are not modelled.
- File contents, modes, ownership and timestamps. In particular, `touch` on an existing entry updating its time is not modelled.
- Races with other processes: the `exist_ok=True` and `missing_ok=True` tolerances for an entry appearing or vanishing between inspection and mutation. The model is sequential.
- Operating-system errors are modelled only as the set `refused` of paths where creation or removal is refused. The model does not tell ENOENT from ENOTDIR. Its recursive mkdir reaches the same outcome (failure, nothing created) where the OS reports ENOTDIR at once.
- `FileSystem.RemoveDirTree`: a failing `shutil.rmtree` is taken to remove nothing, whereas the real call may have removed part of the tree. Removing the root is treated as a failure. So the promise of `FileDir.EnsureAbsentStep` that a failure mutates nothing is stronger than the real system's.
- The `FakeModule` test harness is not modelled. The tests are cited only as the scenarios the lemmas generalise.
