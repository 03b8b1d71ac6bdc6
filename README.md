# pywebpack bundle composition, in Dafny

This project models how `WebpackBundleProject` (pywebpack) composes an ordered
list of bundles into one webpack project configuration, and proves what that
composition promises. There are four parts:

- **Entry points and aliases** (`entry`, `aliases`). The bundles' name → path
  maps are combined into one. A name that an earlier bundle already declared
  is an error, even when both bundles give it the same path. The error names
  the earlier file path and bundle alongside the later ones.
- **Copy instructions** (`copy`, with `_get_dir_path` and
  `allowed_copy_paths`). Each instruction must have exactly the keys `from`
  and `to`. Both paths are joined onto the copy base, which is
  `_get_dir_path(config_path)`: the config file's directory when the file
  exists, and the config path itself when it does not. When allowed paths are
  configured, the directory part of each result must lie under one of them.
  Accepted instructions are returned unchanged and in order.
- **Dependencies** (`dependencies`). The bundles' dependency sections are
  merged in list order into three empty classes. The first merge conflict
  aborts, and its message gets the offending bundle's path appended.
- **Config path** (`config_path`). The configured file name, `config.json` by
  default, joined onto the project directory.

Modules:

- `Paths` (`paths.dfy`): the lexical part of `pathlib` and `os.path.join`.
  Paths are an absolute flag plus a sequence of parts, and `..` is never
  collapsed.
- `Bundles` (`bundles.dfy`): the data model (bundles, project settings,
  errors, a `Result` type in place of exceptions) and the config path.
- `Names` (`names.dfy`): `entry` and `aliases`. They share one nested loop,
  `CollectNames`, which is proved equal to a fold. Its meaning is proved as
  lemmas about that fold.
- `Copying` (`copying.dfy`): `allowed_copy_paths`, `_get_dir_path` and `copy`.
- `Dependencies` (`dependencies.dfy`): `dependencies`, with `merge_deps` as a
  function parameter.

Each loop in the source is a Dafny method with a `while` loop whose invariant
ties the loop state to a specification function. The methods `Entry`,
`Aliases`, `Copy` and `Dependencies` then state in their postconditions what
the result means: when the operation succeeds, what it returns, and which
input the error blames.

The copy sandbox is lexical. `is_relative_to` (pywebpack/project.py:291 and
294) compares path parts, and nothing on the way resolves `..`. So whether an
instruction that climbs with `..` passes depends on the copy base:

- Take the instruction `{"from": "../../etc", "to": "../../etc"}` and the
  allowed path `/proj/static`.
- When the copy base is `/proj/static` itself, the instruction resolves to
  `/proj/static/../../etc` (or its parent). That starts with the parts of
  `/proj/static`, so it is accepted (`Copying.ParentPartsPass`).
- When the copy base is `/proj`, the same instruction resolves to
  `/proj/../../etc` (or its parent). That does not start with those parts,
  so it is refused (`Copying.ParentPartsRefusedFromAbove`).

The base paths are deliberately asymmetric, as in the code:

- Relative allowed paths are always joined onto the config file path itself.
- Copy paths are joined onto `_get_dir_path(config_path)`. That is the config
  file's directory when the file exists, and the config path itself when it
  does not.

When no file exists at the config path, the two bases coincide
(`Copying.RelativeBasesAgree`). Once the file exists, the copy base lies
outside every relative allowed path (`Copying.RelativeBasesDiffer`).

So whether the config file exists can change what `copy` accepts
(`Copying.ConfigFileDecidesCopy`). Take the relative allowed path `static`
and the instruction `{"from": "static", "to": "static"}`:

- Before `config.json` is written, the instruction resolves to the allowed
  path itself and is accepted. `create` reads `config`, and with it `copy`
  (pywebpack/project.py:131), before it writes the file (lines 138-139).
- Once the file exists, the instruction resolves to `<project>/static` (or
  its parent). That is shorter than `<project>/config.json/static`, so the
  instruction is refused.

## Model

| member | source | states |
|---|---|---|
| Bundles.ConfigFileName | pywebpack/project.py:103 | The configured config path is used when given; otherwise the name is non-empty (`config.json`). |
| Bundles.ConfigPath | pywebpack/project.py:114-117 | The config path, read as a pathlib path, is the config file name joined onto the project directory, and an absolute name replaces that directory. |
| Paths.ParseOsJoin | pywebpack/project.py:114-117 | The pathlib path of `os.path.join(a, b)` equals `Path(a).joinpath(b)`, so the string join in `config_path` and the pathlib joins elsewhere agree. |
| Paths.JoinPath | pywebpack/project.py:285-286 | An absolute right-hand side replaces the base. A relative one extends the base, so the result lies under the base and ends with its parts. |
| Paths.Parent | pywebpack/project.py:267 | A path lies under its parent, which has one part fewer unless the path has no parts. |
| Paths.Parse | pywebpack/project.py:210 | `pathlib.PurePosixPath(s)`: the path is absolute iff `s` starts with `/`. Its parts are the pieces between slashes with empty pieces and `.` dropped, so every part is non-empty, not `.` and free of `/`; `..` is kept as a part. |
| Paths.OsJoin | pywebpack/project.py:117 | `posixpath.join(a, b)`: an absolute `b` is the result. Otherwise the result starts with `a` and ends with `b`, with a `/` between them unless `a` is empty or already ends in one. |
| Paths.ThreeParts | pywebpack/project.py:210 | Three parts joined with `/` parse back to exactly those three parts, as a relative path. |
| Paths.IsRelativeTo | pywebpack/project.py:291 | `p.is_relative_to(root)`: the same absolute flag, and the parts of `root` are a prefix of the parts of `p`. Parts are compared as strings, so `..` is never collapsed. |
| Paths.UnderSome | pywebpack/project.py:290-295 | `any(p.is_relative_to(a) for a in allowed)`: some allowed path contains `p`. |
| Bundles.Listed | pywebpack/project.py:209 | `_paths() if callable(_paths) else _paths`: the list as given, or what the producer returns. |
| Copying.CopyBase | pywebpack/project.py:272 | The copy base is the directory part of the config path: its parent when the config path is a file, otherwise the path itself. |
| Copying.Resolved | pywebpack/project.py:285-286 | A copy path is joined onto the copy base, with an absolute path replacing the base, and then reduced to its directory part. |
| Copying.ParentPartsRefusedFromAbove | pywebpack/project.py:285-302 | From the copy base `/proj`, with the allowed path `/proj/static`, `{"from": "../../etc", "to": "../../etc"}` is refused, whatever `is_file` says. |
| Names.ToMap | pywebpack/project.py:258 | `dict.update` with a name map, pair by pair, so a later pair wins. Its keys are exactly the declared names (`Names.ToMapKeys`). |
| Names.RepeatReport | pywebpack/project.py:245-255 | The error for the first repeat: the repeated name, the path and bundle recorded for it by the earlier bundle, then the new path and the offending bundle's path, in the order the message formats them. |
| Dependencies.Annotated | pywebpack/project.py:349 | The re-raised message starts with the merge's own message and ends with the path of the conflicting bundle. |
| Copying.DirPath | pywebpack/project.py:261-267 | The directory part of a path contains the path. It is one part shorter when the path is a file, and is the path itself when it is not a file. |
| Copying.AllowedPath | pywebpack/project.py:209-212 | An absolute allowed path is kept as parsed. A relative one lies under the config file path, followed by its own parts. |
| Copying.AllowedCopyPaths | pywebpack/project.py:203-216 | The result has the same length and order as the listed paths, whether they come from a list or a producer, and each entry is the resolved allowed path. |
| Copying.CheckCopy | pywebpack/project.py:277-302 | A key set other than exactly `from`, `to` is an invalid-instruction error. Otherwise the instruction is accepted unchanged iff the allowed list is empty or both resolved directories lie under some allowed path. |
| Copying.KeySetChecked | pywebpack/project.py:278-282 | An instruction missing `from` or `to`, or having any other key, is refused with the invalid-instruction error whatever its paths. |
| Copying.CollectCopies | pywebpack/project.py:275-304 | The nested loop over bundles and their instructions computes the fold that accepts instructions in order and stops at the first refused one. |
| Copying.CheckFirstOk | pywebpack/project.py:276-304 | The inner loop succeeds iff every instruction read passes, and it then appends exactly those instructions. |
| Copying.CopiedOk | pywebpack/project.py:275-304 | The loops succeed iff every instruction of every bundle read passes, and they then return all instructions in bundle and declaration order. |
| Copying.CopiedMeaning | pywebpack/project.py:275-306 | Success iff all instructions pass, with the concatenation of all instructions returned. A failure carries the error of the first failing instruction, after which no earlier one fails. |
| Copying.Copy | pywebpack/project.py:269-306 | `copy` joins the paths onto `_get_dir_path(config_path)` (the config file's directory when the file exists, the config path itself when it does not) and checks them against the resolved allowed paths. It succeeds iff every instruction passes, returns every instruction unchanged in order, and otherwise fails with the check error of the first failing instruction. |
| Copying.AllPassWithoutAllowed | pywebpack/project.py:289-302 | With no allowed paths, every instruction passes iff each has exactly the keys `from` and `to`. |
| Copying.ResolvedStaysUnder | pywebpack/project.py:285-296 | A relative copy path with at least one part, or any relative path when the base is not a file, resolves to a directory under the base, whatever `..` parts it holds. |
| Copying.ParentPartsPass | pywebpack/project.py:285-302 | `{"from": "../../etc", "to": "../../etc"}` is accepted when the base is the allowed path itself: nothing resolves `..`. |
| Copying.RelativeBasesDiffer | pywebpack/project.py:206-212 | When the config path is an existing file, the copy base (its directory) is not under any relative allowed path, since those are joined onto the file. |
| Copying.RelativeBasesAgree | pywebpack/project.py:206-212 | When the config path is not a file, a relative copy path and the same relative allowed path resolve to the same path. |
| Copying.ConfigFileDecidesCopy | pywebpack/project.py:206-212 | With one relative allowed path `s` and the instruction `{"from": s, "to": s}`, the instruction passes while no file exists at the config path and is refused once it does: the allowed path hangs off the config path, the copy base off its directory. |
| Names.CollectNames | pywebpack/project.py:235-259 | The nested loop computes the fold that records each name's owner, stops at the first name an earlier bundle declared, and adds each finished bundle's map to the union. |
| Names.Entry | pywebpack/project.py:231-259 | `entry` succeeds iff no two bundles declare the same entry name, and then returns the union of the entry maps. Otherwise it fails with the report of the first repeat. |
| Names.Aliases | pywebpack/project.py:315-337 | `aliases` obeys the same rule for alias names: the union when repeat-free, otherwise the report of the first repeat. |
| Names.OutcomeMeaning | pywebpack/project.py:239-259 | The fold succeeds iff repeat-free and then yields the union. A failure is the report of a first repeat. |
| Names.CollectedOk | pywebpack/project.py:239-258 | After any number of bundles, the loop state is present iff those bundles repeat no name, and it is then their union and owner record. |
| Names.ClaimFirstOk | pywebpack/project.py:240-256 | The inner loop fails iff a name read so far is already in the union; otherwise it has recorded the current bundle as owner of every name read. |
| Names.RepeatFoundAt | pywebpack/project.py:243-244 | The first name found in the union, after a repeat-free prefix, is the first repeat. |
| Names.RepeatReportFromClaims | pywebpack/project.py:244-256 | The owner in the error is the one recorded by earlier bundles, not overwritten by the offending bundle's own earlier pairs. |
| Names.RepeatFreeIff | pywebpack/project.py:243 | The repeat test passes iff no two different bundles declare the same name; only keys are compared, paths are ignored. |
| Names.RepeatIgnoresPaths | pywebpack/project.py:243-255 | Two bundles declaring one name make the composition fail, even with the same path. |
| Names.UnionKeys | pywebpack/project.py:258 | A name is in the union of the first bundles iff one of them declares it. |
| Names.UnionIsExact | pywebpack/project.py:258-259 | Without repeats, the union holds exactly the bundles' pairs, each with the path its bundle gave. |
| Names.OwnerDeclared | pywebpack/project.py:256 | The recorded owner of a name is an earlier bundle that declares it with the recorded path. |
| Names.RepeatReportBlames | pywebpack/project.py:244-255 | The error names a name the offending bundle declares, and the path and bundle of the one earlier bundle that declared it. |
| Names.FirstRepeatUnique | pywebpack/project.py:239-255 | The first repeat is unique, so the error is determined by the bundle list. |
| Names.UnionIgnoresOrder | pywebpack/project.py:239-259 | For repeat-free lists holding the same bundles, the union does not depend on their order. |
| Names.PermutationKeepsRepeats | pywebpack/project.py:241-255 | Reordering the bundles (the same bundles, each as often) does not change whether `entry` or `aliases` fails: a list is repeat-free iff its reordering is. |
| Names.RepeatSurvivesReorder | pywebpack/project.py:241-244 | A name that two bundles of a list declare is declared by two bundles of any reordering, including when the two are copies of one bundle. |
| Dependencies.Initial | pywebpack/project.py:343 | The accumulator starts with exactly the classes `dependencies`, `devDependencies` and `peerDependencies`, each empty. |
| Dependencies.Dependencies | pywebpack/project.py:339-351 | The loop computes the fold. It succeeds iff no bundle's merge conflicts, and otherwise fails with the merge's message extended by the path of the conflicting bundle. |
| Dependencies.MergedMeaning | pywebpack/project.py:344-351 | After any prefix of bundles, the fold is present iff none of them conflicts, and otherwise is the annotated error of one that does. |
| Dependencies.ErrPersists | pywebpack/project.py:346-350 | After a conflict, later bundles change nothing: the first conflict aborts. |
| Dependencies.ConflictUnique | pywebpack/project.py:344-350 | At most one bundle is blamed for a conflict. |
| Dependencies.MergedPrefix | pywebpack/project.py:344-350 | Bundles appended to the list do not change how the earlier ones merge. |
| Dependencies.ConflictSurvivesAppend | pywebpack/project.py:344-350 | A list whose merge conflicts still conflicts, with the same error, when bundles are appended. |
| Dependencies.NoConflictNoError | pywebpack/project.py:344-351 | A merge that never conflicts makes `dependencies` succeed. |

## Left out

- `WebpackProject.install`, `run`, `build`, `buildall` and `npmpkg`: they run npm or yarn. `project_path`, the directory those find, is a plain string parameter of the project.
- `create`, `clean`, `collect` and the storage classes: file-system copying, deletion and JSON writing.
- `package_json_source` and `package_json`: they read JSON from disk and call `merge_deps`, which is not part of this model.
- `merge_deps` (in `pywebpack/helpers.py`, which is not part of this model): a function parameter returning a merged manifest or a conflict message. Its rule for combining versions is not modelled.
- The `cached` and `check_exit` decorators (helpers not part of this model). Each property is modelled as computed afresh.
- The `config` getters (both the base one and the one injecting `entry`, `aliases` and `copy`): they return or update a user-supplied dict, with no logic beyond calling the three modelled operations.
- `package_json_source_path`: a plain join of two settings, read only by the left-out `package_json_source`.
- `Path.is_file()` on the real file system: a caller-supplied predicate on paths. Symlinks, Windows path flavours and the POSIX `//` root are not modelled.
- Exception messages: errors are structured values carrying the same fields the messages format. The dependency conflict message is the exact string concatenation.
- The bundles' `entry` and `aliases` dicts are sequences of pairs with distinct names, in iteration order; `Names.Entry` and `Names.Aliases` require that distinctness.
- An unset `config_path` (`None`) and an empty one are both the empty string, since both select `config.json`.
- `Names.UnionIgnoresOrder`: states order independence of the union for repeat-free lists over the same set of bundles. Whether a reordered list fails is stated separately, for reorderings that keep each bundle's multiplicity (`Names.PermutationKeepsRepeats`); which repeat a reordered list reports first is not stated.
