/**
 * The inputs of a bundle project and the ways composing them can fail.
 * Bundles are immutable values supplied by the caller; the project settings
 * the composition reads (project directory, config path, allowed copy paths)
 * are gathered in `Project`.
 */
module Bundles {
  import opened Paths

  /** Two different positions of `kvs` never hold the same name: the
      insertion-ordered Python dict the pairs stand for. */
  predicate DistinctNames(kvs: seq<(string, string)>) {
    forall a, b :: 0 <= a < b < |kvs| ==> kvs[a].0 != kvs[b].0
  }

  /** A `dict` of name to path, as its pairs in iteration order. */
  type NameMap = seq<(string, string)>

  /** A copy instruction as a bundle declares it: a dict of key to path. */
  type CopyInstruction = map<string, string>

  /** A `package.json`-shaped dependency section: class (`dependencies`,
      `devDependencies`, `peerDependencies`) to package name to version range. */
  type Manifest = map<string, map<string, string>>

  datatype Bundle = Bundle(
    path: string,
    entry: NameMap,
    aliases: NameMap,
    copy: seq<CopyInstruction>,
    dependencies: Manifest)

  /** The bundles' name maps are dicts: none repeats a name. */
  predicate DictsOfNames(bs: seq<Bundle>, kind: NameKind) {
    forall i :: 0 <= i < |bs| ==> DistinctNames(NamesOf(bs[i], kind))
  }

  /** Which of a bundle's two name maps is being combined. */
  datatype NameKind = EntryName | AliasName

  function NamesOf(b: Bundle, kind: NameKind): NameMap {
    match kind
    case EntryName => b.entry
    case AliasName => b.aliases
  }

  /** Every error the composition raises, with the context its message carries. */
  datatype Error =
    | DuplicateName(kind: NameKind, name: string, prevPath: string, prevBundle: string,
                    path: string, bundle: string)
    | InvalidCopyInstruction(instruction: CopyInstruction)
    | CopyOutOfBounds(instruction: CopyInstruction, fromDir: Path, toDir: Path,
                      allowed: seq<Path>)
    | MergeConflict(message: string)

  datatype Result<T> = Ok(value: T) | Err(error: Error)

  /** The allowed copy paths as the caller gives them: a list, or a
      zero-argument producer called each time they are read. */
  datatype AllowedSource = AllowedList(paths: seq<string>) | AllowedProducer(produce: () -> seq<string>)

  function Listed(src: AllowedSource): seq<string> {
    match src
    case AllowedList(ps) => ps
    case AllowedProducer(f) => f()
  }

  /** The settings of a bundle project that composition reads. `projectPath`
      is the directory of the project's `package.json`, found by the npm
      wrapper; an empty `configPathSetting` means none was given. */
  datatype Project = Project(
    projectPath: string,
    configPathSetting: string,
    bundles: seq<Bundle>,
    allowedCopyPaths: AllowedSource)

  /** `config_path or "config.json"`. */
  function ConfigFileName(setting: string): (r: string)
    ensures r != ""
    ensures setting != "" ==> r == setting
  {
    if setting == "" then "config.json" else setting
  }

  /** The `config_path` property: the config file name joined onto the project
      directory with `os.path.join`, which pathlib reads as `joinpath`. */
  function ConfigPath(p: Project): (r: string)
    ensures Parse(r) == JoinPath(Parse(p.projectPath), Parse(ConfigFileName(p.configPathSetting)))
  {
    ParseOsJoin(p.projectPath, ConfigFileName(p.configPathSetting));
    OsJoin(p.projectPath, ConfigFileName(p.configPathSetting))
  }
}
