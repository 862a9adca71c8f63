/**
 * The `ShellCheck` linter adapter: where it finds the executable
 * (`_find_executable`), the state its constructor leaves behind (`__init__`,
 * with the class defaults `executable` and `cmd`), and the suffix it asks
 * for when the host creates a temporary file (`tmpfile`).
 *
 * What the operating system answers (`shutil.which`, `os.path.isfile`,
 * `os.path.join`, `os.name` and the plugin's own location) is passed in as an
 * `Environment`.
 */
module Linter {
  import opened Wrappers
  import opened Json
  import Config
  import Invocation

  /** The class default `executable`: the bare tool name. */
  const DefaultExecutable := "shellcheck"

  /** The class default `cmd`. */
  const DefaultCmd: seq<string> := ["shellcheck", "-f", "gcc", "-"]

  /** The directory, under the plugins' parent directory, that holds the
      bundled copy. */
  const BundledDir := "ShellCheck"

  /** Python truthiness of a path that may be `None`: `None` and the empty
      string are both false. */
  predicate Found(p: Option<string>) {
    p.Some? && p.value != []
  }

  /** The answers of the host operating system. */
  datatype Environment = Environment(
    which: Option<string>,                    // shutil.which('shellcheck')
    pluginRoot: Option<string>,               // dirname(dirname(dirname(__file__))); None when it raises
    isWindows: bool,                          // os.name == 'nt'
    join: (string, string, string) -> string, // os.path.join
    isFile: string -> bool)                   // os.path.isfile

  function ExeName(isWindows: bool): string {
    if isWindows then "shellcheck.exe" else "shellcheck"
  }

  /** The bundled path the locator tries, or `None` when computing it raised. */
  function BundledCandidate(env: Environment): Option<string> {
    match env.pluginRoot
    case None => None
    case Some(root) => Some(env.join(root, BundledDir, ExeName(env.isWindows)))
  }

  /** The locator's precedence: a search-path hit wins; otherwise the bundled
      path, and only when a regular file exists there; otherwise nothing. */
  predicate LocatedBy(env: Environment, path: Option<string>) {
    && (Found(env.which) ==> path == env.which)
    && (!Found(env.which) ==>
          (path.Some? <==> BundledCandidate(env).Some? && env.isFile(BundledCandidate(env).value)))
    && (!Found(env.which) && path.Some? ==> path == BundledCandidate(env))
  }

  /** `_find_executable`: search path first, then the bundled copy. */
  method FindExecutable(env: Environment) returns (path: Option<string>)
    ensures LocatedBy(env, path)
  {
    if Found(env.which) {
      return env.which;
    }
    if env.pluginRoot.Some? {
      var bundled := env.join(env.pluginRoot.value, BundledDir, ExeName(env.isWindows));
      if env.isFile(bundled) {
        return Some(bundled);
      }
    }
    return None;
  }

  /** The search path wins even when a bundled copy exists as well. */
  lemma SearchPathWins(env: Environment, path: Option<string>)
    requires LocatedBy(env, path)
    requires Found(env.which)
    requires BundledCandidate(env).Some? && env.isFile(BundledCandidate(env).value)
    ensures path == env.which && path.value != []
  {
  }

  /** The class defaults are the command the builder produces for the bare
      tool name and no suppressed codes. */
  lemma DefaultCmdIsBareCommand()
    ensures DefaultCmd == Invocation.CommandLine(DefaultExecutable, [])
  {
  }

  /** `tmpfile`'s suffix: the file's own extension, or `.sh` when it has none. */
  function TempFileSuffix(ext: string): (suffix: string)
    ensures suffix != []
    ensures ext != [] ==> suffix == ext
    ensures ext == [] ==> suffix == ".sh"
  {
    if ext != [] then ext else ".sh"
  }

  class ShellCheck {
    var shellcheckPath: Option<string>
    var ignoreCodes: seq<string>
    var executable: string
    var cmd: seq<string>

    /** The adapter is either enabled, running the found executable with its
        loaded codes, or disabled, with no codes and the class defaults. */
    ghost predicate Valid()
      reads this
    {
      && (forall c :: c in ignoreCodes ==> Config.IsIgnoreCode(c))
      && if Found(shellcheckPath) then
           executable == shellcheckPath.value && cmd == Invocation.CommandLine(executable, ignoreCodes)
         else
           ignoreCodes == [] && executable == DefaultExecutable && cmd == DefaultCmd
    }

    /** `__init__`: locate the executable; without one, force the ignore list
        empty and keep the defaults; with one, load the settings file and
        build the command. */
    constructor (env: Environment, config: Config.ConfigFile, jsonLoads: string -> Option<JsonValue>)
      ensures Valid()
      ensures LocatedBy(env, shellcheckPath)
      ensures Found(shellcheckPath) ==> ignoreCodes == Config.LoadConfig(config, jsonLoads)
    {
      var path := FindExecutable(env);
      shellcheckPath := path;
      if !Found(path) {
        ignoreCodes := [];
        executable := DefaultExecutable;
        cmd := DefaultCmd;
      } else {
        var codes := Config.LoadConfig(config, jsonLoads);
        var built := Invocation.BuildCmd(path.value, codes);
        ignoreCodes := codes;
        executable := path.value;
        cmd := built;
      }
    }

    /** In either state the command is the one built from `executable` and
        the ignore list, so the host always runs a well-formed invocation. */
    lemma CommandMatchesState()
      requires Valid()
      ensures cmd == Invocation.CommandLine(executable, ignoreCodes)
      ensures |cmd| == 4 + 2 * |ignoreCodes| && cmd[0] == executable
    {
      Invocation.CommandLineShape(executable, ignoreCodes);
    }
  }
}
