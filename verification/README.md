# ShellCheck linter adapter for CudaLint — a Dafny model

The `ShellCheck` class in `linter.py` plugs the external `shellcheck`
program into the CudaLint host of the CudaText editor. Its own logic is
small and deterministic:

* it finds the executable, first on the search path, then as a bundled copy
  next to the plugins directory;
* it loads a list of ShellCheck codes to suppress from a JSON settings file
  that may carry whole-line `//` and `#` comments, keeping only entries of
  the form `SC<digits>` and reporting the rest;
* it builds the command line `<path> -f gcc - -e <code> ...`;
* when no executable is found it stays in a disabled state (no codes, class
  defaults for `executable` and `cmd`);
* it asks the host for a temporary file whose suffix is the edited file's
  extension, or `.sh`.

The Dafny project models that logic:

* `text.dfy` (module `Text`): the Python `str` operations involved (`strip`,
  `startswith`, `isdigit`) over ASCII.
* `json.dfy` (module `Json`): the value `json.loads` returns, kept abstract.
* `config.dfy` (module `Config`): the comment-line filter, the code check,
  the invalid-code warning and `_load_config`.
* `invocation.dfy` (module `Invocation`): the command line as a specification
  function, and `_build_cmd` as a loop proved against it.
* `linter.dfy` (module `Linter`): the executable locator, the `ShellCheck`
  class with its constructor and invariant, and the temp-file suffix.
* `wrappers.dfy` (module `Wrappers`): `Option`, for Python's `None`.

The operating system's answers are parameters of the model. These are
`shutil.which`, `os.path.isfile`, `os.path.join`, `os.name` and the plugin's
install location. So are the lines read from the settings file and the
outcome of `json.loads`.

Only `NameError` and `AttributeError` are caught while the bundled path is
computed (linter.py:64-75); the model represents that failure as
`Environment.pluginRoot == None`.

## Model

| member | source | states |
|---|---|---|
| `Text.Strip` | linter.py:100-101 | `str.strip()`: the result is the infix of the input surrounded only by whitespace; it is empty exactly when the input is all whitespace, and otherwise starts and ends with a non-whitespace character |
| `Config.KeptLines` | linter.py:100 | the comment filter keeps at most as many lines as it is given, and a line is kept iff it occurs in the file and its stripped form is non-empty and starts with neither `//` nor `#` |
| `Config.KeptLinesAppend` | linter.py:100 | the filter preserves line order: filtering `a + b` is filtering `a` then `b` |
| `Config.ConcatAppend` | linter.py:101 | `''.join` concatenates the kept lines in order, with no separator |
| `Config.ConfigContentEmpty` | linter.py:88-90 | `Config.ConfigContent` models `''.join(lines).strip()` at linter.py:101, the text handed to `json.loads`; that text is empty iff no line survived the filter, which is when `_load_config` returns `[]` without parsing |
| `Config.ValidCodes` | linter.py:135 | the kept codes number at most the entries, and a string is kept iff it occurs as a string entry and is `SC` followed by one or more digits |
| `Config.Dropped` | linter.py:138-139 | reference definition of the rejected entries: an entry is listed iff it occurs in the array and fails the check |
| `Config.ValidCodesAppend` | linter.py:135 | validation preserves order: validating `a + b` is validating `a` then `b` |
| `Config.ValidCodesAllWellFormed` | linter.py:135 | an array of well-formed codes is kept whole, same length and same order |
| `Config.PartitionLength` | linter.py:135-139 | every entry is either kept or rejected: the two lengths add up to the array's length |
| `Config.InvalidIsDropped` | linter.py:139 | `Config.InvalidAsWritten` models the comprehension at linter.py:139 as written (the entries not found in the kept list); applied to the kept list it is exactly the rejected entries in input order |
| `Config.ValidateCodes` | linter.py:135-146 | the returned codes are the kept ones; the invalid-code warning is printed iff some entry fails the check, and it reports exactly the rejected entries |
| `Config.ParseAndValidateCodes` | linter.py:117-150 | every returned code is well formed; a JSON object whose `ignore_codes` member (read by `Config.IgnoreCodesField`, which models `config.get('ignore_codes', [])` at linter.py:127) is an array is validated whole |
| `Config.MalformedConfigLoadsNothing` | linter.py:119-150 | a parse error, a top level that is not an object, an `ignore_codes` that is not an array, and a missing `ignore_codes` all load no codes and print no invalid-code warning |
| `Config.LoadConfig` | linter.py:79-93 | the loaded codes are all well formed; a missing or unreadable file, or one holding only blank and comment lines, loads nothing whatever the parser would say; any other file has its filtered, joined and stripped content parsed, and the codes validated from it are returned |
| `Config.UndecodableConfigLoadsNothing` | linter.py:79-150 | a settings file whose content the parser rejects loads no codes |
| `Config.WellFormedConfigLoadsWhole` | linter.py:79-135 | a file with content whose `ignore_codes` array holds only well-formed codes loads exactly those codes, same length and same order |
| `Config.CommentedConfigExample` | linter.py:79-146 | the file `// comment` + `{"ignore_codes": ["SC2034", "sc2154", "SC99"]}` loads `["SC2034", "SC99"]` and reports `["sc2154"]` as invalid |
| `Invocation.SuppressFlagsSnoc` | linter.py:156-157 | one loop step adds exactly the pair `-e`, code at the end |
| `Invocation.SuppressFlagsAt` | linter.py:156-157 | the suppression flags are two tokens per code: `-e` at offset `2i` and code `i` at `2i + 1` |
| `Invocation.CommandLineShape` | linter.py:154-157 | the command has length `4 + 2n` and starts with the path, `-f`, `gcc`, `-`; it has `-e` at `4 + 2i` and code `i` at `5 + 2i` |
| `Invocation.CommandLineInjective` | linter.py:154-160 | the path and every code, in order, can be read back from the command line: equal commands come from equal inputs |
| `Invocation.BuildCmd` | linter.py:152-160 | the loop builds exactly `[path, "-f", "gcc", "-"]` followed by one `-e`, code pair per code, in order |
| `Linter.FindExecutable` | linter.py:56-77 | a search-path hit is returned first; otherwise the bundled path is returned iff it could be computed and a file exists there; otherwise nothing |
| `Linter.SearchPathWins` | linter.py:59-61 | a search-path hit wins even when the bundled copy exists |
| `Linter.DefaultCmdIsBareCommand` | linter.py:23-24 | the class default `cmd` is the command built for the bare name `shellcheck` with no codes |
| `Linter.TempFileSuffix` | linter.py:169-172 | the suffix is never empty; it is the file's extension when there is one, else `.sh` |
| `Linter.ShellCheck.constructor` | linter.py:36-54 | the located path follows the locator's precedence. Without a path: no codes, `executable == "shellcheck"` and the default `cmd`. With one: `executable` is the path, the codes are those loaded, and `cmd` is built from both |
| `Linter.ShellCheck.CommandMatchesState` | linter.py:23-51 | in either state `cmd` is the command built from `executable` and the ignore list, of length `4 + 2n` |

## Left out

- Reading the settings file is left out (linter.py:97-115). This covers `open`, the UTF-8 attempt, the retry in the platform encoding, and turning exceptions into `None`. This is I/O. The file is given as its lines (`Config.ConfigFile.Lines`), or as `Unreadable` when reading raised: a `UnicodeDecodeError` whose retry in the platform encoding also failed, or any other error on the first read, which is not retried. Universal-newline translation is assumed already done.
- The settings path (linter.py:81, `app_path(APP_DIR_SETTINGS)` joined with `CONFIG_FILE`) is left out. Whether a file exists there is the `Absent` case of `ConfigFile`.
- `json.loads` is a parameter `string -> Option<JsonValue>` (linter.py:120). `None` stands for `JSONDecodeError`. JSON numbers are abstracted to `real`.
- Exceptions from `json.loads` other than `JSONDecodeError` are left out. Examples are a `RecursionError` on deeply nested input and a `ValueError` on an integer literal longer than Python's digit limit. The only handler, at linter.py:148, does not catch them, and nothing in `_load_config` or `__init__` does either (linter.py:47). They therefore propagate out of `__init__`, and on such input the adapter is never constructed. The model has no such outcome: `Linter.ShellCheck.constructor` always finishes in `Valid()`.
- The OS lookups are fields of `Linter.Environment`: `shutil.which`, `os.path.isfile`, `os.path.join`, `os.name`, and the three `os.path.dirname` calls on `__file__` (linter.py:59-69). Only the failure to compute the install location stands for the caught `NameError`/`AttributeError`.
- `os.path.splitext` and `super().tmpfile` are left out (linter.py:171-172). The extension is an input, and only the `ext or '.sh'` choice is modelled.
- `super().__init__(view)` (linter.py:37) belongs to the host framework. The view parameter is not modelled.
- The diagnostic `regex` (linter.py:27-31) is left out; the host applies it. So are the class attributes `syntax`, `multiline` and `tempfile_suffix`, which are constants.
- All `print` output and `_log_status` (linter.py:10, 162-167) are left out as purely observational. The one exception is the invalid-code warning: its list is modelled because the source computes and reports that list (linter.py:138-140), as `Config.Validation.invalidWarning`.
- The `Command` class (linter.py:175-235) is left out: `config` and `help` are editor UI and file creation, and `on_lexer`/`on_open` do nothing.
- `Text.Strip` and `Config.IsIgnoreCode` work on ASCII only. `str.strip` and `str.isdigit` in Python also accept non-ASCII whitespace and Unicode digits. Here whitespace is space, `\t \n \x0b \x0c \r` and `\x1c`-`\x1f`, and digits are `0`-`9`.
- `Invocation.BuildCmd` receives the path and the codes as parameters instead of reading `self.shellcheck_path` and `self.ignore_codes`. The constructor passes it exactly those two values. It returns a sequence where Python returns a tuple.
