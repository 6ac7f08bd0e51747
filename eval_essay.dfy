/**
 * The pure parts of the essay-evaluation script: reading the command
 * line, merging it over the configuration file, choosing the models,
 * naming their output directories and resolving the input and output
 * directories.
 */
module EvalEssay {
  import opened Wrappers
  import opened PhpValues
  import Strings
  import Assoc

  // ---------------------------------------------------------------------
  // Paths

  predicate IsAsciiLetter(c: char)
  {
    'a' <= c <= 'z' || 'A' <= c <= 'Z'
  }

  /**
   * `is_absolute_path($path)` where `sep` is `DIRECTORY_SEPARATOR`: on
   * Windows a drive letter and a colon, or two leading backslashes;
   * elsewhere a leading '/'.
   */
  predicate IsAbsolutePath(sep: char, path: string)
  {
    if sep == '\\' then
      (|path| >= 2 && IsAsciiLetter(path[0]) && path[1] == ':') || (|path| >= 2 && path[..2] == "\\\\")
    else
      |path| >= 1 && path[0] == '/'
  }

  /** Whether a path is absolute depends only on its first two characters, so appending keeps it absolute. */
  lemma AbsoluteExtend(sep: char, path: string, more: string)
    requires IsAbsolutePath(sep, path)
    ensures IsAbsolutePath(sep, path + more)
  {
    if sep == '\\' && !(IsAsciiLetter(path[0]) && path[1] == ':') {
      assert (path + more)[..2] == path[..2];
    }
  }

  /** Which paths count as absolute on each kind of system. */
  lemma IsAbsolutePathExamples()
    ensures IsAbsolutePath('/', "/srv/essays") && !IsAbsolutePath('/', "data/input") && !IsAbsolutePath('/', "")
    ensures !IsAbsolutePath('/', "C:/essays")
    ensures IsAbsolutePath('\\', "C:\\essays") && IsAbsolutePath('\\', "d:") && IsAbsolutePath('\\', "\\\\server\\share")
    ensures !IsAbsolutePath('\\', "/srv/essays") && !IsAbsolutePath('\\', "\\essays") && !IsAbsolutePath('\\', "1:")
  {
    assert "\\\\server\\share"[..2] == "\\\\";
    assert "\\essays"[1] != '\\';
  }

  /**
   * The output or input directory: a configured absolute directory as
   * it is, a configured relative one under the script's directory, and
   * `fallback` (a path starting with '/') under it when none is set.
   */
  function ResolveDirectory(sep: char, scriptDir: string, configured: Option<string>, fallback: string): string
  {
    match configured
    case Some(d) => if IsAbsolutePath(sep, d) then d else scriptDir + "/" + d
    case None => scriptDir + fallback
  }

  /** Under an absolute script directory the resolved directory is absolute. */
  lemma ResolveDirectoryAbsolute(sep: char, scriptDir: string, configured: Option<string>, fallback: string)
    requires IsAbsolutePath(sep, scriptDir)
    ensures IsAbsolutePath(sep, ResolveDirectory(sep, scriptDir, configured, fallback))
  {
    if configured.Some? && !IsAbsolutePath(sep, configured.value) {
      AbsoluteExtend(sep, scriptDir, "/" + configured.value);
      assert scriptDir + "/" + configured.value == scriptDir + ("/" + configured.value);
    } else if configured.None? {
      AbsoluteExtend(sep, scriptDir, fallback);
    }
  }

  /** `isset($config[key])` for a string setting. */
  function ConfigString(config: Payload, key: string): Option<string>
  {
    match Assoc.Lookup<string, JValue>(config, key)
    case Some(JStr(s)) => Some(s)
    case _ => None
  }

  /** The directory the assessments are written under. */
  function OutputDirectory(sep: char, scriptDir: string, config: Payload): string
  {
    ResolveDirectory(sep, scriptDir, ConfigString(config, "output_directory"), "/data/output")
  }

  /** The directory the essays are read from. */
  function InputDirectory(sep: char, scriptDir: string, config: Payload): string
  {
    ResolveDirectory(sep, scriptDir, ConfigString(config, "input_directory"), "/data/input")
  }

  /**
   * `-o`/`--output` decides the output directory: an absolute argument
   * as it is, a relative one under the script's directory; without the
   * option the file's setting decides.
   */
  lemma OutputDirectorySpec(sep: char, scriptDir: string, file: Payload, opts: CliOptions)
    ensures var dir := OutputDirectory(sep, scriptDir, MergeConfig(file, CliConfig(opts)));
      && (CliValue(opts, "o", "output").Some? && IsAbsolutePath(sep, CliValue(opts, "o", "output").value) ==>
            dir == CliValue(opts, "o", "output").value)
      && (CliValue(opts, "o", "output").Some? && !IsAbsolutePath(sep, CliValue(opts, "o", "output").value) ==>
            dir == scriptDir + "/" + CliValue(opts, "o", "output").value)
      && (CliValue(opts, "o", "output").None? ==> dir == OutputDirectory(sep, scriptDir, file))
  {
    CliConfigSpec(opts, "output_directory");
    assert FLAGS[3].2 == "output_directory";
    MergeConfigSpec(file, CliConfig(opts), "output_directory");
  }

  /** Without configured directories both live under `data/` in the script's directory. */
  lemma DefaultDirectories(sep: char, scriptDir: string, config: Payload)
    requires Assoc.Lookup(config, "output_directory").None? && Assoc.Lookup(config, "input_directory").None?
    ensures OutputDirectory(sep, scriptDir, config) == scriptDir + "/data/output"
    ensures InputDirectory(sep, scriptDir, config) == scriptDir + "/data/input"
  {
  }

  // ---------------------------------------------------------------------
  // Command line and configuration

  /** The options `getopt` returned, each given at most once, by name. */
  type CliOptions = map<string, string>

  /** `isset($options[s]) || isset($options[l])`, then `$options[l] ?? $options[s]`. */
  function CliValue(opts: CliOptions, short: string, long: string): Option<string>
  {
    if long in opts then Some(opts[long])
    else if short in opts then Some(opts[short])
    else None
  }

  /** `array_map('trim', explode(',', $s))`. */
  function ModelList(s: string): (models: seq<string>)
  {
    var parts := Strings.Split(s, ',');
    seq(|parts|, i requires 0 <= i < |parts| => Strings.Trim(parts[i]))
  }

  /**
   * The models listed on the command line: one per comma-separated
   * piece (joining the pieces again gives the argument), each trimmed,
   * none holding a ',' or starting or ending with whitespace.
   */
  lemma ModelListSpec(s: string)
    ensures var parts := Strings.Split(s, ',');
      && Strings.Join(parts, ',') == s
      && |ModelList(s)| == |parts|
      && forall i :: 0 <= i < |parts| ==> ModelList(s)[i] == Strings.Trim(parts[i])
    ensures forall i :: 0 <= i < |ModelList(s)| ==> ',' !in ModelList(s)[i]
    ensures forall i :: 0 <= i < |ModelList(s)| && ModelList(s)[i] != [] ==>
      !Strings.IsTrimmed(ModelList(s)[i][0]) && !Strings.IsTrimmed(ModelList(s)[i][|ModelList(s)[i]| - 1])
  {
    var parts := Strings.Split(s, ',');
    Strings.SplitJoin(s, ',');
    Strings.SplitPiecesFree(s, ',');
    forall i | 0 <= i < |parts|
      ensures ',' !in ModelList(s)[i]
      ensures ModelList(s)[i] != [] ==> !Strings.IsTrimmed(ModelList(s)[i][0]) && !Strings.IsTrimmed(ModelList(s)[i][|ModelList(s)[i]| - 1])
    {
      TrimKeepsOut(parts[i], ',');
      Strings.TrimSpec(parts[i]);
    }
  }

  /** `trim` only removes characters. */
  lemma TrimKeepsOut(s: string, c: char)
    requires c !in s
    ensures c !in Strings.Trim(s)
  {
    Strings.TrimSpec(s);
    var lo, hi :| 0 <= lo <= hi <= |s| && Strings.Trim(s) == s[lo..hi];
  }

  /** One setting taken from the command line, when the option was given. */
  function Setting(key: string, value: Option<string>): Payload
  {
    match value
    case Some(v) => [(key, JStr(v))]
    case None => []
  }

  /** The `models` setting for the argument of `-m` or `--models`: a JSON list of the names. */
  function ModelsValue(arg: string): JValue
  {
    var models := ModelList(arg);
    JArr(seq(|models|, i requires 0 <= i < |models| => JStr(models[i])))
  }

  /** The `models` setting, when `-m` or `--models` was given. */
  function ModelsSetting(value: Option<string>): Payload
  {
    match value
    case Some(v) => [("models", ModelsValue(v))]
    case None => []
  }

  /** The flags that take a value and the setting each one fills: short name, long name, key. */
  const FLAGS: seq<(string, string, string)> := [
    ("c", "config", "config_file"),
    ("s", "server", "ollama_server"),
    ("i", "input", "input_directory"),
    ("o", "output", "output_directory"),
    ("r", "rubric", "rubric_file"),
    ("t", "taskdef", "task_definition_file")]

  /** The settings the flags in `flags` fill, in order. */
  function Settings(opts: CliOptions, flags: seq<(string, string, string)>): Payload
  {
    if flags == [] then []
    else Setting(flags[0].2, CliValue(opts, flags[0].0, flags[0].1)) + Settings(opts, flags[1..])
  }

  /** `$cliConfig`: the settings given on the command line, in the script's order. */
  function CliConfig(opts: CliOptions): Payload
  {
    Settings(opts, FLAGS) + ModelsSetting(CliValue(opts, "m", "models"))
  }

  /** The setting a command-line value gives. */
  function AsSetting(value: Option<string>): Option<JValue>
  {
    match value
    case Some(v) => Some(JStr(v))
    case None => None
  }

  predicate DistinctKeys(flags: seq<(string, string, string)>)
  {
    forall i, j :: 0 <= i < j < |flags| ==> flags[i].2 != flags[j].2
  }

  lemma SettingLatest(key: string, value: Option<string>, k: string)
    ensures Assoc.Latest(Setting(key, value), k) == if k == key then AsSetting(value) else None
  {
  }

  /** With distinct keys, each flag's key holds that flag's value, and other keys hold nothing. */
  lemma {:induction false} SettingsLatest(opts: CliOptions, flags: seq<(string, string, string)>, k: string)
    requires DistinctKeys(flags)
    ensures (forall i :: 0 <= i < |flags| ==> flags[i].2 != k) ==> Assoc.Latest(Settings(opts, flags), k).None?
    ensures forall i :: 0 <= i < |flags| && flags[i].2 == k ==>
      Assoc.Latest(Settings(opts, flags), k) == AsSetting(CliValue(opts, flags[i].0, flags[i].1))
  {
    if flags != [] {
      var head := Setting(flags[0].2, CliValue(opts, flags[0].0, flags[0].1));
      assert DistinctKeys(flags[1..]) by {
        forall i, j | 0 <= i < j < |flags[1..]| ensures flags[1..][i].2 != flags[1..][j].2 {
          assert flags[1..][i] == flags[i + 1] && flags[1..][j] == flags[j + 1];
        }
      }
      SettingsLatest(opts, flags[1..], k);
      Assoc.LatestAppend(head, Settings(opts, flags[1..]), k);
      SettingLatest(flags[0].2, CliValue(opts, flags[0].0, flags[0].1), k);
      forall i | 0 <= i < |flags| && flags[i].2 == k
        ensures Assoc.Latest(Settings(opts, flags), k) == AsSetting(CliValue(opts, flags[i].0, flags[i].1))
      {
        if i == 0 {
          assert forall j :: 0 <= j < |flags[1..]| ==> flags[1..][j].2 != k by {
            forall j | 0 <= j < |flags[1..]| ensures flags[1..][j].2 != k {
              assert flags[1..][j] == flags[j + 1];
            }
          }
        } else {
          assert flags[1..][i - 1] == flags[i];
        }
      }
      if forall i :: 0 <= i < |flags| ==> flags[i].2 != k {
        assert forall j :: 0 <= j < |flags[1..]| ==> flags[1..][j].2 != k by {
          forall j | 0 <= j < |flags[1..]| ensures flags[1..][j].2 != k {
            assert flags[1..][j] == flags[j + 1];
          }
        }
      }
    }
  }

  /**
   * What the command line sets: each flag's setting holds the long
   * option's value when it was given, else the short option's, and is
   * absent when neither was; `models` holds the trimmed comma-separated
   * list.
   */
  lemma CliConfigSpec(opts: CliOptions, k: string)
    ensures forall i :: 0 <= i < |FLAGS| && FLAGS[i].2 == k ==>
      Assoc.Latest(CliConfig(opts), k) ==
        if FLAGS[i].1 in opts then Some(JStr(opts[FLAGS[i].1]))
        else if FLAGS[i].0 in opts then Some(JStr(opts[FLAGS[i].0]))
        else None
    ensures k == "models" ==>
      Assoc.Latest(CliConfig(opts), k) ==
        if "models" in opts then Some(ModelsValue(opts["models"]))
        else if "m" in opts then Some(ModelsValue(opts["m"]))
        else None
    ensures k != "models" && (forall i :: 0 <= i < |FLAGS| ==> FLAGS[i].2 != k) ==> Assoc.Latest(CliConfig(opts), k).None?
  {
    assert DistinctKeys(FLAGS);
    SettingsLatest(opts, FLAGS, k);
    var models := ModelsSetting(CliValue(opts, "m", "models"));
    Assoc.LatestAppend(Settings(opts, FLAGS), models, k);
    if k == "models" {
      assert forall i :: 0 <= i < |FLAGS| ==> FLAGS[i].2 != k;
    }
  }

  /** `array_merge($config, $cliConfig)`: command-line settings replace file settings of the same key. */
  function MergeConfig(file: Payload, cli: Payload): Payload
  {
    Assoc.Overlay(file, cli)
  }

  /**
   * After the merge a key holds its command-line value when the command
   * line set it and its file value otherwise; the file's keys keep their
   * order at the front; and a file without repeated keys gives a merged
   * configuration without repeated keys.
   */
  lemma MergeConfigSpec(file: Payload, cli: Payload, k: string)
    ensures Assoc.Latest(cli, k).Some? ==> Assoc.Lookup(MergeConfig(file, cli), k) == Assoc.Latest(cli, k)
    ensures Assoc.Latest(cli, k).None? ==> Assoc.Lookup(MergeConfig(file, cli), k) == Assoc.Lookup(file, k)
    ensures |MergeConfig(file, cli)| >= |file| && Assoc.Keys(MergeConfig(file, cli))[..|file|] == Assoc.Keys(file)
    ensures Assoc.UniqueKeys(file) ==> Assoc.UniqueKeys(MergeConfig(file, cli))
  {
    if Assoc.UniqueKeys(file) {
      Assoc.OverlayUnique(file, cli);
    }
    Assoc.OverlayLookup(file, cli, k);
    Assoc.OverlayKeepsOrder(file, cli);
  }

  /** `$config['ollama_server'] ?? "http://127.0.0.1:11434"`. */
  const DEFAULT_SERVER := "http://127.0.0.1:11434"

  function ServerUrl(config: Payload): string
  {
    match ConfigString(config, "ollama_server")
    case Some(url) => url
    case None => DEFAULT_SERVER
  }

  /** `-s`/`--server` decides the server; without it the file's setting, then the default. */
  lemma ServerUrlSpec(file: Payload, opts: CliOptions)
    ensures var url := ServerUrl(MergeConfig(file, CliConfig(opts)));
      && (CliValue(opts, "s", "server").Some? ==> url == CliValue(opts, "s", "server").value)
      && (CliValue(opts, "s", "server").None? ==> url == ServerUrl(file))
  {
    CliConfigSpec(opts, "ollama_server");
    assert FLAGS[1].2 == "ollama_server";
    MergeConfigSpec(file, CliConfig(opts), "ollama_server");
  }

  // ---------------------------------------------------------------------
  // Models

  /** `str_replace([":", ".", "/"], "_", $model)`: the directory name of a model. */
  function SanitizeModelName(model: string): string
  {
    Strings.ReplaceAll(Strings.ReplaceAll(Strings.ReplaceAll(model, ":", "_"), ".", "_"), "/", "_")
  }

  /** The name keeps its length, turns each ':', '.' and '/' into '_' and keeps every other character. */
  lemma SanitizeModelNameSpec(model: string)
    ensures |SanitizeModelName(model)| == |model|
    ensures forall i :: 0 <= i < |model| ==>
      SanitizeModelName(model)[i] == if model[i] in ":./" then '_' else model[i]
    ensures ':' !in SanitizeModelName(model) && '.' !in SanitizeModelName(model) && '/' !in SanitizeModelName(model)
  {
    var a := Strings.ReplaceAll(model, ":", "_");
    var b := Strings.ReplaceAll(a, ".", "_");
    Strings.ReplaceCharPointwise(model, ':', '_');
    Strings.ReplaceCharPointwise(a, '.', '_');
    Strings.ReplaceCharPointwise(b, '/', '_');
  }

  /** `array_intersect($models, $available)`: the models that are available, in order, repeats kept. */
  function Intersect(models: seq<string>, available: seq<string>): seq<string>
  {
    if models == [] then []
    else (if models[0] in available then [models[0]] else []) + Intersect(models[1..], available)
  }

  /** Each model occurs as often as in `models` when it is available, and not at all otherwise. */
  lemma {:induction false} IntersectCount(models: seq<string>, available: seq<string>, m: string)
    ensures multiset(Intersect(models, available))[m] == if m in available then multiset(models)[m] else 0
  {
    if models != [] {
      IntersectCount(models[1..], available, m);
      assert models == [models[0]] + models[1..];
    }
  }

  /** The order of the requested list is kept: selecting from a concatenation concatenates the selections. */
  lemma {:induction false} IntersectAppend(a: seq<string>, b: seq<string>, available: seq<string>)
    ensures Intersect(a + b, available) == Intersect(a, available) + Intersect(b, available)
  {
    if a == [] {
      assert a + b == b;
    } else {
      assert (a + b)[0] == a[0] && (a + b)[1..] == a[1..] + b;
      IntersectAppend(a[1..], b, available);
    }
  }

  /** Selecting the available models from the available list gives it back. */
  lemma {:induction false} IntersectSelf(available: seq<string>, all: seq<string>)
    requires forall i :: 0 <= i < |available| ==> available[i] in all
    ensures Intersect(available, all) == available
  {
    if available != [] {
      IntersectSelf(available[1..], all);
    }
  }

  /** `$config['models'] ?? $availableModels` as a list of names. */
  function RequestedModels(config: Payload): Option<seq<string>>
  {
    match Assoc.Lookup<string, JValue>(config, "models")
    case Some(JArr(items)) => Some(seq(|items|, i requires 0 <= i < |items| => ToPhpString(items[i])))
    case _ => None
  }

  /**
   * The models to assess with: the requested ones (all available ones
   * when none were requested) that the server offers. No model left is
   * a failure that reports the available models.
   */
  function SelectModels(requested: Option<seq<string>>, available: seq<string>): Result<seq<string>, seq<string>>
  {
    var models := Intersect(if requested.Some? then requested.value else available, available);
    if models == [] then Failure(available) else Success(models)
  }

  /**
   * Selection fails exactly when no requested model is available; on
   * success a model is selected as often as it was requested when the
   * server offers it, and not at all otherwise; with no request every
   * available model is used.
   */
  lemma SelectModelsSpec(requested: Option<seq<string>>, available: seq<string>)
    ensures var wanted := if requested.Some? then requested.value else available;
      SelectModels(requested, available).Failure? <==> forall i :: 0 <= i < |wanted| ==> wanted[i] !in available
    ensures var wanted := if requested.Some? then requested.value else available;
      SelectModels(requested, available).Success? ==>
        forall m :: multiset(SelectModels(requested, available).value)[m] == if m in available then multiset(wanted)[m] else 0
    ensures requested.None? && available != [] ==> SelectModels(requested, available) == Success(available)
  {
    var wanted := if requested.Some? then requested.value else available;
    forall m ensures multiset(Intersect(wanted, available))[m] == if m in available then multiset(wanted)[m] else 0 {
      IntersectCount(wanted, available, m);
    }
    if exists i :: 0 <= i < |wanted| && wanted[i] in available {
      var i :| 0 <= i < |wanted| && wanted[i] in available;
      assert multiset(wanted)[wanted[i]] > 0;
    } else {
      assert forall m :: multiset(Intersect(wanted, available))[m] == 0;
      assert multiset(Intersect(wanted, available)) == multiset{};
    }
    if requested.None? {
      IntersectSelf(available, available);
    }
  }
}
