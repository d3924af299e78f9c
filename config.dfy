/** The tool's configuration: command-line options first, then the environment, then the
    configuration file, then built-in defaults. The files are read once, when the
    configuration is made; `os.path.expanduser` is given as a function on strings. */
module WdkConfig {
  import opened Wrappers
  import opened Json

  const DefaultProjectFilename := "~/.config/wdk/project.yml"

  /** The options the configuration reads (each `None` when not given). */
  datatype Args = Args(
    hostname: Option<string>,
    devDir: Option<string>,
    config: Option<string>,
    projectFile: Option<string>)

  /** What opening a file finds: `IOError`, or the document `yaml.load` makes of it
      (`Null` for an empty file). */
  datatype FileContent = Unreadable | Parsed(document: Json)

  datatype ConfigError =
    | AttributeError   // `.get` on a document that is not a mapping
    | TypeError        // `os.path.expanduser` of something that is not a string

  /** The outside world at start-up. */
  datatype World = World(env: map<string, string>, files: map<string, FileContent>, expand: string -> string)

  datatype Config = Config(args: Args, fileConfig: Json, projectConfig: Json)

  /** `document.get(key)`, and `document.get(key, default)`. */
  function Get(document: Json, key: string, default: Json): (r: Result<Json, ConfigError>)
    ensures r.Ok? <==> document.Obj?
    ensures r.Ok? ==> r.value == GetOr(document.fields, key, default)
    ensures r.Err? ==> r.error == AttributeError
  {
    if document.Obj? then Ok(GetOr(document.fields, key, default)) else Err(AttributeError)
  }

  /** `os.path.expanduser`. */
  function ExpandUser(w: World, v: Json): (r: Result<string, ConfigError>)
    ensures r.Ok? <==> v.Str?
    ensures r.Ok? ==> r.value == w.expand(v.s)
    ensures r.Err? ==> r.error == TypeError
  {
    if v.Str? then Ok(w.expand(v.s)) else Err(TypeError)
  }

  /** `_read_yml_file`: a file that cannot be opened reads as `{}`. */
  function ReadYml(w: World, filename: string): (r: Json)
    ensures filename !in w.files || w.files[filename].Unreadable? ==> r == EmptyObj
    ensures filename in w.files && w.files[filename].Parsed? ==> r == w.files[filename].document
  {
    if filename in w.files && w.files[filename].Parsed? then w.files[filename].document else EmptyObj
  }

  /** The first truthy value, or `last` when there is none: a chain of `or`. */
  function FirstTruthy(vs: seq<Json>, last: Json): (r: Json)
    ensures (exists i :: 0 <= i < |vs| && Truthy(vs[i])) ==>
              exists i :: 0 <= i < |vs| && Truthy(vs[i]) && r == vs[i] && forall j :: 0 <= j < i ==> !Truthy(vs[j])
    ensures (forall i :: 0 <= i < |vs| ==> !Truthy(vs[i])) ==> r == last
    decreases |vs|
  {
    if vs == [] then last
    else if Truthy(vs[0]) then vs[0]
    else
      var r := FirstTruthy(vs[1..], last);
      assert forall i :: 1 <= i < |vs| ==> vs[i] == vs[1..][i - 1];
      r
  }

  /** The project file name chain of `_read_project_file`. The `or` stops at the first
      truthy operand, so the configuration file is only consulted when neither the option
      nor `WDK_PROJECT_FILE` gives a name. */
  function ProjectFilename(args: Args, env: map<string, string>, fileConfig: Json): Result<Json, ConfigError> {
    var fromArgs := FromOption(args.projectFile);
    var fromEnv := FromOption(if "WDK_PROJECT_FILE" in env then Some(env["WDK_PROJECT_FILE"]) else None);
    if Truthy(fromArgs) then Ok(fromArgs)
    else if Truthy(fromEnv) then Ok(fromEnv)
    else
      var fromFile :- Get(fileConfig, "project_file", Null);
      Ok(Or(fromFile, Str(DefaultProjectFilename)))
  }

  /** `Config.__init__`: read the configuration file, then the project file. */
  function Load(args: Args, w: World): Result<Config, ConfigError> {
    var configName :- ExpandUser(w, FromOption(args.config));
    var fileConfig := ReadYml(w, configName);
    var projectName :- ProjectFilename(args, w.env, fileConfig);
    var projectFile :- ExpandUser(w, projectName);
    Ok(Config(args, fileConfig, ReadYml(w, projectFile)))
  }

  /** `Config.hostname`. */
  function Hostname(c: Config): Result<Json, ConfigError> {
    var fromArgs := FromOption(c.args.hostname);
    if Truthy(fromArgs) then Ok(fromArgs) else Get(c.fileConfig, "hostname", Null)
  }

  /** `Config.local_source`. */
  function LocalSource(c: Config, w: World): Result<string, ConfigError> {
    var fromArgs := FromOption(c.args.devDir);
    var chosen :- if Truthy(fromArgs) then Ok(fromArgs) else Get(c.fileConfig, "local_source", Null);
    ExpandUser(w, chosen)
  }

  /** `Config.remote_source`. */
  function RemoteSource(c: Config): Result<Json, ConfigError> {
    Get(c.fileConfig, "remote_source", Null)
  }

  /** `Config.get_project`. */
  function GetProject(c: Config, project: string): Result<Json, ConfigError> {
    Get(c.projectConfig, project, EmptyObj)
  }

  // ---------------------------------------------------------------------------
  // Lemmas.

  /** The host name is the option when it is given and not empty; otherwise the file's
      `hostname` (`None` when it has none). */
  lemma HostnamePrecedence(c: Config)
    ensures c.args.hostname.Some? && c.args.hostname.value != "" ==> Hostname(c) == Ok(Str(c.args.hostname.value))
    ensures (c.args.hostname.None? || c.args.hostname.value == "") && c.fileConfig.Obj? ==>
              Hostname(c) == Ok(GetOr(c.fileConfig.fields, "hostname", Null))
    ensures Hostname(c).Err? <==> (c.args.hostname.None? || c.args.hostname.value == "") && !c.fileConfig.Obj?
  {
  }

  /** The local source is the expanded `--dev-dir` when given and not empty; otherwise the
      file's `local_source`, expanded too, which must be a string. */
  lemma LocalSourcePrecedence(c: Config, w: World)
    ensures c.args.devDir.Some? && c.args.devDir.value != "" ==> LocalSource(c, w) == Ok(w.expand(c.args.devDir.value))
    ensures (c.args.devDir.None? || c.args.devDir.value == "") && c.fileConfig.Obj? ==>
              var v := GetOr(c.fileConfig.fields, "local_source", Null);
              LocalSource(c, w) == if v.Str? then Ok(w.expand(v.s)) else Err(TypeError)
    ensures (c.args.devDir.None? || c.args.devDir.value == "") && !c.fileConfig.Obj? ==>
              LocalSource(c, w) == Err(AttributeError)
  {
  }

  /** The project file name is the first truthy one of the option, `WDK_PROJECT_FILE`, the
      file's `project_file` and `~/.config/wdk/project.yml`. */
  lemma ProjectFilenameOrder(args: Args, env: map<string, string>, fileConfig: Json)
    requires fileConfig.Obj?
    ensures var fromEnv := FromOption(if "WDK_PROJECT_FILE" in env then Some(env["WDK_PROJECT_FILE"]) else None);
            ProjectFilename(args, env, fileConfig) ==
              Ok(FirstTruthy([FromOption(args.projectFile), fromEnv, GetOr(fileConfig.fields, "project_file", Null)],
                             Str(DefaultProjectFilename)))
  {
    var fromEnv := FromOption(if "WDK_PROJECT_FILE" in env then Some(env["WDK_PROJECT_FILE"]) else None);
    var vs := [FromOption(args.projectFile), fromEnv, GetOr(fileConfig.fields, "project_file", Null)];
    var last := Str(DefaultProjectFilename);
    var fromFile := GetOr(fileConfig.fields, "project_file", Null);
    assert vs[1..] == [fromEnv, fromFile];
    assert vs[1..][1..] == [fromFile];
    assert vs[1..][1..][1..] == [];
    assert FirstTruthy([fromFile], last) == Or(fromFile, last) by {
      assert FirstTruthy([fromFile][1..], last) == last;
    }
    assert FirstTruthy([fromEnv, fromFile], last) ==
           if Truthy(fromEnv) then fromEnv else FirstTruthy([fromFile], last);
  }

  /** When the configuration file is not a mapping, the project file chain fails exactly
      when it gets as far as the file. */
  lemma ProjectFilenameFileNotMapping(args: Args, env: map<string, string>, fileConfig: Json)
    requires !fileConfig.Obj?
    ensures var fromEnv := FromOption(if "WDK_PROJECT_FILE" in env then Some(env["WDK_PROJECT_FILE"]) else None);
            ProjectFilename(args, env, fileConfig).Err? <==> !Truthy(FromOption(args.projectFile)) && !Truthy(fromEnv)
  {
  }

  /** With nothing set anywhere, the project file is the default one. */
  lemma DefaultProjectFile(args: Args, w: World)
    requires args.config.Some? && args.projectFile.None? && "WDK_PROJECT_FILE" !in w.env
    requires w.expand(args.config.value) !in w.files
    ensures Load(args, w).Ok?
    ensures Load(args, w).value.fileConfig == EmptyObj
    ensures Load(args, w).value.projectConfig == ReadYml(w, w.expand(DefaultProjectFilename))
  {
  }

  /** The remote source has no option: it is the file's `remote_source`, whatever options
      were given. */
  lemma RemoteSourceFromFile(c: Config, other: Args)
    ensures RemoteSource(c.(args := other)) == RemoteSource(c)
    ensures c.fileConfig.Obj? ==> RemoteSource(c) == Ok(GetOr(c.fileConfig.fields, "remote_source", Null))
    ensures !c.fileConfig.Obj? ==> RemoteSource(c) == Err(AttributeError)
  {
  }

  /** `get_project` gives the project's entry, or `{}` for an unknown project; a project
      document that is not a mapping raises AttributeError. */
  lemma GetProjectDefault(c: Config, project: string)
    ensures c.projectConfig.Obj? && project in c.projectConfig.fields ==>
              GetProject(c, project) == Ok(c.projectConfig.fields[project])
    ensures c.projectConfig.Obj? && project !in c.projectConfig.fields ==> GetProject(c, project) == Ok(EmptyObj)
    ensures !c.projectConfig.Obj? ==> GetProject(c, project) == Err(AttributeError)
  {
  }

  /** An empty project file loads as `None`, so every `get_project` raises AttributeError. */
  lemma EmptyProjectFile(args: Args, w: World, project: string)
    requires Load(args, w).Ok?
    requires var c := Load(args, w).value;
             var name := ProjectFilename(args, w.env, c.fileConfig).value;
             name.Str? && w.expand(name.s) in w.files && w.files[w.expand(name.s)] == Parsed(Null)
    ensures GetProject(Load(args, w).value, project) == Err(AttributeError)
  {
  }

  /** A project file that cannot be opened reads as `{}`, so every project is `{}`. */
  lemma UnreadableProjectFile(args: Args, w: World, project: string)
    requires Load(args, w).Ok?
    requires var c := Load(args, w).value;
             var name := ProjectFilename(args, w.env, c.fileConfig).value;
             name.Str? && (w.expand(name.s) !in w.files || w.files[w.expand(name.s)].Unreadable?)
    ensures GetProject(Load(args, w).value, project) == Ok(EmptyObj)
  {
  }
}
