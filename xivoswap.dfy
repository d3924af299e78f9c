/** The module swap tool: for each named module it plans commands that turn a packaged
    file into a symlink to its git checkout (or back), drops repeated commands, and runs
    them against the filesystem.

    The filesystem is a map from path to node, with absent paths not in the map; every
    `subprocess.call` and every printed line is appended to a log. */
module XivoSwap {
  import opened Wrappers

  /** A registered module: a leaf pair of paths, or a list of component module names
      with the daemon to restart afterwards ("" when the class has none, or `None`). */
  datatype Module =
    | PathModule(package: string, git: string)
    | CompoundModule(components: seq<string>, daemon: string)

  /** A class handed to `register_module`: a subclass of `Module`, or any other class. */
  datatype ModuleClass = ModuleClass(definition: Module) | OtherClass(className: string)

  datatype SwapError =
    | BadArguments               // BadArgumentsException: no module named
    | CannotRegister(className: string)  // TypeError from register_module
    | UnknownModule(name: string)    // KeyError from the registry lookup
    | NoSuchFile(path: string)       // OSError from os.lstat
    | RecursionLimit                 // compound modules nested deeper than the interpreter allows
    | NotInList(name: string)        // ValueError from list.remove in get_top_nodes

  datatype Node = Regular(content: int) | Link(target: string)

  type FileSystem = map<string, Node>

  datatype Event = Output(line: string) | Call(argv: seq<string>)

  /** The world the commands act on: the files and what has been printed or called so far. */
  datatype Machine = Machine(files: FileSystem, log: seq<Event>)

  /** The four kinds of command. */
  datatype Action =
    | Print(message: string)
    | AddLink(source: string, destination: string)
    | RemoveLink(path: string)
    | RestartDaemon(daemon: string)

  /** A command object. Each one is a new object and `Command` defines no equality, so two
      commands are the same only when they are the same object: `id` is that identity. */
  datatype Command = Command(id: nat, action: Action)

  const Suffix := "orig"

  /** Where `link_to` keeps the original of `path`. */
  function OrigPath(path: string): string {
    path + "-" + Suffix
  }

  // ---------------------------------------------------------------------------
  // Planning: the commands a module yields, computed before anything runs.

  /** `is_link`: `os.lstat` raises for a missing path. */
  function IsLink(files: FileSystem, path: string): Result<bool, SwapError> {
    if path in files then Ok(files[path].Link?) else Err(NoSuchFile(path))
  }

  /** `PathModule.commands`. */
  function PathActions(files: FileSystem, package: string, git: string, toGit: bool): Result<seq<Action>, SwapError> {
    var link :- IsLink(files, package);
    if toGit && !link then Ok([Print(package + " -> " + git), AddLink(package, git)])
    else if !toGit && link then Ok([Print(package + " is the packaged version"), RemoveLink(package)])
    else Ok([])
  }

  /** `create_module(name).commands(toGit)`. `depth` bounds how deeply compound modules
      may nest, standing for the interpreter's recursion limit. */
  function ModuleActions(registry: map<string, Module>, files: FileSystem, name: string, toGit: bool, depth: nat)
    : Result<seq<Action>, SwapError>
    decreases depth, 0, 0
  {
    if name !in registry then Err(UnknownModule(name))
    else match registry[name]
      case PathModule(package, git) => PathActions(files, package, git, toGit)
      case CompoundModule(components, daemon) =>
        if depth == 0 then Err(RecursionLimit)
        else
          var inner :- ComponentActions(registry, files, components, toGit, depth - 1);
          Ok(if inner != [] && daemon != "" then inner + [RestartDaemon(daemon)] else inner)
  }

  /** The commands of the components, concatenated in component order. */
  function ComponentActions(registry: map<string, Module>, files: FileSystem, components: seq<string>, toGit: bool, depth: nat)
    : Result<seq<Action>, SwapError>
    decreases depth, 1, |components|
  {
    if components == [] then Ok([])
    else
      var first :- ModuleActions(registry, files, components[0], toGit, depth);
      var rest :- ComponentActions(registry, files, components[1..], toGit, depth);
      Ok(first + rest)
  }

  /** The commands of all the named modules, concatenated in argument order. */
  function PlanActions(registry: map<string, Module>, files: FileSystem, names: seq<string>, toGit: bool, depth: nat)
    : Result<seq<Action>, SwapError>
    decreases |names|
  {
    if names == [] then Ok([])
    else
      var init :- PlanActions(registry, files, names[..|names| - 1], toGit, depth);
      var last :- ModuleActions(registry, files, names[|names| - 1], toGit, depth);
      Ok(init + last)
  }

  function ActionsOf(commands: seq<Command>): (r: seq<Action>)
    ensures |r| == |commands|
    ensures forall i :: 0 <= i < |commands| ==> r[i] == commands[i].action
  {
    seq(|commands|, i requires 0 <= i < |commands| => commands[i].action)
  }

  /** New command objects for `actions`, numbered from `start`. */
  function NewCommands(actions: seq<Action>, start: nat): (r: seq<Command>)
    ensures |r| == |actions|
    ensures forall i :: 0 <= i < |actions| ==> r[i] == Command(start + i, actions[i])
  {
    seq(|actions|, i requires 0 <= i < |actions| => Command(start + i, actions[i]))
  }

  /** Every command is a different object. */
  predicate Distinct<T(==)>(s: seq<T>) {
    forall i, j :: 0 <= i < j < |s| ==> s[i] != s[j]
  }

  // ---------------------------------------------------------------------------
  // De-duplication.

  /** The first occurrence of every element, in the order of the input. */
  function FirstOccurrences<T(==)>(s: seq<T>): seq<T>
    decreases |s|
  {
    if s == [] then []
    else
      var init := FirstOccurrences(s[..|s| - 1]);
      if s[|s| - 1] in s[..|s| - 1] then init else init + [s[|s| - 1]]
  }

  /** `a` is `b` with some elements left out, the rest in the same order. */
  predicate IsSubsequence<T(==)>(a: seq<T>, b: seq<T>)
    decreases |b|
  {
    if a == [] then true
    else if b == [] then false
    else if a[|a| - 1] == b[|b| - 1] then IsSubsequence(a[..|a| - 1], b[..|b| - 1])
    else IsSubsequence(a, b[..|b| - 1])
  }

  /** `CommandSimplifierDecorator.simplify`: keeps a command unless the same object was
      seen before. */
  method Simplify(commands: seq<Command>) returns (out: seq<Command>)
    ensures out == FirstOccurrences(commands)
    ensures Distinct(out)
    ensures forall c :: c in out <==> c in commands
    ensures IsSubsequence(out, commands)
  {
    var seen: set<Command> := {};
    out := [];
    for i := 0 to |commands|
      invariant out == FirstOccurrences(commands[..i])
      invariant seen == set c | c in commands[..i]
    {
      var command := commands[i];
      assert commands[..i + 1][..i] == commands[..i];
      if command !in seen {
        out := out + [command];
        seen := seen + {command};
      }
    }
    assert commands[..|commands|] == commands;
    FirstOccurrencesDistinct(commands);
    FirstOccurrencesElements(commands);
    FirstOccurrencesSubsequence(commands);
  }

  // ---------------------------------------------------------------------------
  // Executing: the effects of the commands on the machine.

  /** `mv a b`, whose failure is ignored: a missing `a` leaves everything in place. */
  function Mv(m: Machine, a: string, b: string): Machine {
    var files := if a in m.files && a != b then (m.files - {a})[b := m.files[a]] else m.files;
    Machine(files, m.log + [Call(["mv", a, b])])
  }

  /** `ln -s target path`, which fails (ignored) when `path` exists. */
  function Ln(m: Machine, target: string, path: string): Machine {
    var files := if path in m.files then m.files else m.files[path := Link(target)];
    Machine(files, m.log + [Call(["ln", "-s", target, path])])
  }

  /** `rm path`. */
  function Rm(m: Machine, path: string): Machine {
    Machine(m.files - {path}, m.log + [Call(["rm", path])])
  }

  /** `FileSwapper.link_to`. */
  function LinkedTo(m: Machine, source: string, destination: string): Result<Machine, SwapError> {
    var link :- IsLink(m.files, source);
    if link then Ok(m)
    else Ok(Ln(Mv(m, source, OrigPath(source)), destination, source))
  }

  /** `FileSwapper.restore`. */
  function Restored(m: Machine, path: string): Result<Machine, SwapError> {
    var link :- IsLink(m.files, path);
    if !link then Ok(m)
    else Ok(Mv(Rm(m, path), OrigPath(path), path))
  }

  /** `command.execute()`. */
  function Executed(m: Machine, action: Action): Result<Machine, SwapError> {
    match action
    case Print(message) => Ok(Machine(m.files, m.log + [Output(message)]))
    case AddLink(source, destination) => LinkedTo(m, source, destination)
    case RemoveLink(path) => Restored(m, path)
    case RestartDaemon(daemon) => Ok(Machine(m.files, m.log + [Call(["service", daemon, "restart"])]))
  }

  /** `CommandProcessor.process`: the machine after running the actions in order, and the
      error that stopped the run, if one did (the effects before it stay). */
  function Run(m: Machine, actions: seq<Action>): (Machine, Option<SwapError>)
    decreases |actions|
  {
    if actions == [] then (m, None)
    else match Executed(m, actions[0])
      case Err(e) => (m, Some(e))
      case Ok(m') => Run(m', actions[1..])
  }

  /** `XiVOSwapper.swap`: plan every module against the files as they are, then run the
      plan. A planning error stops everything before any command runs. */
  function SwapOutcome(registry: map<string, Module>, m: Machine, toGit: bool, names: seq<string>, depth: nat)
    : (Machine, Option<SwapError>)
  {
    match PlanActions(registry, m.files, names, toGit, depth)
    case Err(e) => (m, Some(e))
    case Ok(actions) => Run(m, actions)
  }

  /** `_check_options`. */
  function CheckOptions(names: seq<string>): (r: Option<SwapError>)
    ensures r == None <==> names != []
    ensures r != None ==> r.value == BadArguments
  {
    if names == [] then Some(BadArguments) else None
  }

  // ---------------------------------------------------------------------------
  // The objects.

  /** The filesystem and the log, changed in place by the file swapper and the commands. */
  class Host {
    var files: FileSystem
    var log: seq<Event>

    constructor (files: FileSystem)
      ensures this.files == files && log == []
    {
      this.files := files;
      log := [];
    }

    function State(): Machine
      reads this
    {
      Machine(files, log)
    }

    method LinkTo(source: string, destination: string) returns (err: Option<SwapError>)
      modifies this
      ensures match LinkedTo(old(State()), source, destination)
              case Ok(m) => err == None && State() == m
              case Err(e) => err == Some(e) && State() == old(State())
    {
      if source !in files {
        return Some(NoSuchFile(source));
      }
      if !files[source].Link? {
        var orig := OrigPath(source);
        log := log + [Call(["mv", source, orig])];
        if source != orig {
          files := (files - {source})[orig := files[source]];
        }
        log := log + [Call(["ln", "-s", destination, source])];
        if source !in files {
          files := files[source := Link(destination)];
        }
      }
      return None;
    }

    method Restore(path: string) returns (err: Option<SwapError>)
      modifies this
      ensures match Restored(old(State()), path)
              case Ok(m) => err == None && State() == m
              case Err(e) => err == Some(e) && State() == old(State())
    {
      if path !in files {
        return Some(NoSuchFile(path));
      }
      if files[path].Link? {
        var orig := OrigPath(path);
        log := log + [Call(["rm", path])];
        files := files - {path};
        log := log + [Call(["mv", orig, path])];
        if orig in files && orig != path {
          files := (files - {orig})[path := files[orig]];
        }
      }
      return None;
    }

    method Execute(action: Action) returns (err: Option<SwapError>)
      modifies this
      ensures match Executed(old(State()), action)
              case Ok(m) => err == None && State() == m
              case Err(e) => err == Some(e) && State() == old(State())
    {
      match action {
        case Print(message) =>
          log := log + [Output(message)];
          err := None;
        case AddLink(source, destination) =>
          err := LinkTo(source, destination);
        case RemoveLink(path) =>
          err := Restore(path);
        case RestartDaemon(daemon) =>
          log := log + [Call(["service", daemon, "restart"])];
          err := None;
      }
    }

    /** `CommandProcessor.process`: the first error propagates and stops the loop. */
    method Process(commands: seq<Command>) returns (err: Option<SwapError>)
      modifies this
      ensures (State(), err) == Run(old(State()), ActionsOf(commands))
    {
      var i := 0;
      while i < |commands|
        invariant 0 <= i <= |commands|
        invariant Run(State(), ActionsOf(commands[i..])) == Run(old(State()), ActionsOf(commands))
      {
        assert ActionsOf(commands[i..])[0] == commands[i].action;
        assert ActionsOf(commands[i..])[1..] == ActionsOf(commands[i + 1..]);
        err := Execute(commands[i].action);
        if err.Some? {
          return;
        }
        i := i + 1;
      }
      return None;
    }
  }

  /** `module_registry` with `register_module`; `names` keeps the registration order. */
  class Registry {
    var names: seq<string>
    var modules: map<string, Module>

    ghost predicate Valid()
      reads this
    {
      Distinct(names) && (forall n :: n in names <==> n in modules)
    }

    constructor ()
      ensures Valid() && names == [] && modules == map[]
    {
      names := [];
      modules := map[];
    }

    /** `register_module`: only subclasses of `Module` are accepted; a name registered
        again is rebound to the new class. */
    method Register(name: string, moduleClass: ModuleClass) returns (err: Option<SwapError>)
      requires Valid()
      modifies this
      ensures Valid()
      ensures moduleClass.OtherClass? ==>
                err == Some(CannotRegister(moduleClass.className)) && names == old(names) && modules == old(modules)
      ensures moduleClass.ModuleClass? ==>
                && err == None
                && modules == old(modules)[name := moduleClass.definition]
                && names == if name in old(names) then old(names) else old(names) + [name]
    {
      if moduleClass.OtherClass? {
        return Some(CannotRegister(moduleClass.className));
      }
      if name !in modules {
        names := names + [name];
      }
      modules := modules[name := moduleClass.definition];
      return None;
    }

    /** `get_top_nodes`: all registered names, with each component of each compound
        module removed from the list once. */
    method TopNodes() returns (r: Result<seq<string>, SwapError>)
      requires Valid()
      ensures r.Ok? <==> Distinct(AllComponents(names, modules)) && forall c :: c in AllComponents(names, modules) ==> c in names
      ensures r.Ok? ==> r.value == Without(names, set c | c in AllComponents(names, modules))
      ensures r.Err? ==> r.error.NotInList?
    {
      var all := names;
      ghost var removed: seq<string> := [];
      ghost var gone: set<string> := {};
      WithoutNothing(names);
      for i := 0 to |names|
        invariant removed == AllComponents(names[..i], modules)
        invariant Distinct(removed) && forall c :: c in removed ==> c in names
        invariant forall c :: c in gone <==> c in removed
        invariant all == Without(names, gone)
      {
        AllComponentsStep(names, modules, i);
        if modules[names[i]].CompoundModule? {
          var next;
          next, removed, gone := RemoveComponents(i, all, removed, gone);
          if next.Err? {
            return next;
          }
          all := next.value;
        }
      }
      assert names[..|names|] == names;
      assert gone == set c | c in AllComponents(names, modules);
      return Ok(all);
    }

    /** The inner loop of `get_top_nodes`: `list.remove` of each component of the compound
        module `names[i]`, in order; `removed` and `gone` are the components removed so far. */
    method RemoveComponents(i: nat, all: seq<string>, ghost removed: seq<string>, ghost gone: set<string>)
      returns (r: Result<seq<string>, SwapError>, ghost removed': seq<string>, ghost gone': set<string>)
      requires Valid() && i < |names| && modules[names[i]].CompoundModule?
      requires removed == AllComponents(names[..i], modules)
      requires Distinct(removed) && forall c :: c in removed ==> c in names
      requires forall c :: c in gone <==> c in removed
      requires all == Without(names, gone)
      ensures r.Ok? ==> removed' == removed + modules[names[i]].components
      ensures r.Ok? ==> Distinct(removed') && forall c :: c in removed' ==> c in names
      ensures r.Ok? ==> (forall c :: c in gone' <==> c in removed') && r.value == Without(names, gone')
      ensures r.Err? ==> r.error.NotInList?
      ensures r.Err? ==> !(Distinct(AllComponents(names, modules)) && forall c :: c in AllComponents(names, modules) ==> c in names)
    {
      var components := modules[names[i]].components;
      var rest := all;
      removed', gone' := removed, gone;
      for j := 0 to |components|
        invariant removed' == removed + components[..j]
        invariant Distinct(removed') && forall c :: c in removed' ==> c in names
        invariant forall c :: c in gone' <==> c in removed'
        invariant rest == Without(names, gone')
      {
        var component := components[j];
        WithoutMembers(names, gone', component);
        if component !in rest {
          NotDistinctOrUnregistered(names, modules, i, removed', component, components[..j]);
          return Err(NotInList(component)), removed', gone';
        }
        rest := RemoveFirst(rest, component);
        RemoveStep(names, removed', gone', component);
        ComponentsStep(removed, components, j);
        removed', gone' := removed' + [component], gone' + {component};
      }
      assert components[..|components|] == components;
      return Ok(rest), removed', gone';
    }
  }

  /** The components of every compound module, registry order, then component order. */
  function AllComponents(names: seq<string>, modules: map<string, Module>): seq<string>
    decreases |names|
  {
    if names == [] then []
    else
      var last := names[|names| - 1];
      AllComponents(names[..|names| - 1], modules) +
        (if last in modules && modules[last].CompoundModule? then modules[last].components else [])
  }

  /** `s` without the elements of `gone`, order kept. */
  function Without(s: seq<string>, gone: set<string>): seq<string>
    decreases |s|
  {
    if s == [] then []
    else (if s[0] in gone then [] else [s[0]]) + Without(s[1..], gone)
  }

  /** `list.remove(x)` when `x` is present: the first occurrence goes. */
  function RemoveFirst(s: seq<string>, x: string): seq<string>
    decreases |s|
  {
    if s == [] then []
    else if s[0] == x then s[1..]
    else [s[0]] + RemoveFirst(s[1..], x)
  }

  // ---------------------------------------------------------------------------
  // The swap method itself.

  /** `XiVOSwapper.swap` over the registry and the host. */
  method Swap(registry: Registry, host: Host, toGit: bool, names: seq<string>, depth: nat) returns (err: Option<SwapError>)
    modifies host
    ensures (host.State(), err) == SwapOutcome(registry.modules, old(host.State()), toGit, names, depth)
  {
    var commands: seq<Command> := [];
    for i := 0 to |names|
      invariant PlanActions(registry.modules, host.files, names[..i], toGit, depth).Ok?
      invariant ActionsOf(commands) == PlanActions(registry.modules, host.files, names[..i], toGit, depth).value
      invariant forall k :: 0 <= k < |commands| ==> commands[k].id == k
    {
      assert names[..i + 1][..i] == names[..i];
      var actions := ModuleActions(registry.modules, host.files, names[i], toGit, depth);
      if actions.Err? {
        PlanStopsAt(registry.modules, host.files, names, toGit, depth, i);
        return Some(actions.error);
      }
      var created := NewCommands(actions.value, |commands|);
      assert ActionsOf(commands + created) == ActionsOf(commands) + actions.value;
      commands := commands + created;
    }
    assert names[..|names|] == names;
    var simplified := Simplify(commands);
    FirstOccurrencesOfDistinct(commands);
    err := host.Process(simplified);
  }

  /** `XiVOSwapper.start`, from the parsed options on. */
  method Start(registry: Registry, host: Host, toGit: bool, names: seq<string>, depth: nat) returns (err: Option<SwapError>)
    modifies host
    ensures names == [] ==> err == Some(BadArguments) && host.State() == old(host.State())
    ensures names != [] ==> (host.State(), err) == SwapOutcome(registry.modules, old(host.State()), toGit, names, depth)
  {
    err := CheckOptions(names);
    if err.Some? {
      return;
    }
    err := Swap(registry, host, toGit, names, depth);
  }

  // ---------------------------------------------------------------------------
  // Lemmas about de-duplication.

  lemma {:induction false} FirstOccurrencesElements<T>(s: seq<T>)
    ensures forall x :: x in FirstOccurrences(s) <==> x in s
    decreases |s|
  {
    if s != [] {
      FirstOccurrencesElements(s[..|s| - 1]);
      assert s == s[..|s| - 1] + [s[|s| - 1]];
    }
  }

  /** `simplify` never yields the same command twice. */
  lemma {:induction false} FirstOccurrencesDistinct<T>(s: seq<T>)
    ensures Distinct(FirstOccurrences(s))
    decreases |s|
  {
    if s != [] {
      FirstOccurrencesDistinct(s[..|s| - 1]);
      FirstOccurrencesElements(s[..|s| - 1]);
    }
  }

  /** `simplify` keeps the input order. */
  lemma {:induction false} FirstOccurrencesSubsequence<T>(s: seq<T>)
    ensures IsSubsequence(FirstOccurrences(s), s)
    decreases |s|
  {
    if s != [] {
      var init := s[..|s| - 1];
      FirstOccurrencesSubsequence(init);
      if s[|s| - 1] in init {
        SubsequenceExtend(FirstOccurrences(init), init, s[|s| - 1]);
        assert init + [s[|s| - 1]] == s;
      } else {
        var f := FirstOccurrences(init) + [s[|s| - 1]];
        assert f[..|f| - 1] == FirstOccurrences(init);
      }
    }
  }

  lemma {:induction false} SubsequenceExtend<T>(a: seq<T>, b: seq<T>, x: T)
    requires IsSubsequence(a, b)
    ensures IsSubsequence(a, b + [x])
    decreases |a| + |b|, 1
  {
    assert (b + [x])[..|b|] == b;
    if a != [] && a[|a| - 1] == x {
      SubsequenceDropLast(a, b);
    }
  }

  lemma {:induction false} SubsequenceDropLast<T>(a: seq<T>, b: seq<T>)
    requires a != [] && IsSubsequence(a, b)
    ensures IsSubsequence(a[..|a| - 1], b)
    decreases |a| + |b|, 0
  {
    var init := b[..|b| - 1];
    assert b == init + [b[|b| - 1]];
    if a[|a| - 1] == b[|b| - 1] {
      SubsequenceExtend(a[..|a| - 1], init, b[|b| - 1]);
    } else {
      SubsequenceDropLast(a, init);
      SubsequenceExtend(a[..|a| - 1], init, b[|b| - 1]);
    }
  }

  /** When no element repeats, `simplify` changes nothing. */
  lemma {:induction false} FirstOccurrencesOfDistinct<T>(s: seq<T>)
    requires Distinct(s)
    ensures FirstOccurrences(s) == s
    decreases |s|
  {
    if s != [] {
      var init := s[..|s| - 1];
      assert Distinct(init);
      FirstOccurrencesOfDistinct(init);
      assert s[|s| - 1] !in init;
      assert init + [s[|s| - 1]] == s;
    }
  }

  /** Since every command of a plan is a new object, `simplify` passes the whole plan
      through: a command that repeats another one's effect runs again. */
  lemma NewCommandsPassSimplify(commands: seq<Command>)
    requires forall k :: 0 <= k < |commands| ==> commands[k].id == k
    ensures FirstOccurrences(commands) == commands
  {
    assert Distinct(commands);
    FirstOccurrencesOfDistinct(commands);
  }

  // ---------------------------------------------------------------------------
  // Lemmas about planning.

  lemma {:induction false} PlanStopsAt(registry: map<string, Module>, files: FileSystem, names: seq<string>, toGit: bool, depth: nat, i: nat)
    requires i < |names|
    requires PlanActions(registry, files, names[..i], toGit, depth).Ok?
    requires ModuleActions(registry, files, names[i], toGit, depth).Err?
    ensures PlanActions(registry, files, names, toGit, depth) ==
              Err(ModuleActions(registry, files, names[i], toGit, depth).error)
    decreases |names|
  {
    if i < |names| - 1 {
      var init := names[..|names| - 1];
      assert init[..i] == names[..i] && init[i] == names[i];
      PlanStopsAt(registry, files, init, toGit, depth, i);
    } else {
      assert names[..|names| - 1] == names[..i];
    }
  }

  /** A path module yields the link pair when swapping to git an unlinked package, the
      restore pair when swapping back a linked one, and nothing otherwise; its package
      must exist. */
  lemma PathModuleCommands(registry: map<string, Module>, files: FileSystem, name: string, toGit: bool, depth: nat)
    requires name in registry && registry[name].PathModule?
    ensures var p, g := registry[name].package, registry[name].git;
            ModuleActions(registry, files, name, toGit, depth) ==
              if p !in files then Err(NoSuchFile(p))
              else if toGit && !files[p].Link? then Ok([Print(p + " -> " + g), AddLink(p, g)])
              else if !toGit && files[p].Link? then Ok([Print(p + " is the packaged version"), RemoveLink(p)])
              else Ok([])
  {
  }

  /** What a plan may contain: swapping to git never restores and swapping back never
      links; every link goes from an unlinked package of a registered path module to that
      module's git path, and every restore is of a package that is a link. */
  predicate PlannedAction(registry: map<string, Module>, files: FileSystem, toGit: bool, a: Action) {
    match a
    case Print(_) => true
    case RestartDaemon(d) => d != ""
    case AddLink(s, d) =>
      toGit && s in files && !files[s].Link? &&
      exists n :: n in registry && registry[n] == PathModule(s, d)
    case RemoveLink(s) =>
      !toGit && s in files && files[s].Link? &&
      exists n :: n in registry && registry[n].PathModule? && registry[n].package == s
  }

  lemma {:induction false} ModuleActionsPlanned(registry: map<string, Module>, files: FileSystem, name: string, toGit: bool, depth: nat)
    requires ModuleActions(registry, files, name, toGit, depth).Ok?
    ensures forall a :: a in ModuleActions(registry, files, name, toGit, depth).value ==>
                          PlannedAction(registry, files, toGit, a)
    decreases depth, 0, 0
  {
    match registry[name]
    case PathModule(p, g) =>
    case CompoundModule(cs, d) =>
      ComponentActionsPlanned(registry, files, cs, toGit, depth - 1);
  }

  lemma {:induction false} ComponentActionsPlanned(registry: map<string, Module>, files: FileSystem, components: seq<string>, toGit: bool, depth: nat)
    requires ComponentActions(registry, files, components, toGit, depth).Ok?
    ensures forall a :: a in ComponentActions(registry, files, components, toGit, depth).value ==>
                          PlannedAction(registry, files, toGit, a)
    decreases depth, 1, |components|
  {
    if components != [] {
      ModuleActionsPlanned(registry, files, components[0], toGit, depth);
      ComponentActionsPlanned(registry, files, components[1..], toGit, depth);
    }
  }

  /** The same holds of the whole plan `swap` builds. */
  lemma {:induction false} PlanActionsPlanned(registry: map<string, Module>, files: FileSystem, names: seq<string>, toGit: bool, depth: nat)
    requires PlanActions(registry, files, names, toGit, depth).Ok?
    ensures forall a :: a in PlanActions(registry, files, names, toGit, depth).value ==>
                          PlannedAction(registry, files, toGit, a)
    decreases |names|
  {
    if names != [] {
      PlanActionsPlanned(registry, files, names[..|names| - 1], toGit, depth);
      ModuleActionsPlanned(registry, files, names[|names| - 1], toGit, depth);
    }
  }

  /** A compound module yields its components' commands, then one restart of its daemon
      when there are some and the daemon is set; it yields nothing exactly when none of its
      components yields anything. */
  lemma CompoundModuleCommands(registry: map<string, Module>, files: FileSystem, name: string, toGit: bool, depth: nat)
    requires name in registry && registry[name].CompoundModule? && depth > 0
    requires ModuleActions(registry, files, name, toGit, depth).Ok?
    ensures var cs, d := registry[name].components, registry[name].daemon;
            var r := ModuleActions(registry, files, name, toGit, depth).value;
            && ComponentActions(registry, files, cs, toGit, depth - 1).Ok?
            && r == ComponentActions(registry, files, cs, toGit, depth - 1).value +
                    (if r != [] && d != "" then [RestartDaemon(d)] else [])
            && (r == [] <==> forall i :: 0 <= i < |cs| ==> ModuleActions(registry, files, cs[i], toGit, depth - 1) == Ok([]))
            && (r != [] && d != "" ==> r[|r| - 1] == RestartDaemon(d))
            && (d == "" ==> r == ComponentActions(registry, files, cs, toGit, depth - 1).value)
  {
    var cs := registry[name].components;
    ComponentsEmptyIff(registry, files, cs, toGit, depth - 1);
  }

  /** The components' commands in component order: the commands of `cs1 + cs2` are those
      of `cs1` followed by those of `cs2`, and the first failure is the result. */
  lemma {:induction false} ComponentActionsAppend(registry: map<string, Module>, files: FileSystem,
                                                  cs1: seq<string>, cs2: seq<string>, toGit: bool, depth: nat)
    ensures ComponentActions(registry, files, cs1 + cs2, toGit, depth) ==
            match ComponentActions(registry, files, cs1, toGit, depth)
            case Err(e) => Err(e)
            case Ok(a) =>
              match ComponentActions(registry, files, cs2, toGit, depth)
              case Err(e) => Err(e)
              case Ok(b) => Ok(a + b)
    decreases |cs1|
  {
    if cs1 == [] {
      assert cs1 + cs2 == cs2;
      if ComponentActions(registry, files, cs2, toGit, depth).Ok? {
        var b := ComponentActions(registry, files, cs2, toGit, depth).value;
        assert [] + b == b;
      }
    } else {
      assert (cs1 + cs2)[0] == cs1[0] && (cs1 + cs2)[1..] == cs1[1..] + cs2;
      ComponentActionsAppend(registry, files, cs1[1..], cs2, toGit, depth);
      var first := ModuleActions(registry, files, cs1[0], toGit, depth);
      if first.Ok? && ComponentActions(registry, files, cs1[1..], toGit, depth).Ok? &&
         ComponentActions(registry, files, cs2, toGit, depth).Ok? {
        var a := ComponentActions(registry, files, cs1[1..], toGit, depth).value;
        var b := ComponentActions(registry, files, cs2, toGit, depth).value;
        assert first.value + (a + b) == (first.value + a) + b;
      }
    }
  }

  /** A single component yields exactly its own commands. */
  lemma ComponentActionsSingle(registry: map<string, Module>, files: FileSystem, c: string, toGit: bool, depth: nat)
    ensures ComponentActions(registry, files, [c], toGit, depth) ==
            match ModuleActions(registry, files, c, toGit, depth)
            case Err(e) => Err(e)
            case Ok(a) => Ok(a)
  {
    assert [c][1..] == [];
    if ModuleActions(registry, files, c, toGit, depth).Ok? {
      assert ModuleActions(registry, files, c, toGit, depth).value + [] == ModuleActions(registry, files, c, toGit, depth).value;
    }
  }

  lemma {:induction false} ComponentsEmptyIff(registry: map<string, Module>, files: FileSystem, components: seq<string>, toGit: bool, depth: nat)
    requires ComponentActions(registry, files, components, toGit, depth).Ok?
    ensures ComponentActions(registry, files, components, toGit, depth).value == [] <==>
              forall i :: 0 <= i < |components| ==> ModuleActions(registry, files, components[i], toGit, depth) == Ok([])
    decreases |components|
  {
    if components != [] {
      ComponentsEmptyIff(registry, files, components[1..], toGit, depth);
      assert forall i :: 1 <= i < |components| ==> components[i] == components[1..][i - 1];
    }
  }

  // ---------------------------------------------------------------------------
  // Lemmas about the file swapper.

  /** `link_to` on a path that is already a link calls nothing and changes nothing. */
  lemma LinkToLinked(m: Machine, source: string, destination: string)
    requires source in m.files && m.files[source].Link?
    ensures LinkedTo(m, source, destination) == Ok(m)
  {
  }

  /** `link_to` on a plain path moves it to `path-orig` and puts a link to the git copy in
      its place, with exactly the two calls `mv` and `ln -s`. */
  lemma LinkToPlain(m: Machine, source: string, destination: string)
    requires source in m.files && !m.files[source].Link?
    ensures LinkedTo(m, source, destination).Ok?
    ensures var m' := LinkedTo(m, source, destination).value;
            && m'.files == m.files[OrigPath(source) := m.files[source]][source := Link(destination)]
            && m'.log == m.log + [Call(["mv", source, OrigPath(source)]), Call(["ln", "-s", destination, source])]
  {
    var orig := OrigPath(source);
    assert source != orig by {
      assert |orig| > |source|;
    }
    var moved := Mv(m, source, orig);
    assert moved.files == (m.files - {source})[orig := m.files[source]];
    assert source !in moved.files;
    assert (m.files - {source})[orig := m.files[source]][source := Link(destination)]
        == m.files[orig := m.files[source]][source := Link(destination)];
  }

  /** `restore` on a path that is not a link calls nothing and changes nothing. */
  lemma RestoreUnlinked(m: Machine, path: string)
    requires path in m.files && !m.files[path].Link?
    ensures Restored(m, path) == Ok(m)
  {
  }

  /** `restore` on a link removes it and moves `path-orig` back, with the calls `rm` and `mv`;
      without a `path-orig` the path is left missing. */
  lemma RestoreLinked(m: Machine, path: string)
    requires path in m.files && m.files[path].Link?
    ensures Restored(m, path).Ok?
    ensures var m' := Restored(m, path).value;
            var orig := OrigPath(path);
            && m'.files == (if orig in m.files then (m.files - {orig})[path := m.files[orig]] else m.files - {path})
            && m'.log == m.log + [Call(["rm", path]), Call(["mv", orig, path])]
  {
    var orig := OrigPath(path);
    assert path != orig by {
      assert |orig| > |path|;
    }
    if orig in m.files {
      assert ((m.files - {path}) - {orig})[path := m.files[orig]] == (m.files - {orig})[path := m.files[orig]];
    }
  }

  /** `restore` after `link_to` gives the path back its original content; the files are as
      before except that an older `path-orig` is gone, so with none there they are as before. */
  lemma LinkThenRestore(m: Machine, path: string, destination: string)
    requires path in m.files && !m.files[path].Link?
    ensures LinkedTo(m, path, destination).Ok?
    ensures Restored(LinkedTo(m, path, destination).value, path).Ok?
    ensures var m' := Restored(LinkedTo(m, path, destination).value, path).value;
            && m'.files == m.files - {OrigPath(path)}
            && (OrigPath(path) !in m.files ==> m'.files == m.files)
  {
    LinkToPlain(m, path, destination);
    var linked := LinkedTo(m, path, destination).value;
    RestoreLinked(linked, path);
    var orig := OrigPath(path);
    assert path != orig by {
      assert |orig| > |path|;
    }
    assert (linked.files - {orig})[path := linked.files[orig]] == m.files - {orig};
  }

  // ---------------------------------------------------------------------------
  // End-to-end lemmas about `swap`.

  /** Swapping one path module to git on an unlinked package prints one line and turns
      the package into a link to the git copy, its original kept at `package-orig`. */
  lemma SwapPathModuleToGit(registry: map<string, Module>, m: Machine, name: string, depth: nat)
    requires name in registry && registry[name].PathModule?
    requires registry[name].package in m.files && !m.files[registry[name].package].Link?
    ensures var p, g := registry[name].package, registry[name].git;
            var (m', err) := SwapOutcome(registry, m, true, [name], depth);
            && err == None
            && m'.files == m.files[OrigPath(p) := m.files[p]][p := Link(g)]
            && m'.log == m.log + [Output(p + " -> " + g), Call(["mv", p, OrigPath(p)]), Call(["ln", "-s", g, p])]
  {
    var p, g := registry[name].package, registry[name].git;
    var actions := [Print(p + " -> " + g), AddLink(p, g)];
    PlanOne(registry, m.files, name, true, depth);
    assert PlanActions(registry, m.files, [name], true, depth) == Ok(actions);
    var printed := Machine(m.files, m.log + [Output(p + " -> " + g)]);
    LinkToPlain(printed, p, g);
    var linked := LinkedTo(printed, p, g).value;
    RunTwo(m, actions[0], actions[1]);
    assert actions == [actions[0], actions[1]];
  }

  lemma PlanOne(registry: map<string, Module>, files: FileSystem, name: string, toGit: bool, depth: nat)
    ensures PlanActions(registry, files, [name], toGit, depth) == ModuleActions(registry, files, name, toGit, depth)
  {
    assert [name][..0] == [];
    var r := ModuleActions(registry, files, name, toGit, depth);
    if r.Ok? {
      assert [] + r.value == r.value;
    }
  }

  /** Running two actions is running the first, then the second on what it left. */
  lemma RunTwo(m: Machine, a: Action, b: Action)
    ensures Run(m, [a, b]) ==
              if Executed(m, a).Err? then (m, Some(Executed(m, a).error))
              else
                var m1 := Executed(m, a).value;
                if Executed(m1, b).Err? then (m1, Some(Executed(m1, b).error))
                else (Executed(m1, b).value, None)
  {
    if Executed(m, a).Ok? {
      var m1 := Executed(m, a).value;
      assert [a, b][1..] == [b];
      assert Run(m, [a, b]) == Run(m1, [b]);
      if Executed(m1, b).Ok? {
        assert [b][1..] == [];
        assert Run(m1, [b]) == Run(Executed(m1, b).value, []);
      }
    }
  }

  /** Swapping a path module to git and back returns the files to what they were, as
      long as no `package-orig` was lying around. */
  lemma SwapPathModuleRoundTrip(registry: map<string, Module>, m: Machine, name: string, depth: nat)
    requires name in registry && registry[name].PathModule?
    requires registry[name].package in m.files && !m.files[registry[name].package].Link?
    requires OrigPath(registry[name].package) !in m.files
    ensures SwapOutcome(registry, m, true, [name], depth).1 == None
    ensures var there := SwapOutcome(registry, m, true, [name], depth).0;
            var back := SwapOutcome(registry, there, false, [name], depth);
            back.1 == None && back.0.files == m.files
  {
    var p, g := registry[name].package, registry[name].git;
    SwapPathModuleToGit(registry, m, name, depth);
    var there := SwapOutcome(registry, m, true, [name], depth).0;
    var actions := [Print(p + " is the packaged version"), RemoveLink(p)];
    PlanOne(registry, there.files, name, false, depth);
    assert PlanActions(registry, there.files, [name], false, depth) == Ok(actions);
    var printed := Machine(there.files, there.log + [Output(p + " is the packaged version")]);
    RestoreLinked(printed, p);
    RunTwo(there, actions[0], actions[1]);
    assert actions == [actions[0], actions[1]];
    var orig := OrigPath(p);
    assert p != orig by {
      assert |orig| > |p|;
    }
    assert (there.files - {orig})[p := there.files[orig]] == m.files;
  }

  /** Swapping to git twice: the second swap finds the package linked and does nothing. */
  lemma SwapPathModuleIdempotent(registry: map<string, Module>, m: Machine, name: string, depth: nat)
    requires name in registry && registry[name].PathModule?
    requires registry[name].package in m.files && !m.files[registry[name].package].Link?
    ensures var there := SwapOutcome(registry, m, true, [name], depth).0;
            SwapOutcome(registry, there, true, [name], depth) == (there, None)
  {
    SwapPathModuleToGit(registry, m, name, depth);
    var there := SwapOutcome(registry, m, true, [name], depth).0;
    PlanOne(registry, there.files, name, true, depth);
  }

  // ---------------------------------------------------------------------------
  // Lemmas about `get_top_nodes`.

  lemma {:induction false} WithoutMembers(s: seq<string>, gone: set<string>, x: string)
    ensures x in Without(s, gone) <==> x in s && x !in gone
    decreases |s|
  {
    if s != [] {
      WithoutMembers(s[1..], gone, x);
    }
  }

  lemma {:induction false} RemoveFromWithout(s: seq<string>, gone: set<string>, x: string)
    requires Distinct(s) && x in s && x !in gone
    ensures RemoveFirst(Without(s, gone), x) == Without(s, gone + {x})
    decreases |s|
  {
    if s[0] == x {
      assert x !in s[1..];
      WithoutUnaffected(s[1..], gone, x);
    } else {
      assert Distinct(s[1..]);
      RemoveFromWithout(s[1..], gone, x);
      var rest := Without(s[1..], gone);
      if s[0] in gone {
        assert Without(s, gone) == rest;
        assert Without(s, gone + {x}) == Without(s[1..], gone + {x});
      } else {
        assert Without(s, gone) == [s[0]] + rest;
        assert ([s[0]] + rest)[1..] == rest;
        assert RemoveFirst([s[0]] + rest, x) == [s[0]] + RemoveFirst(rest, x);
      }
    }
  }

  lemma {:induction false} WithoutNothing(s: seq<string>)
    ensures Without(s, {}) == s
    decreases |s|
  {
    if s != [] {
      WithoutNothing(s[1..]);
      assert [s[0]] + s[1..] == s;
    }
  }

  lemma {:induction false} WithoutUnaffected(s: seq<string>, gone: set<string>, x: string)
    requires x !in s
    ensures Without(s, gone + {x}) == Without(s, gone)
    decreases |s|
  {
    if s != [] {
      WithoutUnaffected(s[1..], gone, x);
    }
  }

  lemma AllComponentsStep(names: seq<string>, modules: map<string, Module>, i: nat)
    requires i < |names|
    ensures AllComponents(names[..i + 1], modules) == AllComponents(names[..i], modules) +
              (if names[i] in modules && modules[names[i]].CompoundModule? then modules[names[i]].components else [])
  {
    assert names[..i + 1][..i] == names[..i];
  }

  lemma ComponentsStep(before: seq<string>, components: seq<string>, j: nat)
    requires j < |components|
    ensures before + components[..j] + [components[j]] == before + components[..j + 1]
  {
    assert components[..j + 1] == components[..j] + [components[j]];
  }

  /** One `remove` of `get_top_nodes`, when the component is still in the list. */
  lemma RemoveStep(names: seq<string>, removed: seq<string>, gone: set<string>, x: string)
    requires Distinct(names) && Distinct(removed) && forall c :: c in removed ==> c in names
    requires forall c :: c in gone <==> c in removed
    requires x in names && x !in gone
    ensures RemoveFirst(Without(names, gone), x) == Without(names, gone + {x})
    ensures Distinct(removed + [x]) && forall c :: c in removed + [x] ==> c in names
    ensures forall c :: c in gone + {x} <==> c in removed + [x]
  {
    RemoveFromWithout(names, gone, x);
  }

  /** Why `list.remove` fails: the component was already removed, or never registered. */
  lemma NotDistinctOrUnregistered(names: seq<string>, modules: map<string, Module>, i: nat, removed: seq<string>,
                                  component: string, done: seq<string>)
    requires i < |names| && names[i] in modules && modules[names[i]].CompoundModule?
    requires removed == AllComponents(names[..i], modules) + done
    requires |done| < |modules[names[i]].components| && done == modules[names[i]].components[..|done|]
    requires component == modules[names[i]].components[|done|]
    requires component in removed || component !in names
    ensures !(Distinct(AllComponents(names, modules)) && forall c :: c in AllComponents(names, modules) ==> c in names)
  {
    NextComponentAt(names, modules, i, removed, component, done);
    var all := AllComponents(names, modules);
    if component in removed {
      var k :| 0 <= k < |removed| && removed[k] == component;
      assert all[k] == component;
    }
  }

  /** The components removed so far are the start of `AllComponents`, and the next one
      follows them. */
  lemma NextComponentAt(names: seq<string>, modules: map<string, Module>, i: nat, removed: seq<string>,
                        component: string, done: seq<string>)
    requires i < |names| && names[i] in modules && modules[names[i]].CompoundModule?
    requires removed == AllComponents(names[..i], modules) + done
    requires |done| < |modules[names[i]].components| && done == modules[names[i]].components[..|done|]
    requires component == modules[names[i]].components[|done|]
    ensures |removed| < |AllComponents(names, modules)|
    ensures AllComponents(names, modules)[..|removed|] == removed
    ensures AllComponents(names, modules)[|removed|] == component
  {
    var head := AllComponents(names[..i + 1], modules);
    NextComponentInHead(names, modules, i, removed, component, done);
    AllComponentsPrefix(names, modules, i + 1);
    var all := AllComponents(names, modules);
    assert all[..|head|] == head;
    assert all[..|removed| + 1] == head[..|removed| + 1];
  }

  /** `NextComponentAt`, within the components of the first `i + 1` names. */
  lemma NextComponentInHead(names: seq<string>, modules: map<string, Module>, i: nat, removed: seq<string>,
                            component: string, done: seq<string>)
    requires i < |names| && names[i] in modules && modules[names[i]].CompoundModule?
    requires removed == AllComponents(names[..i], modules) + done
    requires |done| < |modules[names[i]].components| && done == modules[names[i]].components[..|done|]
    requires component == modules[names[i]].components[|done|]
    ensures |removed| < |AllComponents(names[..i + 1], modules)|
    ensures AllComponents(names[..i + 1], modules)[..|removed| + 1] == removed + [component]
  {
    var cs := modules[names[i]].components;
    AllComponentsStep(names, modules, i);
    assert cs[..|done| + 1] == done + [component];
  }

  lemma {:induction false} AllComponentsPrefix(names: seq<string>, modules: map<string, Module>, i: nat)
    requires i <= |names|
    ensures IsPrefixOf(AllComponents(names[..i], modules), AllComponents(names, modules))
    decreases |names|
  {
    if i < |names| {
      var init := names[..|names| - 1];
      assert init[..i] == names[..i];
      AllComponentsPrefix(init, modules, i);
    } else {
      assert names[..i] == names;
    }
  }

  predicate IsPrefixOf(a: seq<string>, b: seq<string>) {
    |a| <= |b| && b[..|a|] == a
  }
}
