/** The workflow plugin registry (`PLUGIN_REGISTRY`), the `Plugin` base class
    with its dependency check and package-manager installation, and
    `get_plugin`.  The host (its OS name, the `which` look-up, the user's
    answer to the install prompt and the installer process) is a parameter. */
module ToolManager {
  import opened Wrappers
  import opened Values
  import PyStrings
  import Registrations

  /** A plugin's `execute(context=..., **config)`: a new context, or an
      exception's message. */
  type Executor = (Value, map<string, Value>) -> Result<Value, string>

  /** A registered plugin class: its name, its `dependencies` class attribute,
      and its own `execute`, or `None` when it keeps the base class's. */
  datatype PluginClass = PluginClass(name: string, dependencies: seq<string>, execute: Option<Executor>)

  /** How `subprocess.run(cmd, check=True)` ends. */
  datatype InstallRun = Installed | ExitedNonZero(detail: string) | ExecutableMissing

  /** The host the plugin is instantiated on: `platform.system()`,
      `shutil.which`, the user's answer to the install prompt for a given
      list of missing dependencies, and the installer process. */
  datatype Host = Host(
    system: string,
    which: string -> bool,
    consent: seq<string> -> bool,
    run: seq<string> -> InstallRun)

  /** The `ClickException`s raised while checking or installing dependencies. */
  datatype DependencyError =
    | Refused(missing: seq<string>)
    | NoLinuxManager
    | NoHomebrew
    | UnsupportedOs(system: string)
    | InstallFailed(detail: string)
    | InstallerMissing

  /** What `get_plugin` and `execute` raise. */
  datatype PluginError =
    | NotFound(name: string)
    | Dependency(cause: DependencyError)
    | NotImplemented
    | ExecuteFailed(message: string)

  /** `a` is `b` with some elements left out, order kept. */
  predicate IsSubsequence(a: seq<string>, b: seq<string>)
    decreases |b|
  {
    if a == [] then true
    else if b == [] then false
    else if a[0] == b[0] then IsSubsequence(a[1..], b[1..])
    else IsSubsequence(a, b[1..])
  }

  /** The missing dependencies (`tool_manager.py` line 27): the declared ones
      that `which` cannot find, each as often as declared, in declaration
      order, and no other. */
  function MissingDependencies(deps: seq<string>, which: string -> bool): (r: seq<string>)
    ensures forall x :: x in r <==> x in deps && !which(x)
    ensures r == [] <==> forall x :: x in deps ==> which(x)
    ensures IsSubsequence(r, deps)
    ensures forall x :: !which(x) ==> multiset(r)[x] == multiset(deps)[x]
    decreases |deps|
  {
    if deps == [] then []
    else
      var rest := MissingDependencies(deps[1..], which);
      assert deps == [deps[0]] + deps[1..];
      assert multiset(deps) == multiset{deps[0]} + multiset(deps[1..]);
      if which(deps[0]) then
        SubsequenceSkip(rest, deps[0], deps[1..]);
        rest
      else [deps[0]] + rest
  }

  lemma {:induction false} SubsequenceSkip(a: seq<string>, x: string, b: seq<string>)
    requires IsSubsequence(a, b)
    ensures IsSubsequence(a, [x] + b)
    decreases |b|
  {
    var xb := [x] + b;
    assert xb[1..] == b;
    if a != [] && a[0] == x {
      if b != [] && a[0] == b[0] {
        SubsequenceSkip(a[1..], b[0], b[1..]);
        assert [b[0]] + b[1..] == b;
      } else if b != [] {
        assert IsSubsequence(a, b[1..]);
        SubsequenceDropHead(a, b[1..]);
        SubsequenceSkip(a[1..], b[0], b[1..]);
        assert [b[0]] + b[1..] == b;
      }
    }
  }

  lemma {:induction false} SubsequenceDropHead(a: seq<string>, b: seq<string>)
    requires a != [] && IsSubsequence(a, b)
    ensures IsSubsequence(a[1..], b)
    decreases |b|
  {
    if a[0] == b[0] {
      SubsequenceSkip(a[1..], b[0], b[1..]);
      assert [b[0]] + b[1..] == b;
    } else {
      SubsequenceDropHead(a, b[1..]);
      SubsequenceSkip(a[1..], b[0], b[1..]);
      assert [b[0]] + b[1..] == b;
    }
  }

  const AptGet: seq<string> := ["sudo", "apt-get", "install", "-y"]
  const Yum: seq<string> := ["sudo", "yum", "install", "-y"]
  const Pacman: seq<string> := ["sudo", "pacman", "-S", "--noconfirm"]
  const Brew: seq<string> := ["brew", "install"]

  /** The installation step chosen by `_install_dependencies`: a command to
      run, or the error raised before any process is started. */
  datatype InstallPlan = Command(argv: seq<string>) | Unavailable(err: DependencyError)

  /** The package-manager choice (`tool_manager.py` lines 36-53).  A command is
      produced exactly when the OS is Linux with apt-get, yum or pacman on the
      path, or macOS with brew; it is one of four fixed prefixes followed by the
      dependency list unchanged; an OS other than Linux and Darwin always gets
      `UnsupportedOs`. */
  function InstallPlanFor(system: string, which: string -> bool, deps: seq<string>): (p: InstallPlan)
    ensures p.Command? <==>
      || (system == "Linux" && (which("apt-get") || which("yum") || which("pacman")))
      || (system == "Darwin" && which("brew"))
    ensures p.Command? ==>
      && |p.argv| >= |deps|
      && p.argv[|p.argv| - |deps|..] == deps
      && p.argv[..|p.argv| - |deps|] in [AptGet, Yum, Pacman, Brew]
    ensures p.Command? && system == "Linux" ==> p.argv[0] == "sudo"
    ensures system != "Linux" && system != "Darwin" ==> p == Unavailable(UnsupportedOs(system))
  {
    var plan :=
      if system == "Linux" then
        if which("apt-get") then Command(AptGet + deps)
        else if which("yum") then Command(Yum + deps)
        else if which("pacman") then Command(Pacman + deps)
        else Unavailable(NoLinuxManager)
      else if system == "Darwin" then
        if which("brew") then Command(Brew + deps) else Unavailable(NoHomebrew)
      else Unavailable(UnsupportedOs(system));
    assert plan.Command? ==> plan.argv[..|plan.argv| - |deps|] in [AptGet, Yum, Pacman, Brew];
    plan
  }

  /** apt-get is preferred on Linux whenever it is present, whatever else is installed. */
  lemma AptGetFirst(which: string -> bool, deps: seq<string>)
    requires which("apt-get")
    ensures InstallPlanFor("Linux", which, deps) == Command(AptGet + deps)
  {
  }

  /** `_install_dependencies(deps)`: the planned command is run, and each way
      it can fail becomes an error. */
  function InstallDependencies(host: Host, deps: seq<string>): (r: Result<(), DependencyError>)
    ensures r.Ok? <==> (var p := InstallPlanFor(host.system, host.which, deps); p.Command? && host.run(p.argv) == Installed)
    ensures (var p := InstallPlanFor(host.system, host.which, deps);
             p.Command? && host.run(p.argv).ExitedNonZero? ==> r == Err(InstallFailed(host.run(p.argv).detail)))
  {
    match InstallPlanFor(host.system, host.which, deps)
    case Unavailable(e) => Err(e)
    case Command(argv) =>
      match host.run(argv)
      case Installed => Ok(())
      case ExitedNonZero(detail) => Err(InstallFailed(detail))
      case ExecutableMissing => Err(InstallerMissing)
  }

  /** Without a usable package manager no process is started: the outcome is
      the same whatever the installer would have done. */
  lemma NoManagerRunsNothing(host: Host, other: seq<string> -> InstallRun, deps: seq<string>)
    requires InstallPlanFor(host.system, host.which, deps).Unavailable?
    ensures InstallDependencies(host.(run := other), deps) == InstallDependencies(host, deps)
    ensures InstallDependencies(host, deps) == Err(InstallPlanFor(host.system, host.which, deps).err)
  {
  }

  /** `Plugin._check_dependencies` (lines 25-32). */
  function CheckDependencies(host: Host, deps: seq<string>): (r: Result<(), DependencyError>)
    ensures MissingDependencies(deps, host.which) == [] ==> r == Ok(())
    ensures (var m := MissingDependencies(deps, host.which);
             m != [] ==> r == if host.consent(m) then InstallDependencies(host, m) else Err(Refused(m)))
  {
    var missing := MissingDependencies(deps, host.which);
    if missing == [] then Ok(())
    else if host.consent(missing) then InstallDependencies(host, missing)
    else Err(Refused(missing))
  }

  /** When every dependency is found, the user is not asked and nothing is
      installed: the outcome does not depend on the answer or the installer. */
  lemma AllPresentNoPrompt(host: Host, consent: seq<string> -> bool, run: seq<string> -> InstallRun, deps: seq<string>)
    requires forall d :: d in deps ==> host.which(d)
    ensures CheckDependencies(host.(consent := consent, run := run), deps) == Ok(())
  {
  }

  /** A refusal names every missing dependency, and only those. */
  lemma RefusalNamesAllMissing(host: Host, deps: seq<string>, d: string)
    requires CheckDependencies(host, deps).Err? && CheckDependencies(host, deps).error.Refused?
    ensures d in CheckDependencies(host, deps).error.missing <==> d in deps && !host.which(d)
    ensures !host.consent(MissingDependencies(deps, host.which))
  {
  }

  /** The message of each `ClickException`; the refusal lists the missing
      dependencies joined by `", "`. */
  function Message(e: DependencyError): (msg: string)
    ensures e.Refused? ==> forall k :: 0 <= k < |e.missing| ==> PyStrings.Contains(msg, e.missing[k])
  {
    match e
    case Refused(missing) =>
      var list := PyStrings.Join(missing, ", ");
      var msg := "Missing dependencies: " + list;
      assert forall k :: 0 <= k < |missing| ==> PyStrings.Contains(msg, missing[k]) by {
        forall k | 0 <= k < |missing|
          ensures PyStrings.Contains(msg, missing[k])
        {
          PyStrings.JoinContainsPiece(missing, ", ", k);
          assert msg[|"Missing dependencies: "|..] == list;
          PyStrings.ContainsInSuffix(msg, missing[k], |"Missing dependencies: "|);
        }
      }
      msg
    case NoLinuxManager =>
      "Could not find a supported package manager (apt, yum, pacman). Please install dependencies manually."
    case NoHomebrew => "Homebrew not found. Please install it or install dependencies manually."
    case UnsupportedOs(system) => "Unsupported OS: " + system + ". Please install dependencies manually."
    case InstallFailed(detail) => "Failed to install dependencies: " + detail
    case InstallerMissing => "Could not execute installation command. Is sudo installed and configured?"
  }

  /** `get_plugin(name)` (lines 74-78): a missing name is an error; otherwise
      the registered class is instantiated, which runs its dependency check. */
  function GetPlugin(registry: map<string, PluginClass>, host: Host, name: string): (r: Result<PluginClass, PluginError>)
    ensures name !in registry ==> r == Err(NotFound(name))
    ensures r.Ok? <==> name in registry && CheckDependencies(host, registry[name].dependencies).Ok?
    ensures r.Ok? ==> r.value == registry[name]
    ensures r.Err? && name in registry ==> r == Err(Dependency(CheckDependencies(host, registry[name].dependencies).error))
  {
    if name !in registry then Err(NotFound(name))
    else
      match CheckDependencies(host, registry[name].dependencies)
      case Ok(_) => Ok(registry[name])
      case Err(e) => Err(Dependency(e))
  }

  /** Calling `execute` on an instance: the base class's `execute` always
      raises `NotImplementedError` (lines 64-66). */
  function Execute(cls: PluginClass, context: Value, config: map<string, Value>): (r: Result<Value, PluginError>)
    ensures cls.execute.None? ==> r == Err(NotImplemented)
    ensures cls.execute.Some? ==> match cls.execute.value(context, config)
                                  case Ok(v) => r == Ok(v)
                                  case Err(m) => r == Err(ExecuteFailed(m))
  {
    match cls.execute
    case None => Err(NotImplemented)
    case Some(f) =>
      match f(context, config)
      case Ok(v) => Ok(v)
      case Err(m) => Err(ExecuteFailed(m))
  }

  /** The process-wide `PLUGIN_REGISTRY` and the `register_plugin` decorator
      (lines 9-16).  `history` records the registrations made so far. */
  class PluginRegistry {
    var plugins: map<string, PluginClass>
    ghost var history: seq<(string, PluginClass)>

    /** The table is what the registrations left behind. */
    ghost predicate Valid()
      reads this
    {
      plugins == Registrations.Table(history)
    }

    constructor ()
      ensures Valid() && history == [] && plugins == map[]
    {
      plugins := map[];
      history := [];
    }

    /** `register_plugin(name)(cls)`: stores `cls` under `name`, replacing any
        earlier class of that name, and hands `cls` back unchanged. */
    method RegisterPlugin(name: string, cls: PluginClass) returns (r: PluginClass)
      requires Valid()
      modifies this
      ensures Valid() && history == old(history) + [(name, cls)]
      ensures plugins == old(plugins)[name := cls]
      ensures r == cls
    {
      Registrations.TableSnoc(history, name, cls);
      plugins := plugins[name := cls];
      history := history + [(name, cls)];
      r := cls;
    }
  }
}
