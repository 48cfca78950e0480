/** `execute_workflow`: an ordered list of steps, each naming a plugin of the
    `PLUGIN_REGISTRY` and its configuration, run one after the other while a
    single context value is threaded through them.  A failing step leaves the
    context as it was; only a step that is not a mapping ends the run. */
module WorkflowEngine {
  import opened Wrappers
  import opened Values
  import opened ToolManager

  /** Why the `try` block of a step raised. */
  datatype StepFailure =
    | PluginFailed(err: PluginError)  // `get_plugin` or `execute` raised
    | NonStringName                   // a hashable non-string name is never a registry key
    | UnhashableName                  // a list or dict name makes `name in PLUGIN_REGISTRY` raise TypeError
    | ConfigNotMapping                // `**plugin_config` on a value that is not a dict
    | ContextTwice                    // the config itself holds the keyword `context`

  /** What happened at one step. */
  datatype StepOutcome =
    | Skipped               // no plugin name, or a falsy one
    | Failed(why: StepFailure)
    | Applied(ctx: Value)   // the context returned by `execute`
    | Aborted               // the step is not a dict: `step.get` raises outside the `try`

  /** The exception that escapes `execute_workflow`. */
  datatype WorkflowError = StepNotMapping(index: nat)

  /** The state of a run: the current context, one outcome per step attempted
      so far, and whether an exception has ended the run. */
  datatype Run = Run(ctx: Value, log: seq<StepOutcome>, aborted: bool)

  /** `initial_context if initial_context is not None else {}` (line 16). */
  function Start(initialContext: Value): (run: Run)
    ensures run.log == [] && !run.aborted
    ensures initialContext != Null ==> run.ctx == initialContext
    ensures initialContext == Null ==> run.ctx == EmptyDict
  {
    Run(if initialContext == Null then EmptyDict else initialContext, [], false)
  }

  /** `get_plugin(plugin_name)` for a name taken from a workflow file. */
  function LookUp(registry: map<string, PluginClass>, host: Host, name: Value): (r: Result<PluginClass, StepFailure>)
    ensures r.Ok? <==> name.Str? && GetPlugin(registry, host, name.s).Ok?
    ensures r.Ok? ==> r.value == registry[name.s]
    ensures !Hashable(name) ==> r == Err(UnhashableName)
  {
    match name
    case Str(s) =>
      (match GetPlugin(registry, host, s)
       case Ok(cls) => Ok(cls)
       case Err(e) => Err(PluginFailed(e)))
    case List(_) => Err(UnhashableName)
    case Dict(_) => Err(UnhashableName)
    case _ => Err(NonStringName)
  }

  /** The `try` block of a step (lines 29-40): look the plugin up (which
      instantiates it and checks its dependencies), spread the config as
      keyword arguments beside `context`, and call `execute`. */
  function TryStep(registry: map<string, PluginClass>, host: Host, name: Value, config: Value, ctx: Value): (r: Result<Value, StepFailure>)
    ensures r.Ok? <==>
      && LookUp(registry, host, name).Ok?
      && config.Dict? && "context" !in config.fields
      && Execute(LookUp(registry, host, name).value, ctx, config.fields).Ok?
    ensures r.Ok? ==> r.value == Execute(LookUp(registry, host, name).value, ctx, config.fields).value
    ensures LookUp(registry, host, name).Err? ==> r == Err(LookUp(registry, host, name).error)
  {
    var cls :- LookUp(registry, host, name);
    if !config.Dict? then Err(ConfigNotMapping)
    else if "context" in config.fields then Err(ContextTwice)
    else
      match Execute(cls, ctx, config.fields)
      case Ok(v) => Ok(v)
      case Err(e) => Err(PluginFailed(e))
  }

  /** One iteration of the loop (lines 21-40). */
  function RunStep(registry: map<string, PluginClass>, host: Host, step: Value, ctx: Value): (r: StepOutcome)
    ensures r.Aborted? <==> !step.Dict?
    ensures r.Skipped? <==> step.Dict? && !Truthy(Get(step.fields, "plugin", Null))
    ensures r.Applied? ==>
      && step.Dict?
      && var name := Get(step.fields, "plugin", Null);
         var config := Get(step.fields, "config", EmptyDict);
         && name.Str? && name.s in registry
         && CheckDependencies(host, registry[name.s].dependencies).Ok?
         && config.Dict? && "context" !in config.fields
         && registry[name.s].execute.Some?
         && registry[name.s].execute.value(ctx, config.fields) == Ok(r.ctx)
  {
    if !step.Dict? then Aborted
    else
      var name := Get(step.fields, "plugin", Null);
      var config := Get(step.fields, "config", EmptyDict);
      if !Truthy(name) then Skipped
      else
        match TryStep(registry, host, name, config, ctx)
        case Ok(c) => Applied(c)
        case Err(e) => Failed(e)
  }

  /** A step whose plugin resolves, whose dependencies are met, whose config is
      a mapping without `context`, and whose `execute` returns `v`, makes `v`
      the new context. */
  lemma SuccessfulStepApplies(registry: map<string, PluginClass>, host: Host, step: Value, ctx: Value, v: Value)
    requires step.Dict? && "plugin" in step.fields && step.fields["plugin"].Str?
    requires step.fields["plugin"].s != "" && step.fields["plugin"].s in registry
    requires CheckDependencies(host, registry[step.fields["plugin"].s].dependencies).Ok?
    requires Get(step.fields, "config", EmptyDict).Dict?
    requires "context" !in Get(step.fields, "config", EmptyDict).fields
    requires registry[step.fields["plugin"].s].execute.Some?
    requires registry[step.fields["plugin"].s].execute.value(ctx, Get(step.fields, "config", EmptyDict).fields) == Ok(v)
    ensures RunStep(registry, host, step, ctx) == Applied(v)
  {
  }

  /** A step without `"config"` behaves as one with `"config": {}` (line 22). */
  lemma MissingConfigIsEmpty(registry: map<string, PluginClass>, host: Host, fields: map<string, Value>, ctx: Value)
    requires "config" !in fields
    ensures RunStep(registry, host, Dict(fields), ctx) == RunStep(registry, host, Dict(fields["config" := EmptyDict]), ctx)
  {
    assert Get(fields["config" := EmptyDict], "plugin", Null) == Get(fields, "plugin", Null);
  }

  /** The run after one more step: a skip or failure keeps the context, a
      success replaces it, a non-mapping step ends the run; once ended,
      nothing further happens. */
  function Next(registry: map<string, PluginClass>, host: Host, run: Run, step: Value): Run {
    if run.aborted then run
    else
      match RunStep(registry, host, step, run.ctx)
      case Applied(c) => Run(c, run.log + [Applied(c)], false)
      case Aborted => run.(log := run.log + [Aborted], aborted := true)
      case o => run.(log := run.log + [o])
  }

  /** The left fold of `Next` over the steps, first step first. */
  function Fold(registry: map<string, PluginClass>, host: Host, run: Run, steps: seq<Value>): Run
    decreases |steps|
  {
    if steps == [] then run else Fold(registry, host, Next(registry, host, run, steps[0]), steps[1..])
  }

  lemma {:induction false} FoldSnoc(registry: map<string, PluginClass>, host: Host, run: Run, steps: seq<Value>, step: Value)
    ensures Fold(registry, host, run, steps + [step]) == Next(registry, host, Fold(registry, host, run, steps), step)
    decreases |steps|
  {
    if steps != [] {
      assert (steps + [step])[1..] == steps[1..] + [step];
      FoldSnoc(registry, host, Next(registry, host, run, steps[0]), steps[1..], step);
    }
  }

  /** Running two workflows back to back is running their concatenation. */
  lemma {:induction false} FoldAppend(registry: map<string, PluginClass>, host: Host, run: Run, a: seq<Value>, b: seq<Value>)
    ensures Fold(registry, host, run, a + b) == Fold(registry, host, Fold(registry, host, run, a), b)
    decreases |a|
  {
    if a != [] {
      assert (a + b)[1..] == a[1..] + b;
      FoldAppend(registry, host, Next(registry, host, run, a[0]), a[1..], b);
    } else {
      assert a + b == b;
    }
  }

  /** A skipped or failed step is invisible: for a host fixed during the run,
      the run goes on after it exactly as if it were not in the workflow,
      apart from its log entry. */
  lemma StepTransparent(registry: map<string, PluginClass>, host: Host, run: Run, step: Value, rest: seq<Value>)
    requires !run.aborted
    requires RunStep(registry, host, step, run.ctx).Skipped? || RunStep(registry, host, step, run.ctx).Failed?
    ensures Next(registry, host, run, step).ctx == run.ctx
    ensures Fold(registry, host, run, [step] + rest).ctx == Fold(registry, host, run.(log := run.log + [RunStep(registry, host, step, run.ctx)]), rest).ctx
  {
    assert ([step] + rest)[1..] == rest;
  }

  /** Once ended, a run stays as it is. */
  lemma {:induction false} AbortedStays(registry: map<string, PluginClass>, host: Host, run: Run, steps: seq<Value>)
    requires run.aborted
    ensures Fold(registry, host, run, steps) == run
    decreases |steps|
  {
    if steps != [] {
      AbortedStays(registry, host, run, steps[1..]);
    }
  }

  /** A run ends early exactly when some step is not a mapping; then the log
      stops at the first such step, and otherwise it has one entry per step. */
  lemma {:induction false} AbortIffNonMapping(registry: map<string, PluginClass>, host: Host, run: Run, steps: seq<Value>)
    requires !run.aborted
    ensures Fold(registry, host, run, steps).aborted <==> exists i :: 0 <= i < |steps| && !steps[i].Dict?
    ensures !Fold(registry, host, run, steps).aborted ==> |Fold(registry, host, run, steps).log| == |run.log| + |steps|
    ensures Fold(registry, host, run, steps).aborted ==>
      var n := |Fold(registry, host, run, steps).log| - |run.log|;
      && 1 <= n <= |steps| && !steps[n - 1].Dict?
      && forall i :: 0 <= i < n - 1 ==> steps[i].Dict?
    decreases |steps|
  {
    if steps != [] {
      var next := Next(registry, host, run, steps[0]);
      if !steps[0].Dict? {
        AbortedStays(registry, host, next, steps[1..]);
      } else {
        AbortIffNonMapping(registry, host, next, steps[1..]);
        forall i | 0 <= i < |steps[1..]| ensures steps[1..][i] == steps[i + 1] { }
        if exists i :: 0 <= i < |steps| && !steps[i].Dict? {
          var i :| 0 <= i < |steps| && !steps[i].Dict?;
          assert !steps[1..][i - 1].Dict?;
        }
      }
    }
  }

  /** Each log entry is the outcome of its step applied to the context left
      by the steps before it: steps are attempted once each, in order. */
  lemma {:induction false} LogIsStepwise(registry: map<string, PluginClass>, host: Host, run: Run, steps: seq<Value>, k: nat)
    requires !run.aborted
    requires k < |Fold(registry, host, run, steps).log| - |run.log|
    ensures k < |steps|
    ensures !Fold(registry, host, run, steps[..k]).aborted
    ensures Fold(registry, host, run, steps).log[|run.log| + k] ==
            RunStep(registry, host, steps[k], Fold(registry, host, run, steps[..k]).ctx)
    decreases |steps|
  {
    AbortIffNonMapping(registry, host, run, steps);
    var next := Next(registry, host, run, steps[0]);
    if !steps[0].Dict? {
      AbortedStays(registry, host, next, steps[1..]);
      assert k == 0;
      assert steps[..0] == [];
    } else if k == 0 {
      assert steps[..0] == [];
      LogPrefixKept(registry, host, next, steps[1..]);
    } else {
      LogIsStepwise(registry, host, next, steps[1..], k - 1);
      assert steps[..k] == [steps[0]] + steps[1..][..k - 1];
      assert ([steps[0]] + steps[1..][..k - 1])[1..] == steps[1..][..k - 1];
    }
  }

  /** A fold only appends to the log. */
  lemma {:induction false} LogPrefixKept(registry: map<string, PluginClass>, host: Host, run: Run, steps: seq<Value>)
    ensures run.log <= Fold(registry, host, run, steps).log
    decreases |steps|
  {
    if steps != [] {
      LogPrefixKept(registry, host, Next(registry, host, run, steps[0]), steps[1..]);
    }
  }

  /** The context of the last successful step in a log, or `init` if none. */
  function LastApplied(log: seq<StepOutcome>, init: Value): Value
    decreases |log|
  {
    if log == [] then init
    else if log[|log| - 1].Applied? then log[|log| - 1].ctx
    else LastApplied(log[..|log| - 1], init)
  }

  /** The final context is exactly the value the last successful `execute`
      returned, or the initial context when no step succeeded. */
  lemma {:induction false} ContextIsLastApplied(registry: map<string, PluginClass>, host: Host, run: Run, steps: seq<Value>, init: Value)
    requires run.ctx == LastApplied(run.log, init)
    ensures Fold(registry, host, run, steps).ctx == LastApplied(Fold(registry, host, run, steps).log, init)
    decreases |steps|
  {
    if steps != [] {
      var next := Next(registry, host, run, steps[0]);
      if !run.aborted {
        var l := next.log;
        assert l[..|l| - 1] == run.log;
      }
      ContextIsLastApplied(registry, host, next, steps[1..], init);
    }
  }

  /** With nothing registered no step can succeed, so the context stays the
      initial one (the situation in which every step names an unknown plugin). */
  lemma {:induction false} EmptyRegistryKeepsContext(host: Host, run: Run, steps: seq<Value>)
    ensures Fold(map[], host, run, steps).ctx == run.ctx
    ensures forall k :: |run.log| <= k < |Fold(map[], host, run, steps).log| ==> !Fold(map[], host, run, steps).log[k].Applied?
    decreases |steps|
  {
    if steps != [] {
      var next := Next(map[], host, run, steps[0]);
      assert !RunStep(map[], host, steps[0], run.ctx).Applied?;
      EmptyRegistryKeepsContext(host, next, steps[1..]);
      LogPrefixKept(map[], host, next, steps[1..]);
      var fin := Fold(map[], host, run, steps);
      forall k | |run.log| <= k < |next.log|
        ensures !fin.log[k].Applied?
      {
        assert fin.log[k] == next.log[k];
      }
    }
  }

  /** `execute_workflow(workflow, initial_context)`.  The loop keeps the
      context, the log and the step index; the `continue`s of the source are
      the branches that only extend the log.  The result is the left fold of
      the steps: the final context, or the escaping exception. */
  method ExecuteWorkflow(registry: PluginRegistry, host: Host, workflow: seq<Value>, initialContext: Value)
    returns (r: Result<Value, WorkflowError>, log: seq<StepOutcome>)
    ensures var fin := Fold(registry.plugins, host, Start(initialContext), workflow);
      && log == fin.log
      && (r.Ok? <==> !fin.aborted)
      && (r.Ok? ==> r.value == fin.ctx)
      && (r.Err? ==> r.error.index + 1 == |fin.log| && r.error.index < |workflow| && !workflow[r.error.index].Dict?)
    ensures workflow == [] ==> r == Ok(Start(initialContext).ctx)
  {
    var plugins := registry.plugins;
    var context := Start(initialContext).ctx;
    log := [];
    var i := 0;
    while i < |workflow|
      invariant 0 <= i <= |workflow| && |log| == i
      invariant Fold(plugins, host, Start(initialContext), workflow[..i]) == Run(context, log, false)
    {
      var step := workflow[i];
      FoldSnoc(plugins, host, Start(initialContext), workflow[..i], step);
      assert workflow[..i + 1] == workflow[..i] + [step];
      if !step.Dict? {
        log := log + [Aborted];
        var rest := workflow[i + 1..];
        assert workflow[..i + 1] + rest == workflow;
        AbortedStays(plugins, host, Run(context, log, true), rest);
        FoldAppend(plugins, host, Start(initialContext), workflow[..i + 1], rest);
        return Err(StepNotMapping(i)), log;
      }
      var name := Get(step.fields, "plugin", Null);
      var config := Get(step.fields, "config", EmptyDict);
      if !Truthy(name) {
        log := log + [Skipped];
        i := i + 1;
        continue;
      }
      var attempt := TryStep(plugins, host, name, config, context);
      if attempt.Err? {
        log := log + [Failed(attempt.error)];
        i := i + 1;
        continue;
      }
      context := attempt.value;
      log := log + [Applied(context)];
      i := i + 1;
    }
    assert workflow[..i] == workflow;
    r := Ok(context);
  }
}
