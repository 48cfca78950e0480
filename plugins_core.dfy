/** The descriptor registry of src/plugins/core.py: `register_plugin(name,
    version, dependencies)` records the decorated class together with its
    version and its dependency list. */
module PluginsCore {
  import opened Wrappers
  import opened Registrations

  /** The record `{"class": cls, "version": version, "dependencies": deps}`. */
  datatype Descriptor = Descriptor(cls: ClassRef, version: string, dependencies: seq<string>)

  /** The record stored for a registration: `dependencies or []` turns a
      missing or empty list into `[]` and keeps any other list. */
  function DescriptorOf(cls: ClassRef, version: string, dependencies: Option<seq<string>>): (d: Descriptor)
    ensures d.cls == cls && d.version == version
    ensures dependencies.Some? ==> d.dependencies == dependencies.value
    ensures dependencies.None? ==> d.dependencies == []
  {
    Descriptor(cls, version, if dependencies.Some? && dependencies.value != [] then dependencies.value else [])
  }

  /** The module-level `PLUGIN_REGISTRY` of src/plugins/core.py; `history`
      records the registrations made so far. */
  class DescriptorRegistry {
    var plugins: map<string, Descriptor>
    ghost var history: seq<(string, Descriptor)>

    ghost predicate Valid()
      reads this
    {
      plugins == Table(history)
    }

    constructor ()
      ensures Valid() && history == [] && plugins == map[]
    {
      plugins := map[];
      history := [];
    }

    /** `register_plugin(name, version, dependencies)(cls)` (lines 4-13): one
        assignment under `name`, and `cls` handed back unchanged.  The
        announcement it prints is left out. */
    method RegisterPlugin(name: string, version: string, dependencies: Option<seq<string>>, cls: ClassRef)
      returns (r: ClassRef)
      requires Valid()
      modifies this
      ensures Valid() && history == old(history) + [(name, DescriptorOf(cls, version, dependencies))]
      ensures plugins == old(plugins)[name := DescriptorOf(cls, version, dependencies)]
      ensures r == cls
    {
      var d := DescriptorOf(cls, version, dependencies);
      TableSnoc(history, name, d);
      plugins := plugins[name := d];
      history := history + [(name, d)];
      r := cls;
    }
  }

  /** The stored record under a name is the one of its last registration. */
  lemma DescriptorOfLastRegistration(regs: seq<(string, (ClassRef, string, Option<seq<string>>))>, name: string)
    returns (k: nat)
    requires name in Table(Descriptors(regs))
    ensures k < |regs| && regs[k].0 == name
    ensures Table(Descriptors(regs))[name] == DescriptorOf(regs[k].1.0, regs[k].1.1, regs[k].1.2)
    ensures forall j :: k < j < |regs| ==> regs[j].0 != name
  {
    k := LastRegistrationWins(Descriptors(regs), name);
  }

  /** The registrations as the registry records them, from the decorator's
      arguments. */
  function Descriptors(regs: seq<(string, (ClassRef, string, Option<seq<string>>))>): (r: seq<(string, Descriptor)>)
    ensures |r| == |regs|
    ensures forall k :: 0 <= k < |regs| ==> r[k] == (regs[k].0, DescriptorOf(regs[k].1.0, regs[k].1.1, regs[k].1.2))
  {
    seq(|regs|, k requires 0 <= k < |regs| => (regs[k].0, DescriptorOf(regs[k].1.0, regs[k].1.1, regs[k].1.2)))
  }
}
