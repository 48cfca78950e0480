/** The `PLUGINS` table of the `src.plugins` package (src/plugins/__init__.py)
    and its `register_plugin(name)` decorator. */
module PluginsPackage {
  import opened Registrations

  class PluginTable {
    var plugins: map<string, ClassRef>
    ghost var history: seq<(string, ClassRef)>

    ghost predicate Valid()
      reads this
    {
      plugins == Table(history)
    }

    constructor ()
      ensures Valid() && history == [] && plugins == map[]
    {
      plugins := map[];
      history := [];
    }

    /** `register_plugin(name)(cls)` (lines 4-8): `PLUGINS[name] = cls`, and
        `cls` handed back unchanged. */
    method RegisterPlugin(name: string, cls: ClassRef) returns (r: ClassRef)
      requires Valid()
      modifies this
      ensures Valid() && history == old(history) + [(name, cls)]
      ensures plugins == old(plugins)[name := cls]
      ensures r == cls
    {
      TableSnoc(history, name, cls);
      plugins := plugins[name := cls];
      history := history + [(name, cls)];
      r := cls;
    }
  }
}
