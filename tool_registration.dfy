/** The tool registry of src/utils/tool_registration.py: `TOOL_REGISTRY`,
    the `register_tool(name)` decorator, and the `BaseTool` base class.  It
    is a table of its own, apart from `PLUGIN_REGISTRY` of src/tool_manager.py
    and from `TOOL_REGISTRY` of src/tools/__init__.py. */
module ToolRegistration {
  import opened Registrations

  /** `BaseTool.__init__(name, description)` (lines 6-8).  The abstract `run`
      has no behaviour of its own. */
  class BaseTool {
    var name: string
    var description: string

    constructor (name: string, description: string)
      ensures this.name == name && this.description == description
    {
      this.name := name;
      this.description := description;
    }
  }

  class ToolTable {
    var tools: map<string, ClassRef>
    ghost var history: seq<(string, ClassRef)>

    ghost predicate Valid()
      reads this
    {
      tools == Table(history)
    }

    constructor ()
      ensures Valid() && history == [] && tools == map[]
    {
      tools := map[];
      history := [];
    }

    /** `register_tool(name)(cls)` (lines 14-18): `TOOL_REGISTRY[name] = cls`,
        and `cls` handed back unchanged. */
    method RegisterTool(name: string, cls: ClassRef) returns (r: ClassRef)
      requires Valid()
      modifies this
      ensures Valid() && history == old(history) + [(name, cls)]
      ensures tools == old(tools)[name := cls]
      ensures r == cls
    {
      TableSnoc(history, name, cls);
      tools := tools[name := cls];
      history := history + [(name, cls)];
      r := cls;
    }
  }

  /** The table once src/plugins/gemini_ai.py and src/tools/subdomain_scanner.py
      have been imported, each decorating one class with `register_tool`. */
  method ImportedTools() returns (table: ToolTable)
    ensures fresh(table) && table.Valid()
    ensures table.tools == map["gemini_ai" := ClassRef("GeminiAI"), "subdomain_scanner" := ClassRef("SubdomainScanner")]
  {
    table := new ToolTable();
    var _ := table.RegisterTool("gemini_ai", ClassRef("GeminiAI"));
    var _ := table.RegisterTool("subdomain_scanner", ClassRef("SubdomainScanner"));
  }
}
