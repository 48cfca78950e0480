/** The unified output formatter of src/utils/formatters.py: literal,
    always-empty results for two tools. */
module Formatters {
  import opened Values

  /** `_parse_nmap(data)` (lines 9-15). */
  function ParseNmap(data: string): (r: Value)
    ensures r.Dict? && r.fields.Keys == {"ports", "services", "vulnerabilities"}
    ensures forall k :: k in r.fields ==> r.fields[k] == List([])
  {
    Dict(map["ports" := List([]), "services" := List([]), "vulnerabilities" := List([])])
  }

  /** `_parse_dirsearch(data)` (lines 17-21). */
  function ParseDirsearch(data: string): Value {
    Dict(map["directories" := List([])])
  }

  /** `format_output(tool_name, output)` (lines 2-8); `None` for other tools. */
  function FormatOutput(toolName: string, output: string): (r: Value)
    ensures toolName == "nmap" ==> r == Dict(map["ports" := List([]), "services" := List([]), "vulnerabilities" := List([])])
    ensures toolName == "dirsearch" ==> r == Dict(map["directories" := List([])])
    ensures r == Null <==> toolName != "nmap" && toolName != "dirsearch"
  {
    if toolName == "nmap" then ParseNmap(output)
    else if toolName == "dirsearch" then ParseDirsearch(output)
    else Null
  }

  /** The tool's output is never looked at. */
  lemma OutputIgnored(toolName: string, output1: string, output2: string)
    ensures FormatOutput(toolName, output1) == FormatOutput(toolName, output2)
  {
  }
}
