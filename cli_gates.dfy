/** The checks the command-line front end makes before it trusts a result
    (src/main.py): the exit-code gates of the Semgrep, OSV-Scanner and
    cppcheck scans, the `run-tool` look-up in the constant tool table of
    src/tools/__init__.py, and the file checks of `workflow run` before it
    hands the steps to `execute_workflow`. */
module CliGates {
  import opened Wrappers
  import opened Values
  import opened PyStrings
  import Security
  import opened ToolManager
  import WorkflowEngine

  // ---------------------------------------------------------------------------
  // Scanner results

  /** Where a scan's output leads. */
  datatype ScanOutcome =
    | ScanError(stderr: string)  // the exit-code gate: the error output is shown and the command ends
    | Unparsable                 // `json.JSONDecodeError`
    | Unexpected                 // another exception while reading the results
    | NoVulnerabilities          // "[+] No vulnerabilities found."
    | Findings(results: Value)   // the results are listed, or corrected

  /** `findings['results']` and its truthiness test. */
  function SemgrepResults(v: Value): (r: ScanOutcome)
    ensures r.Findings? || r.NoVulnerabilities? || r.Unexpected?
    ensures r.Unexpected? <==> !(v.Dict? && "results" in v.fields)
    ensures r.Findings? <==> v.Dict? && "results" in v.fields && Truthy(v.fields["results"])
    ensures r.Findings? ==> r.results == v.fields["results"]
  {
    if v.Dict? && "results" in v.fields then
      if Truthy(v.fields["results"]) then Findings(v.fields["results"]) else NoVulnerabilities
    else Unexpected
  }

  /** `scan code` and `scan web` after the sandboxed Semgrep run (lines 391-399
      and 601-609); `parse` is `json.loads`, `None` when it raises. */
  function SemgrepOutcome(returncode: int, stdout: string, stderr: string, parse: string -> Option<Value>): (r: ScanOutcome)
    ensures r.ScanError? <==> returncode != 0 && returncode != 1
    ensures r.ScanError? ==> r.stderr == stderr
    ensures r.Findings? ==> Truthy(r.results)
    ensures (returncode == 0 || returncode == 1) && parse(stdout).None? ==> r == Unparsable
    ensures (returncode == 0 || returncode == 1) && parse(stdout).Some? ==> r == SemgrepResults(parse(stdout).value)
  {
    if returncode !in [0, 1] then ScanError(stderr)
    else match parse(stdout)
      case None => Unparsable
      case Some(v) => SemgrepResults(v)
  }

  /** `scan dependencies` after the sandboxed OSV-Scanner run (lines 510-521):
      blank output counts as no vulnerabilities before any parsing, and
      `data.get('results')` needs a dict. */
  function OsvOutcome(returncode: int, stdout: string, stderr: string, parse: string -> Option<Value>): (r: ScanOutcome)
    ensures r.ScanError? <==> returncode != 0 && returncode != 1
    ensures r.ScanError? ==> r.stderr == stderr
    ensures r.Findings? ==> Truthy(r.results)
    ensures !r.ScanError? && Strip(stdout) == [] ==> r == NoVulnerabilities
    ensures !r.ScanError? && Strip(stdout) != [] && parse(stdout).None? ==> r == Unparsable
    ensures !r.ScanError? && Strip(stdout) != [] && parse(stdout).Some? ==>
      (r == Unexpected <==> !parse(stdout).value.Dict?)
    ensures !r.ScanError? && Strip(stdout) != [] && parse(stdout).Some? && parse(stdout).value.Dict? ==>
      && (r.Findings? || r == NoVulnerabilities)
      && (r.Findings? <==> Truthy(Get(parse(stdout).value.fields, "results", Null)))
      && (r.Findings? ==> r.results == Get(parse(stdout).value.fields, "results", Null))
  {
    if returncode != 0 && returncode != 1 then ScanError(stderr)
    else if Strip(stdout) == [] then NoVulnerabilities
    else match parse(stdout)
      case None => Unparsable
      case Some(v) =>
        if !v.Dict? then Unexpected
        else
          var results := Get(v.fields, "results", Null);
          if Truthy(results) then Findings(results) else NoVulnerabilities
  }

  /** The two gates, written differently, let the same exit codes through. */
  lemma GatesAgree(returncode: int, stdout: string, stderr: string, parse: string -> Option<Value>)
    ensures SemgrepOutcome(returncode, stdout, stderr, parse).ScanError? <==> OsvOutcome(returncode, stdout, stderr, parse).ScanError?
  {
  }

  /** Blank output on an accepted exit code: OSV-Scanner reports a clean
      result, Semgrep a parse error. */
  lemma BlankOutputDiffers(returncode: int, stdout: string, stderr: string, parse: string -> Option<Value>)
    requires returncode == 0 || returncode == 1
    requires Strip(stdout) == [] && parse(stdout).None?
    ensures OsvOutcome(returncode, stdout, stderr, parse) == NoVulnerabilities
    ensures SemgrepOutcome(returncode, stdout, stderr, parse) == Unparsable
  {
  }

  /** A scanner missing from the sandbox (exit status 127) stops at the gate,
      and the error shown names the program. */
  lemma MissingScannerStops(command: seq<string>, parse: string -> Option<Value>)
    requires command != []
    ensures var (out, err, code) := Security.NotFoundResult(command);
      && SemgrepOutcome(code, out, err, parse) == ScanError(err)
      && OsvOutcome(code, out, err, parse) == ScanError(err)
      && Contains(err, command[0])
  {
  }

  /** `scan c-cpp` (lines 563-568): the exit code is not looked at, and any
      error output is shown as findings. */
  function CppcheckReport(stderr: string): (r: seq<string>)
    ensures stderr != [] ==> r == ["[!] cppcheck found the following issues:", stderr]
    ensures stderr == [] ==> r == ["[+] No issues found by cppcheck."]
  {
    if stderr != "" then ["[!] cppcheck found the following issues:", stderr]
    else ["[+] No issues found by cppcheck."]
  }

  /** A cppcheck binary missing from the sandbox is reported as issues found,
      the issue being the not-found message.  Line 554 returns first when
      `shutil.which("cppcheck")` finds no binary on the PATH, so this path is
      reached only when the sandboxed run cannot start a binary that check
      did find. */
  lemma MissingCppcheckReportedAsIssues(command: seq<string>)
    requires command != [] && command[0] == "cppcheck"
    ensures var err := Security.NotFoundResult(command).1;
      CppcheckReport(err) == ["[!] cppcheck found the following issues:", err]
  {
    var err := Security.NotFoundResult(command).1;
    ContainsNonEmpty(err, command[0]);
  }

  lemma {:induction false} ContainsNonEmpty(s: string, t: string)
    requires Contains(s, t) && t != []
    ensures s != []
  {
  }

  // ---------------------------------------------------------------------------
  // run-tool

  /** The keys of `TOOL_REGISTRY` in src/tools/__init__.py. */
  const ToolNames: set<string> :=
    {"nmap", "nikto", "dirsearch", "sqlmap", "waybackurls", "nuclei", "forecast", "config", "map"}

  /** `run-tool` (lines 88-101): `run` stands for instantiating the tool class
      and calling its `run`, giving the result or the exception's text.  The
      command echoes one line. */
  function RunTool(toolName: string, target: string, run: (string, string) -> Result<string, string>): (r: string)
    ensures toolName !in ToolNames ==> r == "Tool not supported: " + toolName
  {
    if toolName !in ToolNames then "Tool not supported: " + toolName
    else match run(toolName, target)
      case Ok(result) => result
      case Err(message) => "Error: " + message
  }

  /** A name outside the table is refused before any tool runs: the line
      echoed does not depend on the tools at all. */
  lemma UnknownToolNeverRuns(toolName: string, target: string, run1: (string, string) -> Result<string, string>, run2: (string, string) -> Result<string, string>)
    requires toolName !in ToolNames
    ensures RunTool(toolName, target, run1) == RunTool(toolName, target, run2)
    ensures StartsWith(RunTool(toolName, target, run1), "Tool not supported: ")
  {
    var r := RunTool(toolName, target, run1);
    assert r[..20] == "Tool not supported: ";
  }

  /** A registered tool's result is echoed as it is, and its failure is
      echoed after `Error: `, never raised. */
  lemma ToolResultEchoed(toolName: string, target: string, run: (string, string) -> Result<string, string>)
    requires toolName in ToolNames
    ensures run(toolName, target).Ok? ==> RunTool(toolName, target, run) == run(toolName, target).value
    ensures run(toolName, target).Err? ==> RunTool(toolName, target, run) == "Error: " + run(toolName, target).error
  {
  }

  /** Every tool in the table reaches its own run: the line echoed for it
      depends on nothing but that tool's result for the target, and two
      different results of the same kind are echoed as different lines. */
  lemma ListedToolEchoesItsRun(toolName: string, target: string, run1: (string, string) -> Result<string, string>, run2: (string, string) -> Result<string, string>)
    requires toolName in ToolNames
    ensures run1(toolName, target) == run2(toolName, target) ==> RunTool(toolName, target, run1) == RunTool(toolName, target, run2)
    ensures run1(toolName, target).Ok? && run2(toolName, target).Ok? ==>
      (RunTool(toolName, target, run1) == RunTool(toolName, target, run2) <==> run1(toolName, target) == run2(toolName, target))
    ensures run1(toolName, target).Err? && run2(toolName, target).Err? ==>
      (RunTool(toolName, target, run1) == RunTool(toolName, target, run2) <==> run1(toolName, target) == run2(toolName, target))
  {
    if run1(toolName, target).Err? && run2(toolName, target).Err? {
      var l1, l2 := RunTool(toolName, target, run1), RunTool(toolName, target, run2);
      assert l1[7..] == run1(toolName, target).error;
      assert l2[7..] == run2(toolName, target).error;
    }
  }

  /** `subdomain_scanner` registers itself in the other registry of
      src/utils/tool_registration.py, so `run-tool` does not know it. */
  lemma SubdomainScannerNotListed(run: (string, string) -> Result<string, string>, target: string)
    ensures RunTool("subdomain_scanner", target, run) == "Tool not supported: subdomain_scanner"
  {
    assert "subdomain_scanner" !in ToolNames by {
      assert |"subdomain_scanner"| == 17;
      assert forall n :: n in ToolNames ==> |n| < 17;
    }
  }

  // ---------------------------------------------------------------------------
  // workflow run

  datatype FileKind = Json | Yaml

  /** The extension test of `workflow run` (lines 796-802); it is case-sensitive. */
  function KindOf(path: string): (r: Option<FileKind>)
    ensures r == Some(Json) <==> EndsWith(path, ".json")
    ensures r == Some(Yaml) <==> !EndsWith(path, ".json") && (EndsWith(path, ".yaml") || EndsWith(path, ".yml"))
  {
    if EndsWith(path, ".json") then Some(Json)
    else if EndsWith(path, ".yaml") || EndsWith(path, ".yml") then Some(Yaml)
    else None
  }

  /** A name ending in an upper-case letter, such as `flow.JSON` or
      `flow.YML`, is refused. */
  lemma UpperCaseExtensionRefused(path: string)
    requires path != [] && 'A' <= path[|path| - 1] <= 'Z'
    ensures KindOf(path) == None
  {
    SuffixEndsAlike(path, ".json");
    SuffixEndsAlike(path, ".yaml");
    SuffixEndsAlike(path, ".yml");
  }

  lemma SuffixEndsAlike(s: string, p: string)
    requires p != []
    ensures EndsWith(s, p) ==> s[|s| - 1] == p[|p| - 1]
  {
    if EndsWith(s, p) {
      assert s[|s| - 1] == s[|s| - |p|..][|p| - 1];
    }
  }

  /** How `workflow run` ends. */
  datatype WorkflowCommand =
    | WrongExtension                                  // "must be a .json, .yaml, or .yml file"
    | ParseFailed                                     // JSON or YAML syntax error
    | NotAList                                        // "must be a list of steps"
    | Completed(context: Value)                       // the final context is printed
    | Escaped(error: WorkflowEngine.WorkflowError)    // "An unexpected error occurred during workflow execution"

  /** The file's contents as `json.load` or `yaml.safe_load` read them. */
  function Definition(kind: FileKind, text: string, parseJson: string -> Option<Value>, parseYaml: string -> Option<Value>): Option<Value> {
    if kind == Json then parseJson(text) else parseYaml(text)
  }

  /** `workflow run` (lines 789-817) on a file whose text is `text`;
      `parseJson` and `parseYaml` stand for `json.load` and `yaml.safe_load`,
      `None` when they raise.  The steps reach `execute_workflow`, with no
      initial context, only when the file parses to a list. */
  method RunWorkflow(registry: PluginRegistry, host: Host, path: string, text: string,
                     parseJson: string -> Option<Value>, parseYaml: string -> Option<Value>)
    returns (r: WorkflowCommand)
    ensures KindOf(path).None? <==> r == WrongExtension
    ensures KindOf(path).Some? ==>
      var parsed := Definition(KindOf(path).value, text, parseJson, parseYaml);
      && (parsed.None? <==> r == ParseFailed)
      && (parsed.Some? && !parsed.value.List? <==> r == NotAList)
      && (parsed.Some? && parsed.value.List? ==>
            var fin := WorkflowEngine.Fold(registry.plugins, host, WorkflowEngine.Start(Null), parsed.value.items);
            && (r.Completed? <==> !fin.aborted)
            && (r.Completed? ==> r.context == fin.ctx)
            && (!r.Completed? ==> r.Escaped?))
  {
    var kind := KindOf(path);
    if kind.None? {
      return WrongExtension;
    }
    var parsed := Definition(kind.value, text, parseJson, parseYaml);
    if parsed.None? {
      return ParseFailed;
    }
    var definition := parsed.value;
    if !definition.List? {
      return NotAList;
    }
    var result, _ := WorkflowEngine.ExecuteWorkflow(registry, host, definition.items, Null);
    if result.Ok? {
      r := Completed(result.value);
    } else {
      r := Escaped(result.error);
    }
  }
}
