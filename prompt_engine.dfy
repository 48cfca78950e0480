/** `build_prompt` of src/ai/prompt_engine.py: a template chosen by the
    context's `scan_type`, filled in by `str.format(**context)`, followed by
    the first 2000 characters of the code snippet. */
module PromptEngine {
  import opened Wrappers
  import opened PyStrings

  /** A piece of a format string: literal text or a `{key}` placeholder. */
  datatype Piece = Text(s: string) | Field(key: string)

  /** The keys of the placeholders, in order. */
  function Fields(template: seq<Piece>): (r: seq<string>)
    ensures forall k :: k in r <==> exists i :: 0 <= i < |template| && template[i] == Field(k)
    decreases |template|
  {
    if template == [] then []
    else
      var rest := Fields(template[1..]);
      assert forall i :: 0 <= i < |template[1..]| ==> template[1..][i] == template[i + 1];
      match template[0]
      case Text(_) => rest
      case Field(k) => [k] + rest
  }

  /** `DEFAULT_TEMPLATE` (line 1), split at its placeholder. */
  const DefaultTemplate: seq<Piece> :=
    [Text("Analyze the following code for security vulnerabilities:\n\n"), Field("code_snippet")]

  /** The three entries of `PROMPT_TEMPLATES` (lines 3-7), split at their placeholders. */
  const WebTemplate: seq<Piece> :=
    [Text("Analyze "), Field("language"), Text(" web app for OWASP Top 10 vulnerabilities. Pay special attention to "),
     Field("entry_points")]
  const ApiTemplate: seq<Piece> :=
    [Text("Check API endpoints "), Field("endpoints"), Text(" for improper authz, injection, and mass assignment")]
  const CppTemplate: seq<Piece> :=
    [Text("Inspect memory handling in "), Field("file"), Text(": look for buffer overflows, UAF, and integer overflows")]

  /** `PROMPT_TEMPLATES.get(scan_type, DEFAULT_TEMPLATE)`. */
  function TemplateFor(scanType: string): seq<Piece> {
    if scanType == "web" then WebTemplate
    else if scanType == "api" then ApiTemplate
    else if scanType == "c-cpp" then CppTemplate
    else DefaultTemplate
  }

  /** The `KeyError` that `build_prompt` raises. */
  datatype KeyError = KeyError(key: string)

  /** `template.format(**context)`: each placeholder replaced by its value;
      the first placeholder whose key is missing raises `KeyError`. */
  function Format(template: seq<Piece>, context: map<string, string>): (r: Result<string, KeyError>)
    ensures r.Ok? <==> forall k :: k in Fields(template) ==> k in context
    ensures r.Err? ==> r.error.key in Fields(template) && r.error.key !in context
    decreases |template|
  {
    if template == [] then Ok("")
    else
      var head: Result<string, KeyError> := match template[0]
        case Text(s) => Ok(s)
        case Field(k) => if k in context then Ok(context[k]) else Err(KeyError(k));
      if head.Err? then Err(head.error)
      else
        var rest := Format(template[1..], context);
        if rest.Err? then Err(rest.error) else Ok(head.value + rest.value)
  }

  /** The error names the first placeholder, in template order, whose key is
      missing. */
  lemma {:induction false} FormatStopsAtFirstMissing(template: seq<Piece>, context: map<string, string>)
    requires Format(template, context).Err?
    ensures exists i :: 0 <= i < |template| && template[i] == Field(Format(template, context).error.key) &&
                        (forall j :: 0 <= j < i && template[j].Field? ==> template[j].key in context)
    decreases |template|
  {
    var key := Format(template, context).error.key;
    if template[0] == Field(key) {
      assert 0 <= 0 < |template| && template[0] == Field(key);
    } else {
      assert Format(template[1..], context).Err? && Format(template[1..], context).error.key == key;
      FormatStopsAtFirstMissing(template[1..], context);
      var i :| 0 <= i < |template[1..]| && template[1..][i] == Field(key) &&
               (forall j :: 0 <= j < i && template[1..][j].Field? ==> template[1..][j].key in context);
      assert template[i + 1] == Field(key);
      forall j | 0 <= j < i + 1 && template[j].Field?
        ensures template[j].key in context
      {
        if j > 0 {
          assert template[j] == template[1..][j - 1];
        }
      }
    }
  }

  /** A literal piece stands for itself and a placeholder for its value. */
  lemma FormatPiece(s: string, k: string, context: map<string, string>)
    ensures Format([Text(s)], context) == Ok(s)
    ensures Format([Field(k)], context) == if k in context then Ok(context[k]) else Err(KeyError(k))
  {
    assert [Text(s)][1..] == [] && [Field(k)][1..] == [];
    assert s + "" == s;
    if k in context {
      assert context[k] + "" == context[k];
    }
  }

  /** Formatting a concatenation of templates: the first error, else the two
      filled texts one after the other. */
  lemma {:induction false} FormatAppend(a: seq<Piece>, b: seq<Piece>, context: map<string, string>)
    ensures Format(a + b, context) ==
      if Format(a, context).Err? then Format(a, context)
      else if Format(b, context).Err? then Format(b, context)
      else Ok(Format(a, context).value + Format(b, context).value)
    decreases |a|
  {
    if a == [] {
      assert a + b == b;
      var fb := Format(b, context);
      if fb.Ok? {
        assert "" + fb.value == fb.value;
      }
    } else {
      assert (a + b)[0] == a[0] && (a + b)[1..] == a[1..] + b;
      FormatAppend(a[1..], b, context);
      var fa, fr, fb := Format(a[1..], context), Format(a[1..] + b, context), Format(b, context);
      if fa.Ok? && fb.Ok? && Format([a[0]], context).Ok? {
        var h := if a[0].Text? then a[0].s else context[a[0].key];
        assert h + (fa.value + fb.value) == (h + fa.value) + fb.value;
      }
    }
  }

  /** `s[:2000]`. */
  function Truncated(s: string): (r: string)
    ensures |r| == if |s| < 2000 then |s| else 2000
    ensures r == s[..|r|]
  {
    if |s| <= 2000 then s else s[..2000]
  }

  /** The f-string that follows the template: the code header and
      `context.get('code_snippet', '')[:2000]`. */
  function CodeSection(context: map<string, string>): (r: string)
    ensures StartsWith(r, "\n\nCode:\n")
  {
    "\n\nCode:\n" + Truncated(if "code_snippet" in context then context["code_snippet"] else "")
  }

  /** `build_prompt(context)` (lines 9-12), for a context of strings. */
  function BuildPrompt(context: map<string, string>): (r: Result<string, KeyError>)
    ensures "scan_type" !in context ==> r == Err(KeyError("scan_type"))
    ensures "scan_type" in context ==>
      (r.Ok? <==> forall k :: k in Fields(TemplateFor(context["scan_type"])) ==> k in context)
    ensures r.Ok? ==> EndsWith(r.value, CodeSection(context))
    ensures r.Ok? ==> r.value == Format(TemplateFor(context["scan_type"]), context).value + CodeSection(context)
  {
    if "scan_type" !in context then Err(KeyError("scan_type"))
    else
      var body :- Format(TemplateFor(context["scan_type"]), context);
      var tail := CodeSection(context);
      var r := body + tail;
      assert r[|r| - |tail|..] == tail;
      Ok(r)
  }

  /** Any scan type other than the three keys selects the default template. */
  lemma DefaultForOtherTypes(scanType: string)
    ensures TemplateFor(scanType) == DefaultTemplate <==> scanType !in {"web", "api", "c-cpp"}
  {
    if scanType in {"web", "api", "c-cpp"} {
      assert TemplateFor(scanType)[0] != DefaultTemplate[0];
    }
  }

  /** Whatever the comment at line 11 says, a placeholder without a value
      raises `KeyError` naming it: a `web` context without `language` fails. */
  lemma MissingPlaceholderRaises(context: map<string, string>)
    requires "scan_type" in context && context["scan_type"] == "web" && "language" !in context
    ensures BuildPrompt(context) == Err(KeyError("language"))
  {
  }

  /** With the default template the whole snippet comes first and its
      truncated copy after it. */
  lemma DefaultPromptRepeatsSnippet(context: map<string, string>)
    requires "scan_type" in context && context["scan_type"] !in {"web", "api", "c-cpp"}
    requires "code_snippet" in context
    ensures BuildPrompt(context) == Ok(
      "Analyze the following code for security vulnerabilities:\n\n" + context["code_snippet"]
      + "\n\nCode:\n" + Truncated(context["code_snippet"]))
  {
    var snippet := context["code_snippet"];
    var intro := "Analyze the following code for security vulnerabilities:\n\n";
    assert Format([Field("code_snippet")], context) == Ok(snippet) by {
      assert [Field("code_snippet")][1..] == [];
      assert snippet + "" == snippet;
    }
    assert DefaultTemplate[1..] == [Field("code_snippet")];
    assert Format(DefaultTemplate, context) == Ok(intro + snippet);
    assert TemplateFor(context["scan_type"]) == DefaultTemplate;
    var tail := "\n\nCode:\n" + Truncated(snippet);
    assert BuildPrompt(context) == Ok((intro + snippet) + tail);
    assert (intro + snippet) + tail == intro + snippet + "\n\nCode:\n" + Truncated(snippet);
  }

  /** The default template cannot be filled without a code snippet. */
  lemma DefaultNeedsSnippet(context: map<string, string>)
    requires "scan_type" in context && context["scan_type"] !in {"web", "api", "c-cpp"}
    requires "code_snippet" !in context
    ensures BuildPrompt(context) == Err(KeyError("code_snippet"))
  {
  }

  /** A long snippet is cut to its first 2000 characters after the template. */
  lemma LongSnippetCut(context: map<string, string>)
    requires "scan_type" in context && "code_snippet" in context && |context["code_snippet"]| > 2000
    requires BuildPrompt(context).Ok?
    ensures EndsWith(BuildPrompt(context).value, "\n\nCode:\n" + context["code_snippet"][..2000])
  {
  }
}
