# BugHunter CLI core, modelled in Dafny

BugHunter CLI (`src/main.py` and the modules under `src/`) is a command-line
front end around external scanners, git and an AI API. This project models
the parts of it that decide things, with every external effect turned into
a parameter: the shell, the HTTP request, the JSON and YAML parsers, the
`which` lookup, the user's consent and the package installer.

- **Workflow interpreter** (`WorkflowEngine`). `execute_workflow` threads one
  context through an ordered list of steps. A step without a plugin name is
  skipped, a failing step keeps the context, and a step that is not a mapping
  ends the run with an exception. The loop is a `method`, proved equal to a
  left fold of one-step transitions. Lemmas about that fold state the skip,
  keep and abort policy.
- **Registries** (`Registrations`, `ToolManager`, `PluginsCore`,
  `PluginsPackage`, `ToolRegistration`). Each of the four registration
  decorators is a class that writes one dictionary in place. The four are
  kept apart, as in the source. A ghost history ties each dictionary to the
  sequence of registrations made so far. Lemmas about that sequence state
  that the last write wins and that other names are untouched.
  `ToolManager` also holds `get_plugin`, the dependency check and the choice
  of package-manager command.
- **Security helpers** (`Security`):
  - `validate_url`, over a model of the scheme and authority split of
    Python 3.12's `urllib.parse.urlsplit` (sections 3.1 and 3.2 of RFC 3986),
    including its bracket and NFKC checks of the netloc; the answers of
    `ipaddress.ip_address` and `unicodedata.normalize('NFKC', ...)` are a
    parameter (`Stdlib`), so every result holds whatever they answer;
  - the `sanitized_url` decorator;
  - `run_in_sandbox`'s in-place rewrite of the last token of the caller's
    `command` array, its `ValueError` and its not-found result;
  - the audit record.
- **`pullpush`** (`Pullpush`): the git controller as a chain of methods over
  a trace of shell calls, with the conflict-file loop.
- **`src/main.py` kernels**:
  - the GitHub token file (`GithubToken`);
  - the crt.sh subdomain search (`Subdomains`);
  - fence stripping and patch splicing of AI fixes (`AutoFix`);
  - the scanner exit-code gates, `run-tool` and `workflow run` (`CliGates`).
- **Small modules**:
  - the tool copy of the subdomain search and its report
    (`SubdomainScanner`);
  - prompt templates (`PromptEngine`);
  - points for findings (`Gamification`);
  - the output formatter stub (`Formatters`).

`PyStrings` models the Python string operations these use: `strip`,
`split`, `join`, `startswith`, `readlines`, `splitlines`, slicing and
`sorted`'s ordering. `Values` models JSON-like values and Python
truthiness, and `Wrappers` holds `Option` and `Result`.

Where the code and its comments disagree, the model follows the code. The
comment at src/ai/prompt_engine.py:11 promises that a missing key causes no
error, but `str.format` raises `KeyError`, so `BuildPrompt` returns that
error.

## Model

| member | source | states |
|---|---|---|
| WorkflowEngine.Start | src/workflow_engine.py:16 | the run starts from the initial context, or `{}` when it is None, with an empty log |
| WorkflowEngine.LookUp | src/tool_manager.py:74-78 | a step's plugin resolves exactly when its name is text and `get_plugin` succeeds; an unhashable name is a failure |
| WorkflowEngine.TryStep | src/workflow_engine.py:29-40 | the `try` block succeeds exactly when the lookup succeeds, the config is a mapping without `context` and `execute` returns; the new context is that return value |
| WorkflowEngine.RunStep | src/workflow_engine.py:21-40 | a step aborts the run iff it is not a mapping, is skipped iff its plugin name is absent or falsy, and is applied only when every stage succeeds, with the returned context |
| WorkflowEngine.Next | src/workflow_engine.py:20-40 | one iteration of the loop: a skip or failure keeps the context, a success replaces it, a non-mapping step ends the run, and an ended run stays as it is |
| WorkflowEngine.Fold | src/workflow_engine.py:20-43 | the whole loop as a left fold of `Next`, first step first |
| WorkflowEngine.SuccessfulStepApplies | src/workflow_engine.py:34 | a step whose plugin resolves and whose `execute` returns `v` makes `v` the context |
| WorkflowEngine.MissingConfigIsEmpty | src/workflow_engine.py:22 | a step without `config` behaves as one with `config: {}` |
| WorkflowEngine.FoldAppend | src/workflow_engine.py:20-40 | running two step lists back to back equals running their concatenation |
| WorkflowEngine.StepTransparent | src/workflow_engine.py:24-26 | for a host fixed during the run, a skipped or failed step leaves the context unchanged and the remaining steps run as if it were absent |
| WorkflowEngine.AbortedStays | src/workflow_engine.py:21 | once a non-mapping step has raised, nothing further happens |
| WorkflowEngine.AbortIffNonMapping | src/workflow_engine.py:20-22 | the run ends early iff some step is not a mapping; the log then stops at the first such step, and otherwise has one entry per step |
| WorkflowEngine.LogIsStepwise | src/workflow_engine.py:20-40 | each step is attempted once, in order, on the context left by the steps before it |
| WorkflowEngine.LogPrefixKept | src/workflow_engine.py:20 | later steps only append to the log |
| WorkflowEngine.ContextIsLastApplied | src/workflow_engine.py:34-43 | the final context is the value returned by the last successful `execute`, or the initial context |
| WorkflowEngine.EmptyRegistryKeepsContext | src/workflow_engine.py:36-40 | with no plugin registered, no step succeeds and the context stays the initial one |
| WorkflowEngine.ExecuteWorkflow | src/workflow_engine.py:4-43 | the loop's result and log equal the left fold of the steps; an escaping error names the first non-mapping step; an empty workflow returns the initial context |
| Registrations.TableSnoc | src/tool_manager.py:14 | one more registration is one more dictionary assignment |
| Registrations.RegisteredOnce | src/tool_manager.py:14 | every registered name is in the table |
| Registrations.LastRegistrationWins | src/tool_manager.py:14 | a name's entry is the one of its last registration, and every name in the table was registered |
| Registrations.OthersUntouched | src/tool_manager.py:14 | registering a name leaves every other name's presence and entry unchanged |
| Registrations.ReRegistrationReplaces | src/tool_manager.py:14 | registering a name twice keeps only the second entry |
| ToolManager.PluginRegistry.constructor | src/tool_manager.py:9 | the registry starts empty |
| ToolManager.PluginRegistry.RegisterPlugin | src/tool_manager.py:11-16 | `PLUGIN_REGISTRY[name] = cls` in place; the class is returned unchanged |
| ToolManager.MissingDependencies | src/tool_manager.py:27 | exactly the declared dependencies that `which` cannot find, in declaration order and with their multiplicity; empty iff all are found |
| ToolManager.CheckDependencies | src/tool_manager.py:25-32 | nothing happens when nothing is missing; otherwise the user's answer decides between installing the missing list and refusing with it |
| ToolManager.AllPresentNoPrompt | src/tool_manager.py:28 | when every dependency is found, the outcome does not depend on the consent or the installer |
| ToolManager.RefusalNamesAllMissing | src/tool_manager.py:29-32 | a refusal lists exactly the missing dependencies and follows a "no" answer |
| ToolManager.Message | src/tool_manager.py:32 | a refusal's message names every missing dependency |
| ToolManager.InstallPlanFor | src/tool_manager.py:36-53 | a command exists iff Linux has apt-get, yum or pacman or macOS has brew; it is one of the four fixed prefixes followed by the dependencies; another OS is "Unsupported OS" |
| ToolManager.AptGetFirst | src/tool_manager.py:39-40 | apt-get is chosen on Linux whenever it is present |
| ToolManager.InstallDependencies | src/tool_manager.py:55-61 | success iff a command was planned and ran; a non-zero exit becomes an install error |
| ToolManager.NoManagerRunsNothing | src/tool_manager.py:45-53 | without a usable package manager no process runs |
| ToolManager.GetPlugin | src/tool_manager.py:74-78 | a missing name is `NotFound`; otherwise the registered class, once its dependency check passes, with the check's error otherwise |
| ToolManager.Execute | src/tool_manager.py:64-66 | a class without its own `execute` raises `NotImplementedError`; otherwise the plugin's result or error |
| PluginsCore.DescriptorOf | src/plugins/core.py:6-10 | the record holds the class and version, and the dependencies or `[]` when none are given |
| PluginsCore.DescriptorRegistry.constructor | src/plugins/core.py:2 | the registry starts empty |
| PluginsCore.DescriptorRegistry.RegisterPlugin | src/plugins/core.py:4-13 | the descriptor is stored under the name in place; the class is returned unchanged |
| PluginsCore.Descriptors | src/plugins/core.py:6-10 | each registration contributes its descriptor, in order |
| PluginsCore.DescriptorOfLastRegistration | src/plugins/core.py:6 | a name's entry is the descriptor of its last registration |
| PluginsPackage.PluginTable.constructor | src/plugins/__init__.py:2 | the table starts empty |
| PluginsPackage.PluginTable.RegisterPlugin | src/plugins/__init__.py:4-8 | `PLUGINS[name] = cls` in place; the class is returned unchanged |
| ToolRegistration.BaseTool.constructor | src/utils/tool_registration.py:6-8 | the tool keeps exactly the given name and description |
| ToolRegistration.ToolTable.constructor | src/utils/tool_registration.py:3 | the table starts empty |
| ToolRegistration.ToolTable.RegisterTool | src/utils/tool_registration.py:14-18 | `TOOL_REGISTRY[name] = cls` in place; the class is returned unchanged |
| ToolRegistration.ImportedTools | src/tools/subdomain_scanner.py:40-41 | once the Gemini plugin and the subdomain scanner are imported, this table holds exactly those two names |
| Security.LStripC0 | src/utils/security.py:27 | the result is a suffix of the input, every removed character is a control character or space, and the result does not start with one |
| Security.RemoveUnsafe | src/utils/security.py:27 | no tab or line break is left, text without them is unchanged, and (with `RemoveAppend`) every other character is kept in order |
| Security.RemoveAppend | src/utils/security.py:27 | deleting tabs and line breaks works piece by piece: that of `a + b` is that of `a` followed by that of `b` |
| Security.Clean | src/utils/security.py:27 | the text `urlsplit` parses holds no tab or line break and does not start with a control character or space; text that already satisfies both is unchanged |
| Security.SchemeEnd | src/utils/security.py:27 | the scheme ends at the first `:` exactly when that `:` follows a letter and scheme characters only; otherwise there is no scheme |
| Security.NetlocEnd | src/utils/security.py:27 | the first `/`, `?` or `#` from a position, or the end |
| Security.SplitText | src/utils/security.py:27 | the scheme is `SchemeOf`; after `//` the netloc is the authority up to the first `/`, `?` or `#` and `//`, netloc and rest rebuild the text; without `//` the netloc is empty; the split fails exactly when that authority fails the bracket or NFKC check |
| Security.UrlSplit | src/utils/security.py:27 | on the cleaned text: the scheme is the lower-cased text before its `:`, the netloc is the authority after `//` or empty, and an error happens exactly when that authority fails a netloc check |
| Security.ValidateUrl | src/utils/security.py:25-32 | the URL is returned unchanged iff its cleaned text is accepted; a scheme other than http or https is `InvalidScheme`, and an empty netloc is `MissingDomain` |
| Security.Accepts | src/utils/security.py:28-31 | the two tests of `validate_url` on the cleaned text; an accepted text has a scheme and `//` after it |
| Security.WebUrl | src/utils/security.py:28-31 | the independent description of accepted text: `http` or `https` in any case, `://`, and a non-empty authority that passes the netloc checks |
| Security.PlainNetlocPasses | src/utils/security.py:27 | an ASCII netloc without brackets passes the bracket and NFKC checks whatever the library answers |
| Security.BracketedHostNeedsIpv6 | src/utils/security.py:27-32 | `http(s)://[h]` with `h` not starting with `v` is accepted exactly when `ipaddress` reads `h` as IPv6, so `[abc]` and `[1.2.3.4]` are refused |
| Security.NfkcSlashRejected | src/utils/security.py:27 | a non-ASCII host whose NFKC form holds `/` is refused with the NFKC error, as for `http://a℀b` |
| Security.WebUrlExactly | src/utils/security.py:28-31 | `http(s)://` and a host free of `/`, `?` and `#` is a web URL exactly when the host passes the netloc checks |
| Security.ValidateUrlIff | src/utils/security.py:28-31 | `validate_url` accepts exactly the URLs whose cleaned text is `http://` or `https://` (any letter case), a non-empty authority passing the netloc checks and an optional path, whatever `ipaddress` and `unicodedata` answer |
| Security.AcceptedIsWebUrl | src/utils/security.py:28-31 | every accepted text has that shape |
| Security.WebUrlIsAccepted | src/utils/security.py:28-31 | every text of that shape is accepted |
| Security.PlainWebUrlAccepted | src/utils/security.py:32 | a clean `http(s)://host...` comes back unchanged |
| Security.HttpsHostAccepted | tests/test_security.py:4-6 | `https://example.com` is accepted |
| Security.HttpPathAccepted | tests/test_security.py:4-6 | `http://sub.domain.co.uk/path` is accepted |
| Security.PathUrlAccepted | src/utils/security.py:28-32 | any path after a plain host is accepted |
| Security.OtherSchemeRejected | src/utils/security.py:28-29 | any other scheme is rejected as an invalid scheme |
| Security.LowerSchemeRejected | src/utils/security.py:28-29 | the same for a lower-case scheme |
| Security.JavascriptRejected | tests/test_security.py:8-13 | `javascript:alert(1)` is rejected |
| Security.FtpRejected | tests/test_security.py:8-13 | `ftp://unsecure-server` is rejected |
| Security.EmptyHostRejected | src/utils/security.py:30-31 | `http://` is rejected for its missing domain |
| Security.BrokenWebUrlAccepted | src/utils/security.py:27-32 | the check runs on the cleaned text but returns the raw one, so a tab and a line break survive validation |
| Security.SanitizedCall | src/utils/security.py:25-41 | only a keyword argument `url` is validated; without it the call goes through unchanged, and a failed check stops the call; a `url` that is not text always stops it: a truthy one raises from `urlparse`, a falsy one is an invalid scheme whose message is `str` of the value |
| Security.FalsyUrlNamed | src/utils/security.py:28-29 | `None`, `False`, `0`, `[]` and `{}` as `url` give "Invalid URL scheme: None", "False", "0", "[]" and "{}" |
| Security.PositionalUrlNotChecked | src/utils/security.py:38 | a positional URL is never checked |
| Security.Basename | src/utils/security.py:62 | the base name is a suffix free of `/`, preceded by a `/` whenever it is not the whole path |
| Security.JoinedBasename | src/utils/security.py:62 | the base name of a directory joined with a name free of `/` is that name |
| Security.PathJoin | src/utils/security.py:62 | an absolute name replaces the directory; otherwise the result starts with the directory and ends with the name, with exactly one `/` added unless the directory is empty or ends with one |
| Security.Redirected | src/utils/security.py:58-73 | only the last token changes, to the sandbox copy of a file or to the sandbox directory |
| Security.RedirectLast | src/utils/security.py:58-73 | the caller's array is changed in place to exactly the redirected command |
| Security.NotFoundResult | src/utils/security.py:88-89 | empty output, exit status 127, and a message naming the program |
| Security.RunInSandbox | src/utils/security.py:49-89 | the caller's array is rewritten in place unless the target is neither a file nor a directory, which raises before anything runs |
| Security.SingleTokenMessage | src/utils/security.py:73-89 | for a one-token command the not-found message names the rewritten path |
| Security.FileTargetInSandbox | src/utils/security.py:62 | a file target lands in the sandbox under its base name |
| Security.AuditEntry | src/utils/security.py:106-111 | the record has exactly four keys, and a missing metadata becomes `{}` |
| Pullpush.PullPushLines | src/tools/pullpush.py:94-139 | the pull and push command lines, with `--rebase` and ` --force-with-lease` exactly when flagged |
| Pullpush.ValidFlags | src/tools/pullpush.py:16-21 | the accepted option combinations: not both `--auto-commit` and `--stash`, and a commit message only with `--auto-commit` |
| Pullpush.HasConflictMarker | src/tools/pullpush.py:112 | the conflict test: `UU`, `DD` or `AA` anywhere in the probe's output |
| Pullpush.DryRunPlan | src/tools/pullpush.py:26-28 | the calls a dry run announces, in order: the status check when stashing or committing, the verbose status, the pull, the push and the verbose status after it |
| Pullpush.EndsAsReported | src/tools/pullpush.py:98-159 | how the outcome follows from the trace: the pull and push results, the conflict probe and the calls after the push |
| Pullpush.RunShellCommand | src/utils/shell.py:3-17 | both streams are stripped; an exception becomes status 1 with its message |
| Pullpush.Snoc | src/tools/pullpush.py:25-36 | every trace property of a trace with one more call, in terms of the shorter trace |
| Pullpush.PushGuardedAt | src/tools/pullpush.py:98-134 | each push follows a good pull and no conflict probe |
| Pullpush.ExecuteCommand | src/tools/pullpush.py:25-36 | a dry run only records the command and yields status 0 with empty output; otherwise the command runs |
| Pullpush.RunPullpush | src/tools/pullpush.py:14-159 | invalid flags run nothing; the trace is consistent with the shell; a pushed stash is popped exactly once, as the last call; no push after a failed pull or a conflict, and a good pull without a conflict always leads to one push; the outcome is read off the trace (`EndsAsReported`), with the failing call's stderr; a run that issued no pull stopped at its last call, a failing status, stash, add or commit (`StoppedAt`), after the stash steps with `--stash` (`StashSteps`) or the commit steps with `--auto-commit` (`CommitSteps`); a run that issued the pull had, before it, exactly the preparation `Prepared` describes (`BeforePull`); without `--stash` and `--auto-commit` the pull is always issued; the conflicting paths are those listed for the probe (`ListedConflicts`); a dry run is exactly the announced plan |
| Pullpush.Prepare | src/tools/pullpush.py:38-91 | without `--stash` or `--auto-commit` nothing stops the run and the only call is the verbose status, if any; a stop happens at the latest call, a failing status, stash, add or commit whose stderr the outcome carries, after calls that all succeeded (`StoppedAt`), with nothing stashed; the stash steps with `--stash` and the commit steps with `--auto-commit`, whether or not the run stops; when the run goes on, the trace is `Prepared`: every call but the status listing succeeded, and the listing is last when verbose |
| Pullpush.RunChecked | src/tools/pullpush.py:38-159 | the same as `RunPullpush` for accepted flags, from the preparation to the end |
| Pullpush.PreparedAfterListing | src/tools/pullpush.py:38-91 | the saved steps followed by the listing when verbose make a `Prepared` trace, whose part before the listing is those steps |
| Pullpush.SaveChanges | src/tools/pullpush.py:38-87 | the stash steps with `--stash` (`StashSteps`), the auto-commit steps with `--auto-commit` (`CommitSteps`), and no call at all otherwise; a stop is `StoppedAt` its last call, and a run that goes on had every call succeed |
| Pullpush.StatusBeforePull | src/tools/pullpush.py:88-91 | exactly one status listing when verbose and none otherwise, leaving every other property of the trace unchanged |
| Pullpush.StashSteps | src/tools/pullpush.py:39-57 | the stash steps: the status check first, then the stash push exactly when the check succeeded with non-empty output |
| Pullpush.CommitSteps | src/tools/pullpush.py:58-86 | the auto-commit steps: the status check first, then `git add .` exactly when it succeeded with non-empty output, then the commit with the message exactly when the add succeeded |
| Pullpush.Prepared | src/tools/pullpush.py:38-91 | a preparation that lets the run go on: every call succeeded apart from the verbose status listing, which is last; the stash or commit steps as flagged, and no call but the listing otherwise |
| Pullpush.BeforePull | src/tools/pullpush.py:94-98 | the part of a trace before its first pull, a prefix of it |
| Pullpush.BeforePullKept | src/tools/pullpush.py:94-159 | calls after the pull leave the part before the pull unchanged |
| Pullpush.StoppedAt | src/tools/pullpush.py:42-83 | an exit before the pull: the last call failed, is the command the outcome names, and the outcome carries its stderr; every earlier call succeeded |
| Pullpush.ListedConflicts | src/tools/pullpush.py:110-119 | the paths listed for the latest probe when it showed a conflict, and none otherwise |
| Pullpush.ListedNeedsConflict | src/tools/pullpush.py:112-119 | paths are listed only after a probe that showed a conflict |
| Pullpush.StashChanges | src/tools/pullpush.py:39-57 | the status check comes first and stops the run exactly when it fails; the stash push follows exactly when the status succeeded with non-empty output, and something is stashed exactly when that push succeeded, on a real run only (`StashSteps`); a stop is `StoppedAt` its last call |
| Pullpush.AutoCommit | src/tools/pullpush.py:58-86 | the status check, then `git add .` exactly when it reported changes, then the commit with the chosen message exactly when the add succeeded (`CommitSteps`); each failure stops with its own outcome, `StoppedAt` its last call |
| Pullpush.StageAndCommit | src/tools/pullpush.py:71-84 | `git add .` is the next call; the commit with the chosen message follows exactly when the add succeeded; a failing add or commit stops with its own outcome, `StoppedAt` that call |
| Pullpush.IssuePrep | src/tools/pullpush.py:41-79 | a preparation command is the next call and changes no other property of the trace than a successful stash; after calls that all succeeded, a failure of it is a stop at it |
| Pullpush.PullAndPush | src/tools/pullpush.py:93-159 | from the pull on: the trace before the pull is the prepared trace it was given; the stash pop is the last call exactly when something was stashed; the run ends as its trace reports (`EndsAsReported`); push only after a good pull with no conflict |
| Pullpush.PullFailedExit | src/tools/pullpush.py:99-105 | a failed pull ends without a push, popping the stash |
| Pullpush.IssuePull | src/tools/pullpush.py:94-98 | the pull is the next call, so the trace before the pull is the trace before this call; it counts as a good pull exactly when it reported status 0, and a dry run announces it with status 0 |
| Pullpush.ProbeAndPush | src/tools/pullpush.py:107-159 | a real run probes `git status --porcelain` right after the pull; a detected conflict ends without a push, stopped if `interactive` and skipped otherwise; without a conflict the push is issued; the paths listed are `ConflictFiles` of the probe's lines when it showed a conflict, and none otherwise |
| Pullpush.PushChanges | src/tools/pullpush.py:136-159 | the push is the next call; a failed push is followed only by the pop, a good one by the status listing when verbose and then the pop |
| Pullpush.IssuePush | src/tools/pullpush.py:137-142 | the push is the next call and the latest push result, with nothing after it yet |
| Pullpush.FinishAfterPush | src/tools/pullpush.py:151-159 | after a good push come exactly the status listing when verbose and then the pop when something was stashed |
| Pullpush.PopIfStashed | src/tools/pullpush.py:157-159 | the pop runs iff something was stashed |
| Pullpush.ConflictFiles | src/tools/pullpush.py:117-119 | no more paths than lines |
| Pullpush.ListConflictingFiles | src/tools/pullpush.py:117-119 | the loop prints the conflict paths of the status lines |
| Pullpush.ConflictFilesFromLine | src/tools/pullpush.py:118-119 | every listed path is the rest of a line starting `UU `, `DD ` or `AA ` |
| Pullpush.MarkedLineListed | src/tools/pullpush.py:117-119 | conversely, every line starting `UU `, `DD ` or `AA ` is listed without those three characters |
| Pullpush.ListedMeansDetected | src/tools/pullpush.py:112-119 | a listed conflict means a conflict was detected |
| Pullpush.FileNameLooksLikeConflict | src/tools/pullpush.py:112 | a modified file named `AAA.txt` counts as a conflict, yet no path is listed |
| GithubToken.SavedFile | src/main.py:38-40 | the file is the prefix `github_token=`, the token and a newline |
| GithubToken.TokenOfLine | src/main.py:49 | the token read back holds no `=` |
| GithubToken.FirstToken | src/main.py:47-50 | the token of the first line that starts with `github_token=`, and None exactly when no line does |
| GithubToken.LoadGithubToken | src/main.py:43-50 | None without a file; otherwise the loop's result is `FirstToken` of the lines read in text mode |
| GithubToken.RoundTrip | src/main.py:38-49 | a saved token without `=`, line break or trailing whitespace loads back unchanged |
| GithubToken.Universal | src/main.py:46 | text read in text mode holds no `\r` |
| GithubToken.ReadLines | src/main.py:46-47 | the lines read concatenate to the translated text |
| GithubToken.UniversalCrLf | src/main.py:46 | a line ended by `\r\n` is read as ended by `\n` |
| GithubToken.CarriageReturnCutsToken | src/main.py:38-49 | a `\r` inside a saved token ends the line on reading, so only the part before it loads |
| GithubToken.EqualsTruncates | src/main.py:49 | a token with `=` comes back cut at its first `=` |
| GithubToken.TrailingSpaceLost | src/main.py:49 | one trailing whitespace character, `\r` included, is lost on loading |
| Subdomains.CrtShUrlAccepted | src/main.py:58-59 | the crt.sh URL passes `validate_url` whatever the target |
| Subdomains.Normalize | src/main.py:70-72 | one line of `name_value`: a leading `*.` dropped once, then surrounding whitespace |
| Subdomains.JsonEntries | src/main.py:64 | what iterating the decoded body yields, or the exception: a list's items, nothing for an empty object or string |
| Subdomains.EntryNames | src/main.py:65-72 | one entry's names, nothing for a falsy `name_value`, and the exception for an entry that is not an object or a truthy non-text value |
| Subdomains.NamesOf | src/main.py:64-72 | the union of the entries' names, or the exception once an entry raises |
| Subdomains.NormalizedOrigin | src/main.py:68-72 | every normalised name comes from one line |
| Subdomains.RaisedStays | src/main.py:64-72 | once an entry raises, the whole loop raises |
| Subdomains.AddLines | src/main.py:68-72 | the inner loop adds exactly the normalised lines |
| Subdomains.CollectSubdomains | src/main.py:63-72 | the outer loop computes the set of all entries' names, or raises |
| Subdomains.Insert | src/main.py:73 | insertion keeps the list sorted and adds exactly one element |
| Subdomains.SortedNames | src/main.py:73 | `sorted(list(s))` is strictly sorted and holds exactly `s` |
| Subdomains.SortedUnique | src/main.py:73 | a strictly sorted list is determined by its elements |
| Subdomains.SortedNoDuplicates | src/main.py:73 | no name occurs twice |
| Subdomains.FindSubdomains | src/main.py:55-80 | a failed request or an unparsable body gives None; otherwise the result is the sorted, duplicate-free set of normalised names, or an escaping exception |
| Subdomains.WildcardRemovedOnce | src/main.py:70-71 | a doubled `*.` keeps its second copy |
| Subdomains.WildcardAfterSpaceKept | src/main.py:70-72 | the wildcard test comes before stripping |
| Subdomains.TrailingBreakAddsEmptyName | src/main.py:68-72 | a trailing line break adds the empty name |
| Subdomains.EmptyNameValueContributesNothing | src/main.py:65-66 | an empty or missing `name_value` adds nothing |
| Subdomains.NamesHaveOrigin | src/main.py:64-72 | every name found comes from a line of some entry |
| AutoFix.UnfencedKept | src/main.py:452-453 | an unfenced reply is only stripped |
| AutoFix.StripFence | src/main.py:452-453 | a reply starting and ending with a fence loses its first and last lines; otherwise it is kept |
| AutoFix.CleanReply | src/main.py:449-453 | the reply stripped, then its fence removed |
| AutoFix.FenceDropsOuterLines | src/main.py:453 | a fenced reply loses its first and last lines, and only those |
| AutoFix.OneLineFenceEmptied | src/main.py:452-453 | a one-line fenced reply becomes empty |
| AutoFix.WrappedRoundTrip | src/main.py:449-453 | stripping the fence of wrapped code returns the code |
| AutoFix.SpliceKeepsOutside | src/main.py:432-474 | the lines before and after the range are kept, and the replaced text is exactly the snippet shown |
| AutoFix.SpliceAsWritten | src/main.py:474 | the new file lines as written: the lines before the range, the fix's lines with their breaks, the lines after it |
| AutoFix.Splice | src/main.py:474 | the corrected splice, whose fix ends with a line break |
| AutoFix.Terminated | src/main.py:474 | the corrected fix ends with a newline unless it is empty |
| AutoFix.SpliceReadBack | src/main.py:474-476 | with the corrected splice, reading the file back gives the kept lines and the fix's lines |
| AutoFix.MergedLineExample | src/main.py:449-474 | as written, the fix's last line merges with the next kept line |
| AutoFix.KeptLineExample | src/main.py:474 | with the correction the line count is kept |
| CliGates.SemgrepOutcome | src/main.py:391-399 | results are read only for exit codes 0 and 1; any other code reports stderr; for codes 0 and 1 an unparsable body is reported as such and a parsed one is read as the Semgrep results of that value |
| CliGates.SemgrepResults | src/main.py:396-399 | a body without a `results` key is an unexpected error; truthy results are listed as they are; falsy ones mean no vulnerabilities |
| CliGates.OsvOutcome | src/main.py:508-522 | the same gate; blank output means no vulnerabilities before any parsing; otherwise an unparsable body is reported as such, a parsed value that is not a dict is unexpected, and a dict gives findings exactly when its `results` entry is truthy, carrying that entry, and no vulnerabilities otherwise |
| CliGates.GatesAgree | src/main.py:392-510 | the two differently written gates (lines 392 and 510) accept the same codes |
| CliGates.BlankOutputDiffers | src/main.py:396-514 | blank output is clean for OSV and a parse error for Semgrep |
| CliGates.MissingScannerStops | src/main.py:392-512 | a missing scanner's 127 stops at the gate |
| CliGates.CppcheckReport | src/main.py:565-569 | any error output counts as issues |
| CliGates.MissingCppcheckReportedAsIssues | src/main.py:563-567 | a missing cppcheck is reported as issues found |
| CliGates.RunTool | src/main.py:91-102 | an unknown tool is refused with "Tool not supported" |
| CliGates.UnknownToolNeverRuns | src/main.py:93-95 | an unknown tool's line does not depend on any tool |
| CliGates.ToolResultEchoed | src/main.py:96-102 | a known tool's result is echoed as it is, and its exception as `Error: ...` |
| CliGates.ListedToolEchoesItsRun | src/main.py:93-102 | a tool in the table reaches its own run: the line depends only on that tool's result, and different results of the same kind give different lines |
| CliGates.SubdomainScannerNotListed | src/tools/__init__.py:11-21 | `subdomain_scanner` is not in the `run-tool` table |
| CliGates.KindOf | src/main.py:796-802 | `.json` means JSON; otherwise `.yaml` or `.yml` means YAML |
| CliGates.Definition | src/main.py:796-799 | a `.json` file is read by `json.load`, a YAML file by `yaml.safe_load` |
| CliGates.UpperCaseExtensionRefused | src/main.py:796-802 | any path ending in an upper-case letter, such as `flow.JSON`, is refused: the extension test is case-sensitive |
| CliGates.RunWorkflow | src/main.py:789-817 | a wrong extension, a parse error or a non-list stops before `execute_workflow`; a list runs as the fold from `{}` |
| SubdomainScanner.LocalValidate | src/tools/subdomain_scanner.py:10-14 | accepts iff the scheme is http or https; the URL is returned unchanged |
| SubdomainScanner.LocalAcceptsEmptyHost | src/tools/subdomain_scanner.py:12 | `http://` passes the local check and fails the shared one |
| SubdomainScanner.FindSubdomains | src/tools/subdomain_scanner.py:5-38 | the same result as the `src/main.py` search |
| SubdomainScanner.Report | src/tools/subdomain_scanner.py:46-53 | the header, then "No subdomains found" for an empty or missing list, or the count then each name |
| SubdomainScanner.Execute | src/tools/subdomain_scanner.py:44-53 | the lines echoed, in terms of the names found |
| PromptEngine.Fields | src/ai/prompt_engine.py:1-7 | the placeholder keys of a template |
| PromptEngine.TemplateFor | src/ai/prompt_engine.py:10 | the template for `web`, `api` or `c-cpp`, and the default one for any other type |
| PromptEngine.Format | src/ai/prompt_engine.py:12 | formatting succeeds iff every placeholder key is in the context; an error names a missing key |
| PromptEngine.FormatPiece | src/ai/prompt_engine.py:12 | a literal piece formats to itself, a placeholder to its value or to `KeyError` of its key |
| PromptEngine.FormatAppend | src/ai/prompt_engine.py:12 | formatting two templates one after the other gives the first error, or the two texts concatenated |
| PromptEngine.FormatStopsAtFirstMissing | src/ai/prompt_engine.py:12 | the error names the first placeholder, in template order, whose key is missing |
| PromptEngine.Truncated | src/ai/prompt_engine.py:12 | the first min(2000, len) characters |
| PromptEngine.CodeSection | src/ai/prompt_engine.py:12 | the text after the template starts with the code header |
| PromptEngine.BuildPrompt | src/ai/prompt_engine.py:9-12 | a missing `scan_type` raises `KeyError`; success iff the chosen template's keys are present; the prompt is the formatted template, the code header and the snippet truncated to 2000 characters |
| PromptEngine.DefaultForOtherTypes | src/ai/prompt_engine.py:3-10 | the default template is chosen iff the type is not `web`, `api` or `c-cpp` |
| PromptEngine.MissingPlaceholderRaises | src/ai/prompt_engine.py:11-12 | a `web` context without `language` raises `KeyError('language')` |
| PromptEngine.DefaultPromptRepeatsSnippet | src/ai/prompt_engine.py:1-12 | with the default template the whole snippet precedes its truncated copy |
| PromptEngine.DefaultNeedsSnippet | src/ai/prompt_engine.py:1-12 | the default template without a snippet raises `KeyError` |
| PromptEngine.LongSnippetCut | src/ai/prompt_engine.py:12 | a long snippet is cut to 2000 characters |
| Gamification.Points | src/gamification.py:37 | positive iff the severity is a table key, with the table's value |
| Gamification.Award | src/gamification.py:37-42 | an update is issued iff the severity is known, with the points and the user id |
| Gamification.PointTable | src/gamification.py:20-26 | 100/50/20/10/1, and 0 for any other severity |
| Gamification.KeysAreSeverities | src/gamification.py:20-26 | the keys are exactly the five severities |
| Gamification.PointsDecrease | src/gamification.py:20-26 | strictly decreasing from critical to info |
| Gamification.UnknownSeverityIgnored | src/gamification.py:38 | an unknown severity issues no update |
| Formatters.ParseNmap | src/utils/formatters.py:9-15 | three keys, each an empty list |
| Formatters.ParseDirsearch | src/utils/formatters.py:17-21 | one key, `directories`, holding an empty list |
| Formatters.FormatOutput | src/utils/formatters.py:2-21 | the nmap and dirsearch literals, and None for any other tool |
| Formatters.OutputIgnored | src/utils/formatters.py:9-21 | the result does not depend on the output |
| PyStrings.Lines | src/main.py:429-430 | `readlines` pieces are non-empty and concatenate to the text |
| PyStrings.LinesOfConcat | src/main.py:475-476 | lines written and read back are the same lines |
| PyStrings.ConcatKeepEnds | src/main.py:474 | `splitlines(keepends=True)` concatenates to the text |
| PyStrings.JoinSplit | src/main.py:453 | joining the pieces of a split gives the text back |
| PyStrings.SplitJoin | src/main.py:453 | splitting a join of separator-free pieces gives the pieces |
| PyStrings.LessTransitive | src/main.py:73 | `sorted`'s string order is transitive |
| PyStrings.LessTotal | src/main.py:73 | and total |
| PyStrings.NatToString | src/tools/subdomain_scanner.py:49 | `str(n)`: non-empty decimal digits, without a leading zero, denoting `n` |
| PyStrings.NatToStringDigit | src/tools/subdomain_scanner.py:49 | the digits of `10q + d` are those of `q` followed by `d` |

## Left out

- I/O and processes are parameters, not modelled. This covers the file
  system, `open`, the tempdir and its copy loop, the asyncio subprocess,
  `requests.get`, `json`/`yaml` parsing, `shutil.which`, `platform.system`,
  `subprocess.run`, the clock, and `click` echo, colours and confirmations.
- `load_plugins`: the dynamic import is not modelled. The registries start
  empty or pre-populated instead.
- The AI and UI layers (`call_ai_api`, Gemini, Rich), `difflib` output, the
  GitHub, publish, autoclean and test_after_scan commands, `safe_exec`, the
  feedback log and the credential and policy loading: all foreign calls or
  terminal plumbing.
- The external tools behind `run-tool`: their `run` is one oracle.
  `src/tools/__init__.py` is used only as a set of names.
- `RunWorkflow`: reading the workflow file and its `FileNotFoundError` belong
  to the host.
- `ToolManager.GetPlugin` returns the registered class rather than a fresh
  instance. Object identity is not modelled.
- `PromptEngine.BuildPrompt` takes a context of strings only. The `str()` of
  other values is not modelled. The templates are given already split at
  their `{key}` placeholders, so format-string parsing is not modelled.
- `Gamification.Award` models the `db.execute` call as a returned record.
  The printed messages and `grant_achievement` are left out.
- `AutoFix.SpliceReadBack` assumes a fix without `\r`, because the universal
  newline translation on reading is not modelled.
- The `print` in src/plugins/core.py:11 is left out.
- Integer widths: Python integers are unbounded, and so are the model's.
- Timeouts: the 10-second timeout of `requests.get` (src/main.py:60 and
  src/tools/subdomain_scanner.py:17) is not modelled on its own. A timeout is
  one way for the request parameter to answer `RequestFailed`.
- Concurrency: the only concurrency is the asyncio subprocess of
  `run_in_sandbox`, which is a parameter (`Spawn`).
- `Values.Value` has no floating-point numbers, and its objects have text keys
  only. A workflow step whose `config` has a non-text key makes
  `execute(**plugin_config)` raise `TypeError`, which the `try` at
  src/workflow_engine.py:29-40 catches; the model cannot express that config.
- `GithubToken.RoundTrip`, `GithubToken.EqualsTruncates` and
  `GithubToken.TrailingSpaceLost` are stated for tokens without `\r`;
  `GithubToken.CarriageReturnCutsToken` states what happens to a token with one.
- `WorkflowEngine.ExecuteWorkflow`, `WorkflowEngine.StepTransparent`: the
  host (`which` answers, the user's consent, the installer) is fixed for the
  whole run. In Python `shutil.which` sees what an earlier step installed and
  `click.confirm` asks again for each step, so a step that installed its
  dependencies and then failed changes what later steps do; the model does
  not capture that.
- `Security.ValidateUrl` leaves `ipaddress.ip_address` and NFKC normalisation
  as the `Stdlib` parameter. Its results hold for every answer they give, but
  it does not state which hosts really are IPv6 addresses.

## Findings

| source | as written | input that shows it | evidently intended | confidence | as-written member | corrected member |
|---|---|---|---|---|---|---|
| src/main.py:474 | the reply is stripped at line 449, which drops the fix's final newline, and its `splitlines(keepends=True)` is spliced in as is (the same at lines 648 and 671) | file lines `["a\n","b\n","c\n"]`, range 2-2, reply `"x\n"`: the file reads back as `["a\n","xc\n"]` | the fix's last line stays a line of its own, giving `["a\n","x\n","c\n"]` | not executed | AutoFix.MergedLineExample | AutoFix.SpliceReadBack |
