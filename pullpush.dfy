/** The `pullpush` command: an optional stash or auto-commit, a pull, a
    conflict check on the working tree, a push, and popping the stash on every
    way out.  The shell is an oracle that answers each command line given the
    calls made before it; the model records the trace of calls. */
module Pullpush {
  import opened Wrappers
  import opened PyStrings

  /** The git commands the controller can issue. */
  datatype GitCommand =
    | StatusPorcelain
    | StashPush
    | StashPop
    | AddAll
    | Commit(message: string)
    | StatusShort
    | Pull(rebase: bool)
    | Push(forceWithLease: bool)

  /** The command line handed to the shell for `cmd` on `branch`. */
  function Text(cmd: GitCommand, branch: string): string {
    match cmd
    case StatusPorcelain => "git status --porcelain"
    case StashPush => "git stash push --include-untracked"
    case StashPop => "git stash pop"
    case AddAll => "git add ."
    case Commit(m) => "git commit -m \"" + m + "\""
    case StatusShort => "git status --short"
    case Pull(rebase) => if rebase then "git pull --rebase origin " + branch else "git pull origin " + branch
    case Push(force) => "git push origin " + branch + (if force then " --force-with-lease" else "")
  }

  /** The pull and push command lines (lines 94-96 and 137-139). */
  lemma PullPushLines(branch: string)
    ensures Text(Pull(false), branch) == "git pull origin " + branch
    ensures Text(Pull(true), branch) == "git pull --rebase origin " + branch
    ensures Text(Push(false), branch) == "git push origin " + branch
    ensures Text(Push(true), branch) == Text(Push(false), branch) + " --force-with-lease"
    ensures Text(Pull(false), branch) != Text(Push(false), branch)
  {
    assert Text(Pull(false), branch)[6] == 'l' && Text(Push(false), branch)[6] == 's';
  }

  /** What the process reports, or the exception `subprocess.run` raised. */
  datatype RawRun = Finished(out: string, err: string, code: int) | Raised(message: string)

  /** The dictionary `run_shell_command` returns. */
  datatype ShellResult = ShellResult(stdout: string, stderr: string, returncode: int)

  /** `run_shell_command(cmd)`: both output streams stripped; an exception
      becomes exit status 1 with its message as stderr. */
  function RunShellCommand(raw: RawRun): (r: ShellResult)
    ensures raw.Raised? ==> r == ShellResult("", raw.message, 1)
    ensures raw.Finished? ==> r.returncode == raw.code && r.stdout == Strip(raw.out) && r.stderr == Strip(raw.err)
  {
    match raw
    case Finished(out, err, code) => ShellResult(Strip(out), Strip(err), code)
    case Raised(msg) => ShellResult("", msg, 1)
  }

  /** One entry of the trace: a command run through `execute_command`, one
      only announced in dry-run mode, or the direct status probe of line 110. */
  datatype Call =
    | Ran(cmd: GitCommand, result: ShellResult)
    | Simulated(cmd: GitCommand)
    | Probe(result: ShellResult)

  /** The shell: its answer to a command line, given the calls made so far. */
  type Shell = (seq<Call>, string) -> RawRun

  /** The command-line options. An absent or empty `--commit-message` is `""`. */
  datatype Flags = Flags(
    branch: string,
    autoCommit: bool,
    commitMessage: string,
    stash: bool,
    rebase: bool,
    forceWithLease: bool,
    verbose: bool,
    dryRun: bool,
    interactive: bool)

  const BothModesError: string := "Error: Cannot use --auto-commit and --stash together. Please choose one."
  const MessageWithoutCommitError: string := "Error: --commit-message can only be used with --auto-commit."
  const DefaultCommitMessage: string := "Auto-commit by bughunter-cli pullpush command"

  /** How the run ends. */
  datatype Outcome =
    | InvalidFlags(message: string)
    | StatusCheckFailed(stderr: string)
    | StashFailed(stderr: string)
    | StageFailed(stderr: string)
    | CommitFailed(stderr: string)
    | PullFailed(stderr: string)
    | StoppedForConflicts
    | PushSkipped
    | PushFailed(stderr: string)
    | Completed

  /** The working-tree status marks a conflict (line 112). */
  predicate HasConflictMarker(status: string) {
    Contains(status, "UU") || Contains(status, "DD") || Contains(status, "AA")
  }

  // ---------------------------------------------------------------------------
  // Properties of traces, each defined on the last call and the calls before it

  function Init(t: seq<Call>): seq<Call>
    requires t != []
  {
    t[..|t| - 1]
  }

  function Last(t: seq<Call>): Call
    requires t != []
  {
    t[|t| - 1]
  }

  predicate IsPop(c: Call) {
    !c.Probe? && c.cmd == StashPop
  }

  predicate IsPush(c: Call) {
    !c.Probe? && c.cmd.Push?
  }

  predicate IsCommit(c: Call) {
    !c.Probe? && c.cmd.Commit?
  }

  /** A pull that went through (or was only simulated). */
  predicate IsGoodPull(c: Call) {
    !c.Probe? && c.cmd.Pull? && (c.Simulated? || c.result.returncode == 0)
  }

  predicate IsGoodAdd(c: Call) {
    c.Ran? && c.cmd == AddAll && c.result.returncode == 0
  }

  predicate IsGoodStash(c: Call) {
    c.Ran? && c.cmd == StashPush && c.result.returncode == 0
  }

  predicate IsConflictProbe(c: Call) {
    c.Probe? && HasConflictMarker(c.result.stdout)
  }

  predicate IsPull(c: Call) {
    !c.Probe? && c.cmd.Pull?
  }

  /** What a call reported: its result, or the empty success a dry run
      announces. */
  function Reported(c: Call): ShellResult {
    if c.Simulated? then ShellResult("", "", 0) else c.result
  }

  /** What the latest pull call reported, if there was one. */
  function PullResult(t: seq<Call>): Option<ShellResult> {
    if t == [] then None
    else if IsPull(Last(t)) then Some(Reported(Last(t)))
    else PullResult(Init(t))
  }

  /** What the latest push call reported, if there was one. */
  function PushResult(t: seq<Call>): Option<ShellResult> {
    if t == [] then None
    else if IsPush(Last(t)) then Some(Reported(Last(t)))
    else PushResult(Init(t))
  }

  /** The calls after the latest push (all of them when there was none). */
  function AfterPush(t: seq<Call>): seq<Call> {
    if t == [] then []
    else if IsPush(Last(t)) then []
    else AfterPush(Init(t)) + [Last(t)]
  }

  /** The status listing of line 153. */
  predicate IsStatusShort(c: Call) {
    !c.Probe? && c.cmd == StatusShort
  }

  /** `t'` is `t` with more calls after it. */
  predicate Extends(t: seq<Call>, t': seq<Call>) {
    |t| <= |t'| && t'[..|t|] == t
  }

  lemma ExtendsTrans(a: seq<Call>, b: seq<Call>, c: seq<Call>)
    requires Extends(a, b) && Extends(b, c)
    ensures Extends(a, c) && forall i :: 0 <= i < |b| ==> c[i] == b[i]
  {
    assert c[..|a|] == c[..|b|][..|a|];
    forall i | 0 <= i < |b| ensures c[i] == b[i] {
      assert c[..|b|][i] == c[i];
    }
  }

  /** The exits reached once the pull was issued. */
  predicate Pulled(o: Outcome) {
    o.PullFailed? || o == StoppedForConflicts || o == PushSkipped || o.PushFailed? || o == Completed
  }

  /** How the run ended, read off its trace (lines 98-159): a pull was issued
      exactly on the exits after it; the pull failed exactly when it reported
      a non-zero status, whose stderr the outcome carries; the push was
      skipped or stopped exactly when a probe showed a conflict, stopped when
      `interactive`; a good pull and no conflict always lead to a push; the
      push failed, with its stderr, exactly when it reported a non-zero status,
      and then only the stash pop follows it; otherwise the run completed,
      and after the push come the status listing when verbose and the pop
      when something was stashed. */
  predicate EndsAsReported(f: Flags, t: seq<Call>, o: Outcome, stashed: bool) {
    && (Pulled(o) <==> PullResult(t).Some?)
    && (o.PullFailed? <==> PullResult(t).Some? && PullResult(t).value.returncode != 0)
    && (o.PullFailed? ==> o.stderr == PullResult(t).value.stderr)
    && (o == StoppedForConflicts || o == PushSkipped <==> ConflictIn(t))
    && (o == StoppedForConflicts <==> ConflictIn(t) && f.interactive)
    && (PullResult(t).Some? && PullResult(t).value.returncode == 0 && !ConflictIn(t) ==> PushResult(t).Some?)
    && (o.PushFailed? <==> PushResult(t).Some? && PushResult(t).value.returncode != 0)
    && (o.PushFailed? ==> o.stderr == PushResult(t).value.stderr && |AfterPush(t)| == (if stashed then 1 else 0))
    && (o == Completed <==> PushResult(t).Some? && PushResult(t).value.returncode == 0)
    && (o == Completed ==>
          |AfterPush(t)| == (if f.verbose then 1 else 0) + (if stashed then 1 else 0) &&
          (f.verbose ==> IsStatusShort(AfterPush(t)[0])))
  }

  /** The exit a failing preparation command takes (lines 42-45, 50-53,
      73-76 and 80-83), carrying that command's stderr. */
  function FailureOf(cmd: GitCommand, stderr: string): Option<Outcome> {
    match cmd
    case StatusPorcelain => Some(StatusCheckFailed(stderr))
    case StashPush => Some(StashFailed(stderr))
    case AddAll => Some(StageFailed(stderr))
    case Commit(_) => Some(CommitFailed(stderr))
    case _ => None
  }

  /** How a run that stopped before the pull ended: its latest call is the
      status check, stash, add or commit the outcome names; that call
      reported a non-zero status whose stderr the outcome carries; and every
      call before it reported success. */
  predicate StoppedAt(t: seq<Call>, o: Outcome) {
    && t != [] && !Last(t).Probe?
    && Reported(Last(t)).returncode != 0
    && FailureOf(Last(t).cmd, Reported(Last(t)).stderr) == Some(o)
    && AllSucceeded(Init(t))
  }

  /** Every call of `t` reported status 0. */
  predicate AllSucceeded(t: seq<Call>) {
    forall i :: 0 <= i < |t| ==> Reported(t[i]).returncode == 0
  }

  /** The calls of the stash step (lines 39-57): the status check first,
      then the stash push exactly when the check succeeded and reported
      changes. */
  predicate StashSteps(t: seq<Call>) {
    && 1 <= |t| <= 2 && !t[0].Probe? && t[0].cmd == StatusPorcelain
    && (|t| == 2 <==> Reported(t[0]).returncode == 0 && Strip(Reported(t[0]).stdout) != "")
    && (|t| == 2 ==> t[1] == Ran(StashPush, Reported(t[1])))
  }

  /** The calls of the auto-commit step (lines 58-86): the status check
      first, then `git add .` exactly when the check succeeded and reported
      changes, then the commit with `message` exactly when the add
      succeeded. */
  predicate CommitSteps(t: seq<Call>, message: string) {
    && 1 <= |t| <= 3 && !t[0].Probe? && t[0].cmd == StatusPorcelain
    && (|t| > 1 <==> Reported(t[0]).returncode == 0 && Strip(Reported(t[0]).stdout) != "")
    && (|t| > 1 ==> t[1] == Ran(AddAll, Reported(t[1])))
    && (|t| == 3 <==> |t| > 1 && Reported(t[1]).returncode == 0)
    && (|t| == 3 ==> t[2] == Ran(Commit(message), Reported(t[2])))
  }

  /** What a run that reaches the pull has done before it (lines 38-91): the
      stash or auto-commit step chosen by the flags (nothing without either),
      every call of it successful, then the status listing when verbose. */
  predicate Prepared(f: Flags, message: string, t: seq<Call>) {
    && (f.verbose ==> t != [] && IsStatusShort(Last(t)))
    && var saved := if f.verbose && t != [] then Init(t) else t;
    && AllSucceeded(saved)
    && (f.stash ==> StashSteps(saved))
    && (f.autoCommit ==> CommitSteps(saved, message))
    && (!f.stash && !f.autoCommit ==> saved == [])
  }

  /** The calls made before the first pull, or all of them when there was
      no pull. */
  function BeforePull(t: seq<Call>): (r: seq<Call>)
    ensures |r| <= |t| && r == t[..|r|]
  {
    if t == [] then []
    else if PullResult(Init(t)).Some? then BeforePull(Init(t))
    else if IsPull(Last(t)) then Init(t)
    else t
  }

  /** Once a pull was issued, later calls do not change what came before it. */
  lemma {:induction false} BeforePullKept(a: seq<Call>, b: seq<Call>)
    requires Extends(a, b) && PullResult(a).Some?
    ensures PullResult(b).Some? && BeforePull(b) == BeforePull(a)
    decreases |b|
  {
    if |b| > |a| {
      assert Extends(a, Init(b)) by {
        assert Init(b)[..|a|] == b[..|a|];
      }
      BeforePullKept(a, Init(b));
    } else {
      assert b == b[..|a|];
    }
  }

  /** A failing call after calls that all succeeded is a stop there. */
  lemma StopAfter(t: seq<Call>, c: Call, o: Outcome)
    requires AllSucceeded(t) && !c.Probe? && Reported(c).returncode != 0
    requires FailureOf(c.cmd, Reported(c).stderr) == Some(o)
    ensures StoppedAt(t + [c], o)
  {
    assert Init(t + [c]) == t;
  }

  lemma SucceededAfter(t: seq<Call>, c: Call)
    requires AllSucceeded(t) && Reported(c).returncode == 0
    ensures AllSucceeded(t + [c])
  {
    assert forall i :: 0 <= i < |t| ==> (t + [c])[i] == t[i];
  }

  /** The paths printed for the latest probe when it showed a conflict
      (lines 112-119), and none otherwise. */
  function ListedConflicts(t: seq<Call>): seq<string> {
    if t == [] then []
    else if Last(t).Probe? then
      (if HasConflictMarker(Last(t).result.stdout) then ConflictFiles(SplitLines(Last(t).result.stdout)) else [])
    else ListedConflicts(Init(t))
  }

  /** A call other than a probe leaves the listed paths as they are. */
  lemma ListedSnoc(t: seq<Call>, c: Call)
    requires !c.Probe?
    ensures ListedConflicts(t + [c]) == ListedConflicts(t)
  {
    assert Init(t + [c]) == t;
  }

  /** Paths are listed only after a probe that showed a conflict. */
  lemma {:induction false} ListedNeedsConflict(t: seq<Call>)
    ensures ListedConflicts(t) != [] ==> ConflictIn(t)
    decreases |t|
  {
    if t != [] && !Last(t).Probe? {
      ListedNeedsConflict(Init(t));
    }
  }

  /** The number of `git stash pop` calls. */
  function Pops(t: seq<Call>): nat {
    if t == [] then 0 else Pops(Init(t)) + (if IsPop(Last(t)) then 1 else 0)
  }

  /** The number of push calls. */
  function Pushes(t: seq<Call>): nat {
    if t == [] then 0 else Pushes(Init(t)) + (if IsPush(Last(t)) then 1 else 0)
  }

  predicate PullOkIn(t: seq<Call>) {
    t != [] && (PullOkIn(Init(t)) || IsGoodPull(Last(t)))
  }

  predicate ConflictIn(t: seq<Call>) {
    t != [] && (ConflictIn(Init(t)) || IsConflictProbe(Last(t)))
  }

  predicate StashPushed(t: seq<Call>) {
    t != [] && (StashPushed(Init(t)) || IsGoodStash(Last(t)))
  }

  /** Every push comes after a successful pull and after no conflicting status. */
  predicate PushesGuarded(t: seq<Call>) {
    t == [] || (PushesGuarded(Init(t)) && (IsPush(Last(t)) ==> PullOkIn(Init(t)) && !ConflictIn(Init(t))))
  }

  /** Every commit comes right after a `git add .` that succeeded, and carries
      the chosen message. */
  predicate CommitsStaged(t: seq<Call>, message: string) {
    t == [] || (CommitsStaged(Init(t), message) &&
      (IsCommit(Last(t)) ==> Last(t).cmd.message == message && Init(t) != [] && IsGoodAdd(Last(Init(t)))))
  }

  /** A call agrees with the shell: what ran got the oracle's answer to its
      command line given the calls before it, and nothing ran in a dry run. */
  predicate Agrees(f: Flags, shell: Shell, before: seq<Call>, c: Call) {
    match c
    case Ran(cmd, res) => !f.dryRun && res == RunShellCommand(shell(before, Text(cmd, f.branch)))
    case Probe(res) => !f.dryRun && res == RunShellCommand(shell(before, Text(StatusPorcelain, f.branch)))
    case Simulated(_) => f.dryRun
  }

  predicate Consistent(f: Flags, shell: Shell, t: seq<Call>) {
    t == [] || (Consistent(f, shell, Init(t)) && Agrees(f, shell, Init(t), Last(t)))
  }

  /** All trace properties of `t + [c]` in terms of those of `t`. */
  lemma Snoc(f: Flags, shell: Shell, t: seq<Call>, c: Call, message: string)
    ensures Init(t + [c]) == t && Last(t + [c]) == c
    ensures Consistent(f, shell, t + [c]) <==> Consistent(f, shell, t) && Agrees(f, shell, t, c)
    ensures Pops(t + [c]) == Pops(t) + (if IsPop(c) then 1 else 0)
    ensures Pushes(t + [c]) == Pushes(t) + (if IsPush(c) then 1 else 0)
    ensures PullOkIn(t + [c]) <==> PullOkIn(t) || IsGoodPull(c)
    ensures ConflictIn(t + [c]) <==> ConflictIn(t) || IsConflictProbe(c)
    ensures StashPushed(t + [c]) <==> StashPushed(t) || IsGoodStash(c)
    ensures PushesGuarded(t + [c]) <==> PushesGuarded(t) && (IsPush(c) ==> PullOkIn(t) && !ConflictIn(t))
    ensures CommitsStaged(t + [c], message) <==>
      CommitsStaged(t, message) && (IsCommit(c) ==> c.cmd.message == message && t != [] && IsGoodAdd(Last(t)))
    ensures PullResult(t + [c]) == if IsPull(c) then Some(Reported(c)) else PullResult(t)
    ensures PushResult(t + [c]) == if IsPush(c) then Some(Reported(c)) else PushResult(t)
    ensures AfterPush(t + [c]) == if IsPush(c) then [] else AfterPush(t) + [c]
  {
    assert (t + [c])[..|t|] == t;
  }

  /** What `Consistent` means call by call. */
  lemma {:induction false} ConsistentAt(f: Flags, shell: Shell, t: seq<Call>, i: nat)
    requires Consistent(f, shell, t) && i < |t|
    ensures Agrees(f, shell, t[..i], t[i])
    decreases |t|
  {
    if i < |t| - 1 {
      ConsistentAt(f, shell, Init(t), i);
      assert Init(t)[..i] == t[..i];
    }
  }

  /** What `PushesGuarded` means push by push: an earlier good pull, and no
      conflicting status before it. */
  lemma {:induction false} PushGuardedAt(t: seq<Call>, i: nat)
    requires PushesGuarded(t) && i < |t| && IsPush(t[i])
    ensures exists j :: 0 <= j < i && IsGoodPull(t[j])
    ensures forall j :: 0 <= j < i ==> !IsConflictProbe(t[j])
    decreases |t|
  {
    if i < |t| - 1 {
      PushGuardedAt(Init(t), i);
    } else {
      PullOkInMeans(Init(t));
      ConflictInMeans(Init(t));
    }
  }

  lemma {:induction false} PullOkInMeans(t: seq<Call>)
    ensures PullOkIn(t) <==> exists j :: 0 <= j < |t| && IsGoodPull(t[j])
    decreases |t|
  {
    if t != [] {
      PullOkInMeans(Init(t));
      if PullOkIn(Init(t)) {
        var j :| 0 <= j < |Init(t)| && IsGoodPull(Init(t)[j]);
        assert t[j] == Init(t)[j];
      }
      if exists j :: 0 <= j < |t| && IsGoodPull(t[j]) {
        var j :| 0 <= j < |t| && IsGoodPull(t[j]);
        if j < |t| - 1 {
          assert Init(t)[j] == t[j];
        }
      }
    }
  }

  lemma {:induction false} ConflictInMeans(t: seq<Call>)
    ensures ConflictIn(t) <==> exists j :: 0 <= j < |t| && IsConflictProbe(t[j])
    decreases |t|
  {
    if t != [] {
      ConflictInMeans(Init(t));
      if ConflictIn(Init(t)) {
        var j :| 0 <= j < |Init(t)| && IsConflictProbe(Init(t)[j]);
        assert t[j] == Init(t)[j];
      }
      if exists j :: 0 <= j < |t| && IsConflictProbe(t[j]) {
        var j :| 0 <= j < |t| && IsConflictProbe(t[j]);
        if j < |t| - 1 {
          assert Init(t)[j] == t[j];
        }
      }
    }
  }

  /** Everything a dry run announces, in order (lines 26-28): the status
      check when stashing or auto-committing, the pull, the push and, when
      verbose, the status before the pull and after the push. */
  function DryRunPlan(f: Flags): seq<Call> {
    DryRunPrefix(f) + DryRunSuffix(f)
  }

  /** The part of `DryRunPlan` from the pull on. */
  function DryRunSuffix(f: Flags): seq<Call> {
    [Simulated(Pull(f.rebase))] + DryRunPush(f)
  }

  /** The part of `DryRunPlan` from the push on. */
  function DryRunPush(f: Flags): seq<Call> {
    [Simulated(Push(f.forceWithLease))] + (if f.verbose then [Simulated(StatusShort)] else [])
  }

  /** The part of `DryRunPlan` announced before the pull. */
  function DryRunPrefix(f: Flags): seq<Call> {
    (if f.stash || f.autoCommit then [Simulated(StatusPorcelain)] else [])
    + (if f.verbose then [Simulated(StatusShort)] else [])
  }

  /** The option combinations lines 16-21 accept. */
  predicate ValidFlags(f: Flags) {
    !(f.autoCommit && f.stash) && !(f.commitMessage != "" && !f.autoCommit)
  }

  // ---------------------------------------------------------------------------
  // The controller

  /** The `execute_command` closure (lines 25-36): in a dry run the command is
      only announced and succeeds with empty output; otherwise it is run. */
  method ExecuteCommand(f: Flags, shell: Shell, t: seq<Call>, cmd: GitCommand) returns (res: ShellResult, t': seq<Call>)
    ensures f.dryRun ==> res == ShellResult("", "", 0) && t' == t + [Simulated(cmd)]
    ensures !f.dryRun ==> res == RunShellCommand(shell(t, Text(cmd, f.branch))) && t' == t + [Ran(cmd, res)]
    ensures t' != [] && Init(t') == t && Agrees(f, shell, t, Last(t')) && !Last(t').Probe? && Last(t').cmd == cmd
    ensures Reported(Last(t')) == res
  {
    if f.dryRun {
      res := ShellResult("", "", 0);
      t' := t + [Simulated(cmd)];
    } else {
      res := RunShellCommand(shell(t, Text(cmd, f.branch)));
      t' := t + [Ran(cmd, res)];
    }
    assert t'[..|t|] == t;
  }

  /** `pullpush(...)`. Returns the trace of calls, how it ended, whether a
      stash was pushed, and the conflicting paths it listed. */
  method RunPullpush(f: Flags, shell: Shell)
    returns (trace: seq<Call>, outcome: Outcome, stashed: bool, conflicting: seq<string>)
    ensures !ValidFlags(f) <==> outcome.InvalidFlags?
    ensures !ValidFlags(f) ==> trace == []
    ensures Consistent(f, shell, trace)
    ensures stashed <==> StashPushed(trace)
    ensures Pops(trace) == if stashed then 1 else 0
    ensures stashed ==> IsPop(Last(trace))
    ensures PushesGuarded(trace)
    ensures Pushes(trace) == if outcome == Completed || outcome.PushFailed? then 1 else 0
    ensures CommitsStaged(trace, if f.commitMessage != "" then f.commitMessage else DefaultCommitMessage)
    ensures f.dryRun && ValidFlags(f) ==> trace == DryRunPlan(f) && outcome == Completed && !stashed
    ensures conflicting != [] ==> ConflictIn(trace)
    ensures conflicting == ListedConflicts(trace)
    ensures EndsAsReported(f, trace, outcome, stashed)
    ensures ValidFlags(f) && PullResult(trace) == None ==> StoppedAt(trace, outcome)
    ensures ValidFlags(f) && !f.stash && !f.autoCommit ==> PullResult(trace).Some?
    ensures ValidFlags(f) && PullResult(trace).Some? ==>
      Prepared(f, if f.commitMessage != "" then f.commitMessage else DefaultCommitMessage, BeforePull(trace))
    ensures ValidFlags(f) && PullResult(trace) == None ==>
      && (f.stash ==> StashSteps(trace))
      && (f.autoCommit ==> CommitSteps(trace, if f.commitMessage != "" then f.commitMessage else DefaultCommitMessage))
  {
    trace := [];
    stashed := false;
    conflicting := [];
    if f.autoCommit && f.stash {
      outcome := InvalidFlags(BothModesError);
      return;
    }
    if f.commitMessage != "" && !f.autoCommit {
      outcome := InvalidFlags(MessageWithoutCommitError);
      return;
    }
    trace, outcome, stashed, conflicting := RunChecked(f, shell);
  }

  /** Lines 38-108 once the flags were accepted: prepare, then pull and push. */
  method RunChecked(f: Flags, shell: Shell)
    returns (trace: seq<Call>, outcome: Outcome, stashed: bool, conflicting: seq<string>)
    requires ValidFlags(f)
    ensures !outcome.InvalidFlags?
    ensures Consistent(f, shell, trace)
    ensures stashed <==> StashPushed(trace)
    ensures Pops(trace) == if stashed then 1 else 0
    ensures stashed ==> IsPop(Last(trace))
    ensures PushesGuarded(trace)
    ensures Pushes(trace) == if outcome == Completed || outcome.PushFailed? then 1 else 0
    ensures CommitsStaged(trace, if f.commitMessage != "" then f.commitMessage else DefaultCommitMessage)
    ensures f.dryRun ==> trace == DryRunPlan(f) && outcome == Completed && !stashed
    ensures conflicting != [] ==> ConflictIn(trace)
    ensures conflicting == ListedConflicts(trace)
    ensures EndsAsReported(f, trace, outcome, stashed)
    ensures PullResult(trace) == None ==> StoppedAt(trace, outcome)
    ensures !f.stash && !f.autoCommit ==> PullResult(trace).Some?
    ensures PullResult(trace).Some? ==>
      Prepared(f, if f.commitMessage != "" then f.commitMessage else DefaultCommitMessage, BeforePull(trace))
    ensures PullResult(trace) == None ==>
      && (f.stash ==> StashSteps(trace))
      && (f.autoCommit ==> CommitSteps(trace, if f.commitMessage != "" then f.commitMessage else DefaultCommitMessage))
  {
    var message := if f.commitMessage != "" then f.commitMessage else DefaultCommitMessage;
    var stop;
    trace, stop, stashed := Prepare(f, shell, message);
    conflicting := [];
    if stop.Some? {
      outcome := stop.value;
      ListedNeedsConflict(trace);
      return;
    }
    var t0 := trace;
    trace, outcome, conflicting := PullAndPush(f, shell, t0, stashed, message);
  }

  /** Lines 38-91: the stash or auto-commit step, then the optional status
      listing.  `stop` is the exit taken, if any; no stash is pushed on such
      an exit. */
  method Prepare(f: Flags, shell: Shell, message: string)
    returns (trace: seq<Call>, stop: Option<Outcome>, stashed: bool)
    requires ValidFlags(f)
    ensures Consistent(f, shell, trace)
    ensures stashed <==> StashPushed(trace)
    ensures stashed ==> !f.dryRun
    ensures stop.Some? ==> !stashed && (stop.value.StatusCheckFailed? || stop.value.StashFailed? || stop.value.StageFailed? || stop.value.CommitFailed?)
    ensures Pops(trace) == 0 && Pushes(trace) == 0 && !PullOkIn(trace) && !ConflictIn(trace)
    ensures PushesGuarded(trace) && CommitsStaged(trace, message)
    ensures PullResult(trace) == None && PushResult(trace) == None
    ensures f.dryRun ==> stop == None && trace == DryRunPrefix(f)
    ensures stop == None && f.verbose ==> trace != [] && IsStatusShort(Last(trace))
    ensures stop.Some? ==> StoppedAt(trace, stop.value)
    ensures stop == None ==> AllSucceeded(trace[..|trace| - if f.verbose then 1 else 0])
    ensures !f.stash && !f.autoCommit ==> stop == None && |trace| == if f.verbose then 1 else 0
    ensures stop == None ==> Prepared(f, message, trace)
    ensures stop.Some? ==> (f.stash ==> StashSteps(trace)) && (f.autoCommit ==> CommitSteps(trace, message))
  {
    var before;
    before, stop, stashed := SaveChanges(f, shell, message);
    if stop.Some? {
      trace := before;
      return;
    }
    trace := StatusBeforePull(f, shell, before, message);
    PreparedAfterListing(f, message, before, trace);
  }

  /** The steps that saved the changes, followed by the listing when
      verbose, are what `Prepared` describes. */
  lemma PreparedAfterListing(f: Flags, message: string, saved: seq<Call>, t: seq<Call>)
    requires AllSucceeded(saved)
    requires f.stash ==> StashSteps(saved)
    requires f.autoCommit ==> CommitSteps(saved, message)
    requires !f.stash && !f.autoCommit ==> saved == []
    requires !f.verbose ==> t == saved
    requires f.verbose ==> |t| == |saved| + 1 && Init(t) == saved && IsStatusShort(Last(t))
    ensures t[..|t| - if f.verbose then 1 else 0] == saved
    ensures Prepared(f, message, t)
  {
  }

  /** Lines 38-87: stash the changes with `--stash`, commit them with
      `--auto-commit`, and do nothing otherwise. */
  method SaveChanges(f: Flags, shell: Shell, message: string)
    returns (trace: seq<Call>, stop: Option<Outcome>, stashed: bool)
    requires ValidFlags(f)
    ensures Consistent(f, shell, trace)
    ensures stashed <==> StashPushed(trace)
    ensures stashed ==> !f.dryRun && stop == None
    ensures stop.Some? ==> stop.value.StatusCheckFailed? || stop.value.StashFailed? || stop.value.StageFailed? || stop.value.CommitFailed?
    ensures Pops(trace) == 0 && Pushes(trace) == 0 && !PullOkIn(trace) && !ConflictIn(trace)
    ensures PushesGuarded(trace) && CommitsStaged(trace, message)
    ensures PullResult(trace) == None && PushResult(trace) == None
    ensures f.dryRun ==> stop == None && trace == if f.stash || f.autoCommit then [Simulated(StatusPorcelain)] else []
    ensures stop.Some? ==> StoppedAt(trace, stop.value)
    ensures stop == None ==> AllSucceeded(trace)
    ensures !f.stash && !f.autoCommit ==> stop == None && trace == []
    ensures f.stash ==> StashSteps(trace)
    ensures f.autoCommit ==> CommitSteps(trace, message)
  {
    trace, stop, stashed := [], None, false;
    if f.stash {
      trace, stop, stashed := StashChanges(f, shell, message);
    } else if f.autoCommit {
      trace, stop := AutoCommit(f, shell, message);
    }
  }

  /** Lines 88-91: the status listing before the pull, when verbose. */
  method StatusBeforePull(f: Flags, shell: Shell, t: seq<Call>, message: string) returns (t': seq<Call>)
    ensures !f.verbose ==> t' == t
    ensures f.verbose ==> |t'| == |t| + 1 && Init(t') == t && IsStatusShort(Last(t')) && Agrees(f, shell, t, Last(t'))
    ensures f.dryRun && f.verbose ==> t' == t + [Simulated(StatusShort)]
    ensures Consistent(f, shell, t') <==> Consistent(f, shell, t)
    ensures CommitsStaged(t', message) <==> CommitsStaged(t, message)
    ensures PushesGuarded(t') <==> PushesGuarded(t)
    ensures StashPushed(t') <==> StashPushed(t)
    ensures ConflictIn(t') <==> ConflictIn(t)
    ensures PullOkIn(t') <==> PullOkIn(t)
    ensures Pushes(t') == Pushes(t) && Pops(t') == Pops(t)
    ensures PullResult(t') == PullResult(t) && PushResult(t') == PushResult(t)
  {
    t' := t;
    if f.verbose {
      var res;
      res, t' := ExecuteCommand(f, shell, t, StatusShort);
      Snoc(f, shell, t, Last(t'), message);
    }
  }

  /** Lines 39-57: stash the changes `git status --porcelain` reports. */
  method StashChanges(f: Flags, shell: Shell, message: string)
    returns (trace: seq<Call>, stop: Option<Outcome>, stashed: bool)
    ensures Consistent(f, shell, trace)
    ensures stashed <==> StashPushed(trace)
    ensures stashed ==> !f.dryRun && stop == None
    ensures stop.Some? ==> stop.value.StatusCheckFailed? || stop.value.StashFailed?
    ensures Pops(trace) == 0 && Pushes(trace) == 0 && !PullOkIn(trace) && !ConflictIn(trace)
    ensures PushesGuarded(trace) && CommitsStaged(trace, message)
    ensures PullResult(trace) == None && PushResult(trace) == None
    ensures f.dryRun ==> stop == None && trace == [Simulated(StatusPorcelain)]
    ensures StashSteps(trace)
    ensures (stop.Some? && stop.value.StatusCheckFailed?) <==> Reported(trace[0]).returncode != 0
    ensures stop.Some? && stop.value.StatusCheckFailed? ==> stop.value.stderr == Reported(trace[0]).stderr
    ensures |trace| == 2 ==> (stashed <==> Reported(trace[1]).returncode == 0)
    ensures (stop.Some? && stop.value.StashFailed?) <==> |trace| == 2 && Reported(trace[1]).returncode != 0
    ensures stop.Some? && stop.value.StashFailed? ==> stop.value.stderr == Reported(trace[1]).stderr
    ensures stop.Some? ==> StoppedAt(trace, stop.value)
    ensures stop == None ==> AllSucceeded(trace)
  {
    stashed, stop := false, None;
    var status;
    status, trace := ExecuteCommand(f, shell, [], StatusPorcelain);
    Snoc(f, shell, [], Last(trace), message);
    if status.returncode != 0 {
      stop := Some(StatusCheckFailed(status.stderr));
      StopAfter([], Last(trace), stop.value);
      return;
    }
    SucceededAfter([], Last(trace));
    if f.dryRun {
      assert Strip(status.stdout) == "";
      return;
    }
    if Strip(status.stdout) != "" {
      var before := trace;
      var res;
      res, trace := ExecuteCommand(f, shell, trace, StashPush);
      Snoc(f, shell, before, Last(trace), message);
      if res.returncode != 0 {
        stop := Some(StashFailed(res.stderr));
        StopAfter(before, Last(trace), stop.value);
        return;
      }
      SucceededAfter(before, Last(trace));
      stashed := true;
    }
  }

  /** Lines 58-86: stage and commit the changes `git status --porcelain`
      reports, with the chosen message. */
  method AutoCommit(f: Flags, shell: Shell, message: string)
    returns (trace: seq<Call>, stop: Option<Outcome>)
    ensures Consistent(f, shell, trace)
    ensures !StashPushed(trace)
    ensures stop.Some? ==> stop.value.StatusCheckFailed? || stop.value.StageFailed? || stop.value.CommitFailed?
    ensures Pops(trace) == 0 && Pushes(trace) == 0 && !PullOkIn(trace) && !ConflictIn(trace)
    ensures PushesGuarded(trace) && CommitsStaged(trace, message)
    ensures PullResult(trace) == None && PushResult(trace) == None
    ensures f.dryRun ==> stop == None && trace == [Simulated(StatusPorcelain)]
    ensures CommitSteps(trace, message)
    ensures (stop.Some? && stop.value.StatusCheckFailed?) <==> Reported(trace[0]).returncode != 0
    ensures stop.Some? && stop.value.StatusCheckFailed? ==> stop.value.stderr == Reported(trace[0]).stderr
    ensures (stop.Some? && stop.value.StageFailed?) <==> |trace| > 1 && Reported(trace[1]).returncode != 0
    ensures (stop.Some? && stop.value.CommitFailed?) <==> |trace| == 3 && Reported(trace[2]).returncode != 0
    ensures stop.Some? ==> StoppedAt(trace, stop.value)
    ensures stop == None ==> AllSucceeded(trace)
  {
    stop := None;
    var status;
    status, trace := ExecuteCommand(f, shell, [], StatusPorcelain);
    Snoc(f, shell, [], Last(trace), message);
    if status.returncode != 0 {
      stop := Some(StatusCheckFailed(status.stderr));
      StopAfter([], Last(trace), stop.value);
      return;
    }
    SucceededAfter([], Last(trace));
    if f.dryRun {
      assert Strip(status.stdout) == "";
      return;
    }
    if Strip(status.stdout) != "" {
      trace, stop := StageAndCommit(f, shell, trace, message);
    }
  }

  /** Lines 71-84: `git add .`, then the commit with the chosen message when
      the add went through; each failure stops with its own outcome. */
  method StageAndCommit(f: Flags, shell: Shell, t1: seq<Call>, message: string)
    returns (trace: seq<Call>, stop: Option<Outcome>)
    requires !f.dryRun && Consistent(f, shell, t1) && AllSucceeded(t1)
    requires !StashPushed(t1) && Pops(t1) == 0 && Pushes(t1) == 0 && !PullOkIn(t1) && !ConflictIn(t1)
    requires PushesGuarded(t1) && CommitsStaged(t1, message) && PullResult(t1) == None && PushResult(t1) == None
    ensures Consistent(f, shell, trace)
    ensures !StashPushed(trace) && Pops(trace) == 0 && Pushes(trace) == 0 && !PullOkIn(trace) && !ConflictIn(trace)
    ensures PushesGuarded(trace) && CommitsStaged(trace, message)
    ensures PullResult(trace) == None && PushResult(trace) == None
    ensures |t1| < |trace| <= |t1| + 2 && trace[..|t1|] == t1
    ensures trace[|t1|] == Ran(AddAll, Reported(trace[|t1|]))
    ensures (stop.Some? && stop.value.StageFailed?) <==> Reported(trace[|t1|]).returncode != 0
    ensures |trace| == |t1| + 2 <==> Reported(trace[|t1|]).returncode == 0
    ensures |trace| == |t1| + 2 ==> trace[|t1| + 1] == Ran(Commit(message), Reported(trace[|t1| + 1]))
    ensures (stop.Some? && stop.value.CommitFailed?) <==> |trace| == |t1| + 2 && Reported(trace[|t1| + 1]).returncode != 0
    ensures stop.Some? ==> stop.value.StageFailed? || stop.value.CommitFailed?
    ensures stop.Some? ==> StoppedAt(trace, stop.value)
    ensures stop == None ==> AllSucceeded(trace)
  {
    stop := None;
    var res;
    res, trace := IssuePrep(f, shell, t1, AddAll, message);
    if res.returncode != 0 {
      stop := Some(StageFailed(res.stderr));
      return;
    }
    var t2 := trace;
    res, trace := IssuePrep(f, shell, t2, Commit(message), message);
    assert trace[..|t1|] == t1 && trace[|t1|] == t2[|t1|];
    if res.returncode != 0 {
      stop := Some(CommitFailed(res.stderr));
    }
  }

  /** One preparation command (lines 41, 49, 72 and 79): the next call, which
      leaves every property of the trace as it was except for a stash that
      went through, and after calls that all succeeded either keeps that so
      or is a stop at this call. */
  method IssuePrep(f: Flags, shell: Shell, t: seq<Call>, cmd: GitCommand, message: string)
    returns (res: ShellResult, t': seq<Call>)
    requires cmd == StatusPorcelain || cmd == StashPush || cmd == AddAll || cmd == Commit(message)
    requires cmd.Commit? ==> t != [] && IsGoodAdd(Last(t))
    requires Consistent(f, shell, t) && PushesGuarded(t) && CommitsStaged(t, message)
    ensures t' == t + [if f.dryRun then Simulated(cmd) else Ran(cmd, res)]
    ensures f.dryRun ==> res == ShellResult("", "", 0)
    ensures Reported(Last(t')) == res && Init(t') == t && |t'| == |t| + 1
    ensures Consistent(f, shell, t') && PushesGuarded(t') && CommitsStaged(t', message)
    ensures Pops(t') == Pops(t) && Pushes(t') == Pushes(t)
    ensures (PullOkIn(t') <==> PullOkIn(t)) && (ConflictIn(t') <==> ConflictIn(t))
    ensures StashPushed(t') <==> StashPushed(t) || (cmd == StashPush && !f.dryRun && res.returncode == 0)
    ensures PullResult(t') == PullResult(t) && PushResult(t') == PushResult(t)
    ensures AllSucceeded(t) && res.returncode == 0 ==> AllSucceeded(t')
    ensures AllSucceeded(t) && res.returncode != 0 ==> StoppedAt(t', FailureOf(cmd, res.stderr).value)
  {
    res, t' := ExecuteCommand(f, shell, t, cmd);
    Snoc(f, shell, t, Last(t'), message);
    if AllSucceeded(t) {
      if res.returncode == 0 {
        SucceededAfter(t, Last(t'));
      } else {
        StopAfter(t, Last(t'), FailureOf(cmd, res.stderr).value);
      }
    }
  }

  /** Lines 93-159: pull, the conflict probe, push, and the stash pop on every
      exit once something was stashed. */
  method PullAndPush(f: Flags, shell: Shell, t0: seq<Call>, stashed: bool, message: string)
    returns (trace: seq<Call>, outcome: Outcome, conflicting: seq<string>)
    requires Consistent(f, shell, t0) && PushesGuarded(t0) && CommitsStaged(t0, message)
    requires Pops(t0) == 0 && Pushes(t0) == 0 && !PullOkIn(t0) && !ConflictIn(t0)
    requires PullResult(t0) == None && PushResult(t0) == None
    requires stashed ==> !f.dryRun
    ensures Consistent(f, shell, trace)
    ensures StashPushed(trace) <==> StashPushed(t0)
    ensures Pops(trace) == if stashed then 1 else 0
    ensures stashed ==> IsPop(Last(trace))
    ensures PushesGuarded(trace) && CommitsStaged(trace, message)
    ensures Pushes(trace) == if outcome == Completed || outcome.PushFailed? then 1 else 0
    ensures Pulled(outcome) && EndsAsReported(f, trace, outcome, stashed)
    ensures f.dryRun ==> outcome == Completed && trace == t0 + DryRunSuffix(f)
    ensures conflicting != [] ==> ConflictIn(trace)
    ensures conflicting == ListedConflicts(trace)
    ensures BeforePull(trace) == t0
  {
    var pull, t1 := IssuePull(f, shell, t0, message);
    if pull.returncode != 0 {
      trace, outcome, conflicting := PullFailedExit(f, shell, t1, stashed, message, pull.stderr);
      ListedNeedsConflict(trace);
      BeforePullKept(t1, trace);
      return;
    }
    trace, outcome, conflicting := ProbeAndPush(f, shell, t1, stashed, message);
    BeforePullKept(t1, trace);
    if f.dryRun {
      assert trace == t0 + DryRunSuffix(f) by {
        assert trace == t0 + [Simulated(Pull(f.rebase))] + DryRunPush(f);
      }
    }
  }

  /** Line 98: the pull, with what it leaves for the rest of the run. */
  method IssuePull(f: Flags, shell: Shell, t0: seq<Call>, message: string) returns (pull: ShellResult, t1: seq<Call>)
    requires Consistent(f, shell, t0) && PushesGuarded(t0) && CommitsStaged(t0, message)
    requires Pops(t0) == 0 && Pushes(t0) == 0 && !PullOkIn(t0) && !ConflictIn(t0)
    requires PullResult(t0) == None && PushResult(t0) == None
    ensures Consistent(f, shell, t1) && PushesGuarded(t1) && CommitsStaged(t1, message)
    ensures Pops(t1) == 0 && Pushes(t1) == 0 && !ConflictIn(t1) && (PullOkIn(t1) <==> pull.returncode == 0)
    ensures StashPushed(t1) <==> StashPushed(t0)
    ensures PullResult(t1) == Some(pull) && PushResult(t1) == None
    ensures f.dryRun ==> pull.returncode == 0 && t1 == t0 + [Simulated(Pull(f.rebase))]
    ensures Extends(t0, t1) && BeforePull(t1) == t0
  {
    pull, t1 := ExecuteCommand(f, shell, t0, Pull(f.rebase));
    Snoc(f, shell, t0, Last(t1), message);
    assert t1[..|t0|] == t0;
  }

  /** Lines 99-104: the pull failed; pop the stash and stop. */
  method PullFailedExit(f: Flags, shell: Shell, t1: seq<Call>, stashed: bool, message: string, stderr: string)
    returns (trace: seq<Call>, outcome: Outcome, conflicting: seq<string>)
    requires Consistent(f, shell, t1) && PushesGuarded(t1) && CommitsStaged(t1, message)
    requires Pops(t1) == 0 && Pushes(t1) == 0 && !ConflictIn(t1)
    requires PushResult(t1) == None && PullResult(t1).Some?
    requires PullResult(t1).value.returncode != 0 && PullResult(t1).value.stderr == stderr
    requires stashed ==> !f.dryRun
    ensures Consistent(f, shell, trace)
    ensures StashPushed(trace) <==> StashPushed(t1)
    ensures Pops(trace) == if stashed then 1 else 0
    ensures stashed ==> IsPop(Last(trace))
    ensures PushesGuarded(trace) && CommitsStaged(trace, message)
    ensures Pushes(trace) == 0 && outcome == PullFailed(stderr) && conflicting == []
    ensures EndsAsReported(f, trace, outcome, stashed)
    ensures PullResult(trace) == PullResult(t1) && PushResult(trace) == None && !ConflictIn(trace)
    ensures Extends(t1, trace)
  {
    outcome := PullFailed(stderr);
    conflicting := [];
    trace := PopIfStashed(f, shell, t1, stashed, message);
  }

  /** Lines 107-159, once the pull went through. */
  method ProbeAndPush(f: Flags, shell: Shell, t1: seq<Call>, stashed: bool, message: string)
    returns (trace: seq<Call>, outcome: Outcome, conflicting: seq<string>)
    requires Consistent(f, shell, t1) && PushesGuarded(t1) && CommitsStaged(t1, message)
    requires Pops(t1) == 0 && Pushes(t1) == 0 && PullOkIn(t1) && !ConflictIn(t1)
    requires PushResult(t1) == None && PullResult(t1).Some? && PullResult(t1).value.returncode == 0
    requires stashed ==> !f.dryRun
    ensures Consistent(f, shell, trace)
    ensures StashPushed(trace) <==> StashPushed(t1)
    ensures Pops(trace) == if stashed then 1 else 0
    ensures stashed ==> IsPop(Last(trace))
    ensures PushesGuarded(trace) && CommitsStaged(trace, message)
    ensures Pushes(trace) == if outcome == Completed || outcome.PushFailed? then 1 else 0
    ensures outcome == StoppedForConflicts || outcome == PushSkipped || outcome == Completed || outcome.PushFailed?
    ensures outcome == StoppedForConflicts ==> f.interactive
    ensures outcome == PushSkipped ==> !f.interactive
    ensures f.dryRun ==> outcome == Completed && trace == t1 + DryRunPush(f)
    ensures conflicting != [] ==> ConflictIn(trace)
    ensures Extends(t1, trace) && (!f.dryRun ==> |trace| > |t1|)
    ensures !f.dryRun ==> trace[|t1|] == Probe(RunShellCommand(shell(t1, Text(StatusPorcelain, f.branch))))
    ensures PullResult(trace) == PullResult(t1) && EndsAsReported(f, trace, outcome, stashed)
    ensures PushResult(trace).Some? <==> !ConflictIn(trace)
    ensures conflicting == ListedConflicts(trace)
    ensures !f.dryRun ==> (conflicting ==
      if HasConflictMarker(trace[|t1|].result.stdout) then ConflictFiles(SplitLines(trace[|t1|].result.stdout)) else [])
  {
    conflicting := [];
    trace := t1;
    if !f.dryRun {
      var probe := RunShellCommand(shell(t1, Text(StatusPorcelain, f.branch)));
      Snoc(f, shell, t1, Probe(probe), message);
      trace := t1 + [Probe(probe)];
      if HasConflictMarker(probe.stdout) {
        conflicting := ListConflictingFiles(probe.stdout);
        outcome := if f.interactive then StoppedForConflicts else PushSkipped;
        var t2 := trace;
        assert Extends(t1, t2) by {
          assert t2[..|t1|] == t1;
        }
        trace := PopIfStashed(f, shell, t2, stashed, message);
        ExtendsTrans(t1, t2, trace);
        return;
      }
    }
    var t2 := trace;
    assert Extends(t1, t2) by {
      assert t2[..|t1|] == t1;
    }
    trace, outcome := PushChanges(f, shell, t2, stashed, message);
    ExtendsTrans(t1, t2, trace);
    ListedNeedsConflict(trace);
  }

  /** Lines 136-159: push, then the status listing and the stash pop. */
  method PushChanges(f: Flags, shell: Shell, t2: seq<Call>, stashed: bool, message: string)
    returns (trace: seq<Call>, outcome: Outcome)
    requires Consistent(f, shell, t2) && PushesGuarded(t2) && CommitsStaged(t2, message)
    requires Pops(t2) == 0 && Pushes(t2) == 0 && PullOkIn(t2) && !ConflictIn(t2)
    requires PushResult(t2) == None && PullResult(t2).Some? && PullResult(t2).value.returncode == 0
    requires stashed ==> !f.dryRun
    ensures Consistent(f, shell, trace)
    ensures StashPushed(trace) <==> StashPushed(t2)
    ensures Pops(trace) == if stashed then 1 else 0
    ensures stashed ==> IsPop(Last(trace))
    ensures PushesGuarded(trace) && CommitsStaged(trace, message)
    ensures Pushes(trace) == 1
    ensures outcome == Completed || outcome.PushFailed?
    ensures f.dryRun ==> outcome == Completed && trace == t2 + DryRunPush(f)
    ensures Extends(t2, trace) && |trace| > |t2| && IsPush(trace[|t2|])
    ensures PullResult(trace) == PullResult(t2) && !ConflictIn(trace) && PushResult(trace).Some?
    ensures EndsAsReported(f, trace, outcome, stashed)
  {
    var push, t3 := IssuePush(f, shell, t2, message);
    if push.returncode != 0 {
      outcome := PushFailed(push.stderr);
      trace := PopIfStashed(f, shell, t3, stashed, message);
      ExtendsTrans(t2, t3, trace);
      return;
    }
    outcome := Completed;
    trace := FinishAfterPush(f, shell, t3, stashed, message);
    ExtendsTrans(t2, t3, trace);
    if f.dryRun {
      assert trace == t2 + DryRunPush(f);
    }
  }

  /** Line 142: the push, with what it leaves for the rest of the run. */
  method IssuePush(f: Flags, shell: Shell, t2: seq<Call>, message: string) returns (push: ShellResult, t3: seq<Call>)
    requires Consistent(f, shell, t2) && PushesGuarded(t2) && CommitsStaged(t2, message)
    requires Pushes(t2) == 0 && PullOkIn(t2) && !ConflictIn(t2)
    ensures Consistent(f, shell, t3) && PushesGuarded(t3) && CommitsStaged(t3, message)
    ensures Pops(t3) == Pops(t2) && Pushes(t3) == 1 && !ConflictIn(t3)
    ensures StashPushed(t3) <==> StashPushed(t2)
    ensures PullResult(t3) == PullResult(t2) && PushResult(t3) == Some(push) && AfterPush(t3) == []
    ensures Extends(t2, t3) && |t3| > |t2| && IsPush(t3[|t2|])
    ensures f.dryRun ==> push.returncode == 0 && t3 == t2 + [Simulated(Push(f.forceWithLease))]
  {
    push, t3 := ExecuteCommand(f, shell, t2, Push(f.forceWithLease));
    Snoc(f, shell, t2, Last(t3), message);
    assert t3[..|t2|] == t2;
  }

  /** Lines 151-159, after a push that went through: the status listing when
      verbose, then the stash pop. */
  method FinishAfterPush(f: Flags, shell: Shell, t3: seq<Call>, stashed: bool, message: string) returns (trace: seq<Call>)
    requires Consistent(f, shell, t3) && PushesGuarded(t3) && CommitsStaged(t3, message)
    requires Pops(t3) == 0 && !ConflictIn(t3) && AfterPush(t3) == []
    requires stashed ==> !f.dryRun
    ensures Consistent(f, shell, trace) && PushesGuarded(trace) && CommitsStaged(trace, message)
    ensures StashPushed(trace) <==> StashPushed(t3)
    ensures Pops(trace) == (if stashed then 1 else 0) && Pushes(trace) == Pushes(t3)
    ensures stashed ==> IsPop(Last(trace))
    ensures f.dryRun ==> trace == t3 + if f.verbose then [Simulated(StatusShort)] else []
    ensures Extends(t3, trace)
    ensures PullResult(trace) == PullResult(t3) && PushResult(trace) == PushResult(t3) && !ConflictIn(trace)
    ensures |AfterPush(trace)| == (if f.verbose then 1 else 0) + (if stashed then 1 else 0)
    ensures f.verbose ==> IsStatusShort(AfterPush(trace)[0])
  {
    var t4 := t3;
    if f.verbose {
      var res;
      res, t4 := ExecuteCommand(f, shell, t3, StatusShort);
      Snoc(f, shell, t3, Last(t4), message);
      assert AfterPush(t4) == [Last(t4)];
      assert Extends(t3, t4) by {
        assert t4[..|t3|] == t3;
      }
    }
    trace := PopIfStashed(f, shell, t4, stashed, message);
    ExtendsTrans(t3, t4, trace);
  }

  /** `if stashed: execute_command("git stash pop", ...)`, the last call of
      every exit after a stash. */
  method PopIfStashed(f: Flags, shell: Shell, t: seq<Call>, stashed: bool, message: string) returns (t': seq<Call>)
    requires stashed ==> !f.dryRun
    ensures !stashed ==> t' == t
    ensures stashed ==> t' == t + [Ran(StashPop, RunShellCommand(shell(t, Text(StashPop, f.branch))))]
    ensures Consistent(f, shell, t') <==> Consistent(f, shell, t)
    ensures CommitsStaged(t', message) <==> CommitsStaged(t, message)
    ensures PushesGuarded(t') <==> PushesGuarded(t)
    ensures StashPushed(t') <==> StashPushed(t)
    ensures ConflictIn(t') <==> ConflictIn(t)
    ensures Pushes(t') == Pushes(t)
    ensures Pops(t') == Pops(t) + if stashed then 1 else 0
    ensures stashed ==> IsPop(Last(t'))
    ensures PullResult(t') == PullResult(t) && PushResult(t') == PushResult(t)
    ensures AfterPush(t') == AfterPush(t) + if stashed then [Last(t')] else []
    ensures ListedConflicts(t') == ListedConflicts(t)
    ensures Extends(t, t')
  {
    t' := t;
    if stashed {
      var res;
      res, t' := ExecuteCommand(f, shell, t, StashPop);
      Snoc(f, shell, t, Last(t'), message);
      ListedSnoc(t, Last(t'));
    }
  }

  // ---------------------------------------------------------------------------
  // The conflict listing

  /** A status line that marks a conflicting path (line 118). */
  predicate Marked(l: string) {
    StartsWith(l, "UU ") || StartsWith(l, "DD ") || StartsWith(l, "AA ")
  }

  /** The paths printed for the conflicting lines (lines 117-119). */
  function ConflictFiles(lines: seq<string>): (r: seq<string>)
    ensures |r| <= |lines|
  {
    if lines == [] then []
    else if Marked(lines[0]) then [lines[0][3..]] + ConflictFiles(lines[1..])
    else ConflictFiles(lines[1..])
  }

  /** The loop of lines 117-119 over `splitlines()`, collecting what it prints. */
  method ListConflictingFiles(status: string) returns (files: seq<string>)
    ensures files == ConflictFiles(SplitLines(status))
  {
    var lines := SplitLines(status);
    files := [];
    var i := 0;
    while i < |lines|
      invariant 0 <= i <= |lines|
      invariant files == ConflictFiles(lines[..i])
    {
      var l := lines[i];
      ConflictFilesAppend(lines[..i], [l]);
      assert lines[..i + 1] == lines[..i] + [l];
      if Marked(l) {
        files := files + [l[3..]];
      }
      i := i + 1;
    }
    assert lines[..i] == lines;
  }

  lemma {:induction false} ConflictFilesAppend(a: seq<string>, b: seq<string>)
    ensures ConflictFiles(a + b) == ConflictFiles(a) + ConflictFiles(b)
    decreases |a|
  {
    if a == [] {
      assert a + b == b;
    } else {
      assert (a + b)[1..] == a[1..] + b;
      ConflictFilesAppend(a[1..], b);
    }
  }

  lemma {:induction false} ContainsShorter(s: string, t: string, n: nat)
    requires n <= |t| && Contains(s, t)
    ensures Contains(s, t[..n])
    decreases |s|
  {
    if StartsWith(s, t) {
      assert s[..n] == t[..n];
    } else {
      ContainsShorter(s[1..], t, n);
    }
  }

  /** Each listed path is the rest of a marked line; `k` is that line. */
  lemma {:induction false} ConflictFilesFromLine(lines: seq<string>, j: nat) returns (k: nat)
    requires j < |ConflictFiles(lines)|
    ensures k < |lines| && Marked(lines[k]) && lines[k][3..] == ConflictFiles(lines)[j]
    decreases |lines|
  {
    if Marked(lines[0]) && j == 0 {
      k := 0;
    } else {
      var j' := if Marked(lines[0]) then j - 1 else j;
      var k' := ConflictFilesFromLine(lines[1..], j');
      k := k' + 1;
      assert lines[k] == lines[1..][k'];
    }
  }

  /** Conversely, every marked line is listed, with its first three
      characters dropped. */
  lemma {:induction false} MarkedLineListed(lines: seq<string>, k: nat)
    requires k < |lines| && Marked(lines[k])
    ensures lines[k][3..] in ConflictFiles(lines)
    decreases |lines|
  {
    if k > 0 {
      MarkedLineListed(lines[1..], k - 1);
      assert lines[1..][k - 1] == lines[k];
    }
  }

  /** A line of the status starting with `p` puts `p`'s first two letters in the status. */
  lemma MarkerOccurs(status: string, k: nat, p: string, m: string)
    requires k < |SplitLines(status)| && StartsWith(SplitLines(status)[k], p)
    requires |p| == 3 && m == p[..2]
    ensures Contains(status, m)
  {
    LinePrefixOccurs(status, p, k);
    ContainsShorter(status, p, 2);
  }

  /** Every path listed as conflicting comes from a status text in which a
      conflict is detected. */
  lemma ListedMeansDetected(status: string)
    requires ConflictFiles(SplitLines(status)) != []
    ensures HasConflictMarker(status)
  {
    var lines := SplitLines(status);
    var k := ConflictFilesFromLine(lines, 0);
    if StartsWith(lines[k], "UU ") {
      MarkerOccurs(status, k, "UU ", "UU");
      assert Contains(status, "UU");
    } else if StartsWith(lines[k], "DD ") {
      MarkerOccurs(status, k, "DD ", "DD");
      assert Contains(status, "DD");
    } else {
      assert StartsWith(lines[k], "AA ");
      MarkerOccurs(status, k, "AA ", "AA");
      assert Contains(status, "AA");
    }
  }

  /** The detection looks for the letters anywhere in the status, so a
      modified file whose name holds `AA` counts as a conflict (the push is
      skipped) though no conflicting path is listed. */
  lemma FileNameLooksLikeConflict(status: string)
    requires status == "M AAA.txt"
    ensures HasConflictMarker(status)
    ensures ConflictFiles(SplitLines(status)) == []
  {
    assert status[2..4] == "AA";
    ContainsAt(status, "AA", 2);
    SingleLine(status);
    assert !Marked(status);
  }
}
