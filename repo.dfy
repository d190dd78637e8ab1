/**
 * The git-backed repository (patcher/repo.go): each operation issues a fixed list of
 * git commands through a runner and stops at the first one that fails. The runner is
 * modelled as an object that records every command it is given and answers the n-th
 * command with a scripted error and output.
 */
module Repo {
  import opened Wrappers
  import opened Errors
  import opened GoStrings
  import opened FailFast

  /** A command to execute: the executable, its argument vector (starting with its name) and its directory. */
  datatype Command = Command(path: string, args: seq<string>, dir: string)

  /** The runner: commands are executed in the order they are issued. */
  class Runner {
    /** failures[n] is what the n-th command reports; commands past the end succeed. */
    const failures: seq<Option<Error>>
    /** outputs[n] is the combined output of the n-th command; empty past the end. */
    const outputs: seq<string>
    var issued: seq<Command>

    constructor(failures: seq<Option<Error>>, outputs: seq<string>)
      ensures this.failures == failures && this.outputs == outputs && issued == []
    {
      this.failures := failures;
      this.outputs := outputs;
      issued := [];
    }

    function Output(n: nat): string {
      if n < |outputs| then outputs[n] else ""
    }

    /** runner.Run */
    method Run(command: Command) returns (err: Option<Error>)
      modifies this
      ensures issued == old(issued) + [command] && err == Outcome(failures, |old(issued)|)
    {
      err := Outcome(failures, |issued|);
      issued := issued + [command];
    }

    /** runner.CombinedOutput */
    method CombinedOutput(command: Command) returns (output: string, err: Option<Error>)
      modifies this
      ensures issued == old(issued) + [command]
      ensures output == Output(|old(issued)|) && err == Outcome(failures, |old(issued)|)
    {
      output := Output(|issued|);
      err := Outcome(failures, |issued|);
      issued := issued + [command];
    }
  }

  /** The prefix of a `.gitmodules` line that names a submodule's path. */
  const ModulePrefix := "path = "

  class Repo {
    const runner: Runner
    const gitPath: string
    const repo: string
    const committerName: string
    const committerEmail: string
    /**
     * The inner submodule named by the output of a failed `git add`: the first capture
     * group of `^.*is in submodule '(.*)'`, or None when the output does not match.
     */
    const submoduleIn: string -> Option<string>

    constructor(runner: Runner, gitPath: string, repo: string, committerName: string, committerEmail: string,
                submoduleIn: string -> Option<string>)
      ensures this.runner == runner && this.gitPath == gitPath && this.repo == repo
      ensures this.committerName == committerName && this.committerEmail == committerEmail
      ensures this.submoduleIn == submoduleIn
    {
      this.runner := runner;
      this.gitPath := gitPath;
      this.repo := repo;
      this.committerName := committerName;
      this.committerEmail := committerEmail;
      this.submoduleIn := submoduleIn;
    }

    /** git <args...>, run in dir. */
    function Git(dir: string, args: seq<string>): Command {
      Command(gitPath, ["git"] + args, dir)
    }

    // The command lists of patcher/repo.go

    function CommitterCommands(): seq<Command> {
      [Git(repo, ["config", "--global", "user.name", committerName]),
       Git(repo, ["config", "--global", "user.email", committerEmail])]
    }

    function CheckoutCommands(checkoutRef: string): seq<Command> {
      [Git(repo, ["checkout", checkoutRef]),
       Git(repo, ["clean", "-ffd"]),
       Git(repo, ["submodule", "update", "--init", "--recursive", "--force"])]
    }

    function BumpCommands(path: string, sha: string): seq<Command> {
      [Git(Join(repo, path), ["checkout", sha]),
       Git(Join(repo, path), ["submodule", "update", "--init", "--recursive", "--force"]),
       Git(Join(repo, path), ["clean", "-ffd"]),
       Git(repo, ["add", "-A", path]),
       Git(repo, ["commit", "-m", "Knit bump of " + path])]
    }

    /** The commit made inside a nested submodule that `git add` refused to stage. */
    function SubmoduleCommitCommands(submodulePath: string): seq<Command> {
      [Git(Join(repo, submodulePath), ["add", "-A", "."]),
       Git(Join(repo, submodulePath), ["commit", "-m", "Knit submodule patch of " + submodulePath])]
    }

    function PatchCommitCommands(path: string): seq<Command> {
      [Git(repo, ["add", "-A", "."]),
       Git(repo, ["commit", "-m", "Knit patch of " + path])]
    }

    function CleanCommands(paths: seq<string>): (commands: seq<Command>)
      ensures |commands| == |paths|
      ensures forall i :: 0 <= i < |paths| ==> commands[i] == Command(gitPath, ["git", "clean", "-ffd"], paths[i])
    {
      seq(|paths|, i requires 0 <= i < |paths| => Command(gitPath, ["git", "clean", "-ffd"], paths[i]))
    }

    /** The loop every list-driven operation runs: each command in order, stopping at the first error. */
    method RunCommands(commands: seq<Command>) returns (err: Option<Error>)
      modifies runner
      ensures (runner.issued, err) == Run(runner.failures, old(runner.issued), commands)
    {
      ghost var start := runner.issued;
      for i := 0 to |commands|
        invariant Run(runner.failures, start, commands) == Run(runner.failures, runner.issued, commands[i..])
      {
        assert commands[i..] == [commands[i]] + commands[i + 1..];
        RunStep(runner.failures, runner.issued, commands[i], commands[i + 1..]);
        err := runner.Run(commands[i]);
        if err.Some? {
          return;
        }
      }
      assert commands[|commands|..] == [];
      err := None;
    }

    method ConfigureCommitter() returns (err: Option<Error>)
      modifies runner
      ensures (runner.issued, err) == Run(runner.failures, old(runner.issued), CommitterCommands())
    {
      err := RunCommands(CommitterCommands());
    }

    method Checkout(checkoutRef: string) returns (err: Option<Error>)
      modifies runner
      ensures (runner.issued, err) == Run(runner.failures, old(runner.issued), CheckoutCommands(checkoutRef))
    {
      err := RunCommands(CheckoutCommands(checkoutRef));
    }

    method ApplyPatch(patch: string) returns (err: Option<Error>)
      modifies runner
      ensures runner.issued == old(runner.issued) + [Git(repo, ["am", patch])]
      ensures err == Outcome(runner.failures, |old(runner.issued)|)
    {
      err := runner.Run(Git(repo, ["am", patch]));
    }

    method BumpSubmodule(path: string, sha: string) returns (err: Option<Error>)
      modifies runner
      ensures (runner.issued, err) == Run(runner.failures, old(runner.issued), BumpCommands(path, sha))
    {
      err := RunCommands(BumpCommands(path, sha));
    }

    /** git am in the submodule; then git add at the root, with recovery for a nested submodule; then the commit. */
    function PatchSubmoduleRun(log: seq<Command>, path: string, patch: string): (seq<Command>, Option<Error>) {
      var am := Git(Join(repo, path), ["am", patch]);
      var add := Git(repo, ["add", "-A", path]);
      if Outcome(runner.failures, |log|).Some? then (log + [am], Outcome(runner.failures, |log|))
      else if Outcome(runner.failures, |log| + 1).None? then
        Run(runner.failures, log + [am, add], PatchCommitCommands(path))
      else match submoduleIn(runner.Output(|log| + 1))
        case None => (log + [am, add], Some(IndexOutOfRange))
        case Some(inner) =>
          var recovered := Run(runner.failures, log + [am, add], SubmoduleCommitCommands(inner));
          if recovered.1.Some? then recovered else Run(runner.failures, recovered.0, PatchCommitCommands(path))
    }

    method PatchSubmodule(path: string, fullPathToPatch: string) returns (err: Option<Error>)
      modifies runner
      ensures (runner.issued, err) == PatchSubmoduleRun(old(runner.issued), path, fullPathToPatch)
    {
      ghost var log := runner.issued;
      err := runner.Run(Git(Join(repo, path), ["am", fullPathToPatch]));
      if err.Some? {
        return;
      }
      var output, addErr := runner.CombinedOutput(Git(repo, ["add", "-A", path]));
      assert runner.issued == log + [Git(Join(repo, path), ["am", fullPathToPatch]), Git(repo, ["add", "-A", path])];
      assert output == runner.Output(|log| + 1);
      if addErr.Some? {
        var inner := submoduleIn(output);
        if inner.None? {
          err := Some(IndexOutOfRange);
          return;
        }
        err := RunCommands(SubmoduleCommitCommands(inner.value));
        if err.Some? {
          return;
        }
      }
      err := RunCommands(PatchCommitCommands(path));
    }

    /** A failed `git am` ends PatchSubmodule: nothing is staged or committed. */
    lemma PatchAmFailureStops(log: seq<Command>, path: string, patch: string)
      requires Outcome(runner.failures, |log|).Some?
      ensures PatchSubmoduleRun(log, path, patch) ==
        (log + [Git(Join(repo, path), ["am", patch])], Outcome(runner.failures, |log|))
    {
    }

    /**
     * A PatchSubmodule that succeeds applied the patch in the submodule and staged the
     * path, and its last two commands stage everything and commit "Knit patch of <path>"
     * at the repository root.
     */
    lemma PatchSuccessEndsWithCommit(log: seq<Command>, path: string, patch: string)
      requires PatchSubmoduleRun(log, path, patch).1.None?
      ensures var issued := PatchSubmoduleRun(log, path, patch).0;
        |issued| >= |log| + 4 &&
        issued[..|log| + 2] == log + [Git(Join(repo, path), ["am", patch]), Git(repo, ["add", "-A", path])] &&
        issued[|issued| - 2..] == PatchCommitCommands(path)
    {
      var am := Git(Join(repo, path), ["am", patch]);
      var add := Git(repo, ["add", "-A", path]);
      var log2 := log + [am, add];
      if Outcome(runner.failures, |log| + 1).Some? {
        var inner := submoduleIn(runner.Output(|log| + 1)).value;
        var recovered := Run(runner.failures, log2, SubmoduleCommitCommands(inner));
        assert recovered.0 == log2 + SubmoduleCommitCommands(inner);
        var issued := Run(runner.failures, recovered.0, PatchCommitCommands(path)).0;
        assert issued == recovered.0 + PatchCommitCommands(path);
        assert issued[..|log| + 2] == (log2 + (SubmoduleCommitCommands(inner) + PatchCommitCommands(path)))[..|log2|];
      } else {
        var issued := Run(runner.failures, log2, PatchCommitCommands(path)).0;
        assert issued == log2 + PatchCommitCommands(path);
      }
    }

    /**
     * When `git add` fails because the path lies in a nested submodule and every later
     * command succeeds, the nested submodule is committed first and the root afterwards.
     */
    lemma PatchRecovery(log: seq<Command>, path: string, patch: string, inner: string)
      requires Outcome(runner.failures, |log|).None? && Outcome(runner.failures, |log| + 1).Some?
      requires submoduleIn(runner.Output(|log| + 1)) == Some(inner)
      requires forall n :: |log| + 2 <= n < |log| + 6 ==> Outcome(runner.failures, n).None?
      ensures PatchSubmoduleRun(log, path, patch) ==
        (log + [Git(Join(repo, path), ["am", patch]), Git(repo, ["add", "-A", path])] +
         SubmoduleCommitCommands(inner) + PatchCommitCommands(path), None)
    {
      var log2 := log + [Git(Join(repo, path), ["am", patch]), Git(repo, ["add", "-A", path])];
      RunNoError(runner.failures, log2, SubmoduleCommitCommands(inner));
      RunNoError(runner.failures, log2 + SubmoduleCommitCommands(inner), PatchCommitCommands(path));
    }

    /**
     * A failure while committing the nested submodule ends PatchSubmodule with that
     * error: the root is neither staged nor committed.
     */
    lemma PatchRecoveryFailureStops(log: seq<Command>, path: string, patch: string, inner: string, k: nat)
      requires Outcome(runner.failures, |log|).None? && Outcome(runner.failures, |log| + 1).Some?
      requires submoduleIn(runner.Output(|log| + 1)) == Some(inner)
      requires k < 2 && Outcome(runner.failures, |log| + 2 + k).Some?
      requires forall n :: |log| + 2 <= n < |log| + 2 + k ==> Outcome(runner.failures, n).None?
      ensures PatchSubmoduleRun(log, path, patch) ==
        (log + [Git(Join(repo, path), ["am", patch]), Git(repo, ["add", "-A", path])] +
         SubmoduleCommitCommands(inner)[..k + 1], Outcome(runner.failures, |log| + 2 + k))
    {
      var log2 := log + [Git(Join(repo, path), ["am", patch]), Git(repo, ["add", "-A", path])];
      RunFirstError(runner.failures, log2, SubmoduleCommitCommands(inner), k);
    }

    /** A failed `git add` whose output names no nested submodule: the regex finds nothing to index. */
    lemma PatchUnmatchedOutput(log: seq<Command>, path: string, patch: string)
      requires Outcome(runner.failures, |log|).None? && Outcome(runner.failures, |log| + 1).Some?
      requires submoduleIn(runner.Output(|log| + 1)).None?
      ensures PatchSubmoduleRun(log, path, patch) ==
        (log + [Git(Join(repo, path), ["am", patch]), Git(repo, ["add", "-A", path])], Some(IndexOutOfRange))
    {
    }

    /** The existence check, then `checkout -b` only when the check failed. */
    function CheckoutBranchRun(log: seq<Command>, name: string): (seq<Command>, Option<Error>) {
      var verify := Git(repo, ["rev-parse", "--verify", name]);
      if Outcome(runner.failures, |log|).None? then (log + [verify], Some(BranchExists(name)))
      else Run(runner.failures, log + [verify], [Git(repo, ["checkout", "-b", name])])
    }

    method CheckoutBranch(name: string) returns (err: Option<Error>)
      modifies runner
      ensures (runner.issued, err) == CheckoutBranchRun(old(runner.issued), name)
    {
      var existsErr := runner.Run(Git(repo, ["rev-parse", "--verify", name]));
      if existsErr.None? {
        return Some(BranchExists(name));
      }
      err := runner.Run(Git(repo, ["checkout", "-b", name]));
    }

    /**
     * The branch is created exactly when `rev-parse --verify` fails; a branch that
     * already exists is reported and left alone; otherwise the result is that of
     * `checkout -b`.
     */
    lemma CheckoutBranchOutcome(log: seq<Command>, name: string)
      ensures var r := CheckoutBranchRun(log, name);
        r.0[..|log| + 1] == log + [Git(repo, ["rev-parse", "--verify", name])] &&
        (Git(repo, ["checkout", "-b", name]) in r.0[|log|..] <==> Outcome(runner.failures, |log|).Some?) &&
        r.1 == if Outcome(runner.failures, |log|).None? then Some(BranchExists(name))
               else Outcome(runner.failures, |log| + 1)
    {
      var verify := Git(repo, ["rev-parse", "--verify", name]);
      var checkout := Git(repo, ["checkout", "-b", name]);
      var r := CheckoutBranchRun(log, name);
      assert verify != checkout by {
        assert verify.args[1] == "rev-parse" && checkout.args[1] == "checkout";
      }
      if Outcome(runner.failures, |log|).None? {
        assert r.0[|log|..] == [verify];
      } else {
        assert r.0 == log + [verify, checkout];
        assert r.0[|log|..] == [verify, checkout];
      }
    }

    /** submodules: the existing module directories named in `.gitmodules`, in file order. */
    method Submodules(gitmodules: Result<string, Error>, notExist: string -> bool) returns (r: Result<seq<string>, Error>)
      ensures gitmodules.Failure? ==> r == Failure(gitmodules.error)
      ensures gitmodules.Success? ==> r == Success(ExistingPaths(repo, ModulePaths(gitmodules.value), notExist))
    {
      if gitmodules.Failure? {
        return Failure(gitmodules.error);
      }
      var modulePaths := ReadModulePaths(gitmodules.value);
      var paths := KeepExisting(repo, modulePaths, notExist);
      r := Success(paths);
    }

    method CleanSubmodules(gitmodules: Result<string, Error>, notExist: string -> bool) returns (err: Option<Error>)
      modifies runner
      ensures gitmodules.Failure? ==> err == Some(gitmodules.error) && runner.issued == old(runner.issued)
      ensures gitmodules.Success? ==>
        (runner.issued, err) ==
        Run(runner.failures, old(runner.issued), CleanCommands(ExistingPaths(repo, ModulePaths(gitmodules.value), notExist)))
    {
      var submodules := Submodules(gitmodules, notExist);
      if submodules.Failure? {
        return Some(submodules.error);
      }
      err := RunCommands(CleanCommands(submodules.value));
    }
  }

  // ---------------------------------------------------------------------------
  // .gitmodules

  /** The remainder of a trimmed line that starts with "path = ". */
  function LinePath(line: string): (path: Option<string>)
  {
    var trimmed := TrimSpace(line);
    if HasPrefix(trimmed, ModulePrefix) then Some(TrimPrefix(trimmed, ModulePrefix)) else None
  }

  /** The module paths named by lines, in order. */
  function LinePaths(lines: seq<string>): (paths: seq<string>)
    ensures |paths| <= |lines|
    decreases |lines|
  {
    if |lines| == 0 then []
    else
      var front := LinePaths(lines[..|lines| - 1]);
      match LinePath(lines[|lines| - 1])
      case Some(p) => front + [p]
      case None => front
  }

  function ModulePaths(content: string): seq<string> {
    LinePaths(Split(content, '\n'))
  }

  /** The first loop of submodules: the path of every trimmed `path = ` line. */
  method ReadModulePaths(content: string) returns (modulePaths: seq<string>)
    ensures modulePaths == ModulePaths(content)
  {
    modulePaths := [];
    var lines := Split(content, '\n');
    for i := 0 to |lines|
      invariant modulePaths == LinePaths(lines[..i])
    {
      var line := TrimSpace(lines[i]);
      assert lines[..i + 1][..i] == lines[..i];
      if HasPrefix(line, ModulePrefix) {
        modulePaths := modulePaths + [TrimPrefix(line, ModulePrefix)];
      }
    }
    assert lines[..|lines|] == lines;
  }

  /** The second loop of submodules: join to the root, skip what does not exist. */
  method KeepExisting(root: string, modulePaths: seq<string>, notExist: string -> bool) returns (paths: seq<string>)
    ensures paths == ExistingPaths(root, modulePaths, notExist)
  {
    paths := [];
    for i := 0 to |modulePaths|
      invariant paths == ExistingPaths(root, modulePaths[..i], notExist)
    {
      var fullModulePath := Join(root, modulePaths[i]);
      assert modulePaths[..i + 1][..i] == modulePaths[..i];
      if !notExist(fullModulePath) {
        paths := paths + [fullModulePath];
      }
    }
    assert modulePaths[..|modulePaths|] == modulePaths;
  }

  /** The module paths joined to root, without those that do not exist, in order. */
  function ExistingPaths(root: string, modulePaths: seq<string>, notExist: string -> bool): (paths: seq<string>)
    ensures |paths| <= |modulePaths|
    decreases |modulePaths|
  {
    if |modulePaths| == 0 then []
    else
      var front := ExistingPaths(root, modulePaths[..|modulePaths| - 1], notExist);
      var full := Join(root, modulePaths[|modulePaths| - 1]);
      if notExist(full) then front else front + [full]
  }

  /** Every path read comes from some line. */
  lemma {:induction false} LinePathsFromLines(lines: seq<string>, p: string)
    requires p in LinePaths(lines)
    ensures exists i :: 0 <= i < |lines| && LinePath(lines[i]) == Some(p)
    decreases |lines|
  {
    var front := lines[..|lines| - 1];
    LinePathsLast(lines);
    if p in LinePaths(front) {
      LinePathsFromLines(front, p);
      var i :| 0 <= i < |front| && LinePath(front[i]) == Some(p);
      assert lines[i] == front[i];
    } else {
      assert LinePath(lines[|lines| - 1]) == Some(p);
    }
  }

  /** Every line that names a path contributes it. */
  lemma {:induction false} LinePathsHaveLines(lines: seq<string>, i: nat, p: string)
    requires i < |lines| && LinePath(lines[i]) == Some(p)
    ensures p in LinePaths(lines)
    decreases |lines|
  {
    var front := lines[..|lines| - 1];
    LinePathsLast(lines);
    if i < |lines| - 1 {
      assert LinePath(front[i]) == Some(p) by {
        assert front[i] == lines[i];
      }
      LinePathsHaveLines(front, i, p);
    }
  }

  lemma LinePathsLast(lines: seq<string>)
    requires |lines| > 0
    ensures LinePaths(lines) == LinePaths(lines[..|lines| - 1]) +
      match LinePath(lines[|lines| - 1]) case Some(p) => [p] case None => []
  {
  }

  /** A directory is kept exactly when it is a module path joined to the root and it exists. */
  lemma {:induction false} ExistingPathsMembers(root: string, modulePaths: seq<string>, notExist: string -> bool, p: string)
    ensures p in ExistingPaths(root, modulePaths, notExist) <==>
      exists m :: m in modulePaths && p == Join(root, m) && !notExist(p)
    decreases |modulePaths|
  {
    if |modulePaths| > 0 {
      var front := modulePaths[..|modulePaths| - 1];
      ExistingPathsMembers(root, front, notExist, p);
      assert forall m :: m in modulePaths <==> m in front || m == modulePaths[|modulePaths| - 1];
    }
  }

  lemma {:induction false} LinePathsAppend(a: seq<string>, b: seq<string>)
    ensures LinePaths(a + b) == LinePaths(a) + LinePaths(b)
    decreases |b|
  {
    if |b| == 0 {
      assert a + b == a;
    } else {
      assert (a + b)[..|a + b| - 1] == a + b[..|b| - 1];
      assert (a + b)[|a + b| - 1] == b[|b| - 1];
      LinePathsAppend(a, b[..|b| - 1]);
    }
  }

  /** One `[submodule "<name>"]` section of a `.gitmodules` file. */
  datatype ModuleEntry = ModuleEntry(name: string, path: string, url: string)

  /** A value that fits on one line and does not end in white space. */
  predicate LineValue(s: string) {
    |s| > 0 && '\n' !in s && !IsSpace(s[|s| - 1])
  }

  predicate WellFormedEntry(e: ModuleEntry) {
    '\n' !in e.name && LineValue(e.path) && LineValue(e.url)
  }

  function EntryLines(e: ModuleEntry): seq<string> {
    ["[submodule \"" + e.name + "\"]", "\tpath = " + e.path, "\turl = " + e.url]
  }

  function GitmodulesLines(entries: seq<ModuleEntry>): seq<string>
    decreases |entries|
  {
    if |entries| == 0 then [] else GitmodulesLines(entries[..|entries| - 1]) + EntryLines(entries[|entries| - 1])
  }

  /** The `.gitmodules` file git writes for entries: every line ends in a newline. */
  function GitmodulesFile(entries: seq<ModuleEntry>): string {
    JoinWith(GitmodulesLines(entries) + [""], '\n')
  }

  function EntryPaths(entries: seq<ModuleEntry>): (paths: seq<string>)
    ensures |paths| == |entries| && forall i :: 0 <= i < |entries| ==> paths[i] == entries[i].path
    decreases |entries|
  {
    if |entries| == 0 then [] else EntryPaths(entries[..|entries| - 1]) + [entries[|entries| - 1].path]
  }

  lemma HeaderLineHasNoPath(name: string)
    ensures LinePath("[submodule \"" + name + "\"]").None?
  {
    var header := "[submodule \"" + name + "\"]";
    TrimSpacePadded("", header, "");
    assert "" + header + "" == header;
  }

  lemma PathLineHasPath(path: string)
    requires LineValue(path)
    ensures LinePath("\tpath = " + path) == Some(path)
  {
    var line := "path = " + path;
    assert IsSpace('\t');
    TrimSpacePadded("\t", line, "");
    assert "\t" + line + "" == "\tpath = " + path;
    assert line[|line| - 1] == path[|path| - 1];
  }

  lemma UrlLineHasNoPath(url: string)
    requires LineValue(url)
    ensures LinePath("\turl = " + url).None?
  {
    var line := "url = " + url;
    assert IsSpace('\t');
    TrimSpacePadded("\t", line, "");
    assert "\t" + line + "" == "\turl = " + url;
    assert line[|line| - 1] == url[|url| - 1];
  }

  lemma EntryLinesOneLine(e: ModuleEntry)
    requires WellFormedEntry(e)
    ensures forall k :: 0 <= k < |EntryLines(e)| ==> '\n' !in EntryLines(e)[k]
  {
    var lines := EntryLines(e);
    assert '\n' !in lines[0] by {
      assert lines[0] == "[submodule \"" + e.name + "\"]";
    }
    assert '\n' !in lines[1] by {
      assert lines[1] == "\tpath = " + e.path;
    }
    assert '\n' !in lines[2] by {
      assert lines[2] == "\turl = " + e.url;
    }
  }

  lemma EntryLinePaths(e: ModuleEntry)
    requires WellFormedEntry(e)
    ensures LinePaths(EntryLines(e)) == [e.path]
  {
    var header := "[submodule \"" + e.name + "\"]";
    var pathLine := "\tpath = " + e.path;
    var urlLine := "\turl = " + e.url;
    HeaderLineHasNoPath(e.name);
    PathLineHasPath(e.path);
    UrlLineHasNoPath(e.url);
    LinePathsOfThree(header, pathLine, urlLine);
  }

  /** Three lines of which only the middle one declares a path. */
  lemma LinePathsOfThree(a: string, b: string, c: string)
    requires LinePath(a).None? && LinePath(b).Some? && LinePath(c).None?
    ensures LinePaths([a, b, c]) == [LinePath(b).value]
  {
    assert [a, b, c] == [a, b] + [c] && [a, b] == [a] + [b] && [a] == [] + [a];
    LinePathsSnoc([], a);
    LinePathsSnoc([a], b);
    LinePathsSnoc([a, b], c);
  }

  /** One more line adds its path, if it declares one. */
  lemma LinePathsSnoc(lines: seq<string>, line: string)
    ensures LinePaths(lines + [line]) == LinePaths(lines) + (if LinePath(line).Some? then [LinePath(line).value] else [])
  {
    assert (lines + [line])[..|lines|] == lines;
  }

  lemma {:induction false} GitmodulesLinePaths(entries: seq<ModuleEntry>)
    requires forall i :: 0 <= i < |entries| ==> WellFormedEntry(entries[i])
    ensures LinePaths(GitmodulesLines(entries)) == EntryPaths(entries)
    decreases |entries|
  {
    if |entries| > 0 {
      var front := entries[..|entries| - 1];
      var last := entries[|entries| - 1];
      var a := GitmodulesLines(front);
      var b := EntryLines(last);
      assert GitmodulesLines(entries) == a + b;
      GitmodulesLinePaths(front);
      EntryLinePaths(last);
      LinePathsAppend(a, b);

    }
  }

  lemma {:induction false} GitmodulesOneLineEach(entries: seq<ModuleEntry>)
    requires forall i :: 0 <= i < |entries| ==> WellFormedEntry(entries[i])
    ensures forall k :: 0 <= k < |GitmodulesLines(entries)| ==> '\n' !in GitmodulesLines(entries)[k]
    decreases |entries|
  {
    if |entries| > 0 {
      var front := entries[..|entries| - 1];
      var last := entries[|entries| - 1];
      GitmodulesOneLineEach(front);
      EntryLinesOneLine(last);
      var all := GitmodulesLines(entries);
      forall k | 0 <= k < |all| ensures '\n' !in all[k] {
        if k < |GitmodulesLines(front)| {
          assert all[k] == GitmodulesLines(front)[k];
        } else {
          assert all[k] == EntryLines(last)[k - |GitmodulesLines(front)|];
        }
      }
    }
  }

  /** Reading back a `.gitmodules` file gives each section's path, in file order. */
  lemma ModulePathsRoundTrip(entries: seq<ModuleEntry>)
    requires forall i :: 0 <= i < |entries| ==> WellFormedEntry(entries[i])
    ensures ModulePaths(GitmodulesFile(entries)) == EntryPaths(entries)
  {
    GitmodulesFileLines(entries);
    GitmodulesLinePaths(entries);
    LinePathsAppend(GitmodulesLines(entries), [""]);
    EmptyLineHasNoPath();
  }

  /** Splitting the file at newlines gives back its lines, and an empty last one. */
  lemma GitmodulesFileLines(entries: seq<ModuleEntry>)
    requires forall i :: 0 <= i < |entries| ==> WellFormedEntry(entries[i])
    ensures Split(GitmodulesFile(entries), '\n') == GitmodulesLines(entries) + [""]
  {
    GitmodulesOneLineEach(entries);
    SplitJoinTerminated(GitmodulesLines(entries), '\n');
  }

  lemma EmptyLineHasNoPath()
    ensures LinePaths([""]) == []
  {
    assert LinePath("").None? by {
      assert TrimSpace("") == "";
    }
    assert [""][..0] == [];
  }

  /** When every module directory exists, the result is each module path joined to the root. */
  lemma {:induction false} ExistingPathsAll(root: string, modulePaths: seq<string>, notExist: string -> bool)
    requires forall m :: m in modulePaths ==> !notExist(Join(root, m))
    ensures ExistingPaths(root, modulePaths, notExist) ==
      seq(|modulePaths|, i requires 0 <= i < |modulePaths| => Join(root, modulePaths[i]))
    decreases |modulePaths|
  {
    if |modulePaths| > 0 {
      var front := modulePaths[..|modulePaths| - 1];
      assert forall m :: m in front ==> m in modulePaths;
      ExistingPathsAll(root, front, notExist);
    }
  }
}
