/**
 * The Ozh_Git_PR class and the repository it works in: the object's
 * fields, set step by step by its methods, and a workspace that stands
 * for everything outside the script (the repository's remotes, the git
 * commands run so far, the API requests made and whether the process has
 * exited).
 */
module GitPr {
  import opened Wrappers
  import opened PhpText
  import opened Executor
  import opened Locator
  import opened BranchName
  import opened Cli
  import opened GitHub
  import opened Help
  import opened Git

  /**
   * The process: still running, or ended by display_msg_and_die (with its
   * status and the message it was given), by the abort of
   * exec_and_maybe_continue, by a bare exit(), or by an uncaught PHP error.
   */
  datatype Status =
    | Running
    | Died(code: int, message: string)
    | Aborted
    | Exited(code: int)
    | Fatal(error: string)

  /** The exit status of a process that has ended; die() with a string argument exits with 0. */
  function ExitStatus(s: Status): (code: int)
    requires !s.Running?
    ensures s.Aborted? ==> code == 0
    ensures s.Fatal? ==> code == UncaughtErrorStatus
  {
    match s
    case Died(code, _) => code
    case Aborted => 0
    case Exited(code) => code
    case Fatal(_) => UncaughtErrorStatus
  }

  /** The last text the process prints: display_msg_and_die trims its message and adds an empty line. */
  function LastWords(s: Status): (text: string)
    requires !s.Running?
    ensures s.Died? ==> text == TrimSpace(s.message) + "\n\n"
    ensures s.Aborted? ==> text == "\nScript aborted !\n"
  {
    match s
    case Died(_, message) => TrimSpace(message) + "\n\n"
    case Aborted => "\nScript aborted !\n"
    case Exited(_) => ""
    case Fatal(error) => error
  }

  /** display_msg_and_die for a failure; an uncaught error is PHP's own fatal exit instead. */
  function FailureStatus(f: Failure): (s: Status)
    ensures !s.Running? && ExitStatus(s) == f.code
  {
    if f.code == UncaughtErrorStatus then Fatal(f.message) else Died(f.code, f.message)
  }

  const OwnerNotFound: string := "Could not find Github owner and repo"

  /** `$remote[0]`: the first output line; a missing line reads as null, which matches nothing. */
  function FirstLine(out: seq<string>): string {
    if out == [] then "" else out[0]
  }

  /**
   * How get_owner_and_repo ends, given what `git remote get-url origin`
   * prints: aborted by an error line, going on with an owner and a name, or
   * stopped with status 1 when the first line does not match.
   */
  function OriginStatus(out: seq<string>): (s: Status)
    ensures s.Running? <==> !Aborts(out) && OwnerAndRepo(FirstLine(out)).Some?
    ensures s.Aborted? <==> Aborts(out)
    ensures !Aborts(out) && OwnerAndRepo(FirstLine(out)).None? ==> s == Died(1, OwnerNotFound)
    ensures s.Died? ==> s == Died(1, OwnerNotFound) && forall p: nat :: !MatchesAt(FirstLine(out), p)
  {
    if Aborts(out) then Aborted else if OwnerAndRepo(FirstLine(out)).Some? then Running else Died(1, OwnerNotFound)
  }

  /** The run of pull_and_maybe_commit: list the remotes, then the pull plan built from them. */
  function PullCommands(rs: seq<Remote>, pr: int, url: string, branch: string, base: string,
                        headRef: string, commit: bool): (cs: seq<Command>)
    ensures |cs| == 4 && cs[0] == ListRemotes
  {
    [ListRemotes] + PullPlan(Names(rs), pr, url, branch, base, headRef, commit)
  }

  /**
   * A pull that runs to the end leaves exactly one remote `pr-N`, pointing
   * at the pull request's clone URL, and every other remote as it was.
   */
  lemma PullRunResult(rs: seq<Remote>, pr: int, url: string, branch: string, base: string,
                      headRef: string, commit: bool, outputs: Outputs, other: string)
    requires NoDupNames(rs)
    ensures var t := RunCommands(rs, PullCommands(rs, pr, url, branch, base, headRef, commit), outputs);
      !t.aborted ==>
        && NoDupNames(t.remotes)
        && Lookup(t.remotes, RemoteName(pr)) == Some(url)
        && (other != RemoteName(pr) ==> Lookup(t.remotes, other) == Lookup(rs, other))
  {
    var plan := PullPlan(Names(rs), pr, url, branch, base, headRef, commit);
    var cs := PullCommands(rs, pr, url, branch, base, headRef, commit);
    var t := RunCommands(rs, cs, outputs);
    RunCommandsShape(rs, cs, outputs);
    if !t.aborted {
      assert cs[1..] == plan;
      assert ApplyAll(rs, cs) == ApplyAll(rs, plan);
      PullPlanUpserts(rs, pr, url, branch, base, headRef, commit);
      Upsert(rs, RemoteName(pr), url, other);
    }
  }

  /**
   * A pull that is not aborted runs all four commands in order, the last
   * one pulling the head branch from `pr-N`, with --no-commit unless committing.
   */
  lemma PullRunsToTheEnd(rs: seq<Remote>, pr: int, url: string, branch: string, base: string,
                         headRef: string, commit: bool, outputs: Outputs)
    ensures var cs := PullCommands(rs, pr, url, branch, base, headRef, commit);
      var t := RunCommands(rs, cs, outputs);
      !t.aborted ==> t.ran == cs && t.ran[|t.ran| - 1] == PullFrom(!commit, RemoteName(pr), headRef)
  {
    RunCommandsShape(rs, PullCommands(rs, pr, url, branch, base, headRef, commit), outputs);
  }

  /** What a cleanup run does: the remotes it leaves, the commands, whether it asked the API, its status, its count. */
  datatype CleanupRun = CleanupRun(remotes: seq<Remote>, ran: seq<Command>, requested: bool, status: Status, removed: nat)

  /**
   * cleanup_old_pr_remotes on a repository with remotes `rs`, when the
   * open pull requests are fetched from `url` with outcome `fetch`.
   */
  function CleanupOutcome(rs: seq<Remote>, fetch: Fetch<seq<Element>>, url: string, outputs: Outputs): CleanupRun {
    var names := Names(rs);
    if Aborts(names) then CleanupRun(rs, [ListRemotes], false, Aborted, 0)
    else if PrPrefixed(names) == [] then CleanupRun(rs, [ListRemotes], false, Running, 0)
    else
      match fetch
      case Unreachable => CleanupRun(rs, [ListRemotes], true, FailureStatus(Unreadable(url)), 0)
      case Received(None) => CleanupRun(rs, [ListRemotes], true, Running, 0)
      case Received(Some(prs)) =>
        if !NoText(prs) then CleanupRun(rs, [ListRemotes], true, Fatal(UncaughtTypeError), 0) else
        var stale := Stale(PrPrefixed(names), OpenNumbers(prs));
        var t := RunCommands(rs, Removals(stale), outputs);
        CleanupRun(t.remotes, [ListRemotes] + t.ran, true, if t.aborted then Aborted else Running, |stale|)
  }

  /** Without a "pr-" remote the cleanup asks the API nothing and removes nothing. */
  lemma CleanupWithoutPrRemotes(rs: seq<Remote>, fetch: Fetch<seq<Element>>, url: string, outputs: Outputs)
    requires forall i :: 0 <= i < |rs| ==> !HasPrPrefix(rs[i].name)
    ensures var c := CleanupOutcome(rs, fetch, url, outputs);
      !c.requested && c.remotes == rs && c.ran == [ListRemotes] && c.removed == 0
  {
    NoPrPrefixed(Names(rs));
  }

  /**
   * A cleanup that runs to the end keeps exactly the remotes that are not
   * stale, issues one `git remote remove` per stale "pr-" remote after the
   * listing, and reports that many removals.
   */
  lemma CleanupRemovesStale(rs: seq<Remote>, prs: seq<Element>, url: string, outputs: Outputs)
    ensures var c := CleanupOutcome(rs, Received(Some(prs)), url, outputs);
      c.status == Running ==>
        && (forall x :: x in c.remotes <==> x in rs && !IsStale(x.name, OpenNumbers(prs)))
        && c.ran == [ListRemotes] + Removals(Stale(PrPrefixed(Names(rs)), OpenNumbers(prs)))
        && c.removed == |c.ran| - 1
  {
    var names := Names(rs);
    if !Aborts(names) && PrPrefixed(names) != [] {
      RunCommandsShape(rs, Removals(Stale(PrPrefixed(names), OpenNumbers(prs))), outputs);
      CleanupKeeps(rs, OpenNumbers(prs));
    } else if !Aborts(names) {
      PrPrefixedMembers(names);
      forall x | x in rs ensures !IsStale(x.name, OpenNumbers(prs)) {
        var i :| 0 <= i < |rs| && rs[i] == x;
        assert names[i] == x.name;
      }
    }
  }

  /** How the cleanup option ends: as cleanup_old_pr_remotes ended the script, or with exit(0). */
  function CleanupEnd(c: CleanupRun): Status {
    if c.status == Running then Exited(0) else c.status
  }

  /**
   * The cleanup option exits with 1 when the open pull requests cannot be
   * read, with 255 when the answer has a string element, and with 0
   * otherwise; without a "pr-" remote the API is not asked, and the status is 0.
   */
  lemma CleanupExitStatus(rs: seq<Remote>, fetch: Fetch<seq<Element>>, url: string, outputs: Outputs)
    ensures var s := CleanupEnd(CleanupOutcome(rs, fetch, url, outputs));
      var asks := !Aborts(Names(rs)) && PrPrefixed(Names(rs)) != [];
      && !s.Running?
      && (ExitStatus(s) == 1 <==> asks && fetch.Unreachable?)
      && (ExitStatus(s) == UncaughtErrorStatus <==> asks && fetch.Received? && fetch.decoded.Some? && !NoText(fetch.decoded.value))
      && (ExitStatus(s) == 0 || ExitStatus(s) == 1 || ExitStatus(s) == UncaughtErrorStatus)
  {
  }

  /**
   * An answer with a string element, such as GitHub's error object, ends
   * the cleanup with an uncaught TypeError before any remote is removed.
   */
  lemma CleanupOfErrorObject(rs: seq<Remote>, es: seq<Element>, url: string, outputs: Outputs)
    requires !Aborts(Names(rs)) && PrPrefixed(Names(rs)) != [] && !NoText(es)
    ensures CleanupOutcome(rs, Received(Some(es)), url, outputs) == CleanupRun(rs, [ListRemotes], true, Fatal(UncaughtTypeError), 0)
  {
  }

  /** How the list option ends: display_msg_and_die with the listing and status 0, or get_url's failure. */
  function ListEnd(fetch: Fetch<seq<Element>>, url: string): (s: Status)
    ensures !s.Running?
    ensures ExitStatus(s) == (if fetch.Unreachable? then 1 else 0)
  {
    match ListMessage(fetch, url)
    case Ok(m) => Died(0, m)
    case Err(f) => FailureStatus(f)
  }

  /**
   * The repository and the process the script runs in. `outputs` gives
   * what each git command prints, except `git remote`, which prints the
   * current remote names.
   */
  class Workspace {
    var remotes: seq<Remote>
    var log: seq<Command>
    var requests: seq<string>
    var status: Status
    const outputs: Outputs

    constructor (remotes0: seq<Remote>, outputs0: Outputs)
      ensures remotes == remotes0 && log == [] && requests == [] && status == Running && outputs == outputs0
    {
      remotes := remotes0;
      log := [];
      requests := [];
      status := Running;
      outputs := outputs0;
    }

    /**
     * exec_and_maybe_continue: the command runs and changes the remotes as
     * git does; if a line of its output contains "fatal" or "error", the
     * script is aborted.
     */
    method Exec(cmd: Command) returns (out: seq<string>)
      requires status == Running
      modifies this
      ensures out == Output(old(remotes), outputs, cmd)
      ensures remotes == Effect(old(remotes), cmd)
      ensures log == old(log) + [cmd]
      ensures requests == old(requests)
      ensures status == (if Aborts(out) then Aborted else Running)
    {
      out := Output(remotes, outputs, cmd);
      remotes := Effect(remotes, cmd);
      log := log + [cmd];
      if Aborts(out) {
        status := Aborted;
      }
    }

    /**
     * Exec as the next command of a planned run whose outcome is `goal`:
     * the commands `done` have run, and `goal` is what they and the run of
     * `cmd` then `rest` from here give. Afterwards the run either goes on
     * with `rest`, or this command aborted it and the state is the outcome.
     */
    method ExecNext(cmd: Command, ghost rest: seq<Command>, ghost done: seq<Command>, ghost log0: seq<Command>, ghost goal: Trace)
      returns (out: seq<string>)
      requires status == Running && log == log0 + done
      requires goal == After(done, RunCommands(remotes, [cmd] + rest, outputs))
      modifies this
      ensures out == Output(old(remotes), outputs, cmd)
      ensures requests == old(requests)
      ensures log == log0 + (done + [cmd])
      ensures status == Running ==> goal == After(done + [cmd], RunCommands(remotes, rest, outputs))
      ensures status != Running ==> status == Aborted && goal == Trace(remotes, done + [cmd], true)
    {
      RunCommandsCons(remotes, cmd, rest, outputs);
      ghost var t := RunCommands(Effect(remotes, cmd), rest, outputs);
      assert done + ([cmd] + t.ran) == (done + [cmd]) + t.ran;
      assert log0 + done + [cmd] == log0 + (done + [cmd]);
      out := Exec(cmd);
    }

    /**
     * The loop of cleanup_old_pr_remotes: each "pr-" remote whose number is
     * not open is removed, one `git remote remove` after another, until one
     * of them aborts the run; `removed` counts the commands issued.
     */
    method RemoveStale(prRemotes: seq<string>, open: seq<int>) returns (removed: nat)
      requires status == Running
      modifies this
      ensures var t := RunCommands(old(remotes), Removals(Stale(prRemotes, open)), outputs);
        && remotes == t.remotes && log == old(log) + t.ran && requests == old(requests)
        && status == (if t.aborted then Aborted else Running)
        && (status == Running ==> removed == |Stale(prRemotes, open)|)
    {
      ghost var log0 := log;
      ghost var goal := RunCommands(remotes, Removals(Stale(prRemotes, open)), outputs);
      ghost var done: seq<Command> := [];
      assert prRemotes[0..] == prRemotes;
      assert goal == After(done, goal);
      removed := 0;
      for i := 0 to |prRemotes|
        invariant status == Running && requests == old(requests)
        invariant log == log0 + done && removed == |done|
        invariant goal == After(done, RunCommands(remotes, Removals(Stale(prRemotes[i..], open)), outputs))
      {
        var remote := prRemotes[i];
        assert prRemotes[i..] == [remote] + prRemotes[i + 1..];
        var gone := RemoveIfStale(remote, open, prRemotes[i + 1..], done, log0, goal);
        if gone {
          done := done + [RemoveRemote(remote)];
          removed := removed + 1;
          if status != Running {
            return;
          }
        }
      }
      assert done + [] == done;
      RunCommandsShape(old(remotes), Removals(Stale(prRemotes, open)), outputs);
    }

    /**
     * One pass of that loop: a remote named "pr-" and digits whose number
     * is not open is removed; `gone` says whether the command was issued.
     */
    method RemoveIfStale(remote: string, open: seq<int>, ghost later: seq<string>,
                         ghost done: seq<Command>, ghost log0: seq<Command>, ghost goal: Trace)
      returns (gone: bool)
      requires status == Running && log == log0 + done
      requires goal == After(done, RunCommands(remotes, Removals(Stale([remote] + later, open)), outputs))
      modifies this
      ensures requests == old(requests)
      ensures gone == IsStale(remote, open)
      ensures !gone ==> status == Running && log == old(log) && remotes == old(remotes)
      ensures !gone ==> goal == After(done, RunCommands(remotes, Removals(Stale(later, open)), outputs))
      ensures gone ==> log == log0 + (done + [RemoveRemote(remote)])
      ensures gone && status == Running ==>
        goal == After(done + [RemoveRemote(remote)], RunCommands(remotes, Removals(Stale(later, open)), outputs))
      ensures status != Running ==> status == Aborted && goal == Trace(remotes, done + [RemoveRemote(remote)], true)
    {
      StaleCons(remote, later, open);
      gone := false;
      var matches := ParsePrRemote(remote);
      if matches.Some? {
        var prNum := matches.value;
        if prNum !in open {
          RemovalsCons(remote, Stale(later, open));
          var _ := ExecNext(RemoveRemote(remote), Removals(Stale(later, open)), done, log0, goal);
          gone := true;
        }
      }
      if !gone {
        assert Stale([remote] + later, open) == Stale(later, open);
      }
    }

    /** get_url: one request to the API; its answer is supplied by the caller. */
    method Request(url: string)
      modifies this`requests
      ensures requests == old(requests) + [url]
    {
      requests := requests + [url];
    }

    /** The process ends. */
    method Exit(end: Status)
      requires !end.Running?
      modifies this`status
      ensures status == end
    {
      status := end;
    }
  }

  /**
   * What the script takes from outside: the options and arguments getopt()
   * leaves, the lines of its own file, the API's answers for the open pull
   * requests and for the numbered one, and the line the user types.
   */
  datatype Env = Env(
    flags: Flags,
    args: seq<string>,
    helpLines: seq<string>,
    openPrs: Fetch<seq<Element>>,
    prInfo: Fetch<PullRequest>,
    userLine: string)

  /** The Ozh_Git_PR object: its fields are filled in one step after another. */
  class OzhGitPr {
    const version: string := "1.3"
    var owner: string
    var repo: string
    var baseBranch: string
    var pr: int
    var commit: bool
    var remoteUrl: string
    var remoteBranch: string
    var branch: string
    const ws: Workspace

    /** __construct: the four steps, each run only while the script is still going. */
    constructor (ws: Workspace, env: Env)
      requires ws.status == Running
      modifies ws
      ensures this.ws == ws
      ensures !Decide(env.flags, env.args).Pull? ==> !ws.status.Running?
      ensures ws.status == Running ==>
        && Decide(env.flags, env.args).Pull?
        && pr == Decide(env.flags, env.args).pr
        && commit == Decide(env.flags, env.args).commit
    {
      this.ws := ws;
      owner, repo, baseBranch, pr, commit := "", "", "", 0, false;
      remoteUrl, remoteBranch, branch := "", "", "";
      new;
      GetOwnerAndRepo();
      if ws.status != Running {
        return;
      }
      GetCliParams(env);
      if ws.status != Running {
        return;
      }
      GetPrRepo(env.prInfo);
      if ws.status != Running {
        return;
      }
      PullAndMaybeCommit();
    }

    /** display_msg_and_die. */
    method DisplayMsgAndDie(msg: string, code: int)
      modifies ws`status
      ensures ws.status == Died(code, msg)
    {
      ws.Exit(Died(code, msg));
    }

    /**
     * get_owner_and_repo: the owner and name come from the first line
     * `git remote get-url origin` prints; a line that does not match ends
     * the script with status 1.
     */
    method GetOwnerAndRepo()
      requires ws.status == Running
      modifies this`owner, this`repo, ws
      ensures ws.log == old(ws.log) + [GetOriginUrl] && ws.remotes == old(ws.remotes) && ws.requests == old(ws.requests)
      ensures ws.status == OriginStatus(ws.outputs(GetOriginUrl))
      ensures ws.status == Running ==> OwnerAndRepo(FirstLine(ws.outputs(GetOriginUrl))) == Some(RepoRef(owner, repo))
      ensures ws.status != Running ==> owner == old(owner) && repo == old(repo)
    {
      var remote := ws.Exec(GetOriginUrl);
      if ws.status != Running {
        return;
      }
      match OwnerAndRepo(FirstLine(remote)) {
        case Some(r) =>
          owner := r.owner;
          repo := r.name;
        case None =>
          DisplayMsgAndDie(OwnerNotFound, 1);
      }
    }

    /**
     * get_suggested_branch_name: the slug of the pull request's title, or
     * "no-title-found", unless the user types a name.
     */
    method GetSuggestedBranchName(prInfo: Fetch<PullRequest>, userLine: string) returns (name: string)
      requires ws.status == Running
      modifies ws`requests, ws`status
      ensures ws.requests == old(ws.requests) + [PrUrl(owner, repo, pr)]
      ensures prInfo.Unreachable? ==> ws.status == FailureStatus(Unreadable(PrUrl(owner, repo, pr)))
      ensures prInfo.Received? ==> ws.status == Running && name == SuggestedBranchName(Title(prInfo.decoded), userLine)
    {
      var url := PrUrl(owner, repo, pr);
      ws.Request(url);
      if prInfo.Unreachable? {
        DisplayMsgAndDie(Unreadable(url).message, 1);
        return "";
      }
      var title := Title(prInfo.decoded);
      var sugg;
      if title.Some? {
        sugg := RemoveStopWords(title.value);
      } else {
        sugg := NoTitleFallback;
      }
      var line := TrimSpace(userLine);
      if line != "" {
        sugg := line;
      }
      return sugg;
    }

    /**
     * get_cli_params: the exclusion check, then the pull request number,
     * then cleanup, list, version and help, each of which ends the script,
     * and otherwise the branch and the commit flag of the pull.
     */
    method GetCliParams(env: Env)
      requires ws.status == Running
      modifies this`pr, this`branch, this`commit, ws
      ensures Clash(env.flags) ==> ws.status == Died(1, MutuallyExclusive)
      ensures Clash(env.flags) ==>
        ws.requests == old(ws.requests) && pr == old(pr) && branch == old(branch) && commit == old(commit)
      ensures !Clash(env.flags) && ValidPrArgs(env.args) ==> pr == IntCast(env.args[0])
      ensures !ValidPrArgs(env.args) ==> pr == old(pr)
      ensures !Clash(env.flags) && env.flags.cleanup ==>
        var c := CleanupOutcome(old(ws.remotes), env.openPrs, OpenPrsUrl(owner, repo), ws.outputs);
        && ws.remotes == c.remotes && ws.log == old(ws.log) + c.ran
        && ws.requests == old(ws.requests) + (if c.requested then [OpenPrsUrl(owner, repo)] else [])
        && ws.status == CleanupEnd(c)
      ensures Clash(env.flags) || !env.flags.cleanup ==> ws.remotes == old(ws.remotes) && ws.log == old(ws.log)
      ensures !Clash(env.flags) && !env.flags.cleanup && env.flags.list ==>
        && ws.requests == old(ws.requests) + [OpenPrsUrl(owner, repo)]
        && ws.status == ListEnd(env.openPrs, OpenPrsUrl(owner, repo))
      ensures !Clash(env.flags) && !env.flags.cleanup && !env.flags.list && env.flags.version ==>
        ws.status == Died(0, "git_pr version " + version)
      ensures !Clash(env.flags) && !env.flags.cleanup && !env.flags.list && !env.flags.version
              && (env.flags.help || !ValidPrArgs(env.args)) ==>
        ws.status == Died(0, Scan(env.helpLines, false))
      ensures !Clash(env.flags) && !env.flags.cleanup && !env.flags.list
              && (env.flags.version || env.flags.help || !ValidPrArgs(env.args)) ==>
        ws.requests == old(ws.requests) && branch == old(branch) && commit == old(commit)
      ensures ws.status == Running ==>
        !Clash(env.flags) && !env.flags.cleanup && !env.flags.list && !env.flags.version && !env.flags.help && ValidPrArgs(env.args)
      ensures !Clash(env.flags) && !env.flags.cleanup && !env.flags.list && !env.flags.version
              && !env.flags.help && ValidPrArgs(env.args) ==>
        && (ws.status == Running ==> commit == !env.flags.nocommit)
        && (BranchGiven(env.flags) ==>
              ws.status == Running && branch == TrimSpace(BranchArg(env.flags).value) && ws.requests == old(ws.requests))
        && (!BranchGiven(env.flags) && !env.flags.suggest ==>
              ws.status == Running && branch == "" && ws.requests == old(ws.requests))
        && (!BranchGiven(env.flags) && env.flags.suggest ==>
              && ws.requests == old(ws.requests) + [PrUrl(owner, repo, pr)]
              && (env.prInfo.Unreachable? ==> ws.status == FailureStatus(Unreadable(PrUrl(owner, repo, pr))))
              && (env.prInfo.Received? ==>
                    ws.status == Running && branch == SuggestedBranchName(Title(env.prInfo.decoded), env.userLine)))
    {
      var f := env.flags;
      if Clash(f) {
        DisplayMsgAndDie(MutuallyExclusive, 1);
        return;
      }
      var validPr := ValidPrArgs(env.args);
      if validPr {
        pr := IntCast(env.args[0]);
      }
      if f.cleanup {
        CleanupAndExit(env.openPrs);
        return;
      }
      if f.list {
        ListAndDie(env.openPrs);
        return;
      }
      if f.version {
        DisplayMsgAndDie("git_pr version " + version, 0);
        return;
      }
      if f.help || !validPr {
        var help := GetHelpMsg(env.helpLines);
        DisplayMsgAndDie(help, 0);
        return;
      }
      ChooseBranch(f, env.prInfo, env.userLine);
    }

    /** The cleanup option: cleanup_old_pr_remotes, then exit 0 unless it already ended the script. */
    method CleanupAndExit(openPrs: Fetch<seq<Element>>)
      requires ws.status == Running
      modifies ws
      ensures var c := CleanupOutcome(old(ws.remotes), openPrs, OpenPrsUrl(owner, repo), ws.outputs);
        && ws.remotes == c.remotes && ws.log == old(ws.log) + c.ran
        && ws.requests == old(ws.requests) + (if c.requested then [OpenPrsUrl(owner, repo)] else [])
        && ws.status == CleanupEnd(c)
    {
      var _ := CleanupOldPrRemotes(openPrs);
      if ws.status == Running {
        ws.Exit(Exited(0));
      }
    }

    /** The list option: fetch the open pull requests, print them or the error, and end the script. */
    method ListAndDie(openPrs: Fetch<seq<Element>>)
      modifies ws`requests, ws`status
      ensures ws.requests == old(ws.requests) + [OpenPrsUrl(owner, repo)]
      ensures ws.status == ListEnd(openPrs, OpenPrsUrl(owner, repo))
    {
      var url := OpenPrsUrl(owner, repo);
      ws.Request(url);
      var list := ListPrs(openPrs, url);
      match list {
        case Ok(m) => DisplayMsgAndDie(m, 0);
        case Err(e) => DisplayMsgAndDie(e.message, e.code);
      }
    }

    /**
     * The end of get_cli_params for a pull: the given branch trimmed, or
     * the suggested one, or none; then the commit flag.
     */
    method ChooseBranch(f: Flags, prInfo: Fetch<PullRequest>, userLine: string)
      requires ws.status == Running
      modifies this`branch, this`commit, ws`requests, ws`status
      ensures pr == old(pr)
      ensures ws.status == Running ==> commit == !f.nocommit
      ensures BranchGiven(f) ==> ws.status == Running && branch == TrimSpace(BranchArg(f).value) && ws.requests == old(ws.requests)
      ensures !BranchGiven(f) && !f.suggest ==> ws.status == Running && branch == "" && ws.requests == old(ws.requests)
      ensures !BranchGiven(f) && f.suggest ==>
        && ws.requests == old(ws.requests) + [PrUrl(owner, repo, pr)]
        && (prInfo.Unreachable? ==> ws.status == FailureStatus(Unreadable(PrUrl(owner, repo, pr))))
        && (prInfo.Received? ==> ws.status == Running && branch == SuggestedBranchName(Title(prInfo.decoded), userLine))
    {
      if BranchGiven(f) {
        branch := TrimSpace(BranchArg(f).value);
      } else if f.suggest {
        var suggestion := GetSuggestedBranchName(prInfo, userLine);
        if ws.status != Running {
          return;
        }
        branch := suggestion;
      } else {
        branch := "";
      }
      commit := !f.nocommit;
    }

    /**
     * get_pr_repo: the clone URL and head branch of the pull request, and
     * the branch it is based on, or the end of the script.
     */
    method GetPrRepo(prInfo: Fetch<PullRequest>)
      requires ws.status == Running
      modifies this`remoteUrl, this`remoteBranch, this`baseBranch, ws`requests, ws`status
      ensures ws.requests == old(ws.requests) + [PrUrl(owner, repo, pr)]
      ensures pr == old(pr) && commit == old(commit)
      ensures match ValidatePr(prInfo, PrUrl(owner, repo, pr), pr)
        case Ok(src) =>
          ws.status == Running && remoteUrl == src.remoteUrl && remoteBranch == src.remoteBranch && baseBranch == src.baseBranch
        case Err(f) => ws.status == FailureStatus(f)
    {
      var url := PrUrl(owner, repo, pr);
      ws.Request(url);
      match ValidatePr(prInfo, url, pr) {
        case Ok(src) =>
          remoteUrl := src.remoteUrl;
          remoteBranch := src.remoteBranch;
          baseBranch := src.baseBranch;
        case Err(f) =>
          if f.code == UncaughtErrorStatus {
            ws.Exit(Fatal(f.message));
          } else {
            DisplayMsgAndDie(f.message, f.code);
          }
      }
    }

    /**
     * pull_and_maybe_commit: list the remotes, retarget or add `pr-N`,
     * create the branch and pull, stopping at the first command that fails.
     */
    method PullAndMaybeCommit()
      requires ws.status == Running
      modifies ws
      ensures ws.requests == old(ws.requests)
      ensures pr == old(pr) && commit == old(commit)
      ensures var t := RunCommands(old(ws.remotes), old(PullCommands(ws.remotes, pr, remoteUrl, branch, baseBranch, remoteBranch, commit)), ws.outputs);
        ws.remotes == t.remotes && ws.log == old(ws.log) + t.ran && ws.status == (if t.aborted then Aborted else Running)
    {
      var noCommit := commit != true;
      var localBranch := LocalBranch(branch, pr);
      var remoteName := RemoteName(pr);
      ghost var log0 := ws.log;
      ghost var cs := PullCommands(ws.remotes, pr, remoteUrl, branch, baseBranch, remoteBranch, commit);
      ghost var rest3: seq<Command> := [];
      ghost var rest2 := [cs[3]] + rest3;
      ghost var rest1 := [cs[2]] + rest2;
      ghost var rest0 := [cs[1]] + rest1;
      assert cs == [cs[0]] + rest0;
      ghost var goal := RunCommands(ws.remotes, cs, ws.outputs);
      ghost var done0: seq<Command> := [];
      assert goal == After(done0, goal);

      var existing := ws.ExecNext(ListRemotes, rest0, done0, log0, goal);
      if ws.status != Running {
        return;
      }
      // set-url if the remote exists already, add otherwise
      var upsert := if remoteName in existing then SetRemoteUrl(remoteName, remoteUrl) else AddRemote(remoteName, remoteUrl);
      var _ := ws.ExecNext(upsert, rest1, done0 + [ListRemotes], log0, goal);
      if ws.status != Running {
        return;
      }
      var checkout := CheckoutNewBranch(localBranch, baseBranch);
      var _ := ws.ExecNext(checkout, rest2, done0 + [ListRemotes] + [upsert], log0, goal);
      if ws.status != Running {
        return;
      }
      var _ := ws.ExecNext(PullFrom(noCommit, remoteName, remoteBranch), rest3, done0 + [ListRemotes] + [upsert] + [checkout], log0, goal);
    }

    /**
     * cleanup_old_pr_remotes: list the remotes; if some start with "pr-",
     * fetch the open pull requests and remove, one at a time, each remote
     * whose number is not open, counting the removals.
     */
    method CleanupOldPrRemotes(openPrs: Fetch<seq<Element>>) returns (removed: nat)
      requires ws.status == Running
      modifies ws
      ensures var c := CleanupOutcome(old(ws.remotes), openPrs, OpenPrsUrl(owner, repo), ws.outputs);
        && ws.remotes == c.remotes && ws.log == old(ws.log) + c.ran && ws.status == c.status
        && ws.requests == old(ws.requests) + (if c.requested then [OpenPrsUrl(owner, repo)] else [])
        && (c.status == Running ==> removed == c.removed)
    {
      ghost var rs := ws.remotes;
      var remotes := ws.Exec(ListRemotes);
      if ws.status != Running {
        return 0;
      }
      var prRemotes := PrPrefixed(remotes);
      if prRemotes == [] {
        return 0;
      }
      var url := OpenPrsUrl(owner, repo);
      ws.Request(url);
      if openPrs.Unreachable? {
        DisplayMsgAndDie(Unreadable(url).message, 1);
        return 0;
      }
      if openPrs.decoded.None? {
        return 0;
      }
      if !NoText(openPrs.decoded.value) {
        ws.Exit(Fatal(UncaughtTypeError));
        return 0;
      }
      var open := OpenNumbers(openPrs.decoded.value);
      removed := ws.RemoveStale(prRemotes, open);
      ghost var t := RunCommands(rs, Removals(Stale(prRemotes, open)), ws.outputs);
      AppendAssoc(old(ws.log), [ListRemotes], t.ran);
    }
  }
}
