/**
 * The git side of the script: the repository's remotes, the git commands
 * the script runs and what they do to the remotes, running a list of
 * commands until one aborts, the pull plan of pull_and_maybe_commit and
 * the choice of stale remotes in cleanup_old_pr_remotes.
 */
module Git {
  import opened Wrappers
  import opened PhpText
  import opened Executor
  import GitHub

  datatype Remote = Remote(name: string, url: string)

  /** git keeps at most one remote of each name. */
  predicate NoDupNames(rs: seq<Remote>) {
    forall i, j :: 0 <= i < j < |rs| ==> rs[i].name != rs[j].name
  }

  /** What `git remote` prints: one name per line, in order. */
  function Names(rs: seq<Remote>): (ns: seq<string>)
    ensures |ns| == |rs|
    ensures forall i :: 0 <= i < |rs| ==> ns[i] == rs[i].name
  {
    if rs == [] then [] else [rs[0].name] + Names(rs[1..])
  }

  /** The URL of the remote called `name`, if there is one. */
  function Lookup(rs: seq<Remote>, name: string): (u: Option<string>)
    ensures u.None? <==> name !in Names(rs)
    ensures u.Some? ==> Remote(name, u.value) in rs
  {
    if rs == [] then None
    else if rs[0].name == name then Some(rs[0].url)
    else Lookup(rs[1..], name)
  }

  /** The remotes with `name` pointing at `url`, every other remote as it was. */
  function Retarget(rs: seq<Remote>, name: string, url: string): (r: seq<Remote>)
    ensures |r| == |rs|
    ensures forall i :: 0 <= i < |rs| ==> r[i] == (if rs[i].name == name then Remote(name, url) else rs[i])
  {
    if rs == [] then [] else [if rs[0].name == name then Remote(name, url) else rs[0]] + Retarget(rs[1..], name, url)
  }

  /** The remotes other than `name`, in order. */
  function Without(rs: seq<Remote>, name: string): (r: seq<Remote>)
    ensures forall x :: x in r <==> x in rs && x.name != name
    ensures |r| <= |rs|
  {
    if rs == [] then []
    else (if rs[0].name == name then [] else [rs[0]]) + Without(rs[1..], name)
  }

  datatype Command =
    | GetOriginUrl                               // git remote get-url origin
    | ListRemotes                                // git remote
    | AddRemote(name: string, url: string)      // git remote add <name> <url>
    | SetRemoteUrl(name: string, url: string)   // git remote set-url <name> <url>
    | RemoveRemote(name: string)                 // git remote remove <name>
    | CheckoutNewBranch(branch: string, base: string)  // git checkout -b <branch> <base>
    | PullFrom(noCommit: bool, remote: string, ref: string)  // git pull [--no-commit] --set-upstream <remote> <ref>

  /**
   * What a command does to the remotes. git refuses to add a remote whose
   * name is taken and to retarget or remove one that does not exist; the
   * other commands leave the remotes alone.
   */
  function Effect(rs: seq<Remote>, c: Command): seq<Remote> {
    match c
    case AddRemote(name, url) => if name in Names(rs) then rs else rs + [Remote(name, url)]
    case SetRemoteUrl(name, url) => Retarget(rs, name, url)
    case RemoveRemote(name) => Without(rs, name)
    case _ => rs
  }

  /** The lines each command prints (`2>&1`), except `git remote`, whose output is the names. */
  type Outputs = Command -> seq<string>

  function Output(rs: seq<Remote>, outputs: Outputs, c: Command): seq<string> {
    if c.ListRemotes? then Names(rs) else outputs(c)
  }

  /** The remotes after a list of commands, when none of them aborts. */
  function ApplyAll(rs: seq<Remote>, cs: seq<Command>): seq<Remote>
    decreases |cs|
  {
    if cs == [] then rs else ApplyAll(Effect(rs, cs[0]), cs[1..])
  }

  lemma {:induction false} ApplyAllSnoc(rs: seq<Remote>, cs: seq<Command>, c: Command)
    ensures ApplyAll(rs, cs + [c]) == Effect(ApplyAll(rs, cs), c)
    decreases |cs|
  {
    if cs == [] {
      assert cs + [c] == [c];
      assert [c][1..] == [];
    } else {
      assert (cs + [c])[1..] == cs[1..] + [c];
      ApplyAllSnoc(Effect(rs, cs[0]), cs[1..], c);
    }
  }

  /** The remotes after a run, the commands that ran, and whether the script was aborted. */
  datatype Trace = Trace(remotes: seq<Remote>, ran: seq<Command>, aborted: bool)

  /** A trace with the commands `done`, which ran before it without aborting, put in front. */
  function After(done: seq<Command>, t: Trace): (r: Trace)
    ensures r.remotes == t.remotes && r.aborted == t.aborted && |r.ran| == |done| + |t.ran|
  {
    Trace(t.remotes, done + t.ran, t.aborted)
  }

  /**
   * exec_and_maybe_continue over a list of commands: each one runs, and
   * the script stops right after the first whose output trips the abort
   * check.
   */
  function RunCommands(rs: seq<Remote>, cs: seq<Command>, outputs: Outputs): Trace
    decreases |cs|
  {
    if cs == [] then Trace(rs, [], false)
    else if Aborts(Output(rs, outputs, cs[0])) then Trace(Effect(rs, cs[0]), [cs[0]], true)
    else After([cs[0]], RunCommands(Effect(rs, cs[0]), cs[1..], outputs))
  }

  /**
   * What ran is a prefix of the list, all of it when nothing aborted and
   * at least one command when something did, and the remotes are those the
   * commands that ran left.
   */
  lemma {:induction false} RunCommandsShape(rs: seq<Remote>, cs: seq<Command>, outputs: Outputs)
    ensures var t := RunCommands(rs, cs, outputs);
      && |t.ran| <= |cs| && t.ran == cs[..|t.ran|]
      && t.remotes == ApplyAll(rs, t.ran)
      && (!t.aborted ==> t.ran == cs)
      && (t.aborted ==> t.ran != [])
    decreases |cs|
  {
    if cs != [] {
      var c, next := cs[0], Effect(rs, cs[0]);
      if Aborts(Output(rs, outputs, c)) {
        assert [c][1..] == [];
        assert ApplyAll(rs, [c]) == ApplyAll(next, []);
        assert cs[..1] == [c];
      } else {
        var rest := RunCommands(next, cs[1..], outputs);
        RunCommandsShape(next, cs[1..], outputs);
        var ran := [c] + rest.ran;
        assert ran[0] == c && ran[1..] == rest.ran;
        assert ApplyAll(rs, ran) == ApplyAll(next, rest.ran);
        assert ran == cs[..|rest.ran| + 1];
      }
    }
  }

  /** Running `c` first and then `rest`: it aborts at once, or `rest` runs on what it left. */
  lemma RunCommandsCons(rs: seq<Remote>, c: Command, rest: seq<Command>, outputs: Outputs)
    ensures RunCommands(rs, [c] + rest, outputs) ==
      if Aborts(Output(rs, outputs, c)) then Trace(Effect(rs, c), [c], true)
      else After([c], RunCommands(Effect(rs, c), rest, outputs))
  {
    assert ([c] + rest)[1..] == rest;
  }

  /** The output of the `k`-th command of a list, run after the ones before it. */
  function OutputAt(rs: seq<Remote>, cs: seq<Command>, outputs: Outputs, k: nat): seq<string>
    requires k < |cs|
  {
    Output(ApplyAll(rs, cs[..k]), outputs, cs[k])
  }

  /** A run stops at the first command whose output aborts, and at no other. */
  lemma {:induction false} RunCommandsStops(rs: seq<Remote>, cs: seq<Command>, outputs: Outputs)
    ensures var t := RunCommands(rs, cs, outputs);
      && |t.ran| <= |cs|
      && (forall k :: 0 <= k < |t.ran| - 1 ==> !Aborts(OutputAt(rs, cs, outputs, k)))
      && (t.aborted <==> 0 < |t.ran| && Aborts(OutputAt(rs, cs, outputs, |t.ran| - 1)))
    decreases |cs|
  {
    if cs != [] {
      var next := Effect(rs, cs[0]);
      assert cs[..0] == [];
      assert OutputAt(rs, cs, outputs, 0) == Output(rs, outputs, cs[0]);
      if !Aborts(Output(rs, outputs, cs[0])) {
        var r := RunCommands(next, cs[1..], outputs);
        RunCommandsStops(next, cs[1..], outputs);
        assert RunCommands(rs, cs, outputs) == After([cs[0]], r);
        forall k | 0 < k < |cs| ensures OutputAt(rs, cs, outputs, k) == OutputAt(next, cs[1..], outputs, k - 1) {
          assert cs[..k][1..] == cs[1..][..k - 1];
          assert cs[..k] == [cs[0]] + cs[..k][1..];
        }
      }
    }
  }

  /** A list whose every command's output passes the check runs to the end. */
  lemma NoAbortRunsAll(rs: seq<Remote>, cs: seq<Command>, outputs: Outputs)
    requires forall k :: 0 <= k < |cs| ==> !Aborts(OutputAt(rs, cs, outputs, k))
    ensures RunCommands(rs, cs, outputs) == Trace(ApplyAll(rs, cs), cs, false)
  {
    RunCommandsStops(rs, cs, outputs);
    RunCommandsShape(rs, cs, outputs);
  }

  /** The name of a pull request's remote, and of its branch by default: sprintf("pr-%d", $pr). */
  function RemoteName(pr: int): (name: string)
    ensures |name| > 3 && name[..3] == "pr-" && name[3..] == IntDecimal(pr)
  {
    "pr-" + IntDecimal(pr)
  }

  /** `$this->branch ?: sprintf("pr-%d", $this->pr)`: a falsy name falls back to the remote's. */
  function LocalBranch(branch: string, pr: int): (b: string)
    ensures Truthy(branch) ==> b == branch
    ensures !Truthy(branch) ==> b == RemoteName(pr)
  {
    if Truthy(branch) then branch else RemoteName(pr)
  }

  /** The set-url-or-add step: "update its URL in case it changed", else add the remote. */
  function UpsertCommand(names: seq<string>, name: string, url: string): Command {
    if name in names then SetRemoteUrl(name, url) else AddRemote(name, url)
  }

  /**
   * The three commands pull_and_maybe_commit issues once `git remote` has
   * listed `names`: retarget the pull request's remote if it exists and add
   * it otherwise, create the branch on the base, and pull the head branch,
   * with --no-commit unless committing.
   */
  function PullPlan(names: seq<string>, pr: int, url: string, branch: string, base: string, headRef: string, commit: bool): seq<Command> {
    [ UpsertCommand(names, RemoteName(pr), url),
      CheckoutNewBranch(LocalBranch(branch, pr), base),
      PullFrom(!commit, RemoteName(pr), headRef) ]
  }

  lemma {:induction false} LookupRetarget(rs: seq<Remote>, name: string, url: string, other: string)
    ensures Lookup(Retarget(rs, name, url), name) == (if name in Names(rs) then Some(url) else None)
    ensures other != name ==> Lookup(Retarget(rs, name, url), other) == Lookup(rs, other)
    ensures Names(Retarget(rs, name, url)) == Names(rs)
  {
    if rs != [] {
      LookupRetarget(rs[1..], name, url, other);
      assert Retarget(rs, name, url)[1..] == Retarget(rs[1..], name, url);
    }
  }

  lemma {:induction false} NamesAppend(rs: seq<Remote>, r: Remote)
    ensures Names(rs + [r]) == Names(rs) + [r.name]
  {
  }

  lemma {:induction false} LookupAppend(rs: seq<Remote>, r: Remote, other: string)
    requires r.name !in Names(rs)
    ensures Lookup(rs + [r], r.name) == Some(r.url)
    ensures other != r.name ==> Lookup(rs + [r], other) == Lookup(rs, other)
  {
    if rs != [] {
      assert (rs + [r])[1..] == rs[1..] + [r];
      LookupAppend(rs[1..], r, other);
    } else {
      assert [] + [r] == [r];
    }
  }

  /**
   * After the upsert the remote exists once and points at `url`, the names
   * keep their order (with the new one last if it was added), and no other
   * remote changes.
   */
  lemma Upsert(rs: seq<Remote>, name: string, url: string, other: string)
    requires NoDupNames(rs)
    ensures var after := Effect(rs, UpsertCommand(Names(rs), name, url));
      && NoDupNames(after)
      && Lookup(after, name) == Some(url)
      && (other != name ==> Lookup(after, other) == Lookup(rs, other))
      && Names(after) == (if name in Names(rs) then Names(rs) else Names(rs) + [name])
  {
    if name in Names(rs) {
      LookupRetarget(rs, name, url, other);
    } else {
      LookupAppend(rs, Remote(name, url), other);
      NamesAppend(rs, Remote(name, url));
    }
  }

  predicate Passive(c: Command) {
    c.CheckoutNewBranch? || c.PullFrom? || c.ListRemotes? || c.GetOriginUrl?
  }

  /** Checking out and pulling do not touch the remotes. */
  lemma {:induction false} PassiveKeepsRemotes(rs: seq<Remote>, cs: seq<Command>)
    requires forall i :: 0 <= i < |cs| ==> Passive(cs[i])
    ensures ApplyAll(rs, cs) == rs
    decreases |cs|
  {
    if cs != [] {
      PassiveKeepsRemotes(rs, cs[1..]);
    }
  }

  /** The pull plan changes the remotes exactly as its upsert does. */
  lemma PullPlanUpserts(rs: seq<Remote>, pr: int, url: string, branch: string, base: string, headRef: string, commit: bool)
    ensures ApplyAll(rs, PullPlan(Names(rs), pr, url, branch, base, headRef, commit))
         == Effect(rs, UpsertCommand(Names(rs), RemoteName(pr), url))
  {
    var plan := PullPlan(Names(rs), pr, url, branch, base, headRef, commit);
    var first := Effect(rs, plan[0]);
    PassiveKeepsRemotes(first, plan[1..]);
  }

  /** str_starts_with($r, 'pr-'). */
  predicate HasPrPrefix(name: string) {
    |name| >= 3 && name[..3] == "pr-"
  }

  /** array_filter of the remote names by their "pr-" prefix, in order. */
  function PrPrefixed(names: seq<string>): (r: seq<string>)
    ensures |r| <= |names|
  {
    if names == [] then []
    else (if HasPrPrefix(names[0]) then [names[0]] else []) + PrPrefixed(names[1..])
  }

  /** The filter keeps exactly the names with the prefix. */
  lemma {:induction false} PrPrefixedMembers(names: seq<string>)
    ensures forall n :: n in PrPrefixed(names) <==> n in names && HasPrPrefix(n)
  {
    if names != [] {
      PrPrefixedMembers(names[1..]);
      assert names == [names[0]] + names[1..];
    }
  }

  /** Names none of which has the prefix leave nothing to clean up. */
  lemma {:induction false} NoPrPrefixed(names: seq<string>)
    requires forall i :: 0 <= i < |names| ==> !HasPrPrefix(names[i])
    ensures PrPrefixed(names) == []
  {
    if names != [] {
      NoPrPrefixed(names[1..]);
    }
  }

  /** preg_match('/^pr-(\d+)$/', $name), then (int) of the digits. */
  function ParsePrRemote(name: string): (n: Option<int>)
    ensures n.Some? <==> HasPrPrefix(name) && CtypeDigit(name[3..])
    ensures n.Some? ==> n.value == IntCast(name[3..])
  {
    if HasPrPrefix(name) && CtypeDigit(name[3..]) then Some(IntCast(name[3..])) else None
  }

  /** The remote of a numbered pull request reads back as that number. */
  lemma ParseRemoteName(pr: nat)
    requires pr <= PhpIntMax
    ensures ParsePrRemote(RemoteName(pr)) == Some(pr)
  {
    var name := RemoteName(pr);
    assert name[3..] == Decimal(pr);
    IntCastOfDecimal(pr);
  }

  /** `(int)$pr['number']` of one element: a missing number, or a number or null element, is (int)null, 0. */
  function NumberOf(e: GitHub.Element): int {
    if e.Record? then e.pr.number.GetOr(0) else 0
  }

  /** `(int)$pr['number']` of each element of the answer, in order. */
  function OpenNumbers(prs: seq<GitHub.Element>): (ns: seq<int>)
    ensures |ns| == |prs|
    ensures forall i :: 0 <= i < |prs| ==> ns[i] == NumberOf(prs[i])
  {
    if prs == [] then [] else [NumberOf(prs[0])] + OpenNumbers(prs[1..])
  }

  /** No element is a string, on which `$pr['number']` would be an uncaught TypeError. */
  predicate NoText(prs: seq<GitHub.Element>) {
    forall i :: 0 <= i < |prs| ==> !prs[i].Text?
  }

  /** A remote is stale when its name parses as a pull request number that is not open. */
  predicate IsStale(name: string, open: seq<int>) {
    ParsePrRemote(name).Some? && ParsePrRemote(name).value !in open
  }

  /** The remotes the cleanup loop removes, in order. */
  function Stale(names: seq<string>, open: seq<int>): (r: seq<string>)
    ensures |r| <= |names|
  {
    if names == [] then []
    else (if IsStale(names[0], open) then [names[0]] else []) + Stale(names[1..], open)
  }

  /** The stale names are exactly the names that are stale. */
  lemma {:induction false} StaleMembers(names: seq<string>, open: seq<int>)
    ensures forall n :: n in Stale(names, open) <==> n in names && IsStale(n, open)
  {
    if names != [] {
      StaleMembers(names[1..], open);
      assert names == [names[0]] + names[1..];
    }
  }

  /** One `git remote remove` per stale remote. */
  function Removals(stale: seq<string>): (cs: seq<Command>)
    ensures |cs| == |stale|
  {
    if stale == [] then [] else [RemoveRemote(stale[0])] + Removals(stale[1..])
  }

  /** The i-th removal removes the i-th stale name. */
  lemma {:induction false} RemovalsAt(stale: seq<string>)
    ensures forall i :: 0 <= i < |stale| ==> Removals(stale)[i] == RemoveRemote(stale[i])
  {
    if stale != [] {
      RemovalsAt(stale[1..]);
    }
  }

  lemma RemovalsCons(n: string, rest: seq<string>)
    ensures Removals([n] + rest) == [RemoveRemote(n)] + Removals(rest)
  {
    assert ([n] + rest)[1..] == rest;
  }

  /** Stale names never include a name without the prefix, so the prefix filter changes nothing. */
  lemma {:induction false} StaleOfPrefixed(names: seq<string>, open: seq<int>)
    ensures Stale(PrPrefixed(names), open) == Stale(names, open)
  {
    if names != [] {
      StaleOfPrefixed(names[1..], open);
      var head := if HasPrPrefix(names[0]) then [names[0]] else [];
      StaleAppend(head, PrPrefixed(names[1..]), open);
    }
  }

  lemma {:induction false} StaleAppend(a: seq<string>, b: seq<string>, open: seq<int>)
    ensures Stale(a + b, open) == Stale(a, open) + Stale(b, open)
  {
    if a == [] {
      assert a + b == b;
    } else {
      var head := if IsStale(a[0], open) then [a[0]] else [];
      assert (a + b)[0] == a[0] && (a + b)[1..] == a[1..] + b;
      StaleAppend(a[1..], b, open);
      AppendAssoc(head, Stale(a[1..], open), Stale(b, open));
    }
  }

  lemma StaleSnoc(names: seq<string>, n: string, open: seq<int>)
    ensures Stale(names + [n], open) == Stale(names, open) + (if IsStale(n, open) then [n] else [])
  {
    StaleAppend(names, [n], open);
    assert [n][1..] == [];
  }

  lemma RemovalsAppend(a: seq<string>, b: seq<string>)
    ensures Removals(a + b) == Removals(a) + Removals(b)
  {
    RemovalsAt(a + b);
    RemovalsAt(a);
    RemovalsAt(b);
    assert forall i :: 0 <= i < |a + b| ==> Removals(a + b)[i] == (Removals(a) + Removals(b))[i];
  }

  /** Removing names one after another keeps exactly the remotes with none of those names. */
  lemma {:induction false} RemovalsKeep(rs: seq<Remote>, gone: seq<string>)
    ensures forall x :: x in ApplyAll(rs, Removals(gone)) <==> x in rs && x.name !in gone
    decreases |gone|
  {
    if gone != [] {
      assert Removals(gone)[1..] == Removals(gone[1..]);
      RemovalsKeep(Without(rs, gone[0]), gone[1..]);
    }
  }

  /**
   * cleanup_old_pr_remotes when nothing aborts: a remote is removed iff its
   * name is "pr-" and digits and that number is not open; remotes without
   * the prefix, "pr-" names that are not all digits and open ones are kept.
   */
  lemma CleanupKeeps(rs: seq<Remote>, open: seq<int>)
    ensures forall x :: x in ApplyAll(rs, Removals(Stale(PrPrefixed(Names(rs)), open))) <==>
      x in rs && !IsStale(x.name, open)
  {
    StaleOfPrefixed(Names(rs), open);
    StaleMembers(Names(rs), open);
    RemovalsKeep(rs, Stale(Names(rs), open));
    forall x | x in rs ensures x.name in Names(rs) {
      var i :| 0 <= i < |rs| && rs[i] == x;
    }
  }

  lemma StaleCons(n: string, rest: seq<string>, open: seq<int>)
    ensures Stale([n] + rest, open) == (if IsStale(n, open) then [n] else []) + Stale(rest, open)
  {
    assert ([n] + rest)[1..] == rest;
  }

  lemma StalePattern(a: string, b: string, c: string, d: string, e: string, open: seq<int>)
    requires !IsStale(a, open) && !IsStale(b, open) && IsStale(c, open) && !IsStale(d, open) && !IsStale(e, open)
    ensures Stale([a, b, c, d, e], open) == [c]
  {
    StaleCons(e, [], open);
    StaleCons(d, [e], open);
    StaleCons(c, [d, e], open);
    StaleCons(b, [c, d, e], open);
    StaleCons(a, [b, c, d, e], open);
  }

  lemma ParsedNames()
    ensures ParsePrRemote("pr-1") == Some(1)
    ensures ParsePrRemote("pr-2") == Some(2)
    ensures ParsePrRemote("pr-99") == Some(99)
    ensures ParsePrRemote("pr-x") == None
    ensures ParsePrRemote("origin") == None
  {
    assert "pr-1"[3..] == "1";
    assert "pr-2"[3..] == "2";
    assert "pr-99"[3..] == "99" && "99"[..1] == "9";
    assert !IsDigit("pr-x"[3]);
    assert "origin"[..3][0] != "pr-"[0];
  }

  /** Which remotes of the cleanup example are stale when 1 and 99 are open. */
  lemma ExampleStaleness()
    ensures !IsStale("origin", [1, 99]) && !IsStale("pr-1", [1, 99]) && IsStale("pr-2", [1, 99])
    ensures !IsStale("pr-99", [1, 99]) && !IsStale("pr-x", [1, 99])
  {
    ParsedNames();
  }

  /**
   * Example: with remotes origin, pr-1, pr-2, pr-99 and pr-x and open
   * pull requests 1 and 99, only pr-2 is removed.
   */
  lemma CleanupExample()
    ensures Stale(PrPrefixed(["origin", "pr-1", "pr-2", "pr-99", "pr-x"]), [1, 99]) == ["pr-2"]
  {
    StaleOfPrefixed(["origin", "pr-1", "pr-2", "pr-99", "pr-x"], [1, 99]);
    ExampleStaleness();
    StalePattern("origin", "pr-1", "pr-2", "pr-99", "pr-x", [1, 99]);
  }
}
