/**
 * The decision get_cli_params takes once getopt() has parsed the command
 * line: which single action the run performs, from the options given and
 * the arguments left after them.
 */
module Cli {
  import opened Wrappers
  import opened PhpText

  /**
   * The options getopt() found. Each boolean is already the disjunction of
   * the short and long spellings (`-n`, `--nocommit`, `--no-commit`, ...);
   * the branch value is kept per spelling because the source reads it with
   * `$args['b'] ?? $args['branch']`.
   */
  datatype Flags = Flags(
    nocommit: bool,
    help: bool,
    branchShort: Option<string>,
    branchLong: Option<string>,
    version: bool,
    list: bool,
    suggest: bool,
    cleanup: bool)

  /** What the run does with the local branch name once it pulls. */
  datatype BranchChoice =
    | Custom(name: string)   // the trimmed --branch value
    | Suggest                // ask the user, starting from a name built from the title
    | Unnamed                // no choice made here: the pull falls back to "pr-N"

  datatype Action =
    | ConfigError            // --branch together with --suggest: exit 1
    | Cleanup                // remove the remotes of closed pull requests, then exit 0
    | List                   // print the open pull requests, exit 0
    | Version                // print the version, exit 0
    | Help                   // print the help text, exit 0
    | Pull(pr: int, branch: BranchChoice, commit: bool)

  const MutuallyExclusive: string := "Options --branch and --suggest are mutually exclusive."

  /** `$branch`: the -b value if there is one, else the --branch value, else false. */
  function BranchArg(f: Flags): (b: Option<string>)
    ensures b.Some? <==> f.branchShort.Some? || f.branchLong.Some?
    ensures f.branchShort.Some? ==> b == f.branchShort
    ensures f.branchShort.None? ==> b == f.branchLong
  {
    if f.branchShort.Some? then f.branchShort else f.branchLong
  }

  /** `$branch` is truthy: given, and neither "" nor "0". */
  predicate BranchGiven(f: Flags) {
    BranchArg(f).Some? && Truthy(BranchArg(f).value)
  }

  /** `$branch && $suggest`. */
  predicate Clash(f: Flags) {
    BranchGiven(f) && f.suggest
  }

  /** The one trailing argument is a pull request number: exactly one, and ctype_digit(). */
  predicate ValidPrArgs(args: seq<string>) {
    |args| == 1 && CtypeDigit(args[0])
  }

  /**
   * get_cli_params: the exclusion check first, then cleanup, list, version,
   * and help (also when the pull request number is missing or malformed);
   * otherwise a pull of the numbered request.
   */
  function Decide(f: Flags, args: seq<string>): (a: Action)
    ensures a.ConfigError? <==> Clash(f)
    ensures a.Cleanup? <==> !Clash(f) && f.cleanup
    ensures a.List? <==> !Clash(f) && !f.cleanup && f.list
    ensures a.Version? <==> !Clash(f) && !f.cleanup && !f.list && f.version
    ensures a.Help? <==> !Clash(f) && !f.cleanup && !f.list && !f.version && (f.help || !ValidPrArgs(args))
    ensures a.Pull? ==> ValidPrArgs(args) && a.pr == IntCast(args[0]) && 0 <= a.pr <= PhpIntMax
    ensures a.Pull? ==> a.commit == !f.nocommit
    ensures a.Pull? && BranchGiven(f) ==> a.branch == Custom(TrimSpace(BranchArg(f).value))
    ensures a.Pull? && !BranchGiven(f) ==> a.branch == (if f.suggest then Suggest else Unnamed)
  {
    if Clash(f) then ConfigError
    else if f.cleanup then Cleanup
    else if f.list then List
    else if f.version then Version
    else if f.help || !ValidPrArgs(args) then Help
    else
      var branch :=
        if BranchGiven(f) then Custom(TrimSpace(BranchArg(f).value))
        else if f.suggest then Suggest
        else Unnamed;
      Pull(IntCast(args[0]), branch, !f.nocommit)
  }

  /** No option given at all. */
  const NoFlags: Flags := Flags(false, false, None, None, false, false, false, false)

  /**
   * `git pr N`, with N printed in decimal, pulls request N into the fallback
   * branch and commits: the (int) cast reads the printed number back.
   */
  lemma PlainPull(n: nat)
    requires n <= PhpIntMax
    ensures Decide(NoFlags, [Decimal(n)]) == Pull(n, Unnamed, true)
  {
    IntCastOfDecimal(n);
  }

  /** "0" is a valid pull request number, and leading zeros are accepted. */
  lemma ZeroAndLeadingZeros()
    ensures Decide(NoFlags, ["0"]) == Pull(0, Unnamed, true)
    ensures Decide(NoFlags, ["007"]) == Pull(7, Unnamed, true)
  {
    var s := "007";
    assert s[..2] == "00" && "00"[..1] == "0" && "0"[..0] == "";
    assert DigitsValue("0") == 0;
    assert DigitsValue("00") == 0;
    assert DigitsValue(s) == 7;
  }

  /**
   * Anything but one all-digit argument shows the help: no argument, two
   * arguments, a sign, a letter.
   */
  lemma MalformedNumbersShowHelp(f: Flags)
    requires !Clash(f) && !f.cleanup && !f.list && !f.version
    ensures Decide(f, []) == Help
    ensures Decide(f, ["12", "13"]) == Help
    ensures Decide(f, ["-5"]) == Help
    ensures Decide(f, ["12a"]) == Help
    ensures Decide(f, [""]) == Help
  {
    assert !IsDigit("-5"[0]);
    assert !IsDigit("12a"[2]);
  }

  /**
   * "0" is a falsy --branch value: with --suggest it is no clash, and the
   * suggestion is used.
   */
  lemma FalsyBranchDoesNotClash(pr: string)
    requires CtypeDigit(pr)
    ensures Decide(NoFlags.(branchLong := Some("0"), suggest := true), [pr]).branch == Suggest
  {
  }

  /** The exclusion check wins whatever else is asked for. */
  lemma ClashBeatsAll(f: Flags, args: seq<string>, name: string)
    requires Truthy(name)
    ensures Decide(f.(branchShort := Some(name), suggest := true), args) == ConfigError
  {
  }

  /** A --branch value is trimmed: " name " becomes "name". */
  lemma CustomBranchIsTrimmed(name: string, n: nat)
    requires name != [] && name[0] !in TrimWhitespace && name[|name| - 1] !in TrimWhitespace
    requires n <= PhpIntMax
    ensures Decide(NoFlags.(branchShort := Some(" " + name + " ")), [Decimal(n)]) == Pull(n, Custom(name), true)
  {
    var s := " " + name + " ";
    assert s[1..1 + |name|] == name;
    assert TrimmedAt(s, TrimWhitespace, 1, name);
    TrimIs(s, TrimWhitespace, 1, name);
    IntCastOfDecimal(n);
  }
}
