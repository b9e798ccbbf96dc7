/**
 * The Command Executor's failure heuristic: a command's captured output is
 * scanned line by line for the literal substrings "fatal" or "error".
 */
module Executor {
  import opened PhpText

  /** The regex `/fatal|error/` (no `i` flag) matches this line. */
  predicate LineFails(line: string) {
    Contains(line, "fatal") || Contains(line, "error")
  }

  /** preg_grep('/fatal|error/', $output) is non-empty. */
  predicate Aborts(output: seq<string>) {
    output != [] && (LineFails(output[0]) || Aborts(output[1..]))
  }

  /**
   * A command aborts the script iff some captured line contains "fatal" or
   * "error" as a substring, case-sensitively.
   */
  lemma {:induction false} AbortsIff(output: seq<string>)
    ensures Aborts(output) <==>
      exists i, j :: 0 <= i < |output| && (OccursAt(output[i], "fatal", j) || OccursAt(output[i], "error", j))
  {
    if output != [] {
      AbortsIff(output[1..]);
      ContainsIff(output[0], "fatal");
      ContainsIff(output[0], "error");
      if Aborts(output) && !LineFails(output[0]) {
        var i, j :| 0 <= i < |output[1..]| && (OccursAt(output[1..][i], "fatal", j) || OccursAt(output[1..][i], "error", j));
        assert output[1..][i] == output[i + 1];
      }
      if exists i, j :: 0 <= i < |output| && (OccursAt(output[i], "fatal", j) || OccursAt(output[i], "error", j)) {
        var i, j :| 0 <= i < |output| && (OccursAt(output[i], "fatal", j) || OccursAt(output[i], "error", j));
        if i > 0 {
          assert output[1..][i - 1] == output[i];
        }
      }
    }
  }

  /** A line that lacks the first letter of `sub` does not contain `sub`. */
  lemma {:induction false} NotContainedWithoutFirstChar(s: string, sub: string)
    requires sub != [] && sub[0] !in s
    ensures !Contains(s, sub)
  {
    if s != [] {
      NotContainedWithoutFirstChar(s[1..], sub);
    }
  }

  /** The match is case-sensitive: a capitalised "Error:" alone does not abort. */
  lemma CapitalisedErrorDoesNotAbort()
    ensures !Aborts(["Error: Bad URL"])
  {
    var line := "Error: Bad URL";
    assert 'f' !in line && 'e' !in line;
    NotContainedWithoutFirstChar(line, "fatal");
    NotContainedWithoutFirstChar(line, "error");
  }

  /**
   * git's usual failure prefix aborts, and so does a successful pull whose
   * diffstat names a file called error.txt.
   */
  lemma FailureWordsAbort()
    ensures Aborts(["fatal: not a git repository"])
    ensures Aborts(["Updating 1a2b3c4..5d6e7f8", "error.txt | 2 +-"])
  {
    var f := "fatal: not a git repository";
    assert f[..5] == "fatal";
    var e := "error.txt | 2 +-";
    assert e[..5] == "error";
    var out := ["Updating 1a2b3c4..5d6e7f8", e];
    assert out[1..] == [e];
  }
}
