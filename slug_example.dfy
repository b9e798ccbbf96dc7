/**
 * A worked title: the branch name the script suggests for the pull request
 * "Fix the bug in the login flow".
 */
module SlugExample {
  import opened PhpText
  import opened BranchName
  import opened SlugWords

  /** `w` is in none of the first six rows of the source list. */
  predicate NotInRowsA(w: string)
  {
    w !in Row1 && w !in Row2 && w !in Row3 && w !in Row4 && w !in Row5 && w !in Row6
  }

  /** `w` is in none of the last seven rows of the source list. */
  predicate NotInRowsB(w: string)
  {
    w !in Row7 && w !in Row8 && w !in Row9 && w !in Row10 && w !in Row11 && w !in Row12 && w !in Row13
  }

  /** A word missing from every row of the source list is not a stop word. */
  lemma NotStopWord(w: string)
    requires NotInRowsA(w) && NotInRowsB(w)
    ensures w !in StopWords
  {
  }

  lemma KeptCons(t: string, rest: seq<string>, ws: seq<string>)
    ensures Kept([t] + rest, ws) == (if t == "" || t in ws then [] else [t]) + Kept(rest, ws)
  {
    assert ([t] + rest)[1..] == rest;
  }

  /** The words of the title after its first, kept as a constant so that they are not unfolded needlessly. */
  const TitleTail: seq<string> := ["the", "bug", "in", "the", "login", "flow"]

  lemma JoinStep(t: string, ts: seq<string>, s: string, r: string)
    requires ts != [] && Join(ts, " ") == s && r == t + " " + s
    ensures Join([t] + ts, " ") == r
  {
    JoinCons(t, ts, " ");
  }

  lemma TitleJoin5() ensures Join(["login", "flow"], " ") == "login flow"
  {
    JoinStep("login", ["flow"], "flow", "login flow");
  }

  lemma TitleJoin4() ensures Join(["the", "login", "flow"], " ") == "the login flow"
  {
    TitleJoin5();
    JoinStep("the", ["login", "flow"], "login flow", "the login flow");
  }

  lemma TitleJoin3() ensures Join(["in", "the", "login", "flow"], " ") == "in the login flow"
  {
    TitleJoin4();
    JoinStep("in", ["the", "login", "flow"], "the login flow", "in the login flow");
  }

  lemma TitleJoin2() ensures Join(["bug", "in", "the", "login", "flow"], " ") == "bug in the login flow"
  {
    TitleJoin3();
    JoinStep("bug", ["in", "the", "login", "flow"], "in the login flow", "bug in the login flow");
  }

  lemma TitleJoin1() ensures Join(TitleTail, " ") == "the bug in the login flow"
  {
    TitleJoin2();
    JoinStep("the", ["bug", "in", "the", "login", "flow"], "bug in the login flow", "the bug in the login flow");
  }

  lemma TitleJoin() ensures Join(["Fix"] + TitleTail, " ") == "Fix the bug in the login flow"
  {
    TitleJoin1();
    JoinStep("Fix", TitleTail, "the bug in the login flow", "Fix the bug in the login flow");
  }

  lemma TitleWordOnly()
    ensures AllWordOnly(["Fix"] + TitleTail)
  {
  }

  predicate NoUpper(s: string)
  {
    forall k :: 0 <= k < |s| ==> !('A' <= s[k] <= 'Z')
  }

  lemma LowerKeeps(s: string)
    requires NoUpper(s)
    ensures Lower(s) == s
  {
  }

  lemma LowerFirstOnly(t: string, u: string, ts: seq<string>)
    requires Lower(t) == u
    requires forall i :: 0 <= i < |ts| ==> NoUpper(ts[i])
    ensures LowerAll([t] + ts) == [u] + ts
  {
    forall i | 0 <= i < |ts| ensures Lower(ts[i]) == ts[i] {
      LowerKeeps(ts[i]);
    }
  }

  lemma TitleLower()
    ensures LowerAll(["Fix"] + TitleTail) == ["fix"] + TitleTail
  {
    assert forall i :: 0 <= i < |TitleTail| ==> NoUpper(TitleTail[i]);
    assert Lower("Fix") == "fix";
    LowerFirstOnly("Fix", "fix", TitleTail);
  }

  lemma FixNotStopWord()
    ensures "fix" !in StopWords
  {
    assert NotInRowsA("fix");
    assert NotInRowsB("fix");
    NotStopWord("fix");
  }

  lemma BugNotStopWord()
    ensures "bug" !in StopWords
  {
    assert NotInRowsA("bug");
    assert NotInRowsB("bug");
    NotStopWord("bug");
  }

  lemma LoginNotStopWord()
    ensures "login" !in StopWords
  {
    assert NotInRowsA("login");
    assert NotInRowsB("login");
    NotStopWord("login");
  }

  lemma FlowNotStopWord()
    ensures "flow" !in StopWords
  {
    assert NotInRowsA("flow");
    assert NotInRowsB("flow");
    NotStopWord("flow");
  }

  lemma TitleStopWords()
    ensures "the" in StopWords && "in" in StopWords
  {
    assert Row6[10] == "the";
    assert Row9[6] == "in";
  }

  /** The title's word pattern, for any stop list that holds its second and fourth words only. */
  lemma KeptPattern(ws: seq<string>, fix: string, the: string, bug: string, in_: string, login: string, flow: string)
    requires the in ws && in_ in ws
    requires fix != "" && bug != "" && login != "" && flow != ""
    requires fix !in ws && bug !in ws && login !in ws && flow !in ws
    ensures Kept([fix, the, bug, in_, the, login, flow], ws) == [fix, bug, login, flow]
  {
    KeptCons(flow, [], ws);
    KeptCons(login, [flow], ws);
    KeptCons(the, [login, flow], ws);
    KeptCons(in_, [the, login, flow], ws);
    KeptCons(bug, [in_, the, login, flow], ws);
    KeptCons(the, [bug, in_, the, login, flow], ws);
    KeptCons(fix, [the, bug, in_, the, login, flow], ws);
  }

  lemma TitleKept()
    ensures Kept(["fix"] + TitleTail, StopWords) == ["fix", "bug", "login", "flow"]
  {
    TitleStopWords();
    FixNotStopWord();
    BugNotStopWord();
    LoginNotStopWord();
    FlowNotStopWord();
    assert ["fix"] + TitleTail == ["fix", "the", "bug", "in", "the", "login", "flow"];
    KeptPattern(StopWords, "fix", "the", "bug", "in", "login", "flow");
  }

  lemma TitleHyphens()
    ensures Join(["fix", "bug", "login", "flow"], "-") == "fix-bug-login-flow"
  {
  }

  /**
   * "Fix the bug in the login flow" gives "fix-bug-login-flow": "the" and
   * "in" are stop words, and the "in" inside "login" is not a whole word.
   */
  lemma TitleExample()
    ensures Slug("Fix the bug in the login flow") == "fix-bug-login-flow"
  {
    TitleJoin();
    TitleWordOnly();
    SlugOfWords(["Fix"] + TitleTail);
    TitleLower();
    TitleKept();
    TitleHyphens();
  }
}
