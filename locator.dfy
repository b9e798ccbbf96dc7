/**
 * The Repository Locator: the owner and repository name are read from the
 * first line `git remote get-url origin` prints, with the regex
 * `/github.com\/(.*)\/(.*)/`, and the name is then passed through
 * trim($name, '.git').
 */
module Locator {
  import opened Wrappers
  import opened PhpText

  datatype RepoRef = RepoRef(owner: string, name: string)

  /**
   * The literal part of the regex, `github.com/`, at offset `p`. Its `.` is
   * unescaped, so it stands for any character but a newline. Neither it nor
   * the `(.*)` groups are tested against a newline, because the lines `exec`
   * returns never hold one: it splits its output at them.
   */
  predicate MarkerAt(s: string, p: nat) {
    p + 11 <= |s| && s[p..p + 6] == "github" && s[p + 7..p + 11] == "com/"
  }

  /** The whole regex can match from offset `p`: a `/` follows the marker somewhere. */
  predicate MatchesAt(s: string, p: nat) {
    MarkerAt(s, p) && '/' in s[p + 11..]
  }

  /** `p` is where PCRE's leftmost match starts. */
  ghost predicate Leftmost(s: string, p: nat) {
    MatchesAt(s, p) && forall q: nat :: q < p ==> !MatchesAt(s, q)
  }

  /**
   * Greedy groups from a match at `p`: group 1 runs up to the LAST `/` of the
   * line and group 2 is everything after it.
   */
  ghost predicate SplitsAt(s: string, p: nat, group1: string, group2: string) {
    p + 11 <= |s| && s[p + 11..] == group1 + "/" + group2 && '/' !in group2
  }

  /** The index of the last occurrence of `c` in `t`. */
  function LastIndex(t: string, c: char): (r: Option<nat>)
    ensures r.None? <==> c !in t
    ensures r.Some? ==> r.value < |t| && t[r.value] == c && c !in t[r.value + 1..]
  {
    if t == [] then None
    else if t[|t| - 1] == c then Some(|t| - 1)
    else
      var r := LastIndex(t[..|t| - 1], c);
      assert r.Some? ==> t[r.value + 1..] == t[..|t| - 1][r.value + 1..] + [t[|t| - 1]];
      assert r.None? ==> t == t[..|t| - 1] + [t[|t| - 1]];
      r
  }

  /** The first offset at or after `from` where the regex matches. */
  function FirstMatch(s: string, from: nat): (r: Option<nat>)
    decreases |s| - from
    ensures r.Some? ==> from <= r.value && MatchesAt(s, r.value)
    ensures r.Some? ==> forall q: nat :: from <= q < r.value ==> !MatchesAt(s, q)
    ensures r.None? ==> forall q: nat :: from <= q ==> !MatchesAt(s, q)
  {
    if from + 11 > |s| then None
    else if MatchesAt(s, from) then Some(from)
    else FirstMatch(s, from + 1)
  }

  /** The two capture groups of preg_match("/github.com\/(.*)\/(.*)/", $line). */
  function MatchGithub(s: string): (r: Option<(string, string)>)
    ensures r.None? <==> forall p: nat :: !MatchesAt(s, p)
    ensures r.Some? ==> exists p :: Leftmost(s, p) && SplitsAt(s, p, r.value.0, r.value.1)
  {
    match FirstMatch(s, 0)
    case None => None
    case Some(p) =>
      var t := s[p + 11..];
      var q := LastIndex(t, '/').value;
      assert t == t[..q] + "/" + t[q + 1..];
      assert Leftmost(s, p);
      Some((t[..q], t[q + 1..]))
  }

  /** The character list given to trim(): the set {'.', 'g', 'i', 't'}, not a suffix. */
  const GitMask: set<char> := {'.', 'g', 'i', 't'}

  /**
   * get_owner_and_repo on the first output line: on a match, the owner is
   * group 1 and the name is group 2 with `.`, `g`, `i`, `t` stripped from
   * both ends; without a match, the "Could not find Github owner and repo" failure.
   */
  function OwnerAndRepo(line: string): (r: Option<RepoRef>)
    ensures r.None? <==> forall p: nat :: !MatchesAt(line, p)
    ensures r.Some? ==> exists p, raw :: Leftmost(line, p) && SplitsAt(line, p, r.value.owner, raw) && r.value.name == Trim(raw, GitMask)
  {
    match MatchGithub(line)
    case None => None
    case Some((owner, raw)) => Some(RepoRef(owner, Trim(raw, GitMask)))
  }

  /** The HTTPS form of a GitHub URL, the owner and name as given. */
  function HttpsUrl(owner: string, name: string): string {
    "https://github.com/" + owner + "/" + name
  }

  /** No match can start inside the "https://" scheme of such a URL. */
  lemma NoMatchBeforeHost(owner: string, name: string, q: nat)
    requires q < 8
    ensures !MatchesAt(HttpsUrl(owner, name), q)
  {
    var s := HttpsUrl(owner, name);
    var scheme := "https://";
    assert s[..8] == scheme;
    assert s[q] == scheme[q] != 'g';
    if q + 11 <= |s| {
      assert s[q..q + 6][0] == s[q];
    }
  }

  /** The leftmost match of such a URL starts at its "github" (offset 8). */
  lemma HttpsUrlFirstMatch(owner: string, name: string)
    requires '/' !in name
    ensures FirstMatch(HttpsUrl(owner, name), 0) == Some(8)
  {
    var s := HttpsUrl(owner, name);
    assert s[..19] == "https://github.com/";
    assert MatchesAt(s, 8) by {
      assert s[8..14] == "github" && s[15..19] == "com/";
      assert s[19 + |owner|] == '/' && s[19 + |owner|] == s[19..][|owner|];
    }
    forall q: nat | q < 8 ensures !MatchesAt(s, q) {
      NoMatchBeforeHost(owner, name, q);
    }
  }

  /** Nothing after the last occurrence is that character. */
  lemma NoneAfterLast(t: string, c: char, k: nat)
    requires LastIndex(t, c).Some? && LastIndex(t, c).value < k < |t|
    ensures t[k] != c
  {
    var r := LastIndex(t, c).value;
    assert t[k] == t[r + 1..][k - r - 1];
  }

  /** Past the owner and its `/`, the joined text has only the name's characters. */
  lemma NoSlashAfterOwner(owner: string, name: string, k: nat)
    requires '/' !in name && |owner| < k < |owner| + 1 + |name|
    ensures (owner + ("/" + name))[k] != '/'
  {
    assert (owner + ("/" + name))[k] == ("/" + name)[k - |owner|] == name[k - |owner| - 1];
  }

  /** With no `/` in the name, the last `/` is the one after the owner. */
  lemma LastSlashAfterOwner(owner: string, name: string)
    requires '/' !in name
    ensures LastIndex(owner + "/" + name, '/') == Some(|owner|)
  {
    var t := owner + "/" + name;
    AppendAssoc(owner, "/", name);
    assert t[|owner|] == '/';
    var r := LastIndex(t, '/').value;
    forall k: nat | r < k < |t| ensures t[k] != '/' {
      NoneAfterLast(t, '/', k);
    }
    forall k: nat | |owner| < k < |t| ensures t[k] != '/' {
      NoSlashAfterOwner(owner, name, k);
    }
  }

  /** The line splits at the `/` between the owner and the name. */
  lemma HttpsUrlMatch(owner: string, name: string)
    requires '/' !in name
    ensures MatchGithub(HttpsUrl(owner, name)) == Some((owner, name))
  {
    var s := HttpsUrl(owner, name);
    var t := owner + "/" + name;
    assert s[19..] == t;
    HttpsUrlFirstMatch(owner, name);
    LastSlashAfterOwner(owner, name);
    assert t[..|owner|] == owner && t[|owner| + 1..] == name;
  }

  /**
   * For https://github.com/<owner>/<name> with no `/` in the name, the
   * owner is extracted exactly, even when it contains `/` itself (group 1
   * is greedy), and the name comes out mask-trimmed.
   */
  lemma HttpsUrlOwnerAndRepo(owner: string, name: string)
    requires '/' !in name
    ensures OwnerAndRepo(HttpsUrl(owner, name)) == Some(RepoRef(owner, Trim(name, GitMask)))
  {
    HttpsUrlMatch(owner, name);
  }

  /** The mask strips "git" from the front of "git-pr.git", not only ".git" from its end. */
  lemma OwnNameTrimmed()
    ensures Trim("git-pr.git", GitMask) == "-pr"
  {
    TrimIs("git-pr.git", GitMask, 3, "-pr");
  }

  lemma NoSlashInOwnName()
    ensures '/' !in "git-pr.git"
  {
    var name := "git-pr.git";
    forall k | 0 <= k < |name| ensures name[k] != '/' {
    }
  }

  /**
   * The script's own repository, git-pr, loses the "git" at the front of
   * its name: a mask trim is not a suffix removal.
   */
  lemma OwnOriginMisparsed(owner: string)
    ensures OwnerAndRepo(HttpsUrl(owner, "git-pr.git")) == Some(RepoRef(owner, "-pr"))
  {
    NoSlashInOwnName();
    OwnNameTrimmed();
    HttpsUrlOwnerAndRepo(owner, "git-pr.git");
  }

  /** Removal of one trailing ".git", which is what the trim() call is meant to do. */
  function StripGitSuffix(name: string): (r: string)
    ensures r + ".git" == name || (r == name && !(|name| >= 4 && name[|name| - 4..] == ".git"))
  {
    if |name| >= 4 && name[|name| - 4..] == ".git" then name[..|name| - 4] else name
  }

  /** get_owner_and_repo with the suffix removal the comment and the docs describe. */
  function OwnerAndRepoIntended(line: string): (r: Option<RepoRef>)
    ensures r.None? <==> forall p: nat :: !MatchesAt(line, p)
  {
    match MatchGithub(line)
    case None => None
    case Some((owner, raw)) => Some(RepoRef(owner, StripGitSuffix(raw)))
  }

  /** With suffix removal, https://github.com/<owner>/<name>.git gives back <owner> and <name>. */
  lemma IntendedOriginParse(owner: string, name: string)
    requires '/' !in name
    ensures OwnerAndRepoIntended(HttpsUrl(owner, name + ".git")) == Some(RepoRef(owner, name))
  {
    var n := name + ".git";
    assert '/' !in n;
    HttpsUrlMatch(owner, n);
    assert n[|n| - 4..] == ".git" && n[..|n| - 4] == name;
  }

  /** ... and a name without the suffix is kept whole. */
  lemma IntendedOriginParseBare(owner: string, name: string)
    requires '/' !in name
    requires !(|name| >= 4 && name[|name| - 4..] == ".git")
    ensures OwnerAndRepoIntended(HttpsUrl(owner, name)) == Some(RepoRef(owner, name))
  {
    HttpsUrlMatch(owner, name);
  }
}
