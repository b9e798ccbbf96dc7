/**
 * What the script reads from the GitHub REST API, as json_decode() leaves
 * it: records whose every field may be missing or null, the check
 * get_pr_repo makes on a single pull request, and the listing list_prs prints.
 */
module GitHub {
  import opened Wrappers
  import opened PhpText

  datatype Repo = Repo(cloneUrl: Option<string>, fullName: Option<string>)
  datatype Head = Head(ref: Option<string>, repo: Option<Repo>)
  datatype Base = Base(ref: Option<string>)

  /** A pull request object of the API; `None` is a missing or null member. */
  datatype PullRequest = PullRequest(
    number: Option<int>,
    title: Option<string>,
    head: Option<Head>,
    base: Option<Base>)

  /**
   * The outcome of one API request: get_url could not read the URL, or it
   * read a body that json_decode() turned into a value of the expected
   * shape (`Some`) or into something else, such as null (`None`).
   */
  datatype Fetch<T> = Unreachable | Received(decoded: Option<T>)

  /** A call to display_msg_and_die, or an uncaught PHP error, with its exit status. */
  datatype Failure = Failure(code: int, message: string)

  /** Where get_pr_repo says the pull request's commits are, and what it is based on. */
  datatype PrSource = PrSource(remoteUrl: string, remoteBranch: string, baseBranch: string)

  /**
   * One element of the list answer as json_decode($json, true) leaves it:
   * an object or array, read as a record, a string, or another scalar (a
   * number, a boolean or null). An error answer such as
   * {"message": "Not Found", ...} decodes to an array of strings.
   */
  datatype Element = Record(pr: PullRequest) | Text | Scalar

  /** The exit status PHP gives an uncaught TypeError. */
  const UncaughtErrorStatus: int := 255

  /** What the model records of an uncaught TypeError. */
  const UncaughtTypeError: string := "TypeError"

  function PrUrl(owner: string, repo: string, pr: int): string {
    "https://api.github.com/repos/" + owner + "/" + repo + "/pulls/" + IntDecimal(pr)
  }

  /** The URL fetch_prs('open') requests, 100 per page. */
  function OpenPrsUrl(owner: string, repo: string): string {
    "https://api.github.com/repos/" + owner + "/" + repo + "/pulls?state=open&per_page=100"
  }

  /** get_url's failure when the request could not be made. */
  function Unreadable(url: string): (f: Failure)
    ensures f.code == 1
  {
    Failure(1, "Could not read info from " + url)
  }

  function CloneUrl(p: PullRequest): Option<string> {
    if p.head.Some? && p.head.value.repo.Some? then p.head.value.repo.value.cloneUrl else None
  }

  function HeadRef(p: PullRequest): Option<string> {
    if p.head.Some? then p.head.value.ref else None
  }

  function BaseRef(p: PullRequest): Option<string> {
    if p.base.Some? then p.base.value.ref else None
  }

  /**
   * get_pr_repo: the request must be readable, and the answer must carry
   * head.repo.clone_url and head.ref (exit 1 otherwise). base.ref is not
   * checked: when it is missing, storing null in the string-typed property
   * is an uncaught TypeError.
   */
  function ValidatePr(fetch: Fetch<PullRequest>, url: string, pr: int): (r: Result<PrSource, Failure>)
    ensures fetch.Unreachable? ==> r == Err(Unreadable(url))
    ensures r.Ok? <==> fetch.Received? && fetch.decoded.Some?
                       && CloneUrl(fetch.decoded.value).Some? && HeadRef(fetch.decoded.value).Some?
                       && BaseRef(fetch.decoded.value).Some?
    ensures r.Ok? ==> r.value == PrSource(CloneUrl(fetch.decoded.value).value,
                                          HeadRef(fetch.decoded.value).value,
                                          BaseRef(fetch.decoded.value).value)
    ensures r.Err? && r.error.code == UncaughtErrorStatus <==>
      fetch.Received? && fetch.decoded.Some? && CloneUrl(fetch.decoded.value).Some?
      && HeadRef(fetch.decoded.value).Some? && BaseRef(fetch.decoded.value).None?
    ensures r.Err? ==> r.error.code == 1 || r.error.code == UncaughtErrorStatus
  {
    match fetch
    case Unreachable => Err(Unreadable(url))
    case Received(decoded) =>
      if decoded.None? || CloneUrl(decoded.value).None? || HeadRef(decoded.value).None? then
        Err(Failure(1, "Could not find info for PR #" + IntDecimal(pr) + " (maybe PR repo was deleted?)\n"))
      else if BaseRef(decoded.value).None? then
        Err(Failure(UncaughtErrorStatus, UncaughtTypeError))
      else
        Ok(PrSource(CloneUrl(decoded.value).value, HeadRef(decoded.value).value, BaseRef(decoded.value).value))
  }

  /** The title get_suggested_branch_name builds on: `isset($pr->title)`. */
  function Title(decoded: Option<PullRequest>): (t: Option<string>)
    ensures t.Some? <==> decoded.Some? && decoded.value.title.Some?
  {
    if decoded.Some? then decoded.value.title else None
  }

  /** list_prs prints an entry only when it has both a number and a title; isset() is false on a scalar. */
  predicate Listed(e: Element) {
    e.Record? && e.pr.number.Some? && e.pr.title.Some?
  }

  /** A member read through a missing object is null, which "%s" prints as "". */
  function FullName(p: PullRequest): string {
    if p.head.Some? && p.head.value.repo.Some? then p.head.value.repo.value.fullName.GetOr("") else ""
  }

  /** sprintf("%d - %s (%s:%s)\n", number, title, head.repo.full_name, head.ref). */
  function FormatLine(p: PullRequest): (line: string)
    requires p.number.Some? && p.title.Some?
    ensures IntDecimal(p.number.value) + " - " + p.title.value + " (" <= line
    ensures var tail := ":" + HeadRef(p).GetOr("") + ")\n";
      |tail| <= |line| && line[|line| - |tail|..] == tail
  {
    IntDecimal(p.number.value) + " - " + p.title.value + " (" + FullName(p) + ":" + HeadRef(p).GetOr("") + ")\n"
  }

  /** What one entry adds to the listing. */
  function Entry(e: Element): string {
    if Listed(e) then FormatLine(e.pr) else ""
  }

  /** The listing list_prs accumulates, one line per listed entry, in order. */
  function FormatList(prs: seq<Element>): string {
    if prs == [] then "" else FormatList(prs[..|prs| - 1]) + Entry(prs[|prs| - 1])
  }

  /** The entries that are listed, in order. */
  function ListedOnly(prs: seq<Element>): (r: seq<Element>)
    ensures forall i :: 0 <= i < |r| ==> Listed(r[i])
    ensures |r| <= |prs|
  {
    if prs == [] then []
    else ListedOnly(prs[..|prs| - 1]) + (if Listed(prs[|prs| - 1]) then [prs[|prs| - 1]] else [])
  }

  /** The listing of two runs of entries is the two listings one after the other. */
  lemma {:induction false} FormatListAppend(a: seq<Element>, b: seq<Element>)
    ensures FormatList(a + b) == FormatList(a) + FormatList(b)
    decreases |b|
  {
    if b == [] {
      assert a + b == a;
    } else {
      var init, last := b[..|b| - 1], b[|b| - 1];
      assert (a + b)[..|a + b| - 1] == a + init;
      assert (a + b)[|a + b| - 1] == last;
      assert FormatList(a + b) == FormatList(a + init) + Entry(last);
      assert FormatList(b) == FormatList(init) + Entry(last);
      FormatListAppend(a, init);
      AppendAssoc(FormatList(a), FormatList(init), Entry(last));
    }
  }

  /** Entries without a number or a title leave no trace in the listing. */
  lemma {:induction false} FormatListSkipsUnlisted(prs: seq<Element>)
    ensures FormatList(prs) == FormatList(ListedOnly(prs))
  {
    if prs != [] {
      var init := prs[..|prs| - 1];
      var last := prs[|prs| - 1];
      FormatListSkipsUnlisted(init);
      FormatListAppend(ListedOnly(init), if Listed(last) then [last] else []);
      if Listed(last) {
        assert FormatList([last]) == FormatList([]) + Entry(last);
      }
    }
  }

  /** The listing is empty exactly when no entry has both a number and a title. */
  lemma {:induction false} FormatListEmptyIff(prs: seq<Element>)
    ensures FormatList(prs) == "" <==> forall i :: 0 <= i < |prs| ==> !Listed(prs[i])
  {
    if prs != [] {
      var init := prs[..|prs| - 1];
      FormatListEmptyIff(init);
      assert forall i :: 0 <= i < |init| ==> init[i] == prs[i];
    }
  }

  /**
   * The message list_prs returns: the request must be readable (get_url
   * exits otherwise); an answer that is not an array gives the error
   * message, an empty array "No pull requests found", and any other array
   * its listing, which may be empty when no entry is listed.
   */
  function ListMessage(fetch: Fetch<seq<Element>>, url: string): (r: Result<string, Failure>)
    ensures fetch.Unreachable? <==> r.Err?
    ensures r.Err? ==> r.error == Unreadable(url)
    ensures fetch == Received(None) ==> r == Ok("Error: Could not fetch PR list from GitHub API")
    ensures fetch == Received(Some([])) ==> r == Ok("No pull requests found")
  {
    match fetch
    case Unreachable => Err(Unreadable(url))
    case Received(None) => Ok("Error: Could not fetch PR list from GitHub API")
    case Received(Some(prs)) => if prs == [] then Ok("No pull requests found") else Ok(FormatList(prs))
  }

  /** list_prs: the listing is built one entry at a time. */
  method ListPrs(fetch: Fetch<seq<Element>>, url: string) returns (r: Result<string, Failure>)
    ensures r == ListMessage(fetch, url)
    ensures fetch.Received? && fetch.decoded.Some? && fetch.decoded.value != [] ==>
      r == Ok(FormatList(ListedOnly(fetch.decoded.value)))
  {
    if fetch.Unreachable? {
      return Err(Unreadable(url));
    }
    if fetch.decoded.None? {
      return Ok("Error: Could not fetch PR list from GitHub API");
    }
    var prs := fetch.decoded.value;
    if prs == [] {
      return Ok("No pull requests found");
    }
    var list := "";
    for i := 0 to |prs|
      invariant list == FormatList(prs[..i])
    {
      assert prs[..i + 1][..i] == prs[..i];
      if Listed(prs[i]) {
        list := list + FormatLine(prs[i].pr);
      }
    }
    assert prs[..|prs|] == prs;
    FormatListSkipsUnlisted(prs);
    return Ok(list);
  }

  /**
   * An answer that is an object, such as GitHub's {"message": "Not Found"}
   * for an unknown repository, is a non-empty array without records: the
   * listing is empty, not the error message.
   */
  lemma ObjectAnswerListsNothing(es: seq<Element>, url: string)
    requires es != [] && forall i :: 0 <= i < |es| ==> !es[i].Record?
    ensures ListMessage(Received(Some(es)), url) == Ok("")
  {
    FormatListEmptyIff(es);
  }
}
