# git-pr in Dafny

A model of `ozh_git_pr.php` (class `Ozh_Git_PR`, version 1.3). This is the
`git pr` command, which pulls a GitHub pull request into a local branch.
The model covers:

- the decisions the script makes and the state it changes along the way;
- where the owner and repository come from, in the origin URL;
- which action the command line asks for;
- how a branch name is suggested from the pull request's title;
- what the API's answer for a pull request must contain;
- the git commands a pull issues, and what they do to the remotes;
- which `pr-N` remotes a cleanup removes;
- when a command's output aborts the script;
- how the open pull requests are listed;
- how the help text is cut out of the script's header comment.

Everything outside the script is a parameter:

- the options and trailing arguments getopt() leaves (`Cli.Flags` and a sequence of strings);
- the lines of the script's own file;
- the API's answers, as decoded records whose every member may be missing (`GitHub.Fetch`); the list answer is a sequence of elements, each a record, a string or another scalar (`GitHub.Element`);
- the line the user types at the branch-name prompt;
- what each git command prints (`Git.Outputs`).

The one exception is `git remote`, whose output is the names of the remotes
the model currently holds, in the order the model keeps them.

The modules follow the script:

- `PhpText`: the PHP built-ins the script leans on, which are truthiness, `trim`, `ctype_digit`, the `(int)` cast, `%d`, `strtolower` and substring search.
- `Executor`: the abort check.
- `Locator`: `get_owner_and_repo`.
- `BranchName`, `SlugWords` and `SlugExample`: `remove_stop_words` and the suggestion.
- `Cli`: the decision `get_cli_params` makes.
- `GitHub`: the API records, `get_pr_repo`'s check and `list_prs`.
- `Help`: `get_help_msg`.
- `Git`: remotes, commands, the pull plan and the cleanup specification.
- `GitPr`: the class itself (`OzhGitPr`) and a `Workspace` class standing for the repository and the process.

The methods of `OzhGitPr` set the object's fields one after another, as the
script does. Each method is proved against the functions of the other
modules. `GitPr.Workspace` records:

- the remotes;
- the git commands run so far;
- the API URLs requested;
- whether the process is still running or has ended, and how.

The process can end in one of these ways:

- `display_msg_and_die`, with its message and exit status;
- the abort of `exec_and_maybe_continue`;
- a bare `exit(0)`;
- an uncaught PHP error.

The model follows the code where the code and the documented behaviour part
ways:

- The name of the repository is trimmed with `.git` as a character list, not as a suffix (see Findings).
- The abort check is case-sensitive.
- `die()` with a string exits with status 0.
- Owner and name may be empty.
- The slug keeps leading and trailing hyphens.
- A pull request answer without `base.ref` makes the script fail with a TypeError (exit status 255) rather than with a message.

## Model

| member | source | states |
|---|---|---|
| PhpText.TrimCharacterised | ozh_git_pr.php:192 | trim() with a character list only cuts characters of the list from the two ends, and neither end of what remains is in the list |
| PhpText.TrimIs | ozh_git_pr.php:148 | any cut satisfying that characterisation is exactly what trim() returns: the characterisation is unique |
| PhpText.IntCast | ozh_git_pr.php:127 | the (int) cast of a digit string is its decimal value up to PHP_INT_MAX. A larger value is read as a double: it gives PHP_INT_MAX while that double is finite, and 0 from 2^1024 - 2^970 on, where the double has rounded to infinity. A digit string never casts to a negative number |
| PhpText.TooLongForDoubleCastsToZero | ozh_git_pr.php:124-127 | a digit string of more than 309 digits without a leading zero casts to 0, so `git pr` with "1" and 309 zeros asks for pull request 0 |
| PhpText.Decimal | ozh_git_pr.php:300 | "%d" of a natural number is a non-empty digit string without a leading zero |
| PhpText.DecimalRoundTrip | ozh_git_pr.php:350 | reading back a printed number gives the number again |
| PhpText.IntCastOfDecimal | ozh_git_pr.php:127 | the (int) cast of a printed number up to PHP_INT_MAX is that number |
| PhpText.Lower | ozh_git_pr.php:429 | strtolower keeps the length and lower-cases each character in place |
| PhpText.LowerMeaning | ozh_git_pr.php:429 | after strtolower no ASCII capital is left, and every other character is unchanged |
| PhpText.ContainsIff | ozh_git_pr.php:395 | an unanchored literal pattern matches a line iff the literal occurs in it at some offset |
| Executor.AbortsIff | ozh_git_pr.php:395-397 | a command aborts the script iff some captured line contains "fatal" or "error" |
| Executor.Aborts | ozh_git_pr.php:395 | `preg_grep('/fatal\|error/', $output)` is non-empty, defined line by line; AbortsIff characterises it as an occurrence of either word in some line |
| Executor.CapitalisedErrorDoesNotAbort | ozh_git_pr.php:395 | the pattern has no i flag: a line "Error: Bad URL" does not abort |
| Executor.FailureWordsAbort | ozh_git_pr.php:395-396 | "fatal: ..." aborts, and so does a successful pull whose diffstat names a file error.txt |
| Locator.FirstMatch | ozh_git_pr.php:189 | the first offset from which the regex can match, and no match before it |
| Locator.MatchGithub | ozh_git_pr.php:189 | no capture iff no offset matches; otherwise the groups come from the leftmost match, and group 1 runs to the last `/` of the line |
| Locator.OwnerAndRepo | ozh_git_pr.php:186-195 | the "Could not find Github owner and repo" case happens iff nothing matches; otherwise the owner is group 1 of the leftmost match and the name is group 2 trimmed by the character list `.git` |
| Locator.HttpsUrlMatch | ozh_git_pr.php:189 | https://github.com/OWNER/NAME with no `/` in NAME captures exactly OWNER and NAME |
| Locator.HttpsUrlOwnerAndRepo | ozh_git_pr.php:189-192 | for such a URL the owner is exact, even with `/` in it, and the name comes out mask-trimmed |
| Locator.OwnNameTrimmed | ozh_git_pr.php:192 | trim("git-pr.git", ".git") is "-pr" |
| Locator.OwnOriginMisparsed | ozh_git_pr.php:186-192 | the origin URL of the git-pr repository itself is parsed to name "-pr" |
| Locator.StripGitSuffix | ozh_git_pr.php:192 | the intended cleaning: one trailing ".git" is removed, and nothing else |
| Locator.OwnerAndRepoIntended | ozh_git_pr.php:186-195 | the intended parse fails in the same cases as the script's |
| Locator.IntendedOriginParse | ozh_git_pr.php:186-192 | with suffix removal, https://github.com/OWNER/NAME.git gives back OWNER and NAME for any NAME without `/` |
| Locator.IntendedOriginParseBare | ozh_git_pr.php:186-192 | with suffix removal, a name without ".git" is kept whole |
| BranchName.RemoveFrom | ozh_git_pr.php:427-429 | removing one pattern from an offset on never lengthens the text |
| BranchName.RemoveFromNoMatch | ozh_git_pr.php:427-429 | where a stop word occurs nowhere as a whole word, removing it changes nothing |
| BranchName.RemoveFromMatch | ozh_git_pr.php:427-429 | where it occurs as a whole word, removing it shortens the text |
| BranchName.RemoveWordUnchangedIff | ozh_git_pr.php:427-429 | one `\b`word`\b` replacement leaves the text unchanged iff the word occurs nowhere as a whole word |
| BranchName.RemoveWord | ozh_git_pr.php:427-429 | one whole-word replacement never lengthens the text; RemoveWordUnchangedIff and SlugWords.RemoveWordJoin say what it removes |
| BranchName.ApplyStopWordsAppend | ozh_git_pr.php:426-429 | the patterns apply one after another in list order: applying a list is applying its first part, then the rest |
| BranchName.ApplyStopWords | ozh_git_pr.php:426-429 | the stop-word patterns applied one after another, never lengthening the text; ApplyStopWordsAppend and SlugWords.ApplyStopWordsJoin characterise it |
| BranchName.DropSpaces | ozh_git_pr.php:430 | what drops is a run of `\s` characters at the front, and what is left does not start with one |
| BranchName.Hyphenate | ozh_git_pr.php:430 | after `\s+` is replaced by `-` no whitespace is left |
| BranchName.HyphenateNoSpace | ozh_git_pr.php:430 | a text without whitespace is left as it is |
| BranchName.HyphenateSpaceRun | ozh_git_pr.php:430 | a whole run of whitespace becomes exactly one `-` |
| BranchName.HyphenateSplit | ozh_git_pr.php:430 | a run of whitespace between two texts becomes one `-` between their hyphenations |
| BranchName.Slug | ozh_git_pr.php:410-432 | remove_stop_words: its result contains no whitespace |
| BranchName.RemoveStopWords | ozh_git_pr.php:410-432 | lower-casing, the replacement loop, trim and hyphenation together return Slug of the title |
| BranchName.ReplaceEach | ozh_git_pr.php:426-429 | the replacement loop applies the stop words in list order |
| BranchName.SuggestedBranchName | ozh_git_pr.php:299-318 | a non-empty trimmed user line wins; otherwise the slug of the title, or "no-title-found" without a title; without an override the name has no whitespace |
| SlugWords.RemoveWordJoin | ozh_git_pr.php:427-429 | on space-separated word tokens, one pattern blanks exactly the tokens equal to the stop word, so a stop word inside a longer word is kept |
| SlugWords.ApplyStopWordsJoin | ozh_git_pr.php:426-429 | the whole list blanks every token that is a stop word and keeps every other token |
| SlugWords.BlankAllIs | ozh_git_pr.php:426-429 | token by token: a stop word becomes empty and any other token is kept |
| SlugWords.LowerJoin | ozh_git_pr.php:429 | lower-casing a space-joined title lower-cases each word |
| SlugWords.HyphenateTrimJoin | ozh_git_pr.php:430 | trimming and hyphenating word tokens joins the non-empty tokens with single `-` |
| SlugWords.StopWordsArePatterns | ozh_git_pr.php:411-425 | every entry of the stop-word list is non-empty and contains no space |
| SlugWords.KeptIs | ozh_git_pr.php:426-430 | the non-empty tokens after blanking are exactly the tokens that are not stop words |
| SlugWords.SlugOfWords | ozh_git_pr.php:410-432 | the slug of a title of word tokens is its lower-cased non-stop-words joined by `-` |
| SlugWords.SlugOfWordsWith | ozh_git_pr.php:426-431 | the same for any list of word patterns |
| SlugExample.TitleExample | ozh_git_pr.php:410-432 | "Fix the bug in the login flow" becomes "fix-bug-login-flow": "the" and "in" go, and the "in" inside "login" is kept |
| Cli.BranchArg | ozh_git_pr.php:111 | `$args['b'] ?? $args['branch']`: the -b value when -b is given, the --branch value otherwise, and present iff either is given |
| Cli.Decide | ozh_git_pr.php:106-156 | the config error iff a truthy --branch is given with --suggest; then cleanup, list, version, and help (also for a bad PR argument), each exactly when every earlier action is not taken; a pull carries the cast number, the negated --nocommit and the trimmed branch, the suggestion or no name |
| Cli.PlainPull | ozh_git_pr.php:123-128 | `git pr N` pulls N, commits, and names no branch |
| Cli.ZeroAndLeadingZeros | ozh_git_pr.php:124-127 | "0" is a valid number, and "007" is pull request 7 |
| Cli.MalformedNumbersShowHelp | ozh_git_pr.php:123-126 | no argument, two arguments, "-5", "12a" and "" all show the help |
| Cli.FalsyBranchDoesNotClash | ozh_git_pr.php:118 | `--branch 0` with --suggest is no clash, and the name is suggested |
| Cli.ClashBeatsAll | ozh_git_pr.php:118-120 | a truthy --branch with --suggest is the config error whatever else is given |
| Cli.CustomBranchIsTrimmed | ozh_git_pr.php:147-148 | the --branch value is used trimmed |
| GitHub.Unreadable | ozh_git_pr.php:174-176 | an unreadable URL ends the script with status 1 |
| GitHub.ValidatePr | ozh_git_pr.php:324-337 | an unreadable URL is get_url's failure; the answer is accepted iff clone_url, head.ref and base.ref are all present, and then gives them; a missing base.ref alone is the uncaught TypeError (255); every other failure exits 1 |
| GitHub.Title | ozh_git_pr.php:303 | there is a title iff the answer decoded and has one |
| GitHub.FormatLine | ozh_git_pr.php:235-240 | the text printed for an entry starts with its number, " - ", its title and " (", and ends with ":", head.ref, ")" and a newline |
| GitHub.ListedOnly | ozh_git_pr.php:234 | the elements that are records with a number and a title, in order |
| GitHub.FormatListAppend | ozh_git_pr.php:233-242 | the listing of two runs of entries is their two listings one after the other |
| GitHub.FormatListSkipsUnlisted | ozh_git_pr.php:234 | entries without a number or title leave no trace in the listing |
| GitHub.FormatListEmptyIff | ozh_git_pr.php:233-244 | the listing is empty iff no entry has both a number and a title |
| GitHub.FormatList | ozh_git_pr.php:233-244 | the listing accumulated entry by entry; FormatListAppend, FormatListSkipsUnlisted and FormatListEmptyIff characterise it |
| GitHub.ListMessage | ozh_git_pr.php:224-249 | an unreadable URL is get_url's failure; an answer that is not an array gives the error message, an empty array "No pull requests found" |
| GitHub.ListPrs | ozh_git_pr.php:224-249 | the loop's accumulated listing is ListMessage, which for a non-empty array is the listing of its listed entries |
| GitHub.ObjectAnswerListsNothing | ozh_git_pr.php:224-249 | an answer that is an object (a non-empty array without records, such as {"message": "Not Found"}) lists nothing: the message is empty, not the error text |
| Help.OpensHeaderIff | ozh_git_pr.php:84 | the header opens on a line iff some run of leading `\s` is followed by the opening marker |
| Help.StripMarker | ozh_git_pr.php:96 | what is left is a suffix of the line; the line changes iff its leading `\s` run is followed by `*` and one more `\s` character, and then exactly those characters are removed |
| Help.ScanBeforeHeader | ozh_git_pr.php:83-88 | lines before the header contribute nothing |
| Help.ScanInsideHeader | ozh_git_pr.php:90-97 | inside the header, every line up to the closing one is kept, stripped |
| Help.HelpOfHeader | ozh_git_pr.php:76-101 | the help of a file is the stripped lines between the header's opening and closing lines, and nothing around them |
| Help.Scan | ozh_git_pr.php:76-101 | the lines the scan keeps, given the `in_comment` flag; ScanBeforeHeader, ScanInsideHeader and HelpOfHeader characterise it |
| Help.UnclosedHeader | ozh_git_pr.php:83-97 | a header that never closes runs to the end of the file |
| Help.NoHeader | ozh_git_pr.php:76-101 | without an opening line the help text is empty |
| Help.MarkerLines | ozh_git_pr.php:96 | a bare " *" line gives nothing (its newline is the `\s`), " * text" gives "text" |
| Help.GetHelpMsg | ozh_git_pr.php:76-101 | the loop with its `in_comment` flag computes Scan of the lines, from outside the header |
| Git.Names | ozh_git_pr.php:257 | `git remote` prints each remote's name once, in the model's order of the remotes |
| Git.Lookup | ozh_git_pr.php:354 | no URL iff the name is not a remote; otherwise a remote with that name and URL exists |
| Git.Retarget | ozh_git_pr.php:356 | `git remote set-url` changes the URL of the named remote and nothing else |
| Git.Without | ozh_git_pr.php:285 | `git remote remove` keeps exactly the remotes with another name |
| Git.Effect | ozh_git_pr.php:354-360 | what a command does to the remotes: add when the name is free, set-url, remove, nothing for the others; Upsert, LookupRetarget and RemovalsKeep characterise it |
| Git.ApplyAllSnoc | ozh_git_pr.php:353-366 | the remotes after one more command are that command's effect on the remotes before it |
| Git.RunCommandsShape | ozh_git_pr.php:388-401 | the commands that ran are a prefix of those issued (all of them without an abort), and the remotes are what that prefix leaves |
| Git.RunCommandsStops | ozh_git_pr.php:395-397 | a run aborts iff some command whose output trips the check is issued, and it stops right after the first such command |
| Git.NoAbortRunsAll | ozh_git_pr.php:395-397 | when no output trips the check, every command runs and their effects all apply |
| Git.RunCommands | ozh_git_pr.php:388-401 | exec_and_maybe_continue across a list of commands, stopping after the first whose output aborts; RunCommandsShape and RunCommandsStops characterise it |
| Git.RemoteName | ozh_git_pr.php:350 | the remote is "pr-" followed by the number in decimal |
| Git.LocalBranch | ozh_git_pr.php:349 | a truthy branch name is used as given; "" and "0" fall back to pr-N |
| Git.PullPlan | ozh_git_pr.php:348-366 | set-url if pr-N is a remote and add otherwise, then `checkout -b` on the base, then the pull with --no-commit iff not committing; PullPlanUpserts and GitPr.PullRunsToTheEnd characterise it |
| Git.LookupRetarget | ozh_git_pr.php:356 | after set-url the name points at the new URL if it existed, every other name is unchanged, and the names stay the same |
| Git.Upsert | ozh_git_pr.php:354-360 | set-url-or-add leaves one remote of that name pointing at the URL, no duplicates, no other remote changed, and the new name last if it was added |
| Git.PassiveKeepsRemotes | ozh_git_pr.php:363-366 | checkout and pull do not touch the remotes |
| Git.PullPlanUpserts | ozh_git_pr.php:348-366 | the three planned commands change the remotes exactly as the upsert does |
| Git.PrPrefixedMembers | ozh_git_pr.php:258 | the filtered names are exactly the remote names starting with "pr-" |
| Git.NoPrPrefixed | ozh_git_pr.php:258-263 | without a "pr-" name the filter is empty |
| Git.ParsePrRemote | ozh_git_pr.php:279-280 | a number iff the name is "pr-" and then a non-empty digit string, and then its (int) cast |
| Git.ParseRemoteName | ozh_git_pr.php:279-280 | parsing the remote name of pull request N gives N back |
| Git.OpenNumbers | ozh_git_pr.php:275 | one number per element of the answer, in order; a missing number, and a number or null element, read as 0 |
| Git.StaleMembers | ozh_git_pr.php:278-291 | the removed names are exactly the names that parse and whose number is not open |
| Git.Stale | ozh_git_pr.php:277-291 | the names the loop removes, in order, never more than the names; StaleMembers characterises it |
| Git.RemovalsAt | ozh_git_pr.php:285 | one `git remote remove` per stale name, in order |
| Git.StaleOfPrefixed | ozh_git_pr.php:258-280 | filtering by the prefix first does not change which names are stale |
| Git.StaleAppend | ozh_git_pr.php:278-291 | staleness is decided name by name |
| Git.RemovalsKeep | ozh_git_pr.php:285 | the removals keep exactly the remotes whose name is not removed |
| Git.CleanupKeeps | ozh_git_pr.php:255-294 | a cleanup that removes every stale remote keeps exactly the remotes that are not stale |
| Git.CleanupExample | ozh_git_pr.php:255-291 | for those remotes the cleanup removes "pr-2" only |
| GitPr.ExitStatus | ozh_git_pr.php:396 | die() with a message exits 0, and an uncaught error exits 255 |
| GitPr.LastWords | ozh_git_pr.php:375-379 | display_msg_and_die prints its message trimmed, then an empty line; the abort prints "Script aborted !" |
| GitPr.FailureStatus | ozh_git_pr.php:331 | each failure ends the process with its own exit status |
| GitPr.OriginStatus | ozh_git_pr.php:186-195 | the script is aborted iff the output trips the check; it goes on iff the output does not abort and its first line parses; an output that does not abort and whose first line does not parse stops it with "Could not find Github owner and repo" (status 1), and that stop happens only when nothing matches |
| GitPr.PullCommands | ozh_git_pr.php:353-366 | a pull issues four commands, the first being `git remote` |
| GitPr.PullRunResult | ozh_git_pr.php:343-367 | a pull that is not aborted leaves exactly one pr-N remote, pointing at the clone URL, and every other remote as it was |
| GitPr.PullRunsToTheEnd | ozh_git_pr.php:363-366 | a pull that is not aborted runs all four commands in order, the last pulling head.ref from pr-N, with --no-commit unless committing |
| GitPr.CleanupWithoutPrRemotes | ozh_git_pr.php:257-263 | without a "pr-" remote the cleanup makes no API request and removes nothing |
| GitPr.CleanupRemovesStale | ozh_git_pr.php:255-294 | a cleanup that runs to the end keeps exactly the remotes that are not stale, issues one removal per stale remote, and reports that many |
| GitPr.CleanupOutcome | ozh_git_pr.php:255-294 | cleanup_old_pr_remotes on given remotes and answer: list the remotes, stop without a "pr-" remote, ask the API, stop on a null answer or a string element, remove the stale remotes; CleanupWithoutPrRemotes, CleanupRemovesStale, CleanupOfErrorObject and CleanupExitStatus characterise it |
| GitPr.CleanupOfErrorObject | ozh_git_pr.php:266-275 | with "pr-" remotes, an answer with a string element ends the cleanup with an uncaught TypeError, after the request and before any removal |
| GitPr.CleanupExitStatus | ozh_git_pr.php:130-133 | the cleanup option exits 1 exactly when it asks the API and the list cannot be read, 255 exactly when the answer has a string element, and 0 otherwise |
| GitPr.ListEnd | ozh_git_pr.php:135-137 | the list option always ends the script, with status 1 when the list cannot be read and 0 otherwise |
| GitPr.Workspace.constructor | ozh_git_pr.php:64-69 | the script starts in a repository with the given remotes, before any command or request |
| GitPr.Workspace.Exec | ozh_git_pr.php:388-401 | a command prints its output, changes the remotes by its effect, is logged, and aborts the script iff its output trips the check |
| GitPr.Workspace.ExecNext | ozh_git_pr.php:388-401 | one command of a run: the rest of the run is the trace that remains, or the script aborted right after it |
| GitPr.Workspace.RemoveStale | ozh_git_pr.php:277-291 | the loop over "pr-" remotes removes the stale ones in order, ends as the trace of those removals, and counts them |
| GitPr.Workspace.RemoveIfStale | ozh_git_pr.php:279-290 | one remote is removed iff it parses and its number is not open; otherwise nothing changes |
| GitPr.Workspace.Request | ozh_git_pr.php:166-172 | an API request is recorded |
| GitPr.Workspace.Exit | ozh_git_pr.php:132 | the process ends the given way |
| GitPr.OzhGitPr.constructor | ozh_git_pr.php:64-69 | every command line that is not a pull ends the process; a script still running after all four steps is pulling the requested number with the requested commit mode |
| GitPr.OzhGitPr.DisplayMsgAndDie | ozh_git_pr.php:375-379 | the process dies with the message and the status given |
| GitPr.OzhGitPr.GetOwnerAndRepo | ozh_git_pr.php:186-196 | runs `git remote get-url origin` and ends as OriginStatus says; while running, the fields owner and repo are what OwnerAndRepo parses from the first line |
| GitPr.OzhGitPr.GetSuggestedBranchName | ozh_git_pr.php:299-318 | requests the pull request; an unreadable URL exits 1, and otherwise the name is SuggestedBranchName of its title and the user line |
| GitPr.OzhGitPr.GetCliParams | ozh_git_pr.php:106-156 | the branch/suggest clash dies with status 1 before anything else, with no request and pr, branch and commit untouched; the version and help exits make no request and leave branch and commit untouched; then cleanup (then exit 0), the list, the version and the help, in that order; a valid single argument sets pr to its cast; a clash or a non-cleanup leaves the remotes and commands untouched; a pull sets commit and the trimmed branch, no name, or the suggestion |
| GitPr.OzhGitPr.CleanupAndExit | ozh_git_pr.php:130-133 | the cleanup's outcome, then exit(0) if it did not end the process itself (CleanupEnd) |
| GitPr.OzhGitPr.ListAndDie | ozh_git_pr.php:135-137 | requests the open pull requests and ends as ListEnd says: status 0 with the listing, or get_url's failure |
| GitPr.OzhGitPr.ChooseBranch | ozh_git_pr.php:147-155 | the trimmed --branch value, or the suggestion, or no name; commit is the negated --nocommit |
| GitPr.OzhGitPr.GetPrRepo | ozh_git_pr.php:324-337 | requests the pull request's URL and, as ValidatePr decides, either stores clone URL, head and base or ends the process with that failure |
| GitPr.OzhGitPr.PullAndMaybeCommit | ozh_git_pr.php:343-367 | the remotes and command log are those of running PullCommands until the first abort, and the script is aborted iff that run is |
| GitPr.OzhGitPr.CleanupOldPrRemotes | ozh_git_pr.php:255-294 | remotes, commands run, API request and status are CleanupOutcome's, so a string element in the answer ends the script with a TypeError before any removal; the count returned equals the number of stale remotes removed |

## Left out

- Git.Names: `git remote` lists the remotes sorted by name, but the model lists them in its own order, where a newly added `pr-N` comes last. This order decides which cleanup removals run before an abort (ozh_git_pr.php:278-286), and the order of the command log. Which remotes are stale, and what a cleanup that runs to the end keeps, do not depend on it.
- `get_url`, meaning curl and HTTPS (ozh_git_pr.php:166-178): network I/O. Its outcome is a `GitHub.Fetch` parameter, either an unreadable URL or the decoded answer.
- `json_decode`: a foreign library. The answers are records whose members are all optional. For the list request, an answer that is not an array, null included, is `Received(None)`. An array is a sequence of `GitHub.Element`s: records, strings, or other scalars. An object answer, such as GitHub's error object, is such an array of strings.
- Elements of other shapes inside a record are not modelled, such as a `head` that is a string, or a `number` or `title` that is not scalar. Each member is present and well-typed, or missing.
- `exec`, `escapeshellcmd` and git itself: an external process. What each command prints is the `Outputs` parameter, and a command's effect on the remotes follows `Git.Effect` whether or not git would print an error for it. The lines of `Outputs` are taken to hold no newline, as the lines `exec` returns never do; nothing enforces it, and `Locator` does not test its `.` and `(.*)` against one.
- Failures git reports, such as an existing branch for `checkout -b`, are not modelled beyond the abort check on the printed lines.
- getopt() and `$_SERVER['argv']` (ozh_git_pr.php:108-123): the parsed flags and trailing arguments are the `Cli.Flags` and `args` parameters of `GitPr.Env`.
- `fopen`/`fgets` on stdin (ozh_git_pr.php:310-312): the user's line is the `userLine` parameter.
- `file(__FILE__)` (ozh_git_pr.php:77): the lines of the file are the `helpLines` parameter.
- `echo` output other than the final message: the "Removing/Keeping remote" lines, the removal count, the suggestion prompt and the displayed command output are not modelled. The count itself is returned by `CleanupOldPrRemotes`.
- Unicode: `/u` and locale-aware `strtolower` are out, and only ASCII letters change case. The `i` flag on the stop-word patterns has no effect after `strtolower`. `\b` is ASCII word characters.
- The by-reference loop that turns each stop word into the regex `/\b<word>\b/iu` (ozh_git_pr.php:426-428) is not a separate step. Each stop word stands for its own pattern, whose matching `BranchName.WholeWordAt` defines.
- The 100-per-page limit of the API: a fact about the server, not visible in the logic.
- Each run sees one API answer per kind of request: one for the open pull requests and one for the numbered pull request.
- GitPr.OzhGitPr.constructor: its ensures states the action and the fields pr and commit, not the commands a pull ran. Those are stated by `PullAndMaybeCommit`, `PullRunResult` and `PullRunsToTheEnd`.
- GitPr.OzhGitPr.GetCliParams: its ensures follows the flag tests of the source one by one rather than calling `Cli.Decide`; the two agree through the ensures of `Decide`, which the constructor uses.
- BranchName.Slug: for a general title its own ensures states only that no whitespace is left. The exact result, in `SlugWords.SlugOfWords`, is proved only for titles made of word-character tokens separated by single spaces. Titles with punctuation or runs of whitespace are not characterised that way.
- Integers are unbounded, apart from the `(int)` cast of a digit string, which is modelled through its double conversion (PHP_INT_MAX while finite, 0 once infinite). Only that threshold of double rounding is modelled, not double arithmetic in general.

## Findings

| source | as written | input that shows it | evidently intended | confidence | as-written member | corrected member |
|---|---|---|---|---|---|---|
| ozh_git_pr.php:192 | `trim($matches[2], '.git')` strips any of the characters `.`, `g`, `i`, `t` from both ends of the repository name | origin `https://github.com/ozh/git-pr.git` gives repository `-pr` | remove one trailing `.git` suffix, giving `git-pr` | high, not executed | Locator.OwnOriginMisparsed | Locator.IntendedOriginParse |
