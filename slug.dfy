/**
 * The Branch Name Advisor: remove_stop_words lower-cases a PR title, removes
 * every whole-word occurrence of each stop word (one pattern `\b<word>\b`
 * after another, in list order), trims the result and replaces each run of
 * whitespace with a single `-`.
 */
module BranchName {
  import opened Wrappers
  import opened PhpText

  /** The stop-word list, in the order the patterns are applied, one constant per row of the source list. */
  const StopWords: seq<string> :=
    Row1 + Row2 + Row3 + Row4 + Row5 + Row6 + Row7 + Row8 + Row9 + Row10 + Row11 + Row12 + Row13

  const Row1: seq<string> := ["i", "me", "my", "myself", "we", "our", "ours", "ourselves"]
  const Row2: seq<string> := ["you", "your", "yours", "yourself", "yourselves", "he", "him", "his", "himself"]
  const Row3: seq<string> := ["she", "her", "hers", "herself", "it", "its", "itself", "they", "them"]
  const Row4: seq<string> := ["their", "theirs", "themselves", "what", "which", "who", "whom", "this", "that"]
  const Row5: seq<string> := ["these", "those", "am", "is", "are", "was", "were", "be", "been", "being"]
  const Row6: seq<string> := ["have", "has", "had", "having", "do", "does", "did", "doing", "a", "an", "the"]
  const Row7: seq<string> := ["and", "but", "if", "or", "because", "as", "until", "while", "of", "at", "by", "for"]
  const Row8: seq<string> := ["with", "about", "against", "between", "into", "through", "during", "before", "after"]
  const Row9: seq<string> := ["above", "below", "to", "from", "up", "down", "in", "out", "on", "off", "over", "under"]
  const Row10: seq<string> := ["again", "further", "then", "once", "here", "there", "when", "where", "why", "how"]
  const Row11: seq<string> := ["all", "any", "both", "each", "few", "more", "most", "other", "some", "such"]
  const Row12: seq<string> := ["no", "nor", "not", "only", "own", "same", "so", "than", "too", "very"]
  const Row13: seq<string> := ["'s", "'t", "can", "will", "just", "don", "should", "now"]

  /** The fallback name when the PR has no title. */
  const NoTitleFallback: string := "no-title-found"

  /** A PCRE word character, `[A-Za-z0-9_]`. */
  predicate IsWordChar(c: char) {
    'a' <= c <= 'z' || 'A' <= c <= 'Z' || '0' <= c <= '9' || c == '_'
  }

  /** `\b` holds at offset `p`: exactly one of the neighbouring characters is a word character. */
  predicate Boundary(s: string, p: nat)
    requires p <= |s|
  {
    (p > 0 && IsWordChar(s[p - 1])) != (p < |s| && IsWordChar(s[p]))
  }

  /** The pattern `\b<w>\b` matches `s` at offset `p`. */
  predicate WholeWordAt(s: string, w: string, p: nat) {
    p + |w| <= |s| && s[p..p + |w|] == w && Boundary(s, p) && Boundary(s, p + |w|)
  }

  /**
   * preg_replace('/\b<w>\b/', '', ...) from offset `i` on: at each offset the
   * pattern is tried; a match is deleted and the scan resumes after it,
   * otherwise one character is kept.
   */
  function RemoveFrom(s: string, w: string, i: nat): (r: string)
    requires w != [] && i <= |s|
    decreases |s| - i
    ensures |r| <= |s| - i
  {
    if i == |s| then []
    else if WholeWordAt(s, w, i) then RemoveFrom(s, w, i + |w|)
    else [s[i]] + RemoveFrom(s, w, i + 1)
  }

  /**
   * Deletion of every whole-word occurrence of `w`, left to right. The empty
   * pattern `\b\b` only matches the empty string, so it changes nothing.
   */
  function RemoveWord(s: string, w: string): (r: string)
    ensures |r| <= |s|
  {
    if w == [] then s else RemoveFrom(s, w, 0)
  }

  /** Without a whole-word occurrence from `i` on, the scan keeps everything. */
  lemma {:induction false} RemoveFromNoMatch(s: string, w: string, i: nat)
    requires w != [] && i <= |s|
    requires forall p: nat :: i <= p ==> !WholeWordAt(s, w, p)
    ensures RemoveFrom(s, w, i) == s[i..]
    decreases |s| - i
  {
    if i < |s| {
      RemoveFromNoMatch(s, w, i + 1);
      assert s[i..] == [s[i]] + s[i + 1..];
    }
  }

  /** With a whole-word occurrence at or after `i`, the scan deletes something. */
  lemma {:induction false} RemoveFromMatch(s: string, w: string, i: nat, p: nat)
    requires w != [] && i <= p && WholeWordAt(s, w, p)
    ensures |RemoveFrom(s, w, i)| < |s| - i
    decreases |s| - i
  {
    if !WholeWordAt(s, w, i) {
      RemoveFromMatch(s, w, i + 1, p);
    }
  }

  /**
   * Whole words only: the string is left unchanged exactly when no
   * `\b<w>\b` match exists, so an occurrence inside a longer word is kept.
   */
  lemma RemoveWordUnchangedIff(s: string, w: string)
    requires w != []
    ensures RemoveWord(s, w) == s <==> forall p: nat :: !WholeWordAt(s, w, p)
  {
    if forall p: nat :: !WholeWordAt(s, w, p) {
      RemoveFromNoMatch(s, w, 0);
    } else {
      var p: nat :| WholeWordAt(s, w, p);
      RemoveFromMatch(s, w, 0, p);
    }
  }

  /** preg_replace with an array of patterns: each one runs on the previous one's output. */
  function ApplyStopWords(s: string, ws: seq<string>): (r: string)
    ensures |r| <= |s|
    decreases |ws|
  {
    if ws == [] then s else ApplyStopWords(RemoveWord(s, ws[0]), ws[1..])
  }

  /** Running a list of patterns is running its first part, then its second. */
  lemma {:induction false} ApplyStopWordsAppend(s: string, ws1: seq<string>, ws2: seq<string>)
    ensures ApplyStopWords(s, ws1 + ws2) == ApplyStopWords(ApplyStopWords(s, ws1), ws2)
    decreases |ws1|
  {
    if ws1 == [] {
      assert ws1 + ws2 == ws2;
    } else {
      assert (ws1 + ws2)[1..] == ws1[1..] + ws2;
      ApplyStopWordsAppend(RemoveWord(s, ws1[0]), ws1[1..], ws2);
    }
  }

  /** Removes the leading run of `\s` characters. */
  function DropSpaces(s: string): (r: string)
    ensures |r| <= |s| && r == s[|s| - |r|..]
    ensures forall k :: 0 <= k < |s| - |r| ==> IsPcreSpace(s[k])
    ensures r != [] ==> !IsPcreSpace(r[0])
  {
    if s != [] && IsPcreSpace(s[0]) then DropSpaces(s[1..]) else s
  }

  /** preg_replace('/\s+/', '-', $s): each maximal run of `\s` becomes one `-`. */
  function Hyphenate(s: string): (r: string)
    ensures forall k :: 0 <= k < |r| ==> !IsPcreSpace(r[k])
    decreases |s|
  {
    if s == [] then []
    else if IsPcreSpace(s[0]) then "-" + Hyphenate(DropSpaces(s))
    else [s[0]] + Hyphenate(s[1..])
  }

  /** A string without whitespace passes through unchanged, hyphens and punctuation included. */
  lemma {:induction false} HyphenateNoSpace(s: string)
    requires forall k :: 0 <= k < |s| ==> !IsPcreSpace(s[k])
    ensures Hyphenate(s) == s
  {
    if s != [] {
      HyphenateNoSpace(s[1..]);
    }
  }

  /** A non-empty run of whitespace followed by `b` (which starts with no whitespace) becomes one `-`. */
  lemma {:induction false} HyphenateSpaceRun(run: string, b: string)
    requires run != [] && forall k :: 0 <= k < |run| ==> IsPcreSpace(run[k])
    requires b != [] ==> !IsPcreSpace(b[0])
    ensures Hyphenate(run + b) == "-" + Hyphenate(b)
  {
    DropSpacesRun(run, b);
  }

  lemma {:induction false} DropSpacesRun(run: string, b: string)
    requires forall k :: 0 <= k < |run| ==> IsPcreSpace(run[k])
    requires b != [] ==> !IsPcreSpace(b[0])
    ensures DropSpaces(run + b) == b
  {
    if run != [] {
      assert (run + b)[1..] == run[1..] + b;
      DropSpacesRun(run[1..], b);
    }
  }

  /**
   * The replacement is compositional: text `a` that does not end in
   * whitespace, a run of whitespace, then text `b` that does not start with
   * whitespace, give Hyphenate(a) + "-" + Hyphenate(b).
   */
  lemma {:induction false} HyphenateSplit(a: string, run: string, b: string)
    requires a != [] ==> !IsPcreSpace(a[|a| - 1])
    requires run != [] && forall k :: 0 <= k < |run| ==> IsPcreSpace(run[k])
    requires b != [] ==> !IsPcreSpace(b[0])
    ensures Hyphenate(a + run + b) == Hyphenate(a) + "-" + Hyphenate(b)
    decreases |a|, 1
  {
    if a == [] {
      assert a + run + b == run + b;
      HyphenateSpaceRun(run, b);
    } else if IsPcreSpace(a[0]) {
      HyphenateSplitLeadingSpace(a, run, b);
    } else {
      HyphenateSplitLeadingWord(a, run, b);
    }
  }

  lemma {:induction false} HyphenateSplitLeadingSpace(a: string, run: string, b: string)
    requires a != [] && IsPcreSpace(a[0]) && !IsPcreSpace(a[|a| - 1])
    requires run != [] && forall k :: 0 <= k < |run| ==> IsPcreSpace(run[k])
    requires b != [] ==> !IsPcreSpace(b[0])
    ensures Hyphenate(a + run + b) == Hyphenate(a) + "-" + Hyphenate(b)
    decreases |a|, 0
  {
    var c := run + b;
    var a' := DropSpaces(a);
    AppendAssoc(a, run, b);
    AppendAssoc(a', run, b);
    DropSpacesPrefix(a, c);
    assert (a + c)[0] == a[0];
    HyphenateLeadingSpace(a + c);
    HyphenateLeadingSpace(a);
    HyphenateSplit(a', run, b);
    Regroup("-", Hyphenate(a'), "-", Hyphenate(b));
  }

  lemma Regroup(p: string, x: string, q: string, y: string)
    ensures p + (x + q + y) == (p + x) + q + y
  {
  }

  lemma HyphenateLeadingSpace(s: string)
    requires s != [] && IsPcreSpace(s[0])
    ensures Hyphenate(s) == "-" + Hyphenate(DropSpaces(s))
    ensures |DropSpaces(s)| < |s|
  {
  }

  lemma {:induction false} HyphenateSplitLeadingWord(a: string, run: string, b: string)
    requires a != [] && !IsPcreSpace(a[0]) && !IsPcreSpace(a[|a| - 1])
    requires run != [] && forall k :: 0 <= k < |run| ==> IsPcreSpace(run[k])
    requires b != [] ==> !IsPcreSpace(b[0])
    ensures Hyphenate(a + run + b) == Hyphenate(a) + "-" + Hyphenate(b)
    decreases |a|, 0
  {
    var s := a + run + b;
    assert s[0] == a[0];
    assert s[1..] == a[1..] + run + b;
    HyphenateSplit(a[1..], run, b);
    assert Hyphenate(s) == [a[0]] + Hyphenate(s[1..]);
    assert Hyphenate(a) == [a[0]] + Hyphenate(a[1..]);
    Regroup([a[0]], Hyphenate(a[1..]), "-", Hyphenate(b));
  }

  /** Dropping leading whitespace of text that does not end in whitespace stays inside it. */
  lemma {:induction false} DropSpacesPrefix(a: string, c: string)
    requires a != [] && !IsPcreSpace(a[|a| - 1])
    ensures DropSpaces(a + c) == DropSpaces(a) + c
    ensures DropSpaces(a) != [] && !IsPcreSpace(DropSpaces(a)[|DropSpaces(a)| - 1])
  {
    DropSpacesConcat(a, c);
    DropSpacesKeepsEnd(a);
  }

  lemma {:induction false} DropSpacesConcat(a: string, c: string)
    requires a != [] && !IsPcreSpace(a[|a| - 1])
    ensures DropSpaces(a + c) == DropSpaces(a) + c
  {
    if IsPcreSpace(a[0]) {
      assert (a + c)[1..] == a[1..] + c;
      DropSpacesConcat(a[1..], c);
    }
  }

  lemma DropSpacesKeepsEnd(a: string)
    requires a != [] && !IsPcreSpace(a[|a| - 1])
    ensures DropSpaces(a) != [] && !IsPcreSpace(DropSpaces(a)[|DropSpaces(a)| - 1])
  {
    var r := DropSpaces(a);
    assert r == a[|a| - |r|..];
    if r != [] {
      assert r[|r| - 1] == a[|a| - 1];
    }
  }

  /**
   * The slug remove_stop_words returns: lower-case, remove the stop words in
   * list order, trim(), then one `-` per whitespace run.
   */
  function Slug(title: string): (slug: string)
    ensures forall k :: 0 <= k < |slug| ==> !IsPcreSpace(slug[k])
  {
    Hyphenate(TrimSpace(ApplyStopWords(Lower(title), StopWords)))
  }

  /**
   * remove_stop_words: the list of patterns is applied one after another,
   * as preg_replace does with an array of patterns.
   */
  method RemoveStopWords(words: string) returns (slug: string)
    ensures slug == Slug(words)
  {
    var current := ReplaceEach(Lower(words), StopWords);
    slug := Hyphenate(TrimSpace(current));
  }

  /** preg_replace with an array of whole-word patterns: one pass per pattern, in order. */
  method ReplaceEach(subject: string, ws: seq<string>) returns (r: string)
    ensures r == ApplyStopWords(subject, ws)
  {
    r := subject;
    for k := 0 to |ws|
      invariant ApplyStopWords(r, ws[k..]) == ApplyStopWords(subject, ws)
    {
      assert ws[k..][1..] == ws[k + 1..];
      r := RemoveWord(r, ws[k]);
    }
  }

  /**
   * The name choice of get_suggested_branch_name: the slug of the title, or
   * the fallback without a title; a non-empty trimmed input line overrides either.
   */
  function SuggestedBranchName(title: Option<string>, userLine: string): (name: string)
    ensures TrimSpace(userLine) != "" ==> name == TrimSpace(userLine)
    ensures TrimSpace(userLine) == "" && title.None? ==> name == NoTitleFallback
    ensures TrimSpace(userLine) == "" && title.Some? ==> name == Slug(title.value)
    ensures TrimSpace(userLine) == "" ==> forall k :: 0 <= k < |name| ==> !IsPcreSpace(name[k])
  {
    var sugg := if title.Some? then Slug(title.value) else NoTitleFallback;
    var line := TrimSpace(userLine);
    if line != "" then line else sugg
  }
}
