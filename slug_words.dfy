/**
 * The slug of a title made of words separated by single spaces, stated on
 * the words: lower-case every word, drop the empty words and the stop words,
 * and join what remains with `-`.
 *
 * This is the whole-word guarantee of remove_stop_words seen from the
 * title's words: a `\b<w>\b` pattern deletes exactly the words equal to `w`,
 * and a stop word inside a longer word (`in` in `login`) survives.
 */
module SlugWords {
  import opened PhpText
  import opened BranchName

  /** A word of a title: ASCII word characters only (possibly none, once a stop word is blanked). */
  predicate WordOnly(t: string) {
    forall k :: 0 <= k < |t| ==> IsWordChar(t[k])
  }

  predicate AllWordOnly(ts: seq<string>) {
    forall i :: 0 <= i < |ts| ==> WordOnly(ts[i])
  }

  /** A pattern word that can be matched: non-empty and without a space. */
  predicate Pattern(w: string) {
    w != [] && ' ' !in w
  }

  /** The words `ts` separated by `sep`. */
  function Join(ts: seq<string>, sep: string): string
    decreases |ts|
  {
    if |ts| == 0 then ""
    else if |ts| == 1 then ts[0]
    else ts[0] + sep + Join(ts[1..], sep)
  }

  /** A word equal to `w` becomes empty; any other word is kept. */
  function Blanked(t: string, w: string): string {
    if t == w then "" else t
  }

  /** Each word equal to `w` becomes empty. */
  function Blank(ts: seq<string>, w: string): (r: seq<string>)
    ensures |r| == |ts|
    ensures forall i :: 0 <= i < |ts| ==> r[i] == Blanked(ts[i], w)
  {
    if ts == [] then [] else [Blanked(ts[0], w)] + Blank(ts[1..], w)
  }

  /** Blank for each pattern word, in list order. */
  function BlankAll(ts: seq<string>, ws: seq<string>): (r: seq<string>)
    decreases |ws|
  {
    if ws == [] then ts else BlankAll(Blank(ts, ws[0]), ws[1..])
  }

  /** The words that remain: non-empty and not in `ws`, in title order. */
  function Kept(ts: seq<string>, ws: seq<string>): (r: seq<string>)
    ensures |r| <= |ts|
  {
    if ts == [] then []
    else (if ts[0] == "" || ts[0] in ws then [] else [ts[0]]) + Kept(ts[1..], ws)
  }

  /** The non-empty words, in order. */
  function NonEmpty(ts: seq<string>): (r: seq<string>)
    ensures |r| <= |ts|
  {
    if ts == [] then [] else (if ts[0] == "" then [] else [ts[0]]) + NonEmpty(ts[1..])
  }

  function LowerAll(ts: seq<string>): (r: seq<string>)
    ensures |r| == |ts|
    ensures forall i :: 0 <= i < |ts| ==> r[i] == Lower(ts[i])
  {
    if ts == [] then [] else [Lower(ts[0])] + LowerAll(ts[1..])
  }

  function Spaces(n: nat): (r: string)
    ensures |r| == n && forall k :: 0 <= k < n ==> r[k] == ' '
  {
    if n == 0 then "" else " " + Spaces(n - 1)
  }

  lemma WordOnlySplit(us: seq<string>)
    requires us != [] && AllWordOnly(us)
    ensures WordOnly(us[0]) && AllWordOnly(us[1..])
  {
  }

  // ---------------------------------------------------------------------
  // Joining.

  lemma JoinCons(t: string, ts: seq<string>, sep: string)
    requires ts != []
    ensures Join([t] + ts, sep) == t + sep + Join(ts, sep)
  {
    assert ([t] + ts)[1..] == ts;
  }

  lemma {:induction false} JoinSnoc(ts: seq<string>, t: string, sep: string)
    requires ts != []
    ensures Join(ts + [t], sep) == Join(ts, sep) + sep + t
    decreases |ts|
  {
    if |ts| == 1 {
      assert ts + [t] == [ts[0], t];
      assert [ts[0], t][1..] == [t];
    } else {
      assert (ts + [t])[1..] == ts[1..] + [t];
      JoinSnoc(ts[1..], t, sep);
    }
  }

  /** The text of words joined by spaces holds word characters and spaces only. */
  lemma {:induction false} JoinChars(ts: seq<string>)
    requires AllWordOnly(ts)
    ensures forall k :: 0 <= k < |Join(ts, " ")| ==> IsWordChar(Join(ts, " ")[k]) || Join(ts, " ")[k] == ' '
    decreases |ts|
  {
    if |ts| >= 2 {
      JoinChars(ts[1..]);
      var rest := Join(ts[1..], " ");
      assert Join(ts, " ") == ts[0] + (" " + rest);
      forall k | 0 <= k < |Join(ts, " ")|
        ensures IsWordChar(Join(ts, " ")[k]) || Join(ts, " ")[k] == ' '
      {
        if k < |ts[0]| {
        } else if k > |ts[0]| {
          assert Join(ts, " ")[k] == rest[k - |ts[0]| - 1];
        }
      }
    }
  }

  // ---------------------------------------------------------------------
  // One stop-word pass over joined words.

  /** The scan keeps every offset from `i` up to `j` when no match starts there. */
  lemma {:induction false} RemoveFromKeeps(s: string, w: string, i: nat, j: nat)
    requires w != [] && i <= j <= |s|
    requires forall p: nat :: i <= p < j ==> !WholeWordAt(s, w, p)
    ensures RemoveFrom(s, w, i) == s[i..j] + RemoveFrom(s, w, j)
    decreases j - i
  {
    if i < j {
      assert !WholeWordAt(s, w, i);
      assert RemoveFrom(s, w, i) == [s[i]] + RemoveFrom(s, w, i + 1);
      RemoveFromKeeps(s, w, i + 1, j);
      assert s[i..j] == [s[i]] + s[i + 1..j];
      AppendAssoc([s[i]], s[i + 1..j], RemoveFrom(s, w, j));
    }
  }

  /** The word `t` sits at offset `i` of `s`, with a space or an end of `s` on each side. */
  predicate TokenAt(s: string, i: nat, t: string) {
    && i + |t| <= |s| && s[i..i + |t|] == t
    && (i == 0 || s[i - 1] == ' ')
    && (i + |t| == |s| || s[i + |t|] == ' ')
  }

  /** A word between a prefix ending in a space and a suffix starting with one is a token. */
  lemma TokenBetween(s: string, P: string, t: string, R: string)
    requires s == P + t + R
    requires P == [] || P[|P| - 1] == ' '
    requires R == [] || R[0] == ' '
    ensures TokenAt(s, |P|, t)
  {
    var i := |P|;
    assert s[i..i + |t|] == t;
    assert i > 0 ==> s[i - 1] == P[|P| - 1];
    assert i + |t| < |s| ==> s[i + |t|] == R[0];
  }

  /** A word between separators (or the ends) is deleted iff it is the pattern word. */
  lemma TokenStep(s: string, w: string, i: nat, t: string)
    requires w != [] && WordOnly(w) && WordOnly(t) && TokenAt(s, i, t)
    ensures RemoveFrom(s, w, i) == Blanked(t, w) + RemoveFrom(s, w, i + |t|)
  {
    if t == w {
      TokenMatch(s, w, i);
      assert "" + RemoveFrom(s, w, i + |t|) == RemoveFrom(s, w, i + |t|);
    } else {
      TokenKept(s, w, i, t);
    }
  }

  /** A word other than the pattern word is kept whole. */
  lemma TokenKept(s: string, w: string, i: nat, t: string)
    requires w != [] && WordOnly(w) && WordOnly(t) && t != w && TokenAt(s, i, t)
    ensures RemoveFrom(s, w, i) == t + RemoveFrom(s, w, i + |t|)
  {
    TokenMismatch(s, w, i, t);
    RemoveFromKeeps(s, w, i, i + |t|);
  }

  lemma TokenMatch(s: string, w: string, i: nat)
    requires w != [] && WordOnly(w) && TokenAt(s, i, w)
    ensures WholeWordAt(s, w, i)
    ensures RemoveFrom(s, w, i) == RemoveFrom(s, w, i + |w|)
  {
    assert s[i] == s[i..i + |w|][0] == w[0];
    assert s[i + |w| - 1] == s[i..i + |w|][|w| - 1] == w[|w| - 1];
  }

  lemma TokenMismatch(s: string, w: string, i: nat, t: string)
    requires w != [] && WordOnly(w) && WordOnly(t) && t != w && TokenAt(s, i, t)
    ensures forall p: nat :: i <= p < i + |t| ==> !WholeWordAt(s, w, p)
  {
    forall p: nat | i < p < i + |t| ensures !Boundary(s, p) {
      assert s[p - 1] == t[p - 1 - i] && s[p] == t[p - i];
    }
    if |w| > |t| && i + |w| <= |s| {
      assert s[i..i + |w|][|t|] == s[i + |t|] == ' ' != w[|t|];
    } else if |w| == |t| {
      assert s[i..i + |w|] == t != w;
    }
  }

  /** A separating space is kept. */
  lemma SpaceStep(s: string, w: string, j: nat, next: nat)
    requires w != [] && WordOnly(w) && j < |s| && s[j] == ' ' && next == j + 1
    ensures RemoveFrom(s, w, j) == " " + RemoveFrom(s, w, next)
  {
    if j + |w| <= |s| {
      assert s[j..j + |w|][0] == s[j];
    }
    assert !WholeWordAt(s, w, j);
    assert [s[j]] == " ";
  }

  /** Scanning the joined words that follow the prefix `P`. */
  lemma {:induction false} RemoveFromWords(s: string, w: string, P: string, us: seq<string>)
    requires w != [] && WordOnly(w) && AllWordOnly(us)
    requires s == P + Join(us, " ")
    requires P == [] || P[|P| - 1] == ' '
    ensures RemoveFrom(s, w, |P|) == Join(Blank(us, w), " ")
    decreases |us|
  {
    if |us| == 0 {
    } else if |us| == 1 {
      assert s == P + us[0] + "";
      TokenBetween(s, P, us[0], "");
      TokenStep(s, w, |P|, us[0]);
      assert Blank(us, w) == [Blanked(us[0], w)];
    } else {
      var P' := RemoveFromWordsStep(s, w, P, us);
      RemoveFromWords(s, w, P', us[1..]);
      var b := Blanked(us[0], w);
      assert Blank(us, w) == [b] + Blank(us[1..], w);
      JoinCons(b, Blank(us[1..], w), " ");
    }
  }

  /** The first word and the space after it. */
  lemma RemoveFromWordsStep(s: string, w: string, P: string, us: seq<string>) returns (P': string)
    requires w != [] && WordOnly(w) && AllWordOnly(us) && |us| >= 2
    requires s == P + Join(us, " ")
    requires P == [] || P[|P| - 1] == ' '
    ensures s == P' + Join(us[1..], " ") && P'[|P'| - 1] == ' ' && AllWordOnly(us[1..])
    ensures RemoveFrom(s, w, |P|) == Blanked(us[0], w) + " " + RemoveFrom(s, w, |P'|)
  {
    WordOnlySplit(us);
    var t, rest := us[0], Join(us[1..], " ");
    assert Join(us, " ") == t + " " + rest;
    P' := P + t + " ";
    assert |P'| == |P| + |t| + 1 && P'[|P'| - 1] == ' ';
    WordsShape(s, P, t, rest);
    TokenBetween(s, P, t, " " + rest);
    WordAndSpace(s, w, |P|, t, |P'|);
  }

  lemma WordsShape(s: string, P: string, t: string, rest: string)
    requires s == P + (t + " " + rest)
    ensures s == P + t + (" " + rest)
    ensures s == (P + t + " ") + rest
  {
    AppendAssoc(t, " ", rest);
    AppendAssoc(P, t, " " + rest);
    AppendAssoc(P + t, " ", rest);
  }

  /** A word followed by its separating space. */
  lemma WordAndSpace(s: string, w: string, i: nat, t: string, j: nat)
    requires w != [] && WordOnly(w) && WordOnly(t) && TokenAt(s, i, t) && j == i + |t| + 1 <= |s|
    ensures RemoveFrom(s, w, i) == Blanked(t, w) + " " + RemoveFrom(s, w, j)
  {
    var kept, later := Blanked(t, w), RemoveFrom(s, w, j);
    TokenStep(s, w, i, t);
    SpaceStep(s, w, i + |t|, j);
    assert RemoveFrom(s, w, i) == kept + (" " + later);
    AppendAssoc(kept, " ", later);
  }

  /**
   * One `\b<w>\b` pass over words joined by spaces blanks exactly the words
   * equal to `w`; a pattern with a non-word character matches nothing.
   */
  lemma RemoveWordJoin(us: seq<string>, w: string)
    requires Pattern(w) && AllWordOnly(us)
    ensures RemoveWord(Join(us, " "), w) == Join(Blank(us, w), " ")
  {
    if WordOnly(w) {
      RemoveFromWords(Join(us, " "), w, "", us);
    } else {
      var c :| 0 <= c < |w| && !IsWordChar(w[c]);
      var s := Join(us, " ");
      JoinChars(us);
      forall p: nat ensures !WholeWordAt(s, w, p) {
        if p + |w| <= |s| {
          assert s[p..p + |w|][c] == s[p + c];
        }
      }
      RemoveWordUnchangedIff(s, w);
      assert forall i :: 0 <= i < |us| ==> us[i] != w;
      assert Blank(us, w) == us;
    }
  }

  lemma BlankWordOnly(us: seq<string>, w: string)
    requires AllWordOnly(us)
    ensures AllWordOnly(Blank(us, w))
  {
  }

  /** The passes of preg_replace over an array of patterns, on joined words. */
  lemma {:induction false} ApplyStopWordsJoin(us: seq<string>, ws: seq<string>)
    requires AllWordOnly(us)
    requires AllPatterns(ws)
    ensures ApplyStopWords(Join(us, " "), ws) == Join(BlankAll(us, ws), " ")
    decreases |ws|
  {
    if ws != [] {
      RemoveWordJoin(us, ws[0]);
      BlankWordOnly(us, ws[0]);
      ApplyStopWordsJoin(Blank(us, ws[0]), ws[1..]);
    }
  }

  /** After all passes a word is empty iff it was empty or some pattern equals it. */
  lemma {:induction false} BlankAllIs(us: seq<string>, ws: seq<string>)
    ensures |BlankAll(us, ws)| == |us|
    ensures forall i :: 0 <= i < |us| ==> BlankAll(us, ws)[i] == if us[i] in ws then "" else us[i]
    decreases |ws|
  {
    if ws != [] {
      BlankAllIs(Blank(us, ws[0]), ws[1..]);
      assert forall x :: x in ws <==> x == ws[0] || x in ws[1..];
    }
  }

  // ---------------------------------------------------------------------
  // Lower case.

  lemma {:induction false} LowerConcat(a: string, b: string)
    ensures Lower(a + b) == Lower(a) + Lower(b)
  {
    if a == [] {
      assert a + b == b;
    } else {
      assert (a + b)[0] == a[0] && (a + b)[1..] == a[1..] + b;
      LowerConcat(a[1..], b);
      AppendAssoc([LowerChar(a[0])], Lower(a[1..]), Lower(b));
    }
  }

  /** strtolower on the joined title lower-cases each word and keeps the spaces. */
  lemma {:induction false} LowerJoin(ts: seq<string>)
    ensures Lower(Join(ts, " ")) == Join(LowerAll(ts), " ")
    decreases |ts|
  {
    if |ts| >= 2 {
      LowerJoin(ts[1..]);
      LowerConcat(ts[0] + " ", Join(ts[1..], " "));
      LowerConcat(ts[0], " ");
      assert Lower(" ") == " ";
      assert LowerAll(ts)[1..] == LowerAll(ts[1..]);
    }
  }

  lemma LowerAllWordOnly(ts: seq<string>)
    requires AllWordOnly(ts)
    ensures AllWordOnly(LowerAll(ts))
  {
    forall i | 0 <= i < |ts| ensures WordOnly(LowerAll(ts)[i]) {
      var r := Lower(ts[i]);
      assert forall k :: 0 <= k < |r| ==> r[k] == LowerChar(ts[i][k]);
    }
  }

  // ---------------------------------------------------------------------
  // trim() and the whitespace runs.

  lemma TrimOfEmpty()
    ensures TrimSpace("") == ""
  {
    TrimIs("", TrimWhitespace, 0, "");
  }

  lemma TrimmedAtCons(x: string, mask: set<char>, i: nat, r: string, c: char)
    requires TrimmedAt(x, mask, i, r) && c in mask
    ensures TrimmedAt([c] + x, mask, i + 1, r)
  {
    var s := [c] + x;
    assert s[i + 1..i + 1 + |r|] == x[i..i + |r|];
    forall k | 0 <= k < i + 1 ensures s[k] in mask {
      if k > 0 {
        assert s[k] == x[k - 1];
      }
    }
    forall k | i + 1 + |r| <= k < |s| ensures s[k] in mask {
      assert s[k] == x[k - 1];
    }
  }

  lemma TrimmedAtSnoc(x: string, mask: set<char>, i: nat, r: string, c: char)
    requires TrimmedAt(x, mask, i, r) && c in mask
    ensures TrimmedAt(x + [c], mask, i, r)
  {
    var s := x + [c];
    assert s[i..i + |r|] == x[i..i + |r|];
    forall k | 0 <= k < i ensures s[k] in mask {
      assert s[k] == x[k];
    }
    forall k | i + |r| <= k < |s| ensures s[k] in mask {
      if k < |x| {
        assert s[k] == x[k];
      }
    }
  }

  lemma TrimDropsFirst(x: string)
    ensures TrimSpace(" " + x) == TrimSpace(x)
  {
    TrimCharacterised(x, TrimWhitespace);
    var i: nat :| TrimmedAt(x, TrimWhitespace, i, TrimSpace(x));
    TrimmedAtCons(x, TrimWhitespace, i, TrimSpace(x), ' ');
    TrimIs(" " + x, TrimWhitespace, i + 1, TrimSpace(x));
  }

  lemma TrimDropsLast(x: string)
    ensures TrimSpace(x + " ") == TrimSpace(x)
  {
    TrimCharacterised(x, TrimWhitespace);
    var i: nat :| TrimmedAt(x, TrimWhitespace, i, TrimSpace(x));
    TrimmedAtSnoc(x, TrimWhitespace, i, TrimSpace(x), ' ');
    TrimIs(x + " ", TrimWhitespace, i, TrimSpace(x));
  }

  /** Text that starts and ends with a word character is left alone by trim(). */
  lemma TrimKeepsWords(x: string)
    requires x != [] && IsWordChar(x[0]) && IsWordChar(x[|x| - 1])
    ensures TrimSpace(x) == x
  {
    assert x[0..|x|] == x;
    TrimIs(x, TrimWhitespace, 0, x);
  }

  lemma {:induction false} NonEmptyAppend(a: seq<string>, b: seq<string>)
    ensures NonEmpty(a + b) == NonEmpty(a) + NonEmpty(b)
    decreases |a|
  {
    if a == [] {
      assert a + b == b;
    } else {
      assert (a + b)[1..] == a[1..] + b;
      NonEmptyAppend(a[1..], b);
    }
  }

  lemma JoinStartsWithWord(us: seq<string>)
    requires us != [] && us[0] != "" && WordOnly(us[0])
    ensures Join(us, " ") != [] && Join(us, " ")[0] == us[0][0]
  {
  }

  lemma {:induction false} JoinEndsWithWord(us: seq<string>)
    requires us != [] && us[|us| - 1] != "" && WordOnly(us[|us| - 1])
    ensures Join(us, " ") != [] && Join(us, " ")[|Join(us, " ")| - 1] == us[|us| - 1][|us[|us| - 1]| - 1]
    decreases |us|
  {
    if |us| >= 2 {
      JoinEndsWithWord(us[1..]);
    }
  }

  /**
   * Words joined by spaces, the first and the last non-empty: every run of
   * spaces (one per separator and per empty word) becomes one `-`.
   */
  lemma {:induction false} HyphenateCore(us: seq<string>)
    requires us != [] && us[0] != "" && us[|us| - 1] != "" && AllWordOnly(us)
    ensures Hyphenate(Join(us, " ")) == Join(NonEmpty(us), "-")
    decreases |us|, 1
  {
    if |us| == 1 {
      HyphenateNoSpace(us[0]);
      assert NonEmpty(us) == [us[0]];
    } else {
      assert Join(us, " ") == us[0] + " " + Join(us[1..], " ");
      HyphenateGap(us[0], " ", us[1..]);
      assert NonEmpty(us) == [us[0]] + NonEmpty(us[1..]);
    }
  }

  lemma {:induction false} HyphenateGap(t: string, run: string, xs: seq<string>)
    requires t != [] && WordOnly(t)
    requires run != [] && forall k :: 0 <= k < |run| ==> run[k] == ' '
    requires xs != [] && xs[|xs| - 1] != "" && AllWordOnly(xs)
    ensures Hyphenate(t + run + Join(xs, " ")) == Join([t] + NonEmpty(xs), "-")
    decreases |xs|, 2
  {
    if xs[0] == "" {
      assert |xs| >= 2;
      assert Join(xs, " ") == "" + " " + Join(xs[1..], " ");
      assert t + run + Join(xs, " ") == t + (run + " ") + Join(xs[1..], " ");
      HyphenateGap(t, run + " ", xs[1..]);
      assert NonEmpty(xs) == NonEmpty(xs[1..]);
    } else {
      JoinStartsWithWord(xs);
      HyphenateSplit(t, run, Join(xs, " "));
      HyphenateNoSpace(t);
      HyphenateCore(xs);
      var ne := NonEmpty(xs);
      assert ne == [xs[0]] + NonEmpty(xs[1..]);
      JoinCharsHyphen(t, ne);
    }
  }

  lemma JoinCharsHyphen(t: string, ne: seq<string>)
    requires ne != []
    ensures Join([t] + ne, "-") == t + "-" + Join(ne, "-")
  {
    JoinCons(t, ne, "-");
  }

  /** trim() then the whitespace replacement, on words joined by spaces. */
  lemma {:induction false} HyphenateTrimJoin(us: seq<string>)
    requires AllWordOnly(us)
    ensures Hyphenate(TrimSpace(Join(us, " "))) == Join(NonEmpty(us), "-")
    decreases |us|
  {
    if |us| == 0 || (|us| == 1 && us[0] == "") {
      HyphenateTrimNothing(us);
    } else if us[0] == "" {
      HyphenateTrimLeading(us);
      HyphenateTrimJoin(us[1..]);
    } else if us[|us| - 1] == "" {
      HyphenateTrimTrailing(us);
      HyphenateTrimJoin(us[..|us| - 1]);
    } else {
      HyphenateTrimWords(us);
    }
  }

  lemma HyphenateTrimNothing(us: seq<string>)
    requires |us| == 0 || (|us| == 1 && us[0] == "")
    ensures Hyphenate(TrimSpace(Join(us, " "))) == Join(NonEmpty(us), "-")
  {
    assert Join(us, " ") == "";
    TrimOfEmpty();
    assert NonEmpty(us) == [];
  }

  lemma HyphenateTrimWords(us: seq<string>)
    requires us != [] && us[0] != "" && us[|us| - 1] != "" && AllWordOnly(us)
    ensures Hyphenate(TrimSpace(Join(us, " "))) == Join(NonEmpty(us), "-")
  {
    JoinStartsWithWord(us);
    JoinEndsWithWord(us);
    TrimKeepsWords(Join(us, " "));
    HyphenateCore(us);
  }

  lemma HyphenateTrimLeading(us: seq<string>)
    requires |us| >= 2 && us[0] == "" && AllWordOnly(us)
    ensures AllWordOnly(us[1..])
    ensures Hyphenate(TrimSpace(Join(us, " "))) == Hyphenate(TrimSpace(Join(us[1..], " ")))
    ensures NonEmpty(us) == NonEmpty(us[1..])
  {
    assert Join(us, " ") == " " + Join(us[1..], " ");
    TrimDropsFirst(Join(us[1..], " "));
  }

  lemma HyphenateTrimTrailing(us: seq<string>)
    requires |us| >= 2 && us[|us| - 1] == "" && AllWordOnly(us)
    ensures AllWordOnly(us[..|us| - 1])
    ensures Hyphenate(TrimSpace(Join(us, " "))) == Hyphenate(TrimSpace(Join(us[..|us| - 1], " ")))
    ensures NonEmpty(us) == NonEmpty(us[..|us| - 1])
  {
    TrimJoinDropsLast(us);
    NonEmptyDropsLast(us);
  }

  lemma TrimJoinDropsLast(us: seq<string>)
    requires |us| >= 2 && us[|us| - 1] == ""
    ensures TrimSpace(Join(us, " ")) == TrimSpace(Join(us[..|us| - 1], " "))
  {
    var init := us[..|us| - 1];
    var j := Join(init, " ");
    assert Join(us, " ") == j + " " by {
      assert us == init + [""];
      JoinSnocEmpty(init);
    }
    TrimDropsLast(j);
  }

  lemma JoinSnocEmpty(init: seq<string>)
    requires init != []
    ensures Join(init + [""], " ") == Join(init, " ") + " "
  {
    var j := Join(init, " ");
    JoinSnoc(init, "", " ");
    assert j + " " + "" == j + " ";
  }

  lemma NonEmptyDropsLast(us: seq<string>)
    requires us != [] && us[|us| - 1] == ""
    ensures NonEmpty(us) == NonEmpty(us[..|us| - 1])
  {
    var init := us[..|us| - 1];
    assert us == init + [""];
    NonEmptyAppend(init, [""]);
    assert NonEmpty([""]) == [];
    assert NonEmpty(init) + [] == NonEmpty(init);
  }

  // ---------------------------------------------------------------------
  // The slug of a title of words.

  predicate AllPatterns(ws: seq<string>) {
    forall k :: 0 <= k < |ws| ==> Pattern(ws[k])
  }

  lemma AllPatternsConcat(a: seq<string>, b: seq<string>)
    requires AllPatterns(a) && AllPatterns(b)
    ensures AllPatterns(a + b)
  {
    assert forall k :: 0 <= k < |a + b| ==> (a + b)[k] == if k < |a| then a[k] else b[k - |a|];
  }

  // The rows of the list are checked a few at a time.

  lemma RowsArePatternsA()
    ensures AllPatterns(Row1) && AllPatterns(Row2) && AllPatterns(Row3) && AllPatterns(Row4)
  {
  }

  lemma RowsArePatternsB()
    ensures AllPatterns(Row5) && AllPatterns(Row6) && AllPatterns(Row7) && AllPatterns(Row8)
  {
  }

  lemma RowsArePatternsC()
    ensures AllPatterns(Row9) && AllPatterns(Row10) && AllPatterns(Row11)
  {
  }

  lemma RowsArePatternsD()
    ensures AllPatterns(Row12) && AllPatterns(Row13)
  {
  }

  /** Every stop word is non-empty and has no space. */
  lemma StopWordsArePatterns()
    ensures AllPatterns(StopWords)
  {
    RowsArePatternsA();
    RowsArePatternsB();
    RowsArePatternsC();
    RowsArePatternsD();
    AllPatternsConcat(Row1, Row2);
    AllPatternsConcat(Row1 + Row2, Row3);
    AllPatternsConcat(Row1 + Row2 + Row3, Row4);
    AllPatternsConcat(Row1 + Row2 + Row3 + Row4, Row5);
    AllPatternsConcat(Row1 + Row2 + Row3 + Row4 + Row5, Row6);
    AllPatternsConcat(Row1 + Row2 + Row3 + Row4 + Row5 + Row6, Row7);
    AllPatternsConcat(Row1 + Row2 + Row3 + Row4 + Row5 + Row6 + Row7, Row8);
    AllPatternsConcat(Row1 + Row2 + Row3 + Row4 + Row5 + Row6 + Row7 + Row8, Row9);
    AllPatternsConcat(Row1 + Row2 + Row3 + Row4 + Row5 + Row6 + Row7 + Row8 + Row9, Row10);
    AllPatternsConcat(Row1 + Row2 + Row3 + Row4 + Row5 + Row6 + Row7 + Row8 + Row9 + Row10, Row11);
    AllPatternsConcat(Row1 + Row2 + Row3 + Row4 + Row5 + Row6 + Row7 + Row8 + Row9 + Row10 + Row11, Row12);
    AllPatternsConcat(Row1 + Row2 + Row3 + Row4 + Row5 + Row6 + Row7 + Row8 + Row9 + Row10 + Row11 + Row12, Row13);
  }

  lemma {:induction false} KeptIs(us: seq<string>, ws: seq<string>)
    ensures NonEmpty(BlankAll(us, ws)) == Kept(us, ws)
    decreases |us|
  {
    if us != [] {
      var b, rest := BlankAll(us, ws), BlankAll(us[1..], ws);
      BlankAllIs(us, ws);
      BlankAllIs(us[1..], ws);
      assert b[1..] == rest by {
        forall i | 0 <= i < |rest| ensures b[1..][i] == rest[i] {
          assert b[i + 1] == if us[i + 1] in ws then "" else us[i + 1];
          assert us[1..][i] == us[i + 1];
        }
      }
      var head := if us[0] == "" || us[0] in ws then [] else [us[0]];
      assert (if b[0] == "" then [] else [b[0]]) == head;
      assert NonEmpty(b) == head + NonEmpty(rest);
      KeptIs(us[1..], ws);
      assert Kept(us, ws) == head + Kept(us[1..], ws);
    } else {
      BlankAllIs(us, ws);
    }
  }

  /**
   * The slug of a title of words separated by single spaces is its
   * lower-cased words that are neither empty nor stop words, joined by `-`.
   */
  lemma SlugOfWords(ts: seq<string>)
    requires AllWordOnly(ts)
    ensures Slug(Join(ts, " ")) == Join(Kept(LowerAll(ts), StopWords), "-")
  {
    StopWordsArePatterns();
    SlugOfWordsWith(ts, StopWords);
  }

  /** The same, for any list of patterns applied in order. */
  lemma SlugOfWordsWith(ts: seq<string>, ws: seq<string>)
    requires AllWordOnly(ts) && AllPatterns(ws)
    ensures Hyphenate(TrimSpace(ApplyStopWords(Lower(Join(ts, " ")), ws))) == Join(Kept(LowerAll(ts), ws), "-")
  {
    var lowered := LowerAll(ts);
    LowerJoin(ts);
    LowerAllWordOnly(ts);
    ApplyStopWordsJoin(lowered, ws);
    var blanked := BlankAll(lowered, ws);
    BlankAllIs(lowered, ws);
    assert AllWordOnly(blanked);
    HyphenateTrimJoin(blanked);
    KeptIs(lowered, ws);
  }
}
