/**
 * get_help_msg: the help text is the script's own header comment, read
 * line by line; the text of each line is kept without its leading ` * `.
 */
module Help {
  import opened PhpText

  /** The number of `\s` characters the line starts with. */
  function LeadingSpaces(s: string): (n: nat)
    ensures n <= |s|
    ensures forall k :: 0 <= k < n ==> IsPcreSpace(s[k])
    ensures n < |s| ==> !IsPcreSpace(s[n])
  {
    if s != [] && IsPcreSpace(s[0]) then 1 + LeadingSpaces(s[1..]) else 0
  }

  /** The line without its leading `\s` characters. */
  function SkipSpaces(s: string): string {
    s[LeadingSpaces(s)..]
  }

  /** `\s*` then `prefix` can match at the start of `s`. */
  ghost predicate AfterSpaces(s: string, prefix: string) {
    exists k :: 0 <= k <= |s| && (forall j :: 0 <= j < k ==> IsPcreSpace(s[j])) && prefix <= s[k..]
  }

  /** A slash and two stars: the start of the header comment. */
  const OpenMarker: string := "/**"

  /** A star and a slash: the end of the header comment. */
  const CloseMarker: string := "*/"

  /** The pattern `^\s*` then OpenMarker matches: the header opens on this line. */
  predicate OpensHeader(line: string) {
    OpenMarker <= SkipSpaces(line)
  }

  /** The line contains CloseMarker: the header closes on this line. */
  predicate ClosesHeader(line: string) {
    Contains(line, CloseMarker)
  }

  /**
   * preg_replace('/^\s*\*\s/', '', $line): leading spaces, a `*` and one
   * more `\s` character are removed; a line without them is kept whole.
   */
  function StripMarker(line: string): (r: string)
    ensures |r| <= |line| && r == line[|line| - |r|..]
    ensures var n := LeadingSpaces(line);
      |r| < |line| <==> n + 2 <= |line| && line[n] == '*' && IsPcreSpace(line[n + 1])
    ensures |r| < |line| ==> |line| - |r| == LeadingSpaces(line) + 2
  {
    var t := SkipSpaces(line);
    if |t| >= 2 && t[0] == '*' && IsPcreSpace(t[1]) then t[2..] else line
  }

  /**
   * Greedy `\s*` gives the only possible match: the header opens iff some
   * run of spaces at the start is followed by OpenMarker.
   */
  lemma OpensHeaderIff(line: string)
    ensures OpensHeader(line) <==> AfterSpaces(line, OpenMarker)
  {
    var t := SkipSpaces(line);
    var n := |line| - |t|;
    if OpensHeader(line) {
      assert line[n..] == t;
    }
    if AfterSpaces(line, OpenMarker) {
      var k :| 0 <= k <= |line| && (forall j :: 0 <= j < k ==> IsPcreSpace(line[j])) && OpenMarker <= line[k..];
      assert line[k] == line[k..][0] == '/';
      if n < |line| {
        assert line[n] == t[0];
      }
      assert line[n..] == t;
    }
  }

  /** The kept text of each header line, one after the other. */
  function StripAll(body: seq<string>): (r: string)
    ensures body == [] ==> r == ""
  {
    if body == [] then "" else StripMarker(body[0]) + StripAll(body[1..])
  }

  /** What the scan collects from `lines` on, given whether it is inside the header. */
  function Scan(lines: seq<string>, inComment: bool): string {
    if lines == [] then ""
    else if !inComment && OpensHeader(lines[0]) then Scan(lines[1..], true)
    else if inComment && ClosesHeader(lines[0]) then ""
    else (if inComment then StripMarker(lines[0]) else "") + Scan(lines[1..], inComment)
  }

  /** One line outside the header that does not open it contributes nothing. */
  lemma ScanOutside(line: string, rest: seq<string>)
    requires !OpensHeader(line)
    ensures Scan([line] + rest, false) == Scan(rest, false)
  {
    assert ([line] + rest)[1..] == rest;
  }

  /** One line inside the header that does not close it is kept, stripped. */
  lemma ScanKeeps(line: string, rest: seq<string>)
    requires !ClosesHeader(line)
    ensures Scan([line] + rest, true) == StripMarker(line) + Scan(rest, true)
  {
    assert ([line] + rest)[1..] == rest;
  }

  /** Lines before the header contribute nothing. */
  lemma {:induction false} ScanBeforeHeader(pre: seq<string>, rest: seq<string>)
    requires forall i :: 0 <= i < |pre| ==> !OpensHeader(pre[i])
    ensures Scan(pre + rest, false) == Scan(rest, false)
  {
    if pre == [] {
      assert pre + rest == rest;
    } else {
      assert pre == [pre[0]] + pre[1..];
      AppendAssoc([pre[0]], pre[1..], rest);
      ScanOutside(pre[0], pre[1..] + rest);
      ScanBeforeHeader(pre[1..], rest);
    }
  }

  /** Inside the header, every line up to the closing one is kept, stripped. */
  lemma {:induction false} ScanInsideHeader(body: seq<string>, rest: seq<string>)
    requires forall i :: 0 <= i < |body| ==> !ClosesHeader(body[i])
    ensures Scan(body + rest, true) == StripAll(body) + Scan(rest, true)
  {
    if body == [] {
      assert body + rest == rest;
    } else {
      assert body == [body[0]] + body[1..];
      AppendAssoc([body[0]], body[1..], rest);
      ScanKeeps(body[0], body[1..] + rest);
      ScanInsideHeader(body[1..], rest);
      AppendAssoc(StripMarker(body[0]), StripAll(body[1..]), Scan(rest, true));
    }
  }

  /**
   * The help text of a file laid out as `pre`, an opening line, `body`, a
   * closing line and `post`: the stripped body lines, and nothing from
   * the opening line, the closing line or anything around them.
   */
  lemma HelpOfHeader(pre: seq<string>, open: string, body: seq<string>, close: string, post: seq<string>)
    requires forall i :: 0 <= i < |pre| ==> !OpensHeader(pre[i])
    requires OpensHeader(open)
    requires forall i :: 0 <= i < |body| ==> !ClosesHeader(body[i])
    requires ClosesHeader(close)
    ensures Scan(pre + [open] + body + [close] + post, false) == StripAll(body)
  {
    assert pre + [open] + body + [close] + post == pre + ([open] + (body + ([close] + post)));
    ScanBeforeHeader(pre, [open] + (body + ([close] + post)));
    assert ([open] + (body + ([close] + post)))[1..] == body + ([close] + post);
    ScanInsideHeader(body, [close] + post);
  }

  /** A header that is never closed runs to the end of the file. */
  lemma UnclosedHeader(pre: seq<string>, open: string, body: seq<string>)
    requires forall i :: 0 <= i < |pre| ==> !OpensHeader(pre[i])
    requires OpensHeader(open)
    requires forall i :: 0 <= i < |body| ==> !ClosesHeader(body[i])
    ensures Scan(pre + [open] + body, false) == StripAll(body)
  {
    assert pre + [open] + body == pre + ([open] + body);
    ScanBeforeHeader(pre, [open] + body);
    assert ([open] + body)[1..] == body + [];
    ScanInsideHeader(body, []);
  }

  /** Without an opening line there is no help text. */
  lemma NoHeader(lines: seq<string>)
    requires forall i :: 0 <= i < |lines| ==> !OpensHeader(lines[i])
    ensures Scan(lines, false) == ""
  {
    assert lines + [] == lines;
    ScanBeforeHeader(lines, []);
  }

  /**
   * The `\s` after the `*` may be the line's own newline: a bare " *" line
   * of the header gives nothing, not an empty line, while " * text" gives "text".
   */
  lemma MarkerLines(text: string)
    ensures StripMarker(" *\n") == ""
    ensures StripMarker(" * " + text) == text
  {
    var bare := " *\n";
    assert LeadingSpaces(bare[1..]) == 0;
    assert SkipSpaces(bare) == bare[1..];
    var s := " * " + text;
    assert s[1..] == "* " + text;
    assert LeadingSpaces(s[1..]) == 0;
    assert SkipSpaces(s) == "* " + text;
    assert ("* " + text)[2..] == text;
  }

  /** get_help_msg over the lines of the file, with its `in_comment` flag. */
  method GetHelpMsg(lines: seq<string>) returns (help: string)
    ensures help == Scan(lines, false)
  {
    var inComment := false;
    help := "";
    var i := 0;
    assert lines[0..] == lines && "" + Scan(lines, false) == Scan(lines, false);
    while i < |lines|
      invariant 0 <= i <= |lines|
      invariant help + Scan(lines[i..], inComment) == Scan(lines, false)
      decreases |lines| - i
    {
      var line := lines[i];
      ghost var later := lines[i + 1..];
      assert lines[i..] == [line] + later;
      if !inComment && OpensHeader(line) {
        inComment := true;
        i := i + 1;
        continue;
      }
      if inComment && ClosesHeader(line) {
        assert help + "" == help;
        return;
      }
      if inComment {
        ScanKeeps(line, later);
        AppendAssoc(help, StripMarker(line), Scan(later, true));
        help := help + StripMarker(line);
      } else {
        ScanOutside(line, later);
      }
      i := i + 1;
    }
    assert help + "" == help;
  }
}
