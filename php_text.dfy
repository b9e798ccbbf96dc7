/**
 * The PHP string built-ins the script relies on, restricted to ASCII:
 * truthiness of a string, trim() with and without a character list,
 * ctype_digit(), the (int) cast of a digit string, "%d" formatting,
 * strtolower() and substring search.
 */
module PhpText {

  /** Concatenation regroups: texts and logs built in pieces can be joined either way. */
  lemma AppendAssoc<T>(a: seq<T>, b: seq<T>, c: seq<T>)
    ensures (a + b) + c == a + (b + c)
  {
  }

  /** PHP's truthiness of a string: only "" and "0" are falsy. */
  predicate Truthy(s: string) {
    s != "" && s != "0"
  }

  /** The characters trim() strips when it is given no character list. */
  const TrimWhitespace: set<char> := {' ', '\t', '\n', '\r', '\0', '\U{000B}'}

  /** The characters PCRE's `\s` matches in a pattern without the `u` flag. */
  predicate IsPcreSpace(c: char) {
    c == ' ' || c == '\t' || c == '\n' || c == '\U{000B}' || c == '\U{000C}' || c == '\r'
  }

  /** How many characters at the start of `s` are in `mask`: what trim() drops on the left. */
  function LeadingIn(s: string, mask: set<char>): (n: nat)
    ensures n <= |s|
    ensures forall k :: 0 <= k < n ==> s[k] in mask
    ensures n < |s| ==> s[n] !in mask
  {
    if s != [] && s[0] in mask then 1 + LeadingIn(s[1..], mask) else 0
  }

  /** How many characters at the end of `s` are in `mask`: what trim() drops on the right. */
  function TrailingIn(s: string, mask: set<char>): (n: nat)
    ensures n <= |s|
    ensures forall k :: |s| - n <= k < |s| ==> s[k] in mask
    ensures n < |s| ==> s[|s| - 1 - n] !in mask
  {
    if s != [] && s[|s| - 1] in mask then 1 + TrailingIn(s[..|s| - 1], mask) else 0
  }

  /**
   * `r` is what remains of `s` once everything before offset `i` and after
   * `i + |r|` is cut: all cut characters are in `mask`, and the ends of `r` are not.
   */
  ghost predicate TrimmedAt(s: string, mask: set<char>, i: nat, r: string) {
    && i + |r| <= |s|
    && r == s[i..i + |r|]
    && (forall k :: 0 <= k < i ==> s[k] in mask)
    && (forall k :: i + |r| <= k < |s| ==> s[k] in mask)
    && (r != [] ==> r[0] !in mask && r[|r| - 1] !in mask)
  }

  /** PHP's trim($s, $mask), for a mask without ".." ranges. */
  function Trim(s: string, mask: set<char>): string {
    var left := s[LeadingIn(s, mask)..];
    left[..|left| - TrailingIn(left, mask)]
  }

  /** trim() cuts only characters of the mask, from both ends, and leaves neither end in the mask. */
  lemma TrimCharacterised(s: string, mask: set<char>)
    ensures exists i :: TrimmedAt(s, mask, i, Trim(s, mask))
  {
    var i := LeadingIn(s, mask);
    var left := s[i..];
    var j := TrailingIn(left, mask);
    var r := left[..|left| - j];
    assert r == s[i..i + |r|];
    forall k | i + |r| <= k < |s| ensures s[k] in mask {
      assert s[k] == left[k - i];
    }
    if r != [] {
      assert r[0] == s[i];
      assert r[|r| - 1] == left[|left| - 1 - j];
    }
    assert r == Trim(s, mask);
    assert TrimmedAt(s, mask, i, r);
  }

  /** The characterisation of trim() has exactly one solution. */
  lemma TrimmedAtUnique(s: string, mask: set<char>, i: nat, r: string, j: nat, r': string)
    requires TrimmedAt(s, mask, i, r) && TrimmedAt(s, mask, j, r')
    ensures r == r'
  {
    if r != [] && r' != [] {
      assert s[i] == r[0] && s[j] == r'[0];
      assert s[i + |r| - 1] == r[|r| - 1] && s[j + |r'| - 1] == r'[|r'| - 1];
    }
  }

  /** Whatever satisfies the characterisation is what trim() returns. */
  lemma TrimIs(s: string, mask: set<char>, i: nat, r: string)
    requires TrimmedAt(s, mask, i, r)
    ensures Trim(s, mask) == r
  {
    TrimCharacterised(s, mask);
    var j :| TrimmedAt(s, mask, j, Trim(s, mask));
    TrimmedAtUnique(s, mask, i, r, j, Trim(s, mask));
  }

  /** PHP's trim($s) with its default whitespace list. */
  function TrimSpace(s: string): string {
    Trim(s, TrimWhitespace)
  }

  predicate IsDigit(c: char) {
    '0' <= c <= '9'
  }

  predicate AllDigits(s: string) {
    forall i :: 0 <= i < |s| ==> IsDigit(s[i])
  }

  /** ctype_digit() on a string: non-empty and every character a decimal digit. */
  predicate CtypeDigit(s: string) {
    s != [] && AllDigits(s)
  }

  /** The decimal value of a digit string, leading zeros allowed. */
  function DigitsValue(s: string): nat
    requires AllDigits(s)
  {
    if s == [] then 0 else DigitsValue(s[..|s| - 1]) * 10 + (s[|s| - 1] as int - '0' as int)
  }

  /** PHP_INT_MAX on a 64-bit platform. */
  const PhpIntMax: nat := 0x7FFF_FFFF_FFFF_FFFF

  /**
   * 2^1024 - 2^970: the least integer that an IEEE 754 double rounds to
   * infinity (the halfway point above DBL_MAX rounds to even, away from it).
   */
  const DoubleOverflow: nat := 179769313486231580793728971405303415079934132710037826936173778980444968292764750946649017977587207096330286416692887910946555547851940402630657488671505820681908902000708383676273854845817711531764475730270069855571366959622842914819860834936475292719074168444365510704342711559699508093042880177904174497792

  /**
   * PHP's (int) cast of a digit string. A value past PHP_INT_MAX is read as a
   * double, which saturates at PHP_INT_MAX while it is finite and gives 0
   * once it has rounded to infinity.
   */
  function IntCast(s: string): (n: int)
    requires AllDigits(s)
    ensures 0 <= n <= PhpIntMax
    ensures DigitsValue(s) <= PhpIntMax ==> n == DigitsValue(s)
    ensures PhpIntMax < DigitsValue(s) < DoubleOverflow ==> n == PhpIntMax
    ensures DoubleOverflow <= DigitsValue(s) ==> n == 0
  {
    if DigitsValue(s) <= PhpIntMax then DigitsValue(s)
    else if DigitsValue(s) < DoubleOverflow then PhpIntMax
    else 0
  }

  function Pow10(k: nat): (r: nat)
    ensures r >= 1
  {
    if k == 0 then 1 else 10 * Pow10(k - 1)
  }

  lemma {:induction false} Pow10Add(a: nat, b: nat)
    ensures Pow10(a + b) == Pow10(a) * Pow10(b)
  {
    if b > 0 {
      Pow10Add(a, b - 1);
    }
  }

  lemma Pow10Of24()
    ensures Pow10(24) == 1_000000_000000_000000_000000
  {
    assert Pow10(3) == 1000;
    Pow10Add(3, 3);
    Pow10Add(6, 6);
    Pow10Add(12, 12);
  }

  lemma Pow10Shift24(a: nat)
    ensures Pow10(a + 24) == 1_000000_000000_000000_000000 * Pow10(a)
  {
    Pow10Add(a, 24);
    Pow10Of24();
  }

  /** 10^309 is past every finite double. */
  lemma OverflowBelowPow10()
    ensures DoubleOverflow < Pow10(309)
  {
    Pow10Of24();
    assert Pow10(3) == 1000;
    Pow10Add(21, 3);
    Pow10Shift24(21); Pow10Shift24(45); Pow10Shift24(69); Pow10Shift24(93);
    Pow10Shift24(117); Pow10Shift24(141); Pow10Shift24(165); Pow10Shift24(189);
    Pow10Shift24(213); Pow10Shift24(237); Pow10Shift24(261); Pow10Shift24(285);
  }

  lemma {:induction false} Pow10Monotone(a: nat, b: nat)
    requires a <= b
    ensures Pow10(a) <= Pow10(b)
    decreases b - a
  {
    if a < b {
      Pow10Monotone(a + 1, b);
    }
  }

  /** A digit string without a leading zero is worth at least 10^(digits - 1). */
  lemma {:induction false} DigitsValueAtLeast(s: string)
    requires CtypeDigit(s) && s[0] != '0'
    ensures DigitsValue(s) >= Pow10(|s| - 1)
  {
    if |s| > 1 {
      var t := s[..|s| - 1];
      assert t[0] == s[0];
      assert forall i :: 0 <= i < |t| ==> t[i] == s[i];
      DigitsValueAtLeast(t);
    }
  }

  /**
   * More than 309 digits without a leading zero is past every finite double,
   * so the cast gives 0; "1" followed by 309 zeros is such a string.
   */
  lemma TooLongForDoubleCastsToZero(s: string)
    requires CtypeDigit(s) && s[0] != '0' && |s| > 309
    ensures IntCast(s) == 0
  {
    DigitsValueAtLeast(s);
    Pow10Monotone(309, |s| - 1);
    OverflowBelowPow10();
  }

  function DigitChar(d: nat): char
    requires d < 10
  {
    ('0' as int + d) as char
  }

  /** sprintf("%d", n) for a natural number. */
  function Decimal(n: nat): (r: string)
    ensures CtypeDigit(r)
    ensures |r| > 1 ==> r[0] != '0'
  {
    if n < 10 then [DigitChar(n)] else Decimal(n / 10) + [DigitChar(n % 10)]
  }

  /** sprintf("%d", i) for any integer. */
  function IntDecimal(i: int): string {
    if i < 0 then "-" + Decimal(-i) else Decimal(i)
  }

  /** Reading back what "%d" printed gives the number again. */
  lemma {:induction false} DecimalRoundTrip(n: nat)
    ensures DigitsValue(Decimal(n)) == n
  {
    if n >= 10 {
      DecimalRoundTrip(n / 10);
      var s := Decimal(n);
      assert s[..|s| - 1] == Decimal(n / 10);
    }
  }

  /** The (int) cast of a printed number in range is that number. */
  lemma IntCastOfDecimal(n: nat)
    requires n <= PhpIntMax
    ensures IntCast(Decimal(n)) == n
  {
    DecimalRoundTrip(n);
  }

  function LowerChar(c: char): char {
    if 'A' <= c <= 'Z' then (c as int - 'A' as int + 'a' as int) as char else c
  }

  /** strtolower(): ASCII upper case letters become lower case, nothing else changes. */
  function Lower(s: string): (r: string)
    ensures |r| == |s|
    ensures forall i :: 0 <= i < |r| ==> r[i] == LowerChar(s[i])
  {
    if s == [] then [] else [LowerChar(s[0])] + Lower(s[1..])
  }

  /** strtolower() leaves no ASCII upper case letter, and changes no other character. */
  lemma LowerMeaning(s: string)
    ensures forall i :: 0 <= i < |s| ==> !('A' <= Lower(s)[i] <= 'Z')
    ensures forall i :: 0 <= i < |s| && !('A' <= s[i] <= 'Z') ==> Lower(s)[i] == s[i]
  {
    forall i | 0 <= i < |s| ensures !('A' <= Lower(s)[i] <= 'Z') {
      assert Lower(s)[i] == LowerChar(s[i]);
    }
  }

  /** `sub` occurs in `s` at offset `i`. */
  ghost predicate OccursAt(s: string, sub: string, i: nat) {
    i + |sub| <= |s| && s[i..i + |sub|] == sub
  }

  /** strpos($s, $sub) !== false, i.e. an unanchored regex match of a literal. */
  predicate Contains(s: string, sub: string) {
    sub <= s || (s != [] && Contains(s[1..], sub))
  }

  lemma {:induction false} ContainsIff(s: string, sub: string)
    ensures Contains(s, sub) <==> exists i :: OccursAt(s, sub, i)
  {
    if sub <= s {
      assert OccursAt(s, sub, 0);
    } else if s == [] {
      assert forall i :: !OccursAt(s, sub, i);
    } else {
      ContainsIff(s[1..], sub);
      forall i: nat | OccursAt(s[1..], sub, i) ensures OccursAt(s, sub, i + 1) {
        assert s[i + 1..i + 1 + |sub|] == s[1..][i..i + |sub|];
      }
      forall i: nat | OccursAt(s, sub, i) ensures i > 0 && OccursAt(s[1..], sub, i - 1) {
        assert s[i..i + |sub|] == s[1..][i - 1..i - 1 + |sub|];
      }
    }
  }
}
