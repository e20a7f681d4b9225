/** Character classes and string primitives of Python that the dashboard code
    relies on: `str.isspace`, the `\d` and `\w` regular-expression classes,
    `str.isalnum`, `str.lower`, `str.upper` after accent stripping,
    `str.strip`, `str.find` and the `in` substring test.

    Digits are the ASCII digits. Letters are the ASCII letters and the letters
    of Latin-1 (U+00C0 to U+00FF, and the feminine and masculine ordinals and
    the micro sign); other scripts are treated as non-letters. Whitespace is
    exactly the set Python's `str.isspace` accepts. */
module Chars {

  // ---------------------------------------------------------------------
  // Character classes
  // ---------------------------------------------------------------------

  /** Python's `str.isspace`, which is also what `\s` and `str.strip` use.
      Apart from the space, NEL and the no-break space, each whitespace
      character is a control character or lies at U+1680 or above. */
  predicate IsSpace(c: char)
    ensures IsSpace(c) ==> c == ' ' || c < ' ' || c == '\U{85}' || c == '\U{A0}' || '\U{1680}' <= c
  {
    || c == ' '
    || ('\t' <= c <= '\r')
    || ('\U{1C}' <= c <= '\U{1F}')
    || c == '\U{85}' || c == '\U{A0}' || c == '\U{1680}'
    || ('\U{2000}' <= c <= '\U{200A}')
    || c == '\U{2028}' || c == '\U{2029}' || c == '\U{202F}' || c == '\U{205F}'
    || c == '\U{3000}'
  }

  /** The `\d` class, restricted to ASCII digits. */
  predicate IsDigit(c: char) {
    '0' <= c <= '9'
  }

  predicate IsAsciiLetter(c: char) {
    ('a' <= c <= 'z') || ('A' <= c <= 'Z')
  }

  /** Latin-1 letters: the ordinals, the micro sign, and U+00C0 to U+00FF
      without the multiplication and division signs. */
  predicate IsLatin1Letter(c: char) {
    || c == '\U{AA}' || c == '\U{B5}' || c == '\U{BA}'
    || ('\U{C0}' <= c <= '\U{D6}')
    || ('\U{D8}' <= c <= '\U{F6}')
    || ('\U{F8}' <= c <= '\U{FF}')
  }

  /** Latin-1 characters Python counts as numeric (superscripts and fractions). */
  predicate IsLatin1Numeric(c: char) {
    c == '\U{B2}' || c == '\U{B3}' || c == '\U{B9}' || ('\U{BC}' <= c <= '\U{BE}')
  }

  /** Python's `str.isalnum` on one character. */
  predicate IsAlnum(c: char)
    ensures IsDigit(c) ==> IsAlnum(c)
    ensures IsAlnum(c) ==> !IsSpace(c) && c != '_' && c != '-'
  {
    IsDigit(c) || IsAsciiLetter(c) || IsLatin1Letter(c) || IsLatin1Numeric(c)
  }

  /** The `\w` class of `re`: alphanumerics and the underscore. */
  predicate IsWordChar(c: char)
    ensures IsDigit(c) || c == '_' ==> IsWordChar(c)
    ensures IsWordChar(c) ==> !IsSpace(c) && c != '-'

  {
    IsAlnum(c) || c == '_'
  }

  /** Upper-case letters that `str.lower` changes. */
  predicate IsUpper(c: char) {
    ('A' <= c <= 'Z') || ('\U{C0}' <= c <= '\U{D6}') || ('\U{D8}' <= c <= '\U{DE}')
  }

  /** Lower-case letters that `str.upper` changes. */
  predicate IsLower(c: char) {
    ('a' <= c <= 'z') || ('\U{DF}' <= c <= '\U{F6}') || ('\U{F8}' <= c <= '\U{FF}')
  }

  // ---------------------------------------------------------------------
  // Case mapping
  // ---------------------------------------------------------------------

  /** `str.lower` on one character. */
  function Lower(c: char): (r: char)
    ensures !IsUpper(r)
    ensures IsUpper(c) ==> IsLower(r)
    ensures !IsUpper(c) ==> r == c
  {
    if IsUpper(c) then (c as int + 32) as char else c
  }

  /** `str.lower` on a string. */
  function LowerAll(s: string): (r: string)
    ensures |r| == |s|
    ensures forall i :: 0 <= i < |r| ==> r[i] == Lower(s[i])
  {
    if s == [] then [] else [Lower(s[0])] + LowerAll(s[1..])
  }

  /** Base letters (already upper-cased) of U+00C0 to U+00FF after NFKD
      decomposition and removal of the combining marks. The entry for U+00DF
      (sharp s) is not used: it upper-cases to two letters. */
  const LATIN1_BASE: string :=
    "AAAAAA\U{C6}CEEEEIIII\U{D0}NOOOOO\U{D7}\U{D8}UUUUY\U{DE}S"
    + "AAAAAA\U{C6}CEEEEIIII\U{D0}NOOOOO\U{F7}\U{D8}UUUUY\U{DE}Y"

  lemma Latin1BaseNotLower()
    ensures |LATIN1_BASE| == 64
    ensures forall i :: 0 <= i < 64 ==> !IsLower(LATIN1_BASE[i])
  {
  }

  /** NFKD decomposition, removal of combining marks and `str.upper`, applied
      to one character: the string it turns into. Only ASCII, Latin-1 and the
      combining diacritical marks (U+0300 to U+036F) are mapped; every other
      character is kept as it is. U+034F is the one character of that block
      whose combining class is 0, so it is kept; the vulgar fractions of
      Latin-1 decompose into digit, fraction slash (U+2044), digit. */
  function Fold(c: char): (r: string)
    ensures forall i :: 0 <= i < |r| ==> !IsLower(r[i])
  {
    if 'a' <= c <= 'z' then [(c as int - 32) as char]
    else if '\U{300}' <= c <= '\U{36F}' && c != '\U{34F}' then []
    else if c == '\U{BC}' then "1\U{2044}4"
    else if c == '\U{BD}' then "1\U{2044}2"
    else if c == '\U{BE}' then "3\U{2044}4"
    else if c == '\U{A0}' || c == '\U{A8}' || c == '\U{AF}' || c == '\U{B4}' || c == '\U{B8}' then [' ']
    else if c == '\U{AA}' then "A"
    else if c == '\U{BA}' then "O"
    else if c == '\U{B2}' then "2"
    else if c == '\U{B3}' then "3"
    else if c == '\U{B9}' then "1"
    else if c == '\U{B5}' then "\U{39C}"
    else if c == '\U{DF}' then "SS"
    else if '\U{C0}' <= c <= '\U{FF}' then
      Latin1BaseNotLower();
      [LATIN1_BASE[c as int - 0xC0]]
    else [c]
  }

  /** The compatibility decomposition of a fraction yields its digits, and
      the combining grapheme joiner, of combining class 0, survives. */
  lemma FoldFractionsAndJoiner()
    ensures Fold('\U{BD}') == ['1', '\U{2044}', '2']
    ensures Fold('\U{34F}') == ['\U{34F}']
    ensures Fold('\U{301}') == []
  {
  }

  // ---------------------------------------------------------------------
  // Stripping whitespace
  // ---------------------------------------------------------------------

  /** `str.lstrip()`: the suffix left after the leading whitespace. */
  function StripStart(s: string): string {
    if s != [] && IsSpace(s[0]) then StripStart(s[1..]) else s
  }

  /** `str.lstrip()` drops exactly the leading whitespace. */
  lemma {:induction false} StripStartSpec(s: string)
    ensures |StripStart(s)| <= |s| && StripStart(s) == s[|s| - |StripStart(s)|..]
    ensures forall i :: 0 <= i < |s| - |StripStart(s)| ==> IsSpace(s[i])
    ensures StripStart(s) == [] || !IsSpace(StripStart(s)[0])
    decreases |s|
  {
    if s != [] && IsSpace(s[0]) {
      StripStartSpec(s[1..]);
    }
  }

  /** `str.rstrip()`: the prefix left before the trailing whitespace. */
  function StripEnd(s: string): string {
    if s != [] && IsSpace(s[|s| - 1]) then StripEnd(s[..|s| - 1]) else s
  }

  /** `str.rstrip()` drops exactly the trailing whitespace. */
  lemma {:induction false} StripEndSpec(s: string)
    ensures |StripEnd(s)| <= |s| && StripEnd(s) == s[..|StripEnd(s)|]
    ensures forall i :: |StripEnd(s)| <= i < |s| ==> IsSpace(s[i])
    ensures StripEnd(s) == [] || !IsSpace(StripEnd(s)[|StripEnd(s)| - 1])
    decreases |s|
  {
    if s != [] && IsSpace(s[|s| - 1]) {
      StripEndSpec(s[..|s| - 1]);
    }
  }

  /** Number of leading whitespace characters of `s`. */
  function LeadingSpaces(s: string): nat
  {
    StripStartSpec(s);
    |s| - |StripStart(s)|
  }

  /** `str.strip()`: `str.rstrip()` after `str.lstrip()`. */
  function Strip(s: string): (r: string)
    ensures |r| <= |s|
    ensures r == [] || (!IsSpace(r[0]) && !IsSpace(r[|r| - 1]))
  {
    StripStartSpec(s);
    StripEndSpec(StripStart(s));
    StripEnd(StripStart(s))
  }

  /** `str.strip()` keeps the slice of `s` between its leading and its
      trailing whitespace, which is empty exactly when `s` is all
      whitespace. */
  lemma StripSpec(s: string)
    ensures LeadingSpaces(s) + |Strip(s)| <= |s|
    ensures Strip(s) == s[LeadingSpaces(s)..LeadingSpaces(s) + |Strip(s)|]
    ensures Strip(s) == [] || (!IsSpace(Strip(s)[0]) && !IsSpace(Strip(s)[|Strip(s)| - 1]))
    ensures Strip(s) == [] <==> forall i :: 0 <= i < |s| ==> IsSpace(s[i])
  {
    StripStartSpec(s);
    StripEndSpec(StripStart(s));
  }

  /** `s.strip().lower()`: the form in which configuration words are compared. */
  function Canon(s: string): string {
    LowerAll(Strip(s))
  }

  /** A word without whitespace and capitals is its own canonical form. */
  lemma CanonOfPlain(s: string)
    requires forall i :: 0 <= i < |s| ==> !IsSpace(s[i]) && !IsUpper(s[i])
    ensures Canon(s) == s
  {
    assert StripStart(s) == s;
    assert StripEnd(s) == s;
  }

  // ---------------------------------------------------------------------
  // Substring search
  // ---------------------------------------------------------------------

  /** `p` occurs in `s` starting at index `k`. */
  predicate OccursAt(s: string, p: string, k: int) {
    0 <= k && k + |p| <= |s| && s[k..k + |p|] == p
  }

  /** `s.find(p, i)`: the first index at or after `i` where `p` occurs, or -1. */
  function FindFrom(s: string, p: string, i: nat): (r: int)
    requires i <= |s|
    ensures r == -1 || (i <= r && OccursAt(s, p, r))
    ensures r == -1 ==> forall k :: i <= k ==> !OccursAt(s, p, k)
    ensures r != -1 ==> forall k :: i <= k < r ==> !OccursAt(s, p, k)
    decreases |s| - i
  {
    if i + |p| > |s| then -1
    else if s[i..i + |p|] == p then i
    else FindFrom(s, p, i + 1)
  }

  /** `s.find(p)`: the first index where `p` occurs in `s`, or -1. */
  function Find(s: string, p: string): (r: int)
    ensures r == -1 <==> forall k :: !OccursAt(s, p, k)
    ensures r != -1 ==> OccursAt(s, p, r) && forall k :: 0 <= k < r ==> !OccursAt(s, p, k)
  {
    FindFrom(s, p, 0)
  }

  /** `p` occurs in `s` at some index from `i` on. */
  predicate OccursFrom(s: string, p: string, i: nat)
    decreases |s| - i
  {
    i + |p| <= |s| && (OccursAt(s, p, i) || OccursFrom(s, p, i + 1))
  }

  /** Python's `p in s` for strings. */
  predicate Contains(s: string, p: string) {
    OccursFrom(s, p, 0)
  }

  lemma {:induction false} OccursFromIff(s: string, p: string, i: nat)
    requires i <= |s|
    ensures OccursFrom(s, p, i) <==> FindFrom(s, p, i) != -1
    decreases |s| - i
  {
    if i + |p| <= |s| && !OccursAt(s, p, i) {
      OccursFromIff(s, p, i + 1);
    }
  }

  /** `p in s` holds exactly when `s.find(p)` finds something. */
  lemma ContainsIff(s: string, p: string)
    ensures Contains(s, p) <==> Find(s, p) != -1
    ensures Contains(s, p) <==> exists k :: OccursAt(s, p, k)
  {
    OccursFromIff(s, p, 0);
  }
}
