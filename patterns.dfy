/** The regular expressions of the dashboard parser, written out as scanners
    with the leftmost-match semantics of Python's `re.search`, `re.sub` and
    `re.findall`:

    - `\b(\d{2}:\d{2}:\d{2})\b`         (a clock reading, `_extract_time`)
    - `ATUALIZADO EM\s+(\d{2}/\d{2}/\d{4}\s+\d{2}:\d{2}:\d{2})`
                                         (the update stamp, `_extract_updated_at`)
    - `\d{2}:\d{2}:\d{2}` replaced by a space (`_extract_int_candidates`)
    - `\b\d+\b`                           (the integer tokens, `_extract_int_candidates`) */
module Patterns {
  import opened Chars
  import opened Outcomes

  // ---------------------------------------------------------------------
  // Clock readings
  // ---------------------------------------------------------------------

  /** `\d{2}:\d{2}:\d{2}` matches at index `i`. */
  predicate ClockAt(s: string, i: int) {
    && 0 <= i && i + 8 <= |s|
    && IsDigit(s[i]) && IsDigit(s[i + 1]) && s[i + 2] == ':'
    && IsDigit(s[i + 3]) && IsDigit(s[i + 4]) && s[i + 5] == ':'
    && IsDigit(s[i + 6]) && IsDigit(s[i + 7])
  }

  /** `\b\d{2}:\d{2}:\d{2}\b` matches at index `i`: the clock is neither
      preceded nor followed by a word character. */
  predicate BoundedClockAt(s: string, i: int) {
    && ClockAt(s, i)
    && (i == 0 || !IsWordChar(s[i - 1]))
    && (i + 8 == |s| || !IsWordChar(s[i + 8]))
  }

  /** Leftmost index at or after `i` where a word-bounded clock starts. */
  function FindClockFrom(s: string, i: nat): (r: Option<nat>)
    requires i <= |s|
    ensures r.Some? ==> i <= r.value && BoundedClockAt(s, r.value)
    ensures r.Some? ==> forall k :: i <= k < r.value ==> !BoundedClockAt(s, k)
    ensures r.None? ==> forall k :: i <= k ==> !BoundedClockAt(s, k)
    decreases |s| - i
  {
    if i + 8 > |s| then None
    else if BoundedClockAt(s, i) then Some(i)
    else FindClockFrom(s, i + 1)
  }

  /** `re.search(r"\b(\d{2}:\d{2}:\d{2})\b", s)`: where the first match starts. */
  function FirstClock(s: string): (r: Option<nat>)
    ensures r.Some? ==> BoundedClockAt(s, r.value)
    ensures r.Some? ==> forall k :: 0 <= k < r.value ==> !BoundedClockAt(s, k)
    ensures r.None? <==> forall k :: !BoundedClockAt(s, k)
  {
    FindClockFrom(s, 0)
  }

  /** `re.sub(r"\d{2}:\d{2}:\d{2}", " ", s)`: scanning left to right, each
      clock reading (no word boundaries here) becomes one space. */
  function StripClocks(s: string): (r: string)
    ensures |r| <= |s|
    decreases |s|
  {
    if s == [] then []
    else if ClockAt(s, 0) then [' '] + StripClocks(s[8..])
    else [s[0]] + StripClocks(s[1..])
  }

  /** As long as no space was written, `StripClocks` copies its input. */
  lemma {:induction false} StripClocksCopies(s: string, n: nat)
    requires n <= |StripClocks(s)|
    requires forall j :: 0 <= j < n ==> StripClocks(s)[j] != ' '
    ensures n <= |s| && StripClocks(s)[..n] == s[..n]
  {
    if n > 0 {
      assert StripClocks(s)[0] != ' ';
      assert !ClockAt(s, 0);
      var r := StripClocks(s[1..]);
      assert StripClocks(s) == [s[0]] + r;
      assert forall j :: 0 <= j < n - 1 ==> r[j] == StripClocks(s)[j + 1];
      StripClocksCopies(s[1..], n - 1);
      assert StripClocks(s)[..n] == [s[0]] + r[..n - 1];
    }
  }

  /** The output of `StripClocks` never starts with a clock reading: one at
      the front of the input became a space, and any other front would have
      been copied from the input. */
  lemma NoClockAtFront(s: string)
    ensures !ClockAt(StripClocks(s), 0)
  {
    var r := StripClocks(s);
    if !ClockAt(s, 0) && ClockAt(r, 0) {
      StripClocksCopies(s, 8);
    }
  }

  /** Prepending one character moves every clock reading one place on. */
  lemma ShiftClock(c: char, t: string, k: nat)
    ensures ClockAt([c] + t, k + 1) <==> ClockAt(t, k)
  {
    var r := [c] + t;
    assert forall j :: 0 <= j < |t| ==> t[j] == r[j + 1];
  }

  /** No clock reading survives `StripClocks`, so none of its digits can be
      taken for an integer token afterwards. */
  lemma {:induction false} NoClockLeft(s: string)
    ensures forall k :: !ClockAt(StripClocks(s), k)
    decreases |s|
  {
    if s != [] {
      var r := StripClocks(s);
      var rest := if ClockAt(s, 0) then s[8..] else s[1..];
      NoClockLeft(rest);
      var t := StripClocks(rest);
      assert r == [r[0]] + t;
      NoClockAtFront(s);
      forall k: nat
        ensures !ClockAt(r, k)
      {
        if k > 0 {
          ShiftClock(r[0], t, k - 1);
        }
      }
    }
  }

  // ---------------------------------------------------------------------
  // Integer tokens
  // ---------------------------------------------------------------------

  /** End of the run of digits that starts at `i`. */
  function RunEnd(s: string, i: nat): (j: nat)
    requires i <= |s|
    ensures i <= j <= |s|
    ensures forall k :: i <= k < j ==> IsDigit(s[k])
    ensures j == |s| || !IsDigit(s[j])
    decreases |s| - i
  {
    if i < |s| && IsDigit(s[i]) then RunEnd(s, i + 1) else i
  }

  /** `int(d)` for a string of ASCII digits. */
  function DigitsValue(d: string): (n: nat)
    requires forall k :: 0 <= k < |d| ==> IsDigit(d[k])
  {
    if d == [] then 0
    else
      var last := d[|d| - 1];
      assert IsDigit(last);
      DigitsValue(d[..|d| - 1]) * 10 + (last as int - '0' as int)
  }

  /** A token of `\b\d+\b` spans `[i, j)`: a maximal run of digits with no
      word character directly before or after it. */
  predicate TokenAt(s: string, i: int, j: int) {
    && 0 <= i < j <= |s|
    && (forall k :: i <= k < j ==> IsDigit(s[k]))
    && (i == 0 || !IsWordChar(s[i - 1]))
    && (j == |s| || !IsWordChar(s[j]))
  }

  /** `re.findall(r"\b\d+\b", s[i:])` with the boundary test looking at
      `s[i - 1]`, converted with `int`. */
  function TokensFrom(s: string, i: nat): (r: seq<nat>)
    requires i <= |s|
    ensures |r| <= |s| - i
    decreases |s| - i
  {
    if i == |s| then []
    else if IsDigit(s[i]) && (i == 0 || !IsWordChar(s[i - 1])) then
      var j := RunEnd(s, i);
      if j == |s| || !IsWordChar(s[j]) then [DigitsValue(s[i..j])] + TokensFrom(s, j)
      else TokensFrom(s, j)
    else TokensFrom(s, i + 1)
  }

  /** `_extract_int_candidates`: the integer tokens left once the clock
      readings are replaced by spaces. */
  function IntCandidates(text: string): (r: seq<nat>)
    ensures |r| <= |text|
  {
    TokensFrom(StripClocks(text), 0)
  }

  // ---------------------------------------------------------------------
  // The update stamp
  // ---------------------------------------------------------------------

  const UPDATED_PREFIX: string := "ATUALIZADO EM"

  /** `\d{2}/\d{2}/\d{4}` matches at index `i`. */
  predicate DateAt(s: string, i: int) {
    && 0 <= i && i + 10 <= |s|
    && IsDigit(s[i]) && IsDigit(s[i + 1]) && s[i + 2] == '/'
    && IsDigit(s[i + 3]) && IsDigit(s[i + 4]) && s[i + 5] == '/'
    && IsDigit(s[i + 6]) && IsDigit(s[i + 7]) && IsDigit(s[i + 8]) && IsDigit(s[i + 9])
  }

  /** End of the run of whitespace that starts at `j`. */
  function SpacesEnd(s: string, j: nat): (k: nat)
    requires j <= |s|
    ensures j <= k <= |s|
    ensures forall m :: j <= m < k ==> IsSpace(s[m])
    ensures k == |s| || !IsSpace(s[k])
    decreases |s| - j
  {
    if j < |s| && IsSpace(s[j]) then SpacesEnd(s, j + 1) else j
  }

  /** The stamp pattern anchored at `i`, as its captured group. Each `\s+` is
      followed by a digit, so only the maximal run of whitespace can match. */
  function StampAt(s: string, i: nat): (r: Option<string>)
    requires i <= |s|
  {
    if !OccursAt(s, UPDATED_PREFIX, i) then None
    else
      var k := SpacesEnd(s, i + |UPDATED_PREFIX|);
      if k == i + |UPDATED_PREFIX| || !DateAt(s, k) then None
      else
        var l := SpacesEnd(s, k + 10);
        if l == k + 10 || !ClockAt(s, l) then None
        else Some(s[k..l + 8])
  }

  /** `re.search` of the stamp pattern from index `i` on: the capture of the
      leftmost match. */
  function SearchStampFrom(s: string, i: nat): (r: Option<string>)
    requires i <= |s|
    ensures r.None? <==> forall k :: i <= k <= |s| ==> StampAt(s, k).None?
    ensures r.Some? ==>
      exists k :: i <= k <= |s| && StampAt(s, k) == r &&
        forall j :: i <= j < k ==> StampAt(s, j).None?
    decreases |s| - i
  {
    if StampAt(s, i).Some? then StampAt(s, i)
    else if i == |s| then None
    else SearchStampFrom(s, i + 1)
  }
}
