/** The text normalisation of the dashboard parser (`_norm`): accents are
    stripped, letters are upper-cased, every run of whitespace becomes one
    space, and the ends are trimmed. */
module Normalize {
  import opened Chars

  /** No character that `str.upper` would change. */
  predicate NoLower(s: string) {
    forall i :: 0 <= i < |s| ==> !IsLower(s[i])
  }

  /** No two whitespace characters in a row. */
  predicate NoSpaceRun(s: string) {
    forall i :: 0 <= i < |s| - 1 ==> !(IsSpace(s[i]) && IsSpace(s[i + 1]))
  }

  /** The only whitespace character is the plain space. */
  predicate PlainSpacesOnly(s: string) {
    forall i :: 0 <= i < |s| ==> IsSpace(s[i]) ==> s[i] == ' '
  }

  /** NFKD, removal of combining marks and `str.upper`, over a whole string. */
  function FoldAll(s: string): (r: string)
    ensures NoLower(r)
  {
    if s == [] then [] else Fold(s[0]) + FoldAll(s[1..])
  }

  /** `re.sub(r"\s+", " ", s)`: every maximal run of whitespace becomes a
      single space. */
  function Collapse(s: string): string
    decreases |s|
  {
    if s == [] then []
    else if IsSpace(s[0]) then
      StripStartSpec(s);
      [' '] + Collapse(StripStart(s))
    else [s[0]] + Collapse(s[1..])
  }

  /** After collapsing, no two whitespace characters are adjacent and the
      only one left is the plain space; no lower-case letter appears that was
      not there, and the first character is whitespace exactly when it was. */
  lemma {:induction false} CollapseSpec(s: string)
    ensures NoSpaceRun(Collapse(s)) && PlainSpacesOnly(Collapse(s))
    ensures NoLower(s) ==> NoLower(Collapse(s))
    ensures s != [] ==> Collapse(s) != [] && (IsSpace(s[0]) <==> IsSpace(Collapse(s)[0]))
    decreases |s|
  {
    if s != [] {
      if IsSpace(s[0]) {
        var t := StripStart(s);
        StripStartSpec(s);
        CollapseSpec(t);
        var r := Collapse(t);
        assert Collapse(s) == [' '] + r;
        assert NoLower(s) ==> NoLower(t) by {
          assert forall i :: 0 <= i < |t| ==> t[i] == s[|s| - |t| + i];
        }
      } else {
        var t := s[1..];
        CollapseSpec(t);
        var r := Collapse(t);
        assert Collapse(s) == [s[0]] + r;
        assert NoLower(s) ==> NoLower(t) by {
          assert forall i :: 0 <= i < |t| ==> t[i] == s[i + 1];
        }
      }
    }
  }

  /** `_norm`: the empty string stays empty; otherwise fold, collapse the
      whitespace and strip. */
  function Norm(s: string): (r: string)
    ensures s == [] ==> r == []
    ensures NoLower(r)
    ensures r == [] || (!IsSpace(r[0]) && !IsSpace(r[|r| - 1]))
    ensures NoSpaceRun(r) && PlainSpacesOnly(r)
  {
    if s == [] then []
    else
      var c := Collapse(FoldAll(s));
      var r := Strip(c);
      CollapseSpec(FoldAll(s));
      StripSpec(c);
      SliceKeeps(c, LeadingSpaces(c), LeadingSpaces(c) + |r|);
      r
  }

  /** A slice keeps the three character-level properties of its string. */
  lemma SliceKeeps(c: string, a: nat, b: nat)
    requires a <= b <= |c|
    ensures NoLower(c) ==> NoLower(c[a..b])
    ensures NoSpaceRun(c) ==> NoSpaceRun(c[a..b])
    ensures PlainSpacesOnly(c) ==> PlainSpacesOnly(c[a..b])
  {
    var r := c[a..b];
    assert forall i :: 0 <= i < |r| ==> r[i] == c[a + i];
  }
}
