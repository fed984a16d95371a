/** The string operations of Python that the help desk relies on:
    `str.lower()` (restricted to ASCII), `str.split()` with no separator and
    the substring test `needle in hay`; and `", ".join` for the fabric
    feature string, with `str.split(", ")` as its inverse, so that the
    feature string can be shown to determine the five choices it was built
    from. */
module Text {

  import opened Wrappers

  // ---------------------------------------------------------------------
  // Characters
  // ---------------------------------------------------------------------

  /** The characters Python's `str.split()` (no separator) treats as
      whitespace, i.e. those for which `str.isspace()` holds. */
  predicate IsSpace(c: char) {
    ('\t' <= c <= '\r') || ('\U{1C}' <= c <= '\U{1F}') || c == ' '
    || c == '\U{85}' || c == '\U{A0}' || c == '\U{1680}'
    || ('\U{2000}' <= c <= '\U{200A}') || c == '\U{2028}' || c == '\U{2029}'
    || c == '\U{202F}' || c == '\U{205F}' || c == '\U{3000}'
  }

  predicate IsUpper(c: char) {
    'A' <= c <= 'Z'
  }

  /** `c.lower()` on ASCII: A-Z become a-z, every other character is kept. */
  function LowerChar(c: char): char {
    if IsUpper(c) then (c as int + 32) as char else c
  }

  predicate NoSpace(s: string) {
    forall i :: 0 <= i < |s| ==> !IsSpace(s[i])
  }

  predicate AllSpace(s: string) {
    forall i :: 0 <= i < |s| ==> IsSpace(s[i])
  }

  predicate HasUpper(s: string) {
    exists i :: 0 <= i < |s| && IsUpper(s[i])
  }

  // ---------------------------------------------------------------------
  // Lower-casing
  // ---------------------------------------------------------------------

  /** `s.lower()`, character by character. */
  function Lower(s: string): (r: string)
    ensures |r| == |s|
    ensures forall i :: 0 <= i < |s| ==> r[i] == LowerChar(s[i])
  {
    if s == [] then [] else [LowerChar(s[0])] + Lower(s[1..])
  }

  /** A lower-cased string has no upper-case letter left. */
  lemma LowerHasNoUpper(s: string)
    ensures !HasUpper(Lower(s))
  {
  }

  /** Lower-casing twice is lower-casing once. */
  lemma LowerIdempotent(s: string)
    ensures Lower(Lower(s)) == Lower(s)
  {
  }

  /** Whitespace is never touched by lower-casing. */
  lemma LowerKeepsSpace(s: string)
    ensures AllSpace(s) <==> AllSpace(Lower(s))
  {
  }

  /** Lower-casing works piece by piece. */
  lemma LowerAppend(a: string, b: string)
    ensures Lower(a + b) == Lower(a) + Lower(b)
  {
    assert forall i :: 0 <= i < |a + b| ==> Lower(a + b)[i] == (Lower(a) + Lower(b))[i];
  }

  /** Lower-casing keeps every character's whitespace-ness. */
  lemma LowerKeepsSpaceAt(s: string)
    ensures forall i :: 0 <= i < |s| ==> (IsSpace(Lower(s)[i]) <==> IsSpace(s[i]))
  {
  }

  // ---------------------------------------------------------------------
  // Substring test
  // ---------------------------------------------------------------------

  /** `needle` sits in `hay` starting at index `i`. */
  predicate OccursAt(hay: string, needle: string, i: int) {
    0 <= i && i + |needle| <= |hay| && hay[i..i + |needle|] == needle
  }

  /** Python's `needle in hay` for strings: some window of `hay` equals
      `needle`. The empty needle occurs everywhere. */
  predicate Contains(hay: string, needle: string) {
    exists i :: 0 <= i <= |hay| - |needle| && OccursAt(hay, needle, i)
  }

  /** The same test as a left-to-right scan: is `needle` a prefix of `hay`,
      or of what is left after dropping its first character? */
  predicate ScanContains(hay: string, needle: string)
    decreases |hay|
  {
    needle <= hay || (hay != [] && ScanContains(hay[1..], needle))
  }

  /** The scan and the window definition agree on every input. */
  lemma {:induction false} ScanContainsIffContains(hay: string, needle: string)
    ensures ScanContains(hay, needle) <==> Contains(hay, needle)
    decreases |hay|
  {
    if needle <= hay {
      assert OccursAt(hay, needle, 0);
    } else if hay == [] {
    } else {
      ScanContainsIffContains(hay[1..], needle);
      if Contains(hay, needle) {
        var i :| 0 <= i <= |hay| - |needle| && OccursAt(hay, needle, i);
        assert i != 0;
        assert hay[1..][i - 1..i - 1 + |needle|] == hay[i..i + |needle|];
        assert OccursAt(hay[1..], needle, i - 1);
      }
      if Contains(hay[1..], needle) {
        var i :| 0 <= i <= |hay[1..]| - |needle| && OccursAt(hay[1..], needle, i);
        assert hay[i + 1..i + 1 + |needle|] == hay[1..][i..i + |needle|];
        assert OccursAt(hay, needle, i + 1);
      }
    }
  }

  /** A needle with an upper-case letter never occurs in a lower-cased string. */
  lemma UpperNeverInLower(s: string, needle: string)
    requires HasUpper(needle)
    ensures !Contains(Lower(s), needle)
  {
  }

  // ---------------------------------------------------------------------
  // str.split() with no separator
  // ---------------------------------------------------------------------

  /** Length of the run of non-whitespace characters that starts `s`. */
  function WordLen(s: string): (n: nat)
    ensures n <= |s|
    ensures NoSpace(s[..n])
    ensures n == |s| || IsSpace(s[n])
  {
    if s == [] || IsSpace(s[0]) then 0
    else
      var m := WordLen(s[1..]);
      assert s[..m + 1] == [s[0]] + s[1..][..m];
      m + 1
  }

  /** `s.split()`: the maximal runs of non-whitespace, in order; runs of
      whitespace (leading, trailing, repeated) never produce empty words. */
  function Words(s: string): (r: seq<string>)
    ensures forall k :: 0 <= k < |r| ==> r[k] != [] && NoSpace(r[k])
    decreases |s|
  {
    if s == [] then []
    else if IsSpace(s[0]) then Words(s[1..])
    else
      var n := WordLen(s);
      [s[..n]] + Words(s[n..])
  }

  /** Leading whitespace contributes no word. */
  lemma {:induction false} WordsSkipSpace(pre: string, s: string)
    requires AllSpace(pre)
    ensures Words(pre + s) == Words(s)
    decreases |pre|
  {
    if pre == [] {
      assert pre + s == s;
    } else {
      assert IsSpace((pre + s)[0]);
      assert (pre + s)[1..] == pre[1..] + s;
      WordsSkipSpace(pre[1..], s);
    }
  }

  /** `split()` skips the leading whitespace, reads the whole word that
      follows it, and carries on from the whitespace (or the end) after it.
      With `WordsEmptyIffBlank` this determines `Words` on every string. */
  lemma WordsOfPadded(pre: string, w: string, rest: string)
    requires AllSpace(pre)
    requires w != [] && NoSpace(w)
    requires rest == [] || IsSpace(rest[0])
    ensures Words(pre + w + rest) == [w] + Words(rest)
  {
    assert pre + w + rest == pre + (w + rest);
    WordsSkipSpace(pre, w + rest);
    WordLenOfWord(w, rest);
    assert (w + rest)[0] == w[0];
    assert (w + rest)[..|w|] == w;
    assert (w + rest)[|w|..] == rest;
  }

  /** `s.split()` is empty exactly when `s` is empty or all whitespace. */
  lemma {:induction false} WordsEmptyIffBlank(s: string)
    ensures Words(s) == [] <==> AllSpace(s)
    decreases |s|
  {
    if s != [] {
      if IsSpace(s[0]) {
        WordsEmptyIffBlank(s[1..]);
        assert AllSpace(s) <==> AllSpace(s[1..]) by {
          if AllSpace(s[1..]) {
            forall i | 0 <= i < |s| ensures IsSpace(s[i]) {
              if i > 0 { assert s[i] == s[1..][i - 1]; }
            }
          }
        }
      }
    }
  }

  /** Words joined by single spaces. */
  function JoinSpace(ws: seq<string>): string {
    if ws == [] then []
    else if |ws| == 1 then ws[0]
    else ws[0] + " " + JoinSpace(ws[1..])
  }

  /** A word followed by whitespace or the end is read whole. */
  lemma WordLenOfWord(w: string, rest: string)
    requires NoSpace(w)
    requires rest == [] || IsSpace(rest[0])
    ensures WordLen(w + rest) == |w|
    decreases |w|
  {
    if w != [] {
      assert (w + rest)[1..] == w[1..] + rest;
      WordLenOfWord(w[1..], rest);
    }
  }

  /** Splitting words that were joined by single spaces gives them back. */
  lemma {:induction false} WordsOfJoinSpace(ws: seq<string>)
    requires forall k :: 0 <= k < |ws| ==> ws[k] != [] && NoSpace(ws[k])
    ensures Words(JoinSpace(ws)) == ws
  {
    if ws == [] {
    } else if |ws| == 1 {
      var w := ws[0];
      WordLenOfWord(w, []);
      assert w + [] == w;
      assert w[|w|..] == [];
      assert w[..|w|] == w;
    } else {
      var w, t := ws[0], JoinSpace(ws[1..]);
      var s := w + " " + t;
      assert s == w + (" " + t);
      WordLenOfWord(w, " " + t);
      assert s[..|w|] == w;
      assert s[|w|..] == " " + t;
      assert (" " + t)[1..] == t;
      WordsOfJoinSpace(ws[1..]);
      assert ws == [w] + ws[1..];
    }
  }

  // ---------------------------------------------------------------------
  // str.split(", ") and ", ".join
  // ---------------------------------------------------------------------

  const Sep: string := ", "

  /** ", " starts at index `j` of `s`. */
  predicate SepAt(s: string, j: int) {
    0 <= j && j + 2 <= |s| && s[j] == ',' && s[j + 1] == ' '
  }

  /** Where the first ", " of `s` starts, if any. */
  function SepIndex(s: string): (r: Option<nat>)
    ensures r.Some? ==> SepAt(s, r.value) && forall j :: 0 <= j < r.value ==> !SepAt(s, j)
    ensures r.None? ==> forall j :: !SepAt(s, j)
    decreases |s|
  {
    if |s| < 2 then None
    else if s[0] == ',' && s[1] == ' ' then Some(0)
    else
      match SepIndex(s[1..])
      case None =>
        assert forall j :: SepAt(s, j) ==> j >= 1 && SepAt(s[1..], j - 1);
        None
      case Some(k) =>
        assert forall j :: 1 <= j <= k && SepAt(s, j) ==> SepAt(s[1..], j - 1);
        Some(k + 1)
  }

  /** `s.split(", ")`: the pieces between non-overlapping occurrences of
      ", ", scanned left to right; a string without ", " is one piece. */
  function SplitSep(s: string): (r: seq<string>)
    ensures |r| >= 1
    decreases |s|
  {
    match SepIndex(s)
    case None => [s]
    case Some(k) => [s[..k]] + SplitSep(s[k + 2..])
  }

  /** `", ".join(parts)`. */
  function JoinSep(parts: seq<string>): string {
    if parts == [] then []
    else if |parts| == 1 then parts[0]
    else parts[0] + Sep + JoinSep(parts[1..])
  }

  lemma JoinSepOfFive(a: string, b: string, c: string, d: string, e: string)
    ensures JoinSep([a, b, c, d, e]) == a + ", " + b + ", " + c + ", " + d + ", " + e
  {
    assert [d, e][1..] == [e];
    assert JoinSep([d, e]) == d + Sep + e;
    assert [c, d, e][1..] == [d, e];
    assert JoinSep([c, d, e]) == c + Sep + (d + Sep + e);
    assert [b, c, d, e][1..] == [c, d, e];
    assert JoinSep([b, c, d, e]) == b + Sep + (c + Sep + (d + Sep + e));
    assert [a, b, c, d, e][1..] == [b, c, d, e];
  }

  predicate NoComma(s: string) {
    forall i :: 0 <= i < |s| ==> s[i] != ','
  }

  lemma SepIndexOfPiece(p: string, rest: string)
    requires NoComma(p)
    ensures SepIndex(p) == None
    ensures SepIndex(p + Sep + rest) == Some(|p|)
  {
    var s := p + Sep + rest;
    assert SepAt(s, |p|);
    forall j | 0 <= j < |p| ensures !SepAt(s, j) {
      assert s[j] == p[j];
    }
    assert forall j :: !SepAt(p, j);
  }

  /** Splitting on ", " undoes joining with ", " when no piece contains a comma. */
  lemma {:induction false} SplitSepOfJoinSep(parts: seq<string>)
    requires |parts| >= 1
    requires forall k :: 0 <= k < |parts| ==> NoComma(parts[k])
    ensures SplitSep(JoinSep(parts)) == parts
  {
    if |parts| == 1 {
      SepIndexOfPiece(parts[0], []);
    } else {
      var p, t := parts[0], JoinSep(parts[1..]);
      SepIndexOfPiece(p, t);
      var s := p + Sep + t;
      assert s[..|p|] == p;
      assert s[|p| + 2..] == t;
      SplitSepOfJoinSep(parts[1..]);
      assert parts == [p] + parts[1..];
    }
  }
}
