/** Character-level helpers shared by the question answerer and the sentence parser.
    Case mapping and the alphabetic test cover the ASCII letters only. */
module Text {

  predicate IsUpper(c: char) {
    'A' <= c <= 'Z'
  }

  /** `c.isalpha()`, restricted to ASCII letters. */
  predicate IsAlpha(c: char) {
    'A' <= c <= 'Z' || 'a' <= c <= 'z'
  }

  /** `c.isdigit()`, restricted to ASCII digits. */
  predicate IsDigit(c: char) {
    '0' <= c <= '9'
  }

  /** `c.lower()` on one character. */
  function LowerChar(c: char): (r: char)
    ensures !IsUpper(r)
    ensures IsAlpha(r) <==> IsAlpha(c)
    ensures !IsUpper(c) ==> r == c
  {
    if IsUpper(c) then (c as int + 32) as char else c
  }

  /** A word with no upper-case letter. */
  predicate IsLower(w: string) {
    forall i :: 0 <= i < |w| ==> !IsUpper(w[i])
  }

  /** `w.lower()`: the same length, every character lowered. */
  function Lower(w: string): (r: string)
    ensures |r| == |w|
    ensures forall i :: 0 <= i < |w| ==> r[i] == LowerChar(w[i])
    ensures IsLower(r)
  {
    seq(|w|, i requires 0 <= i < |w| => LowerChar(w[i]))
  }

  /** `[word.lower() for word in words]`. */
  function LowerAll(words: seq<string>): (r: seq<string>)
    ensures |r| == |words|
    ensures forall i :: 0 <= i < |words| ==> r[i] == Lower(words[i])
    ensures forall k :: 0 <= k < |r| ==> IsLower(r[k])
  {
    seq(|words|, i requires 0 <= i < |words| => Lower(words[i]))
  }

  /** `c.isalpha()` holds for some character of the word. */
  predicate HasAlpha(w: string) {
    exists i :: 0 <= i < |w| && IsAlpha(w[i])
  }

  /** Lowering a word keeps its letters letters. */
  lemma LowerHasAlpha(w: string)
    ensures HasAlpha(Lower(w)) <==> HasAlpha(w)
  {
    if HasAlpha(w) {
      var i :| 0 <= i < |w| && IsAlpha(w[i]);
      assert IsAlpha(Lower(w)[i]);
    }
  }

  /** Lowering leaves a lower-case word unchanged, so lowering twice is lowering once. */
  lemma LowerOfLower(w: string)
    requires IsLower(w)
    ensures Lower(w) == w
  {
  }

  /** `needle in hay` for two Python strings: a contiguous substring test. */
  predicate IsSubstring(needle: string, hay: string) {
    exists i :: 0 <= i <= |hay| - |needle| && OccursAt(needle, hay, i)
  }

  /** `needle` is found in `hay` starting at position `i`. */
  predicate OccursAt(needle: string, hay: string, i: int) {
    0 <= i <= |hay| - |needle| && hay[i..i + |needle|] == needle
  }
}
