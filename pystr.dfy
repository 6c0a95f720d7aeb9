/** The two Python string primitives the farm tools are built from:
    `str.lower()` and the substring test `needle in haystack`.

    Lower-casing is modelled on ASCII only: 'A'..'Z' map to 'a'..'z' and
    every other character is left alone. */
module PyStr {

  /** One character as `str.lower()` maps it, restricted to ASCII letters:
      an upper-case letter becomes the same letter in lower case, and every
      other character is left alone. */
  function LowerChar(c: char): (r: char)
    ensures 'A' <= c <= 'Z' ==> 'a' <= r <= 'z' && r as int - 'a' as int == c as int - 'A' as int
    ensures !('A' <= c <= 'Z') ==> r == c
    ensures !('A' <= r <= 'Z')
  {
    if 'A' <= c <= 'Z' then (c as int - 'A' as int + 'a' as int) as char else c
  }

  /** `s.lower()`: the string with every upper-case letter folded. */
  function Lower(s: string): (r: string)
    ensures |r| == |s|
    ensures forall i :: 0 <= i < |s| ==> r[i] == LowerChar(s[i])
  {
    if s == [] then [] else [LowerChar(s[0])] + Lower(s[1..])
  }

  /** Two characters are the same letter, possibly in different case. */
  predicate SameLetterIgnoringCase(c: char, d: char) {
    || c == d
    || ('A' <= c <= 'Z' && d as int == c as int + 32)
    || ('A' <= d <= 'Z' && c as int == d as int + 32)
  }

  /** Two strings differ at most in the case of their letters. */
  predicate EqualIgnoringCase(s: string, t: string) {
    |s| == |t| && forall i :: 0 <= i < |s| ==> SameLetterIgnoringCase(s[i], t[i])
  }

  /** `needle` occurs in `haystack` starting at index `i`. */
  predicate OccursAt(needle: string, haystack: string, i: int) {
    0 <= i <= |haystack| - |needle| && haystack[i..i + |needle|] == needle
  }

  /** `needle` occurs somewhere in `haystack` as a contiguous slice. */
  ghost predicate Occurs(needle: string, haystack: string) {
    exists i :: OccursAt(needle, haystack, i)
  }

  /** `needle in haystack` on strings: a left-to-right search that agrees
      with Python's `in`. */
  function Contains(haystack: string, needle: string): (found: bool)
    ensures found <==> Occurs(needle, haystack)
    decreases |haystack|
  {
    if |haystack| < |needle| then false
    else if haystack[..|needle|] == needle then
      assert OccursAt(needle, haystack, 0);
      true
    else
      OccursPastHead(needle, haystack);
      Contains(haystack[1..], needle)
  }

  /** When the needle is not at the head, it occurs in the haystack exactly
      when it occurs in the haystack's tail. */
  lemma OccursPastHead(needle: string, haystack: string)
    requires |needle| <= |haystack| && haystack[..|needle|] != needle
    ensures Occurs(needle, haystack) <==> Occurs(needle, haystack[1..])
  {
    var tail := haystack[1..];
    if Occurs(needle, haystack) {
      var i :| OccursAt(needle, haystack, i);
      assert i != 0;
      assert tail[i - 1..i - 1 + |needle|] == haystack[i..i + |needle|];
      assert OccursAt(needle, tail, i - 1);
    }
    if Occurs(needle, tail) {
      var j :| OccursAt(needle, tail, j);
      assert haystack[j + 1..j + 1 + |needle|] == tail[j..j + |needle|];
      assert OccursAt(needle, haystack, j + 1);
    }
  }

  /** Lower-casing distributes over concatenation. */
  lemma LowerAppend(a: string, b: string)
    ensures Lower(a + b) == Lower(a) + Lower(b)
  {
  }

  /** Strings that differ only in letter case lower-case to the same string,
      and a string and its lower-cased form differ only in letter case. */
  lemma EqualIgnoringCaseLower(s: string, t: string)
    ensures EqualIgnoringCase(s, t) ==> Lower(s) == Lower(t)
    ensures EqualIgnoringCase(s, Lower(s))
  {
  }

  /** A word that lower-cases to `keyword` is found by the substring test on
      the lower-cased text, whatever surrounds it. */
  lemma {:induction false} OccursAnywhere(before: string, word: string, after: string, keyword: string)
    requires Lower(word) == keyword
    ensures Occurs(keyword, Lower(before + word + after))
  {
    LowerAppend(before + word, after);
    LowerAppend(before, word);
    var text := Lower(before + word + after);
    assert text[|before|..|before| + |keyword|] == keyword;
    assert OccursAt(keyword, text, |before|);
  }
}
