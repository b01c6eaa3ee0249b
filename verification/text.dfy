/** The string operations the client pages use: `toLowerCase` (ASCII letters
    only) and `String.prototype.includes`. */
module Text {

  /** ASCII lower-casing of one character; everything else is kept. */
  function LowerChar(c: char): char {
    if 'A' <= c <= 'Z' then (c as int + 32) as char else c
  }

  function Lower(s: string): (r: string)
    ensures |r| == |s|
    ensures forall i :: 0 <= i < |s| ==> r[i] == LowerChar(s[i])
  {
    seq(|s|, i requires 0 <= i < |s| => LowerChar(s[i]))
  }

  /** Lower-casing is a projection: doing it again changes nothing. */
  lemma LowerIdempotent(s: string)
    ensures Lower(Lower(s)) == Lower(s)
  {
  }

  /** `needle` occurs in `hay` starting at index `i`. */
  ghost predicate OccursAt(hay: string, needle: string, i: int) {
    0 <= i && i + |needle| <= |hay| && hay[i..i + |needle|] == needle
  }

  predicate StartsWith(s: string, prefix: string) {
    |prefix| <= |s| && s[..|prefix|] == prefix
  }

  /** `hay.includes(needle)`, by trying every start position in turn. */
  function Includes(hay: string, needle: string): (b: bool)
    ensures b ==> |needle| <= |hay|
    decreases |hay|
  {
    if StartsWith(hay, needle) then true
    else if |hay| == 0 then false
    else Includes(hay[1..], needle)
  }

  lemma OccursAtStart(hay: string, needle: string)
    ensures OccursAt(hay, needle, 0) <==> StartsWith(hay, needle)
  {
  }

  lemma OccursShift(hay: string, needle: string, i: int)
    requires |hay| > 0 && 0 <= i
    ensures OccursAt(hay[1..], needle, i) <==> OccursAt(hay, needle, i + 1)
  {
  }

  /** `Includes` answers exactly the question "is there a start position". */
  lemma {:induction false} IncludesIffOccurs(hay: string, needle: string)
    ensures Includes(hay, needle) <==> exists i :: OccursAt(hay, needle, i)
    decreases |hay|
  {
    OccursAtStart(hay, needle);
    if |hay| > 0 && !StartsWith(hay, needle) {
      IncludesIffOccurs(hay[1..], needle);
      forall i | 0 <= i ensures OccursAt(hay[1..], needle, i) <==> OccursAt(hay, needle, i + 1) {
        OccursShift(hay, needle, i);
      }
      if exists i :: OccursAt(hay, needle, i) {
        var i :| OccursAt(hay, needle, i);
        assert OccursAt(hay[1..], needle, i - 1);
      }
    }
  }

  /** The case-insensitive match every client filter uses:
      `hay.toLowerCase().includes(needle.toLowerCase())`. */
  predicate MatchesIgnoringCase(hay: string, needle: string) {
    Includes(Lower(hay), Lower(needle))
  }

  lemma MatchesOwnText(s: string)
    ensures MatchesIgnoringCase(s, s) && MatchesIgnoringCase(s, "")
  {
  }
}
