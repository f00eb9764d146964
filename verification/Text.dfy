/**
 * Character classes, substring occurrence, and the two pieces of Python
 * string machinery the extractor relies on: `re.findall` for a fixed-width
 * pattern and `str.replace(old, '')`.
 */
module Text {

  /** `[a-zA-Z0-9]` */
  predicate IsAsciiAlnum(c: char) {
    ('a' <= c <= 'z') || ('A' <= c <= 'Z') || ('0' <= c <= '9')
  }

  /** The word characters of `\b`, restricted to ASCII: letters, digits and underscore. */
  predicate IsWordChar(c: char) {
    IsAsciiAlnum(c) || c == '_'
  }

  predicate IsHexDigit(c: char) {
    ('0' <= c <= '9') || ('a' <= c <= 'f') || ('A' <= c <= 'F')
  }

  /** ASCII lower-casing, the folding `re.IGNORECASE` applies to the letters it is used on here. */
  function Lower(c: char): (l: char)
    ensures 'A' <= c <= 'Z' ==> 'a' <= l <= 'z'
    ensures !('A' <= c <= 'Z') ==> l == c
    ensures IsAsciiAlnum(c) <==> IsAsciiAlnum(l)
  {
    if 'A' <= c <= 'Z' then (c as int + 32) as char else c
  }

  /** `pat` occurs in `s` starting at index `i`. */
  predicate OccursAt(s: string, pat: string, i: int) {
    0 <= i && i + |pat| <= |s| && s[i..i + |pat|] == pat
  }

  /**
   * The start positions `re.findall` reports for a pattern that always
   * matches exactly `width` characters, where `hits[i]` says whether it
   * matches at index `i`: try each index from `from` on, left to right, and
   * resume after the end of each match.
   */
  function FindAll(hits: seq<bool>, width: nat, from: nat): (r: seq<nat>)
    requires width > 0
    ensures forall k :: 0 <= k < |r| ==> from <= r[k] < |hits| && hits[r[k]]
    ensures forall k :: 0 < k < |r| ==> r[k - 1] + width <= r[k]
    decreases |hits| - from
  {
    if from >= |hits| then []
    else if hits[from] then
      var rest := FindAll(hits, width, from + width);
      var r := [from] + rest;
      assert forall k :: 0 < k < |r| ==> r[k] == rest[k - 1];
      r
    else FindAll(hits, width, from + 1)
  }

  /**
   * `re.findall` finds something exactly when the pattern matches somewhere,
   * and what it finds first is the leftmost match.
   */
  lemma {:induction false} FindAllFirst(hits: seq<bool>, width: nat, from: nat)
    requires width > 0
    ensures |FindAll(hits, width, from)| > 0 <==> exists i :: from <= i < |hits| && hits[i]
    ensures |FindAll(hits, width, from)| > 0 ==> forall i :: from <= i < FindAll(hits, width, from)[0] ==> !hits[i]
    decreases |hits| - from
  {
    if from < |hits| && !hits[from] {
      FindAllFirst(hits, width, from + 1);
      if exists i :: from <= i < |hits| && hits[i] {
        var i :| from <= i < |hits| && hits[i];
        assert from + 1 <= i;
      }
    }
  }

  /**
   * `s.replace(pat, '')`: delete the occurrences of `pat` found scanning
   * left to right, resuming after each deleted occurrence.
   */
  function RemoveAll(s: string, pat: string): (r: string)
    requires |pat| > 0
    ensures |r| <= |s|
    ensures (forall i :: !OccursAt(s, pat, i)) ==> r == s
    decreases |s|
  {
    if |s| < |pat| then s
    else if s[..|pat|] == pat then
      assert OccursAt(s, pat, 0);
      RemoveAll(s[|pat|..], pat)
    else
      assert forall i :: OccursAt(s[1..], pat, i) ==> OccursAt(s, pat, i + 1) by {
        forall i | OccursAt(s[1..], pat, i) ensures OccursAt(s, pat, i + 1) {
          assert s[1..][i..i + |pat|] == s[i + 1..i + 1 + |pat|];
        }
      }
      [s[0]] + RemoveAll(s[1..], pat)
  }

  /** Replacing in `pat + t` deletes the leading `pat` and carries on in `t`. */
  lemma RemoveAllLeading(pat: string, t: string)
    requires |pat| > 0
    ensures RemoveAll(pat + t, pat) == RemoveAll(t, pat)
  {
    assert (pat + t)[..|pat|] == pat;
    assert (pat + t)[|pat|..] == t;
  }
}
