/**
 * The token-candidate extraction of `on_new_message`: an AMA-announcement
 * veto, then the first `outputCurrency=` link, then the leftmost bare
 * `0x` address, otherwise nothing.
 */
module Extractor {
  import opened Wrappers
  import opened Text

  /** Length of a candidate: `0`, `x` or `X`, then 40 alphanumerics. */
  const AddressWidth: nat := 42
  /** The case-sensitive query key of an exchange link. */
  const LinkKey: string := "outputCurrency="
  const LinkWidth: nat := |LinkKey| + AddressWidth
  /** The veto phrase, lower-cased; it is matched case-insensitively. */
  const AmaPhrase: string := "ama announcement"

  /** `0[xX][a-zA-Z0-9]{40}` as a whole string. */
  predicate IsAddress(a: string) {
    && |a| == AddressWidth
    && a[0] == '0'
    && (a[1] == 'x' || a[1] == 'X')
    && forall k :: 2 <= k < AddressWidth ==> IsAsciiAlnum(a[k])
  }

  /** `0[xX][a-zA-Z0-9]{40}` matches `s` at index `i`. */
  predicate IsAddressAt(s: string, i: int) {
    0 <= i && i + AddressWidth <= |s| && IsAddress(s[i..i + AddressWidth])
  }

  /** `outputCurrency=0[xX][a-zA-Z0-9]{40}` matches `s` at index `i`. */
  predicate IsLinkAt(s: string, i: int) {
    OccursAt(s, LinkKey, i) && IsAddressAt(s, i + |LinkKey|)
  }

  /**
   * `\bAMA \bANNOUNCEMENT` under `re.IGNORECASE` matches `s` at index `i`.
   * The second `\b` always holds, since it sits between a space and a letter.
   */
  predicate IsAmaAt(s: string, i: int) {
    && 0 <= i && i + |AmaPhrase| <= |s|
    && (i == 0 || !IsWordChar(s[i - 1]))
    && forall k :: 0 <= k < |AmaPhrase| ==> Lower(s[i + k]) == AmaPhrase[k]
  }

  ghost predicate HasAma(s: string) {
    exists i :: IsAmaAt(s, i)
  }

  ghost predicate HasLink(s: string) {
    exists i :: IsLinkAt(s, i)
  }

  ghost predicate HasAddress(s: string) {
    exists i :: IsAddressAt(s, i)
  }

  /** `i` is the position of the leftmost link in `s`. */
  ghost predicate FirstLinkAt(s: string, i: int) {
    IsLinkAt(s, i) && forall j :: 0 <= j < i ==> !IsLinkAt(s, j)
  }

  /** `i` is the position of the leftmost bare address in `s`. */
  ghost predicate FirstAddressAt(s: string, i: int) {
    IsAddressAt(s, i) && forall j :: 0 <= j < i ==> !IsAddressAt(s, j)
  }

  /** The three regular expressions of the extractor. */
  datatype Pattern = AmaPattern | LinkPattern | AddressPattern

  function Width(p: Pattern): (w: nat)
    ensures w > 0
  {
    match p
    case AmaPattern => |AmaPhrase|
    case LinkPattern => LinkWidth
    case AddressPattern => AddressWidth
  }

  predicate MatchesAt(p: Pattern, s: string, i: int) {
    match p
    case AmaPattern => IsAmaAt(s, i)
    case LinkPattern => IsLinkAt(s, i)
    case AddressPattern => IsAddressAt(s, i)
  }

  /** A match lies inside the string. */
  lemma MatchWithin(p: Pattern, s: string, i: int)
    requires MatchesAt(p, s, i)
    ensures 0 <= i && i + Width(p) <= |s|
  {
  }

  /** Where pattern `p` matches in `s`, index by index. */
  function Hits(p: Pattern, s: string): (h: seq<bool>)
    ensures |h| == |s|
    ensures forall i :: 0 <= i < |s| ==> h[i] == MatchesAt(p, s, i)
  {
    seq(|s|, i requires 0 <= i < |s| => MatchesAt(p, s, i))
  }

  /** The positions `re.findall(p, s)` reports, in order. */
  function Matches(p: Pattern, s: string): (r: seq<nat>)
    ensures forall k :: 0 <= k < |r| ==> MatchesAt(p, s, r[k])
  {
    FindAll(Hits(p, s), Width(p), 0)
  }

  /** `re.findall(p, s)` is non-empty iff `p` matches somewhere, and its first entry is the leftmost match. */
  lemma MatchesFirst(p: Pattern, s: string)
    ensures |Matches(p, s)| > 0 <==> exists i :: MatchesAt(p, s, i)
    ensures |Matches(p, s)| > 0 ==> forall i :: 0 <= i < Matches(p, s)[0] ==> !MatchesAt(p, s, i)
  {
    var h := Hits(p, s);
    FindAllFirst(h, Width(p), 0);
    if exists i :: MatchesAt(p, s, i) {
      var i :| MatchesAt(p, s, i);
      MatchWithin(p, s, i);
      assert h[i];
    }
  }

  /**
   * The candidate address of a message: `None` for an AMA announcement,
   * else the first link's address with the key removed, else the first bare
   * address, else `None`.
   */
  function Extract(text: string): (r: Option<string>)
    ensures r.Some? ==> IsAddress(r.value)
    ensures r.Some? ==> exists i :: OccursAt(text, r.value, i)
  {
    var ama := Matches(AmaPattern, text);
    if |ama| > 0 then None
    else
      var links := Matches(LinkPattern, text);
      if |links| > 0 then
        LinkAddressAt(text, links[0]);
        Some(RemoveAll(text[links[0]..links[0] + LinkWidth], LinkKey))
      else
        var bare := Matches(AddressPattern, text);
        if |bare| > 0 then
          assert OccursAt(text, text[bare[0]..bare[0] + AddressWidth], bare[0]);
          Some(text[bare[0]..bare[0] + AddressWidth])
        else None
  }

  /** A link's address ends the link, sits inside the text, and removing the key leaves exactly it. */
  lemma LinkAddressAt(text: string, i: int)
    requires IsLinkAt(text, i)
    ensures IsAddressAt(text, i + |LinkKey|)
    ensures RemoveAll(text[i..i + LinkWidth], LinkKey) == text[i + |LinkKey|..i + LinkWidth]
    ensures OccursAt(text, text[i + |LinkKey|..i + LinkWidth], i + |LinkKey|)
  {
    var a := text[i + |LinkKey|..i + LinkWidth];
    assert text[i..i + LinkWidth] == LinkKey + a;
    RemoveAllLeading(LinkKey, a);
    forall j | 0 <= j && j + |LinkKey| <= |a| ensures !OccursAt(a, LinkKey, j) {
      assert a[j..j + |LinkKey|][|LinkKey| - 1] == a[j + |LinkKey| - 1];
      assert IsAsciiAlnum(a[j + |LinkKey| - 1]);
    }
  }
}

module ExtractorProperties {
  import opened Wrappers
  import opened Text
  import opened Extractor

  /** An AMA announcement yields no candidate, whatever addresses it holds. */
  lemma AmaVeto(text: string)
    requires HasAma(text)
    ensures Extract(text) == None
  {
    var i :| IsAmaAt(text, i);
    assert MatchesAt(AmaPattern, text, i);
    MatchesFirst(AmaPattern, text);
  }

  /** Two leftmost positions of the same pattern coincide. */
  lemma FirstLinkUnique(text: string, i: int, j: int)
    requires FirstLinkAt(text, i) && FirstLinkAt(text, j)
    ensures i == j
  {
  }

  /**
   * Without the veto, the candidate is the address of the first link, even
   * when a bare address appears earlier in the text.
   */
  lemma LinkWins(text: string, i: int)
    requires !HasAma(text)
    requires FirstLinkAt(text, i)
    ensures Extract(text) == Some(text[i + |LinkKey|..i + LinkWidth])
  {
    assert MatchesAt(LinkPattern, text, i);
    MatchesFirst(AmaPattern, text);
    MatchesFirst(LinkPattern, text);
    var links := Matches(LinkPattern, text);
    assert FirstLinkAt(text, links[0]);
    FirstLinkUnique(text, i, links[0]);
    LinkAddressAt(text, i);
  }

  /** Without the veto and without any link, the candidate is the leftmost bare address. */
  lemma LeftmostBareAddress(text: string, i: int)
    requires !HasAma(text) && !HasLink(text)
    requires FirstAddressAt(text, i)
    ensures Extract(text) == Some(text[i..i + AddressWidth])
  {
    assert MatchesAt(AddressPattern, text, i);
    MatchesFirst(AmaPattern, text);
    MatchesFirst(LinkPattern, text);
    MatchesFirst(AddressPattern, text);
    var bare := Matches(AddressPattern, text);
    assert FirstAddressAt(text, bare[0]);
  }

  /** Every link contains a bare address, the one after its key. */
  lemma LinkHasAddress(text: string, i: int)
    requires IsLinkAt(text, i)
    ensures IsAddressAt(text, i + |LinkKey|)
  {
  }

  /**
   * No candidate exactly when the message is an AMA announcement or holds
   * no address at all; the empty outcome starts no liquidity check.
   */
  lemma NoCandidateIff(text: string)
    ensures Extract(text).None? <==> HasAma(text) || !HasAddress(text)
  {
    MatchesFirst(AmaPattern, text);
    MatchesFirst(LinkPattern, text);
    MatchesFirst(AddressPattern, text);
    if HasAma(text) {
      AmaVeto(text);
    } else if HasLink(text) {
      var i :| IsLinkAt(text, i);
      LinkHasAddress(text, i);
      assert MatchesAt(LinkPattern, text, i);
    } else if HasAddress(text) {
      var i :| IsAddressAt(text, i);
      assert MatchesAt(AddressPattern, text, i);
    } else {
      assert !exists i :: 0 <= i && MatchesAt(LinkPattern, text, i);
      assert !exists i :: 0 <= i && MatchesAt(AddressPattern, text, i);
    }
  }
}
