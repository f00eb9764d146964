/** Concrete messages run through the extractor. */
module ExtractorScenarios {
  import opened Wrappers
  import opened Text
  import opened Extractor
  import opened ExtractorProperties

  /** An AMA announcement is ignored although it carries a well-formed address. */
  lemma AmaAnnouncementIgnored()
    ensures Extract("AMA ANNOUNCEMENT" + ": join us at 5pm, CA " + "0x1111111111111111111111111111111111111111") == None
  {
    var t := "AMA ANNOUNCEMENT" + ": join us at 5pm, CA " + "0x1111111111111111111111111111111111111111";
    forall k | 0 <= k < |AmaPhrase| ensures Lower(t[k]) == AmaPhrase[k] {
      assert t[k] == "AMA ANNOUNCEMENT"[k];
    }
    assert IsAmaAt(t, 0);
    AmaVeto(t);
  }

  /** A non-alphanumeric character at index `k` rules out an address window covering it. */
  lemma BrokenAddress(t: string, i: int, k: int)
    requires 0 <= i && i + AddressWidth <= |t|
    requires i + 2 <= k < i + AddressWidth && !IsAsciiAlnum(t[k])
    ensures !IsAddressAt(t, i)
  {
    assert t[i..i + AddressWidth][k - i] == t[k];
  }

  /**
   * A link whose address has only 39 characters after `0x` matches neither
   * pattern, so the message yields no candidate.
   */
  lemma ShortLinkIgnored()
    ensures Extract("new gem! " + "outputCurrency=" + "0xAbCdEf0123456789aBcDEF0123456789abcDEF0" + " don't miss it") == None
  {
    var t := "new gem! " + "outputCurrency=" + "0xAbCdEf0123456789aBcDEF0123456789abcDEF0" + " don't miss it";
    assert |t| == 79;
    assert t[8] == ' ' && t[22] == 'y' && t[23] == '=' && t[65] == ' ';
    forall i | 0 <= i && i + AddressWidth <= |t| ensures !IsAddressAt(t, i) {
      if i <= 6 {
        BrokenAddress(t, i, 8);
      } else if i <= 21 {
        BrokenAddress(t, i, 23);
      } else if i <= 23 {
      } else {
        BrokenAddress(t, i, 65);
      }
    }
    NoCandidateIff(t);
  }
}
