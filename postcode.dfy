/**
 * `parse_postcode` of the homely spider: the first token of exactly four
 * digits, `re.search(r'\b\d{4}\b', text)`, over ASCII text.
 */
module HomelyPostcode {
  import opened Wrappers
  import opened PyStr

  /** `\b` at position `p`: a word character on exactly one side. With four
      digits on the inner side this means no word character outside. */
  predicate PostcodeAt(t: string, k: nat)
  {
    && k + 4 <= |t|
    && AllDigits(t[k..k + 4])
    && (k == 0 || !IsWordChar(t[k - 1]))
    && (k + 4 == |t| || !IsWordChar(t[k + 4]))
  }

  /** The leftmost match at or after `i`; the pattern has a fixed width, so
      the search just tries each start position in turn. */
  function PostcodeFrom(t: string, i: nat): (r: Option<nat>)
    requires i <= |t|
    ensures r.Some? ==> i <= r.value && PostcodeAt(t, r.value)
    ensures r.Some? ==> forall k: nat :: i <= k < r.value ==> !PostcodeAt(t, k)
    ensures r.None? ==> forall k: nat :: i <= k ==> !PostcodeAt(t, k)
    decreases |t| - i
  {
    if PostcodeAt(t, i) then Some(i)
    else if i + 4 >= |t| then None
    else PostcodeFrom(t, i + 1)
  }

  /** `parse_postcode`: None for a missing or empty text, otherwise the text
      of the leftmost match, if any. */
  function ParsePostcode(text: Option<string>): (r: Option<string>)
    ensures text.None? || text == Some("") ==> r.None?
    ensures r.Some? ==> |r.value| == 4 && AllDigits(r.value)
  {
    match text
    case None => None
    case Some(t) =>
      if t == "" then None
      else match PostcodeFrom(t, 0)
        case Some(k) => Some(t[k..k + 4])
        case None => None
  }

  /** The result is the text of the leftmost match: a substring of the input
      bounded by non-word characters, with no match before it. */
  lemma ParsePostcodeSound(t: string)
    requires ParsePostcode(Some(t)).Some?
    ensures exists k: nat :: PostcodeAt(t, k) && ParsePostcode(Some(t)).value == t[k..k + 4]
              && forall j: nat :: j < k ==> !PostcodeAt(t, j)
  {
    var k := PostcodeFrom(t, 0).value;
    assert PostcodeAt(t, k) && ParsePostcode(Some(t)).value == t[k..k + 4];
  }

  /** Whenever the pattern matches somewhere, a postcode is returned. */
  lemma ParsePostcodeComplete(t: string, k: nat)
    requires PostcodeAt(t, k)
    ensures ParsePostcode(Some(t)).Some?
  {
    assert t != "";
  }

  /** No four-digit token, no postcode. */
  lemma ParsePostcodeNone(t: string)
    requires forall k: nat :: !PostcodeAt(t, k)
    ensures ParsePostcode(Some(t)) == None
  {
    if t != "" {
      assert PostcodeFrom(t, 0).None?;
    }
  }

  /** A longer or shorter run of digits is not a postcode: a run of 5 digits
      has no boundary after its fourth digit. */
  lemma NoPostcodeInDigitRun(d: string)
    requires AllDigits(d) && |d| != 4
    ensures ParsePostcode(Some(d)) == None
  {
    assert forall k: nat :: !PostcodeAt(d, k);
    ParsePostcodeNone(d);
  }

  /** Four digits after a digit-free text that ends in a non-word character
      (such as "Abbotsford VIC ") are found. */
  lemma PostcodeAfterWords(p: string, d: string)
    requires forall i :: 0 <= i < |p| ==> !IsDigit(p[i])
    requires p == [] || !IsWordChar(p[|p| - 1])
    requires |d| == 4 && AllDigits(d)
    ensures ParsePostcode(Some(p + d)) == Some(d)
  {
    var t := p + d;
    assert t[|p|..|p| + 4] == d;
    assert PostcodeAt(t, |p|);
    forall k: nat | k < |p|
      ensures !PostcodeAt(t, k)
    {
      assert t[k..k + 4][0] == t[k] == p[k];
    }
    var r := PostcodeFrom(t, 0);
    assert r == Some(|p|);
  }

  lemma ExampleSuburbLine()
    ensures ParsePostcode(Some("Abbotsford VIC 3067")) == Some("3067")
  {
    PostcodeAfterWords("Abbotsford VIC ", "3067");
    assert "Abbotsford VIC " + "3067" == "Abbotsford VIC 3067";
  }
}
