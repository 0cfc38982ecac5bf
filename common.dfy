/**
 * `extract_external_id` of realestate_scrapy/utils/common.py: the listing id
 * is the last all-digit path segment of the URL, found by the pattern
 * `/(\d+)/?$`.
 */
module CommonUtils {
  import opened Wrappers
  import opened PyStr

  /** Where the regex anchor `$` matches: at the end of the text, or just
      before a newline that ends it. */
  predicate EndAnchor(url: string, p: nat)
  {
    p == |url| || (p + 1 == |url| && url[p] == '\n')
  }

  /** The pattern `/(\d+)/?$` matches `url` starting at `i`, its group being
      `url[i + 1..j]`. */
  predicate MatchesAt(url: string, i: nat, j: nat)
  {
    && i + 1 < j <= |url|
    && url[i] == '/'
    && AllDigits(url[i + 1..j])
    && (EndAnchor(url, j) || (j < |url| && url[j] == '/' && EndAnchor(url, j + 1)))
  }

  /** Length of the longest run of digits ending the text. */
  function TrailingDigits(s: string): (n: nat)
    ensures n <= |s| && AllDigits(s[|s| - n..])
    ensures n < |s| ==> !IsDigit(s[|s| - n - 1])
  {
    if s == [] || !IsDigit(s[|s| - 1]) then 0
    else
      var n := TrailingDigits(s[..|s| - 1]) + 1;
      assert s[|s| - n..] == s[..|s| - 1][|s| - n..] + [s[|s| - 1]];
      n
  }

  /** The text without one final `c`, if it ends with one. */
  function DropFinal(s: string, c: char): (r: string)
  {
    if |s| > 0 && s[|s| - 1] == c then s[..|s| - 1] else s
  }

  /** The id the pattern captures, if it matches: strip the newline `$` may
      stand before and the optional slash, then take the trailing digits,
      which must follow a '/'. */
  function ExtractExternalId(url: string): (r: Option<string>)
    ensures r.Some? ==> |r.value| > 0 && AllDigits(r.value)
  {
    var body := DropFinal(DropFinal(url, '\n'), '/');
    var n := TrailingDigits(body);
    if 0 < n < |body| && body[|body| - n - 1] == '/' then Some(body[|body| - n..]) else None
  }

  /** A digit run preceded by a non-digit ends in exactly that many trailing digits. */
  lemma {:induction false} TrailingDigitsExact(s: string, p: nat)
    requires p < |s| && !IsDigit(s[p]) && AllDigits(s[p + 1..])
    ensures TrailingDigits(s) == |s| - p - 1
    decreases |s|
  {
    if p < |s| - 1 {
      assert s[..|s| - 1][p + 1..] == s[p + 1..|s| - 1];
      TrailingDigitsExact(s[..|s| - 1], p);
    }
  }

  /** What is left of a matched URL once the newline and the slash are
      dropped ends with the group. */
  lemma MatchBody(url: string, i: nat, j: nat)
    requires MatchesAt(url, i, j)
    ensures DropFinal(DropFinal(url, '\n'), '/') == url[..j]
  {
    assert IsDigit(url[j - 1]) by { assert url[i + 1..j][j - 1 - (i + 1)] == url[j - 1]; }
    var u1 := DropFinal(url, '\n');
    if j == |url| {
      assert u1 == url && url[..j] == url;
    } else if url[j] == '\n' {
      assert u1 == url[..j];
    } else if j + 1 == |url| {
      assert u1 == url;
    } else {
      assert u1 == url[..j + 1];
      assert u1[..j] == url[..j];
    }
  }

  /** Every match of the pattern yields the group the function returns; so the
      match, when there is one, is unique. */
  lemma ExtractExternalIdComplete(url: string, i: nat, j: nat)
    requires MatchesAt(url, i, j)
    ensures ExtractExternalId(url) == Some(url[i + 1..j])
  {
    MatchBody(url, i, j);
    var s := url[..j];
    assert s[i + 1..] == url[i + 1..j];
    TrailingDigitsExact(s, i);
  }

  /** A returned id is captured by a match of the pattern. */
  lemma ExtractExternalIdSound(url: string)
    requires ExtractExternalId(url).Some?
    ensures exists i: nat, j: nat :: MatchesAt(url, i, j) && ExtractExternalId(url).value == url[i + 1..j]
  {
    var u1 := DropFinal(url, '\n');
    var body := DropFinal(u1, '/');
    var n := TrailingDigits(body);
    var j := |body|;
    var i := j - n - 1;
    assert body == url[..j];
    assert url[i + 1..j] == body[|body| - n..];
    assert MatchesAt(url, i, j);
  }

  /** The function agrees with `re.search(r'/(\d+)/?$', url)`: it returns an
      id exactly when the pattern matches, and then the captured group. */
  lemma ExtractExternalIdIsSearch(url: string)
    ensures ExtractExternalId(url).Some? <==> exists i: nat, j: nat :: MatchesAt(url, i, j)
    ensures forall i: nat, j: nat :: MatchesAt(url, i, j) ==> ExtractExternalId(url) == Some(url[i + 1..j])
  {
    if ExtractExternalId(url).Some? {
      ExtractExternalIdSound(url);
    }
    forall i: nat, j: nat | MatchesAt(url, i, j)
      ensures ExtractExternalId(url) == Some(url[i + 1..j])
    {
      ExtractExternalIdComplete(url, i, j);
    }
  }

  predicate EndsWith(s: string, suffix: string)
  {
    |suffix| <= |s| && s[|s| - |suffix|..] == suffix
  }

  /** Where a match of the pattern sits: its group closes the URL, after a
      '/' and before at most one more '/' and the newline `$` tolerates. */
  predicate ClosesUrl(url: string, r: string)
  {
    || EndsWith(url, "/" + r) || EndsWith(url, "/" + r + "/")
    || EndsWith(url, "/" + r + "\n") || EndsWith(url, "/" + r + "/\n")
  }

  lemma MatchCloses(url: string, i: nat, j: nat)
    requires MatchesAt(url, i, j)
    ensures ClosesUrl(url, url[i + 1..j])
  {
    var r := url[i + 1..j];
    assert url[i..j] == "/" + r;
    if j == |url| {
      assert EndsWith(url, "/" + r);
    } else if j + 1 == |url| && url[j] == '\n' {
      assert url[i..] == "/" + r + "\n";
    } else if j + 1 == |url| {
      assert url[i..] == "/" + r + "/";
    } else {
      assert url[i..] == "/" + r + "/\n";
    }
  }

  /** A returned id is a non-empty digit string that closes the URL. */
  lemma ExtractExternalIdShape(url: string)
    requires ExtractExternalId(url).Some?
    ensures ClosesUrl(url, ExtractExternalId(url).value)
  {
    ExtractExternalIdSound(url);
    var i: nat, j: nat :| MatchesAt(url, i, j) && ExtractExternalId(url).value == url[i + 1..j];
    MatchCloses(url, i, j);
  }

  /** A URL whose digits are not right after a '/' has no id. */
  lemma NoIdWithoutSlash(prefix: string, letters: string, digits: string)
    requires |letters| > 0 && !IsDigit(letters[|letters| - 1]) && letters[|letters| - 1] != '/'
    requires |digits| > 0 && AllDigits(digits)
    ensures ExtractExternalId(prefix + letters + digits) == None
  {
    var url := prefix + letters + digits;
    assert DropFinal(DropFinal(url, '\n'), '/') == url;
    TrailingDigitsExact(url, |prefix| + |letters| - 1);
  }

  /** The id of a listing URL such as `.../vic-3021/11105399` is its number,
      with or without one trailing slash. */
  lemma IdOfListingUrl(prefix: string, digits: string, slash: bool)
    requires |digits| > 0 && AllDigits(digits)
    ensures ExtractExternalId(prefix + "/" + digits + (if slash then "/" else "")) == Some(digits)
  {
    var url := prefix + "/" + digits + (if slash then "/" else "");
    var i := |prefix|;
    var j := |prefix| + 1 + |digits|;
    assert url[i + 1..j] == digits;
    assert MatchesAt(url, i, j);
    ExtractExternalIdComplete(url, i, j);
  }

  lemma ExampleListingUrl()
    ensures ExtractExternalId("https://www.homely.com.au/homes/105-conrad-street-st-albans-vic-3021/11105399") == Some("11105399")
  {
    var p := "https://www.homely.com.au/homes/105-conrad-street-st-albans-vic-3021";
    assert p + "/" + "11105399" + "" == "https://www.homely.com.au/homes/105-conrad-street-st-albans-vic-3021/11105399";
    IdOfListingUrl(p, "11105399", false);
  }

  lemma ExampleTrailingSlash()
    ensures ExtractExternalId("https://www.homely.com.au/homes/x/123/") == Some("123")
  {
    IdOfListingUrl("https://www.homely.com.au/homes/x", "123", true);
    assert "https://www.homely.com.au/homes/x" + "/" + "123" + "/" == "https://www.homely.com.au/homes/x/123/";
  }

  lemma ExampleNoSlashBeforeDigits()
    ensures ExtractExternalId("https://www.homely.com.au/homes/abc123") == None
  {
    assert "https://www.homely.com.au/homes/ab" + "c" + "123" == "https://www.homely.com.au/homes/abc123";
    NoIdWithoutSlash("https://www.homely.com.au/homes/ab", "c", "123");
  }
}
