/**
 * The small conversions `parse_property` of the homely spider applies to the
 * strings it pulls from a listing page: the room counts, the land area, the
 * joined address, the map coordinates and the stripped agent fields.
 */
module HomelyFields {
  import opened Wrappers
  import opened PyStr
  import opened PyValue

  // ---------------------------------------------------------------------
  // Room counts

  /** `int(s) if s else None`, with any exception from `int` giving None. */
  function CoerceCount(s: Option<string>): (r: Option<int>)
    ensures s.None? || s == Some("") ==> r.None?
  {
    match s
    case None => None
    case Some(t) => if t == "" then None else ParseInt(t)
  }

  /** A count rendered as decimal digits, whatever whitespace surrounds it,
      is read back as that count. */
  lemma CoerceCountRoundTrip(n: int, w1: string, w2: string)
    requires AllSpaces(w1) && AllSpaces(w2)
    ensures CoerceCount(Some(w1 + DecimalString(n) + w2)) == Some(n)
  {
    ParseIntRoundTrip(n, w1, w2);
    assert |DecimalString(n)| > 0 by {
      if n < 0 { } else { NatStringValue(n); }
    }
  }

  /** Text with no digit in it, such as "Studio", gives no count. */
  lemma CoerceCountNoDigits(s: string)
    requires forall i :: 0 <= i < |s| ==> !IsDigit(s[i])
    ensures CoerceCount(Some(s)) == None
  {
    if s != "" {
      ParseIntNeedsDigit(s);
    }
  }

  // ---------------------------------------------------------------------
  // Land area

  /** The number of leading digits. */
  function DigitRun(s: string): (n: nat)
    ensures n <= |s| && AllDigits(s[..n])
    ensures n == |s| || !IsDigit(s[n])
  {
    if s == [] || !IsDigit(s[0]) then 0
    else
      var n := 1 + DigitRun(s[1..]);
      assert s[..n] == [s[0]] + s[1..][..n - 1];
      n
  }

  /** `re.findall(r'\d+', s)[0]`, if the list is not empty: the leftmost
      maximal run of digits. */
  function FirstDigitRun(s: string): (r: Option<string>)
    ensures r.Some? ==> |r.value| > 0 && AllDigits(r.value)
    ensures r.None? <==> forall i :: 0 <= i < |s| ==> !IsDigit(s[i])
  {
    if s == [] then None
    else if IsDigit(s[0]) then Some(s[..DigitRun(s)])
    else
      var r := FirstDigitRun(s[1..]);
      assert forall i :: 1 <= i < |s| ==> s[i] == s[1..][i - 1];
      r
  }

  /** After a digit-free prefix, the first run is the whole run of digits
      that follows it. */
  lemma {:induction false} FirstDigitRunOf(p: string, d: string, rest: string)
    requires forall i :: 0 <= i < |p| ==> !IsDigit(p[i])
    requires |d| > 0 && AllDigits(d)
    requires rest == [] || !IsDigit(rest[0])
    ensures FirstDigitRun(p + d + rest) == Some(d)
    decreases |p|
  {
    var s := p + d + rest;
    if p == [] {
      assert s == d + rest;
      DigitRunOf(d, rest);
    } else {
      assert s[1..] == p[1..] + d + rest;
      FirstDigitRunOf(p[1..], d, rest);
    }
  }

  lemma {:induction false} DigitRunOf(d: string, rest: string)
    requires AllDigits(d)
    requires rest == [] || !IsDigit(rest[0])
    ensures DigitRun(d + rest) == |d|
    decreases |d|
  {
    if d != [] {
      assert (d + rest)[1..] == d[1..] + rest;
      DigitRunOf(d[1..], rest);
    } else {
      assert d + rest == rest;
    }
  }

  /** The text the area is read from: the header value unless it is missing
      or empty, in which case the "Area:" line of the description. */
  function AreaText(primary: Option<string>, fallback: Option<string>): Option<string>
  {
    if primary.None? || primary == Some("") then fallback else primary
  }

  /** The `land_area` field: the first run of digits of the area text as a
      number, or 0 when there is no text or no digit in it. */
  function LandArea(primary: Option<string>, fallback: Option<string>): (r: nat)
    ensures AreaText(primary, fallback).None? ==> r == 0
    ensures AreaText(primary, fallback).Some? && FirstDigitRun(AreaText(primary, fallback).value).None? ==> r == 0
  {
    match AreaText(primary, fallback)
    case None => 0
    case Some(a) =>
      match FirstDigitRun(a)
      case None => 0
      case Some(d) => DigitsValue(d)
  }

  /** A non-empty header value is used and the fallback ignored. */
  lemma LandAreaIgnoresFallback(p: string, fb1: Option<string>, fb2: Option<string>)
    requires p != ""
    ensures LandArea(Some(p), fb1) == LandArea(Some(p), fb2)
  {
  }

  /** A missing or empty header value defers to the fallback, which is then
      read exactly as a header value would be. */
  lemma LandAreaUsesFallback(primary: Option<string>, fb: Option<string>)
    requires primary.None? || primary == Some("")
    ensures LandArea(primary, fb) == LandArea(fb, None)
  {
    if fb == Some("") {
      assert FirstDigitRun("") == None;
    }
  }

  /** The area is the number written first in the text, e.g. 650 for
      "650 m2" or "Land 650sqm". */
  lemma LandAreaValue(p: string, n: nat, rest: string, fb: Option<string>)
    requires forall i :: 0 <= i < |p| ==> !IsDigit(p[i])
    requires rest == [] || !IsDigit(rest[0])
    ensures LandArea(Some(p + NatString(n) + rest), fb) == n
  {
    NatStringValue(n);
    FirstDigitRunOf(p, NatString(n), rest);
  }

  // ---------------------------------------------------------------------
  // Address, agent fields, coordinates

  /** `x.strip() if x else None`. */
  function StripIfSet(x: Option<string>): (r: Option<string>)
    ensures x.None? || x == Some("") ==> r.None?
    ensures x.Some? && x.value != "" ==> r.Some? && |r.value| <= |x.value|
  {
    if x.None? || x.value == "" then None else Some(Strip(x.value))
  }

  /** `f"{address.strip()} {city.strip()}" if address and city else None`. */
  function FullAddress(address: Option<string>, city: Option<string>): (r: Option<string>)
    ensures r.Some? <==> StripIfSet(address).Some? && StripIfSet(city).Some?
  {
    match (StripIfSet(address), StripIfSet(city))
    case (Some(a), Some(c)) => Some(a + " " + c)
    case _ => None
  }

  /** The address joins the stripped street and suburb lines with one space. */
  lemma FullAddressPadded(w1: string, a: string, w2: string, w3: string, c: string, w4: string)
    requires AllSpaces(w1) && AllSpaces(w2) && AllSpaces(w3) && AllSpaces(w4)
    requires |a| > 0 && !IsSpace(a[0]) && !IsSpace(a[|a| - 1])
    requires |c| > 0 && !IsSpace(c[0]) && !IsSpace(c[|c| - 1])
    ensures FullAddress(Some(w1 + a + w2), Some(w3 + c + w4)) == Some(a + " " + c)
  {
    StripPadded(w1, a, w2);
    StripPadded(w3, c, w4);
  }

  /** `s.split(sep)` for a one-character separator. */
  function Split(s: string, sep: char): (r: seq<string>)
    ensures |r| >= 1
    decreases |s|
  {
    match Find(s, sep)
    case None => [s]
    case Some(k) => [s[..k]] + Split(s[k + 1..], sep)
  }

  lemma SplitOne(s: string, sep: char)
    requires NoChar(s, sep)
    ensures Split(s, sep) == [s]
  {
    assert Find(s, sep).None?;
  }

  lemma SplitAt(a: string, sep: char, b: string)
    requires NoChar(a, sep)
    ensures Split(a + [sep] + b, sep) == [a] + Split(b, sep)
  {
    var s := a + [sep] + b;
    assert s == a + ([sep] + b);
    FindAfterFree(a, [sep] + b, sep);
    assert s[..|a|] == a && s[|a| + 1..] == b;
  }

  /** A coordinate as the item stores it: `x if x else 0`. */
  function CoordinateValue(x: string): (v: Value)
    ensures Truthy(v) <==> x != ""
    ensures Truthy(v) ==> v == Str(x)
    ensures !Truthy(v) ==> v == Int(0)
  {
    if x == "" then Int(0) else Str(x)
  }

  /** Lines 227-232 and 281-282: a non-empty center is unpacked into exactly
      two parts around a comma (ValueError otherwise); an empty or missing one
      leaves `latitude` unassigned, so building the item raises
      UnboundLocalError. */
  function Coordinates(center: Option<string>): (r: Result<(Value, Value)>)
    ensures center.None? || center == Some("") ==> r == Err(UnboundLocalError("latitude"))
  {
    if center.None? || center.value == "" then Err(UnboundLocalError("latitude"))
    else
      var parts := Split(center.value, ',');
      if |parts| != 2 then Err(ValueError)
      else Ok((CoordinateValue(parts[0]), CoordinateValue(parts[1])))
  }

  /** "lat,lon" with one comma gives the two halves as the item stores
      them: each half's text, or 0 when it is empty. */
  lemma CoordinatesOfPair(lat: string, lon: string)
    requires NoChar(lat, ',') && NoChar(lon, ',')
    ensures Coordinates(Some(lat + "," + lon)).Ok?
    ensures Coordinates(Some(lat + "," + lon)).value.0 == (if lat != "" then Str(lat) else Int(0))
    ensures Coordinates(Some(lat + "," + lon)).value.1 == (if lon != "" then Str(lon) else Int(0))
  {
    SplitAt(lat, ',', lon);
    SplitOne(lon, ',');
  }

  /** A non-empty center without a comma cannot be unpacked into two. */
  lemma CoordinatesNoComma(c: string)
    requires c != "" && NoChar(c, ',')
    ensures Coordinates(Some(c)) == Err(ValueError)
  {
    SplitOne(c, ',');
  }

  /** Nor can one with two commas. */
  lemma CoordinatesTwoCommas(a: string, b: string, c: string)
    requires NoChar(a, ',') && NoChar(b, ',')
    ensures Coordinates(Some(a + "," + b + "," + c)) == Err(ValueError)
  {
    assert a + "," + b + "," + c == a + [','] + (b + [','] + c);
    SplitAt(a, ',', b + [','] + c);
    SplitAt(b, ',', c);
  }
}
