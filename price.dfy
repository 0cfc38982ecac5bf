/**
 * `HomelySpider.parse_price` (realestate_scrapy/spiders/homely.py): the
 * summary price text becomes a `(lower, upper)` pair of optional integers.
 * The two regular expressions are written out as matchers over the rest of
 * the text, the way the regex engine consumes it, backtracking included.
 */
module HomelyPrice {
  import opened Wrappers
  import opened PyStr

  /** `[\d,]` */
  predicate IsNumChar(c: char) { IsDigit(c) || c == ',' }

  predicate NumChars(g: string) { forall k :: 0 <= k < |g| ==> IsNumChar(g[k]) }

  /** Length of the longest prefix in `[\d,]` (greedy `[\d,]+`). */
  function NumRun(s: string): (n: nat)
    ensures n <= |s| && NumChars(s[..n])
    ensures n == |s| || !IsNumChar(s[n])
  {
    if s == [] || !IsNumChar(s[0]) then 0
    else
      var n := 1 + NumRun(s[1..]);
      assert s[..n] == [s[0]] + s[1..][..n - 1];
      n
  }

  /** Length of the longest whitespace prefix (greedy `\s*`). */
  function SpaceRun(s: string): (n: nat)
    ensures n <= |s|
    ensures n == |s| || !IsSpace(s[n])
  {
    if s == [] || !IsSpace(s[0]) then 0 else 1 + SpaceRun(s[1..])
  }

  /** The text after `\s*`. */
  function SkipSpaces(s: string): (r: string)
    ensures r == [] || !IsSpace(r[0])
  {
    s[SpaceRun(s)..]
  }

  /** The text after `\$?`. */
  function OptDollar(s: string): (r: string)
    ensures |r| <= |s|
  {
    if s != [] && s[0] == '$' then s[1..] else s
  }

  /** The text after `(?:-|to)` under IGNORECASE, when it matches. */
  function Joiner(s: string): (r: Option<string>)
    ensures r.Some? ==> |r.value| < |s|
  {
    if s != [] && s[0] == '-' then Some(s[1..])
    else if |s| >= 2 && (s[0] == 't' || s[0] == 'T') && (s[1] == 'o' || s[1] == 'O') then Some(s[2..])
    else None
  }

  /** `\$?([\d,]+)\s*(?:-|to)\s*\$?([\d,]+)` matched at the start of `s`: the
      two groups. Each greedy run is maximal, and giving a character back
      only puts in front of the next item a character it cannot match, so
      no backtracking alternative succeeds where this fails. */
  function RangeAt(s: string): (r: Option<(string, string)>)
    ensures r.Some? ==> |r.value.0| > 0 && |r.value.1| > 0
    ensures r.Some? ==> NumChars(r.value.0) && NumChars(r.value.1)
  {
    var a := OptDollar(s);
    var n1 := NumRun(a);
    if n1 == 0 then None
    else
      match Joiner(SkipSpaces(a[n1..]))
      case None => None
      case Some(b) =>
        var c := OptDollar(SkipSpaces(b));
        var n2 := NumRun(c);
        if n2 == 0 then None else Some((a[..n1], c[..n2]))
  }

  /** `range_pattern.search(s)`: the match at the leftmost position. */
  function RangeSearch(s: string): (r: Option<(string, string)>)
    ensures r.Some? ==> |r.value.0| > 0 && |r.value.1| > 0
    ensures r.Some? ==> NumChars(r.value.0) && NumChars(r.value.1)
  {
    match RangeAt(s)
    case Some(g) => Some(g)
    case None => if s == [] then None else RangeSearch(s[1..])
  }

  /** `\$([\d,]+)` matched at the start of `s`. */
  function SingleAt(s: string): (r: Option<string>)
    ensures r.Some? ==> |r.value| > 0 && NumChars(r.value)
  {
    if s != [] && s[0] == '$' && NumRun(s[1..]) > 0 then Some(s[1..][..NumRun(s[1..])]) else None
  }

  /** `single_pattern.search(s)`. */
  function SingleSearch(s: string): (r: Option<string>)
    ensures r.Some? ==> |r.value| > 0 && NumChars(r.value)
  {
    match SingleAt(s)
    case Some(g) => Some(g)
    case None => if s == [] then None else SingleSearch(s[1..])
  }

  /** `group.replace(',', '')`: the group's digits. */
  function GroupDigits(g: string): (d: string)
    requires NumChars(g)
    ensures AllDigits(d) && |d| <= |g|
  {
    RemoveCharDigits(g, ',');
    RemoveChar(g, ',')
  }

  /** `int(group.replace(',', '').strip())`, with ValueError as `None`:
      the number the group's digits spell, or `None` when it has none. */
  function GroupValue(g: string): (r: Option<int>)
    requires NumChars(g)
    ensures r == if GroupDigits(g) == [] then None else Some(DigitsValue(GroupDigits(g)))
  {
    var d := GroupDigits(g);
    StrippedDigits(d);
    ParseInt(Strip(d))
  }

  lemma StrippedDigits(d: string)
    requires AllDigits(d)
    ensures ParseInt(Strip(d)) == if d == [] then None else Some(DigitsValue(d))
  {
    if d != [] {
      StripPadded([], d, []);
      assert [] + d + [] == d;
      ParseIntDigits(d);
    }
  }

  /** The text the patterns are searched in: stripped, then cut at the first '$'. */
  function PriceBody(text: string): string
  {
    var t := Strip(text);
    match Find(t, '$')
    case Some(d) => t[d..]
    case None => t
  }

  /** Both groups of a range converted, or `(None, None)` when either fails. */
  function RangeValues(g1: string, g2: string): (r: (Option<int>, Option<int>))
    requires NumChars(g1) && NumChars(g2)
    ensures r.0.Some? <==> (GroupValue(g1).Some? && GroupValue(g2).Some?)
    ensures r.0.Some? ==> r == (GroupValue(g1), GroupValue(g2))
    ensures r.0.None? ==> r.1.None?
  {
    match (GroupValue(g1), GroupValue(g2))
    case (Some(lo), Some(hi)) => (Some(lo), Some(hi))
    case _ => (None, None)
  }

  /** The pattern matching on the prepared text: the range pattern first, and
      only when it does not match at all, the single-price pattern. */
  function PriceOfBody(t: string): (r: (Option<int>, Option<int>))
    ensures r.0.Some? <==> r.1.Some?
    ensures r.0.Some? ==> r.0.value >= 0 && r.1.value >= 0
  {
    match RangeSearch(t)
    case Some((g1, g2)) => RangeValues(g1, g2)
    case None =>
      match SingleSearch(t)
      case Some(g) => (GroupValue(g), GroupValue(g))
      case None => (None, None)
  }

  /** `parse_price`: `(None, None)` for a missing or empty text; a single
      price becomes both bounds; a group `int()` rejects gives `(None, None)`. */
  function ParsePrice(priceText: Option<string>): (r: (Option<int>, Option<int>))
    ensures priceText.None? || priceText == Some("") ==> r == (None, None)
    ensures r.0.Some? <==> r.1.Some?
    ensures r.0.Some? ==> r.0.value >= 0 && r.1.value >= 0
  {
    if priceText.None? || priceText.value == "" then (None, None)
    else PriceOfBody(PriceBody(priceText.value))
  }

  // ---------------------------------------------------------------------
  // The matchers on concatenations

  lemma {:induction false} NumRunOf(g: string, rest: string)
    requires NumChars(g) && (rest == [] || !IsNumChar(rest[0]))
    ensures NumRun(g + rest) == |g| && (g + rest)[..|g|] == g && (g + rest)[|g|..] == rest
    decreases |g|
  {
    if g != [] {
      assert (g + rest)[1..] == g[1..] + rest;
      NumRunOf(g[1..], rest);
    }
  }

  lemma {:induction false} SkipSpacesOf(w: string, rest: string)
    requires AllSpaces(w) && (rest == [] || !IsSpace(rest[0]))
    ensures SkipSpaces(w + rest) == rest
    decreases |w|
  {
    if w != [] {
      assert (w + rest)[1..] == w[1..] + rest;
      SkipSpacesOf(w[1..], rest);
    } else {
      assert w + rest == rest;
    }
  }

  /** The joiner the range pattern accepts: '-' or "to" in any case. */
  predicate IsJoiner(j: string)
  {
    j == "-" || (|j| == 2 && (j[0] == 't' || j[0] == 'T') && (j[1] == 'o' || j[1] == 'O'))
  }

  lemma JoinerOf(j: string, rest: string)
    requires IsJoiner(j)
    ensures Joiner(j + rest) == Some(rest)
  {
    assert (j + rest)[|j|..] == rest;
    if j != "-" {
      assert (j + rest)[1] == j[1];
    }
  }

  /** `\s*\$?([\d,]+)` over the text after the joiner. */
  lemma SecondGroupOf(w2: string, dollar: string, g2: string, rest: string)
    requires AllSpaces(w2) && (dollar == "" || dollar == "$")
    requires |g2| > 0 && NumChars(g2) && (rest == [] || !IsNumChar(rest[0]))
    ensures var c := OptDollar(SkipSpaces(w2 + (dollar + (g2 + rest))));
      NumRun(c) == |g2| && c[..|g2|] == g2
  {
    assert (dollar + (g2 + rest))[0] == if dollar == "" then g2[0] else '$';
    SkipSpacesOf(w2, dollar + (g2 + rest));
    assert OptDollar(dollar + (g2 + rest)) == g2 + rest by {
      if dollar == "" { assert dollar + (g2 + rest) == g2 + rest; }
    }
    NumRunOf(g2, rest);
  }

  /** The range pattern matches "$G1 J $G2" at its start and captures G1 and G2. */
  lemma RangeAtOf(g1: string, w1: string, j: string, w2: string, dollar: string, g2: string, rest: string)
    requires |g1| > 0 && NumChars(g1) && |g2| > 0 && NumChars(g2)
    requires AllSpaces(w1) && AllSpaces(w2) && IsJoiner(j) && (dollar == "" || dollar == "$")
    requires rest == [] || !IsNumChar(rest[0])
    ensures RangeAt("$" + (g1 + (w1 + (j + (w2 + (dollar + (g2 + rest))))))) == Some((g1, g2))
  {
    var b := w2 + (dollar + (g2 + rest));
    var x := w1 + (j + b);
    assert x[0] == if w1 == [] then j[0] else w1[0];
    NumRunOf(g1, x);
    assert ("$" + (g1 + x))[1..] == g1 + x;
    assert (j + b)[0] == j[0];
    SkipSpacesOf(w1, j + b);
    JoinerOf(j, b);
    SecondGroupOf(w2, dollar, g2, rest);
  }

  /** A text free of '-', 't' and 'T' never matches the range pattern. */
  predicate NoJoinerChar(s: string)
  {
    forall k :: 0 <= k < |s| ==> s[k] != '-' && s[k] != 't' && s[k] != 'T'
  }

  lemma NoJoinerNoRangeAt(s: string)
    requires NoJoinerChar(s)
    ensures RangeAt(s) == None
  {
    var a := OptDollar(s);
    assert NoJoinerChar(a);
    var x := a[NumRun(a)..];
    assert NoJoinerChar(x);
    var y := SkipSpaces(x);
    assert y == x[SpaceRun(x)..];
    assert NoJoinerChar(y);
    assert Joiner(y) == None;
  }

  lemma {:induction false} NoJoinerNoRange(s: string)
    requires NoJoinerChar(s)
    ensures RangeSearch(s) == None
  {
    NoJoinerNoRangeAt(s);
    if s != [] {
      NoJoinerNoRange(s[1..]);
    }
  }

  lemma {:induction false} NoDollarNoSingle(s: string)
    requires NoChar(s, '$')
    ensures SingleSearch(s) == None
  {
    if s != [] {
      NoDollarNoSingle(s[1..]);
    }
  }

  /** A range at the start of the text decides the result. */
  lemma PriceOfRange(t: string, g1: string, g2: string)
    requires RangeAt(t) == Some((g1, g2))
    ensures NumChars(g1) && NumChars(g2) && PriceOfBody(t) == RangeValues(g1, g2)
  {
  }

  /** With no range anywhere, a single price at the start decides the result. */
  lemma PriceOfSingle(t: string, g: string)
    requires RangeSearch(t) == None && SingleAt(t) == Some(g)
    ensures NumChars(g) && PriceOfBody(t) == (GroupValue(g), GroupValue(g))
  {
  }

  /** No character of `s` is in `[\d,]`. */
  predicate NoNumChar(s: string)
  {
    forall k :: 0 <= k < |s| ==> !IsNumChar(s[k])
  }

  lemma {:induction false} NoNumNoSingle(s: string)
    requires NoNumChar(s)
    ensures SingleSearch(s) == None
  {
    if s != [] {
      assert SingleAt(s) == None by {
        if |s| > 1 { assert s[1..][0] == s[1]; }
      }
      NoNumNoSingle(s[1..]);
    }
  }

  // ---------------------------------------------------------------------
  // Properties of parse_price

  lemma NoCharStrip(s: string, c: char)
    requires NoChar(s, c)
    ensures NoChar(Strip(s), c)
  {
    var l := LStrip(s);
    assert NoChar(l, c) by {
      forall k | 0 <= k < |l| ensures l[k] != c { assert l[k] == s[|s| - |l| + k]; }
    }
    var t := RStrip(l);
    forall k | 0 <= k < |t| ensures t[k] != c { assert t[k] == l[k]; }
  }

  /** A text that already starts with '$' and ends with a non-space is searched as it is. */
  lemma PriceBodyOfPrepared(t: string)
    requires |t| > 0 && t[0] == '$' && !IsSpace(t[|t| - 1])
    ensures PriceBody(t) == t
  {
    StripPadded([], t, []);
    assert [] + t + [] == t;
    FindAfterFree([], t, '$');
    assert [] + t == t;
  }

  lemma StripFromDollar(p: string, s: string)
    requires |s| > 0 && s[0] == '$'
    ensures Strip(p + s) == LStrip(p) + RStrip(s)
    ensures |RStrip(s)| > 0 && RStrip(s)[0] == '$'
  {
    LStripConcat(p, s);
    RStripConcat(LStrip(p), s);
  }

  /** Cutting at the first '$' of a stripped text `q + r` whose `q` holds none. */
  lemma PriceBodyCut(t: string, q: string, r: string)
    requires Strip(t) == q + r && NoChar(q, '$') && |r| > 0 && r[0] == '$'
    ensures PriceBody(t) == r
  {
    FindAfterFree(q, r, '$');
    assert (q + r)[|q|..] == r;
  }

  lemma NoCharLStrip(p: string, c: char)
    requires NoChar(p, c)
    ensures NoChar(LStrip(p), c)
  {
    var q := LStrip(p);
    forall k | 0 <= k < |q| ensures q[k] != c { assert q[k] == p[|p| - |q| + k]; }
  }

  /** Text in front of the first '$' plays no part: only what follows counts. */
  lemma PriceBodyDropsPrefix(p: string, s: string)
    requires NoChar(p, '$') && |s| > 0 && s[0] == '$'
    ensures PriceBody(p + s) == RStrip(s) == PriceBody(s)
  {
    StripFromDollar(p, s);
    NoCharLStrip(p, '$');
    PriceBodyCut(p + s, LStrip(p), RStrip(s));
    StripFromDollar([], s);
    assert [] + s == s;
    PriceBodyCut(s, [], RStrip(s));
  }

  /** "For Sale - $1,799,000" parses as "$1,799,000" does: everything
      before the first '$' is discarded, separators in it included. */
  lemma ParsePriceDiscardsPrefix(p: string, s: string)
    requires NoChar(p, '$') && |s| > 0 && s[0] == '$'
    ensures ParsePrice(Some(p + s)) == ParsePrice(Some(s))
  {
    PriceBodyDropsPrefix(p, s);
  }

  /** A range "$G1 - $G2" (spaces around the joiner optional, the second '$'
      optional) gives the two groups' values, or `(None, None)` when either
      group has no digit; a range is never re-read as a single price. */
  lemma ParsePriceRange(g1: string, w1: string, j: string, w2: string, dollar: string, g2: string)
    requires |g1| > 0 && NumChars(g1) && |g2| > 0 && NumChars(g2)
    requires AllSpaces(w1) && AllSpaces(w2) && IsJoiner(j) && (dollar == "" || dollar == "$")
    ensures ParsePrice(Some("$" + g1 + (w1 + j + w2 + dollar) + g2)) == RangeValues(g1, g2)
  {
    RangeTextShape(g1, w1, j, w2, dollar, g2);
    RangeAtOf(g1, w1, j, w2, dollar, g2, []);
    ParsePricePrepared("$" + g1 + (w1 + j + w2 + dollar) + g2);
  }

  /** The range text regrouped the way the matcher reads it. */
  lemma RangeTextShape(g1: string, w1: string, j: string, w2: string, dollar: string, g2: string)
    requires |g2| > 0 && IsNumChar(g2[|g2| - 1])
    ensures var t := "$" + g1 + (w1 + j + w2 + dollar) + g2;
      t == "$" + (g1 + (w1 + (j + (w2 + (dollar + (g2 + [])))))) && t[0] == '$' && IsNumChar(t[|t| - 1])
  {
    assert g2 + [] == g2;
  }

  /** A text that starts with '$' and ends in `[\d,]` goes to the matchers unchanged. */
  lemma ParsePricePrepared(t: string)
    requires |t| > 0 && t[0] == '$' && IsNumChar(t[|t| - 1])
    ensures ParsePrice(Some(t)) == PriceOfBody(t)
  {
    PriceBodyOfPrepared(t);
  }

  lemma DollarGroupNoJoiner(g: string)
    requires NumChars(g)
    ensures NoJoinerChar("$" + g)
  {
    var t := "$" + g;
    forall k | 0 <= k < |t| ensures t[k] != '-' && t[k] != 't' && t[k] != 'T' {
      if k > 0 {
        assert t[k] == g[k - 1];
      }
    }
  }

  lemma SingleAtOf(g: string)
    requires |g| > 0 && NumChars(g)
    ensures SingleAt("$" + g) == Some(g)
  {
    assert ("$" + g)[1..] == g + [];
    NumRunOf(g, []);
  }

  /** A single price "$G" gives the same value for both bounds. */
  lemma ParsePriceSingle(g: string)
    requires |g| > 0 && NumChars(g)
    ensures var v := GroupValue(g);
      ParsePrice(Some("$" + g)) == (v, v)
  {
    var t := "$" + g;
    assert t[0] == '$' && t[|t| - 1] == g[|g| - 1];
    DollarGroupNoJoiner(g);
    NoJoinerNoRange(t);
    SingleAtOf(g);
    PriceOfSingle(t, g);
    ParsePricePrepared(t);
  }

  /** Text after a price that cannot extend it: no `[\d,]` character, no
      range joiner after its leading spaces, and nothing for `strip` to
      remove at its end. */
  predicate PlainTail(rest: string)
  {
    NoNumChar(rest)
    && Joiner(SkipSpaces(rest)) == None
    && (rest == [] || !IsSpace(rest[|rest| - 1]))
  }

  lemma {:induction false} NoNumNoRange(s: string)
    requires NoNumChar(s)
    ensures RangeSearch(s) == None
  {
    if s != [] {
      var a := OptDollar(s);
      assert a == [] || !IsNumChar(a[0]);
      NoNumNoRange(s[1..]);
    }
  }

  /** No range starts inside the group `h` or in the tail after it. */
  lemma {:induction false} GroupTailNoRange(h: string, rest: string)
    requires NumChars(h) && PlainTail(rest)
    ensures RangeSearch(h + rest) == None
    decreases |h|
  {
    if h == [] {
      assert h + rest == rest;
      NoNumNoRange(rest);
    } else {
      NumRunOf(h, rest);
      assert OptDollar(h + rest) == h + rest;
      assert (h + rest)[1..] == h[1..] + rest;
      GroupTailNoRange(h[1..], rest);
    }
  }

  /** A range followed by other text, such as "$1,000 - $2,000 weekly",
      gives the two groups' values as the bare range does. */
  lemma ParsePriceRangeThenText(g1: string, w1: string, j: string, w2: string, dollar: string, g2: string, rest: string)
    requires |g1| > 0 && NumChars(g1) && |g2| > 0 && NumChars(g2)
    requires AllSpaces(w1) && AllSpaces(w2) && IsJoiner(j) && (dollar == "" || dollar == "$")
    requires rest == [] || (!IsNumChar(rest[0]) && !IsSpace(rest[|rest| - 1]))
    ensures ParsePrice(Some("$" + g1 + (w1 + j + w2 + dollar) + g2 + rest)) == RangeValues(g1, g2)
  {
    var t := "$" + g1 + (w1 + j + w2 + dollar) + g2 + rest;
    RangeThenTextShape(g1, w1, j, w2, dollar, g2, rest);
    RangeAtOf(g1, w1, j, w2, dollar, g2, rest);
    PriceOfRange(t, g1, g2);
    PriceBodyOfPrepared(t);
  }

  /** The range text with a tail regrouped the way the matcher reads it. */
  lemma RangeThenTextShape(g1: string, w1: string, j: string, w2: string, dollar: string, g2: string, rest: string)
    requires |g2| > 0 && !IsSpace(g2[|g2| - 1])
    requires rest == [] || !IsSpace(rest[|rest| - 1])
    ensures var t := "$" + g1 + (w1 + j + w2 + dollar) + g2 + rest;
      t == "$" + (g1 + (w1 + (j + (w2 + (dollar + (g2 + rest)))))) && t[0] == '$' && !IsSpace(t[|t| - 1])
  {
    var t := "$" + g1 + (w1 + j + w2 + dollar) + g2 + rest;
    assert t[|t| - 1] == if rest == [] then g2[|g2| - 1] else rest[|rest| - 1];
  }

  /** A single price followed by words, such as "$249,500 negotiable",
      gives the same value for both bounds. */
  lemma ParsePriceSingleThenText(g: string, rest: string)
    requires |g| > 0 && NumChars(g) && PlainTail(rest)
    ensures var v := GroupValue(g);
      ParsePrice(Some("$" + g + rest)) == (v, v)
  {
    var t := "$" + g + rest;
    SingleThenTextShape(g, rest);
    NumRunOf(g, rest);
    assert RangeAt(t) == None by {
      assert OptDollar(t) == g + rest;
    }
    GroupTailNoRange(g, rest);
    assert SingleAt(t) == Some(g);
    PriceOfSingle(t, g);
    PriceBodyOfPrepared(t);
  }

  /** The single price with a tail regrouped the way the matcher reads it. */
  lemma SingleThenTextShape(g: string, rest: string)
    requires |g| > 0 && NumChars(g)
    requires rest == [] || !IsSpace(rest[|rest| - 1])
    ensures var t := "$" + g + rest;
      t == "$" + (g + rest) && t[1..] == g + rest && t[0] == '$' && !IsSpace(t[|t| - 1])
  {
    var t := "$" + g + rest;
    assert IsNumChar(g[|g| - 1]);
    assert t[|t| - 1] == if rest == [] then g[|g| - 1] else rest[|rest| - 1];
  }

  /** Every natural written with thousands separators and followed by
      words reads back as itself for both bounds. */
  lemma ParsePriceGroupedThenText(n: nat, rest: string)
    requires PlainTail(rest)
    ensures ParsePrice(Some("$" + Grouped(n) + rest)) == (Some(n), Some(n))
  {
    GroupedDigits(n);
    ParsePriceSingleThenText(Grouped(n), rest);
  }

  /** "$249,500 negotiable" reads as 249500 both ways. */
  lemma ExampleNegotiable()
    ensures ParsePrice(Some("$249,500 negotiable")) == (Some(249500), Some(249500))
  {
    NegotiablePlain();
    GroupedExample();
    ParsePriceGroupedThenText(249500, " negotiable");
  }

  lemma NegotiablePlain()
    ensures PlainTail(" negotiable")
    ensures "$" + "249,500" + " negotiable" == "$249,500 negotiable"
  {
    var rest := " negotiable";
    assert SkipSpaces(rest) == rest[1..] == "negotiable";
    forall k | 0 <= k < |rest| ensures !IsNumChar(rest[k]) {
      assert rest[k] in " negotiabl";
    }
  }

  lemma GroupedExample()
    ensures Grouped(249500) == "249,500"
  {
    assert Grouped(249500) == Grouped(249) + "," + Pad3(500);
    GroupParts();
  }

  lemma GroupParts()
    ensures Grouped(249) == "249" && Pad3(500) == "500"
  {
    assert NatString(249) == NatString(24) + "9" == NatString(2) + "49" == "249";
  }

  /** A text with none of '$', '-', 't' and 'T' has no price. */
  lemma ParsePriceNoMarkers(text: string)
    requires NoChar(text, '$') && NoChar(text, '-') && NoChar(text, 't') && NoChar(text, 'T')
    ensures ParsePrice(Some(text)) == (None, None)
  {
    if text != "" {
      var t := Strip(text);
      NoCharStrip(text, '$');
      NoCharStrip(text, '-');
      NoCharStrip(text, 't');
      NoCharStrip(text, 'T');
      assert PriceBody(text) == t;
      NoJoinerNoRange(t);
      NoDollarNoSingle(t);
    }
  }

  /** Stripping and cutting at the first '$' keep a text free of `[\d,]`. */
  lemma NoNumPriceBody(text: string)
    requires NoNumChar(text)
    ensures NoNumChar(PriceBody(text))
  {
    var l := LStrip(text);
    assert NoNumChar(l) by {
      forall k | 0 <= k < |l| ensures !IsNumChar(l[k]) { assert l[k] == text[|text| - |l| + k]; }
    }
    var t := RStrip(l);
    assert NoNumChar(t) by {
      forall k | 0 <= k < |t| ensures !IsNumChar(t[k]) { assert t[k] == l[k]; }
    }
    match Find(t, '$')
    case Some(d) =>
      forall k | 0 <= k < |t[d..]| ensures !IsNumChar(t[d..][k]) { assert t[d..][k] == t[d + k]; }
    case None =>
  }

  /** A text without a digit or comma, such as "Contact Agent" or "Auction",
      has no price. */
  lemma ParsePriceNoDigits(text: string)
    requires NoNumChar(text)
    ensures ParsePrice(Some(text)) == (None, None)
  {
    if text != "" {
      NoNumPriceBody(text);
      NoNumNoRange(PriceBody(text));
      NoNumNoSingle(PriceBody(text));
    }
  }

  /** "Contact Agent" has no price, though it holds a 't'. */
  lemma ExampleContactAgent()
    ensures ParsePrice(Some("Contact Agent")) == (None, None)
  {
    var text := "Contact Agent";
    forall k | 0 <= k < |text| ensures !IsNumChar(text[k]) {
      assert text[k] in "Contact Agen";
    }
    ParsePriceNoDigits(text);
  }

  // ---------------------------------------------------------------------
  // Prices written with thousands separators

  function Pow10(k: nat): nat
  {
    if k == 0 then 1 else 10 * Pow10(k - 1)
  }

  lemma ShiftDigit(x: int, p: int, y: int, d: int)
    ensures (x * p + y) * 10 + d == x * (p * 10) + (y * 10 + d)
  {
    assert (x * p) * 10 == x * (p * 10);
  }

  /** The value of a non-empty digit string, one digit at a time from the right. */
  lemma LastDigit(s: string)
    requires |s| > 0 && AllDigits(s)
    ensures DigitsValue(s) == DigitsValue(s[..|s| - 1]) * 10 + DigitValue(s[|s| - 1])
  {
  }

  /** Reading digits after digits: the left part is worth `10^|b|` times more. */
  lemma {:induction false} DigitsValueAppend(a: string, b: string)
    requires AllDigits(a) && AllDigits(b)
    ensures AllDigits(a + b) && DigitsValue(a + b) == DigitsValue(a) * Pow10(|b|) + DigitsValue(b)
    decreases |b|
  {
    assert AllDigits(a + b);
    if b == [] {
      assert a + b == a;
    } else {
      var b' := b[..|b| - 1];
      var d := DigitValue(b[|b| - 1]);
      assert (a + b)[..|a + b| - 1] == a + b';
      assert (a + b)[|a + b| - 1] == b[|b| - 1];
      LastDigit(a + b);
      LastDigit(b);
      DigitsValueAppend(a, b');
      ShiftDigit(DigitsValue(a), Pow10(|b'|), DigitsValue(b'), d);
    }
  }

  /** Three digits, zero-padded: the `{:03}` of one thousands group. */
  function Pad3(k: nat): (s: string)
    requires k < 1000
    ensures |s| == 3 && AllDigits(s) && NoChar(s, ',') && DigitsValue(s) == k
  {
    var s := [DigitChar(k / 100), DigitChar(k / 10 % 10), DigitChar(k % 10)];
    assert s[..2] == [s[0], s[1]] && [s[0], s[1]][..1] == [s[0]] && [s[0]][..0] == [];
    assert DigitsValue([s[0]]) == k / 100;
    assert DigitsValue([s[0], s[1]]) == (k / 100) * 10 + k / 10 % 10;
    assert DigitsValue(s) == ((k / 100) * 10 + k / 10 % 10) * 10 + k % 10;
    s
  }

  /** `f"{n:,}"`: the decimal digits of `n` with a comma between each group of three. */
  function Grouped(n: nat): string
  {
    if n < 1000 then NatString(n) else Grouped(n / 1000) + "," + Pad3(n % 1000)
  }

  lemma {:induction false} RemoveCharAppend(a: string, b: string, c: char)
    ensures RemoveChar(a + b, c) == RemoveChar(a, c) + RemoveChar(b, c)
    decreases |a|
  {
    if a == [] {
      assert a + b == b;
    } else {
      assert (a + b)[1..] == a[1..] + b;
      RemoveCharAppend(a[1..], b, c);
    }
  }

  /** What `f"{n:,}"` writes is a group the price patterns capture, and its
      digits spell `n`. */
  lemma {:induction false} GroupedDigits(n: nat)
    ensures |Grouped(n)| > 0 && NumChars(Grouped(n))
    ensures GroupDigits(Grouped(n)) != [] && DigitsValue(GroupDigits(Grouped(n))) == n
    decreases n
  {
    if n < 1000 {
      NatStringValue(n);
      RemoveCharAbsent(NatString(n), ',');
    } else {
      var h := Grouped(n / 1000);
      var p := Pad3(n % 1000);
      GroupedDigits(n / 1000);
      GroupedStep(h, p);
      DigitsValueAppend(GroupDigits(h), p);
      assert Pow10(3) == 1000;
    }
  }

  /** Appending ",ddd" keeps the group's shape and appends "ddd" to its digits. */
  lemma GroupedStep(h: string, p: string)
    requires NumChars(h) && |p| == 3 && AllDigits(p)
    ensures NumChars(h + "," + p) && GroupDigits(h + "," + p) == GroupDigits(h) + p
  {
    var q := "," + p;
    assert h + "," + p == h + q;
    forall k | 0 <= k < |h + q|
      ensures IsNumChar((h + q)[k])
    {
      if k < |h| {
        assert (h + q)[k] == h[k];
      } else {
        assert (h + q)[k] == q[k - |h|];
      }
    }
    RemoveCharAppend(h, q, ',');
    assert RemoveChar(q, ',') == RemoveChar(p, ',') by {
      assert q[0] == ',' && q[1..] == p;
    }
    assert NoChar(p, ',');
    RemoveCharAbsent(p, ',');
  }

  /** For all numbers `a` and `b` and either joiner, "$a - $b" written with
      thousands separators reads back as `(a, b)`, whatever their order. */
  lemma ParsePriceGroupedRange(a: nat, j: string, b: nat)
    requires IsJoiner(j)
    ensures ParsePrice(Some("$" + Grouped(a) + (" " + j + " " + "$") + Grouped(b))) == (Some(a), Some(b))
  {
    GroupedDigits(a);
    GroupedDigits(b);
    ParsePriceRange(Grouped(a), " ", j, " ", "$", Grouped(b));
  }

  /** For every number `n` and every status text in front of the '$' ("For
      Sale - ", "For Sale "), the price reads back as `(n, n)`. */
  lemma ParsePriceGroupedSingle(p: string, n: nat)
    requires NoChar(p, '$')
    ensures ParsePrice(Some(p + "$" + Grouped(n))) == (Some(n), Some(n))
  {
    assert p + "$" + Grouped(n) == p + ("$" + Grouped(n));
    GroupedDigits(n);
    ParsePriceSingle(Grouped(n));
    ParsePriceDiscardsPrefix(p, "$" + Grouped(n));
  }

  /** A described range ("Expressions of Interest | $a - $b") reads back as `(a, b)`. */
  lemma ParsePriceGroupedDescribedRange(p: string, a: nat, j: string, b: nat)
    requires NoChar(p, '$') && IsJoiner(j)
    ensures ParsePrice(Some(p + "$" + Grouped(a) + (" " + j + " " + "$") + Grouped(b))) == (Some(a), Some(b))
  {
    var s := "$" + Grouped(a) + (" " + j + " " + "$") + Grouped(b);
    assert p + "$" + Grouped(a) + (" " + j + " " + "$") + Grouped(b) == p + s;
    ParsePriceGroupedRange(a, j, b);
    ParsePriceDiscardsPrefix(p, s);
  }

  // ---------------------------------------------------------------------
  // Edge cases

  /** A group of commas only: `int('')` fails, and a matched range does not
      fall back to the single-price pattern. */
  lemma ExampleCommasOnly()
    ensures ParsePrice(Some("$, - $5")) == (None, None)
    ensures ParsePrice(Some("$,")) == (None, None)
  {
    assert "$" + "," + (" " + "-" + " " + "$") + "5" == "$, - $5";
    assert "$" + "," == "$,";
    assert GroupDigits(",") == "";
    ParsePriceRange(",", " ", "-", " ", "$", "5");
    ParsePriceSingle(",");
  }

  /** The bounds are not ordered: "$5 - $3" gives lower 5 and upper 3. */
  lemma ExampleInvertedRange()
    ensures ParsePrice(Some("$5 - $3")) == (Some(5), Some(3))
  {
    assert Grouped(5) == "5" && Grouped(3) == "3";
    assert "$" + "5" + (" " + "-" + " " + "$") + "3" == "$5 - $3";
    ParsePriceGroupedRange(5, "-", 3);
  }
}
