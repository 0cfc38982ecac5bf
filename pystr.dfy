/**
 * The pieces of Python's `str` and `int` behaviour the scraper relies on,
 * restricted to ASCII text: character classes as `re` and `str.isspace` see
 * them, `strip`, `find`, `in`, `replace`, decimal rendering and `int(str)`.
 */
module PyStr {
  import opened Wrappers

  // ---------------------------------------------------------------------
  // Character classes

  /** `\d` on ASCII text. */
  predicate IsDigit(c: char) { '0' <= c <= '9' }

  /** `str.isspace()` and `\s` on ASCII: tab through carriage return, the four
      information separators 0x1c-0x1f, and space. */
  predicate IsSpace(c: char) {
    var n := c as int;
    (9 <= n <= 13) || (28 <= n <= 32)
  }

  predicate IsLetter(c: char) { ('a' <= c <= 'z') || ('A' <= c <= 'Z') }

  /** `\w` on ASCII: letters, digits and underscore. */
  predicate IsWordChar(c: char) { IsLetter(c) || IsDigit(c) || c == '_' }

  predicate AllDigits(s: string) { forall i :: 0 <= i < |s| ==> IsDigit(s[i]) }

  predicate NoChar(s: string, c: char) { forall i :: 0 <= i < |s| ==> s[i] != c }

  predicate AllSpaces(s: string) { forall i :: 0 <= i < |s| ==> IsSpace(s[i]) }

  // ---------------------------------------------------------------------
  // Decimal numbers

  function DigitValue(c: char): nat
    requires IsDigit(c)
  {
    (c as int) - ('0' as int)
  }

  function DigitChar(d: nat): (c: char)
    requires d < 10
    ensures IsDigit(c) && DigitValue(c) == d
  {
    ('0' as int + d) as char
  }

  /** The number a string of decimal digits denotes (leading zeros allowed). */
  function DigitsValue(s: string): nat
    requires AllDigits(s)
  {
    if s == [] then 0 else DigitsValue(s[..|s| - 1]) * 10 + DigitValue(s[|s| - 1])
  }

  /** `str(n)` for a natural number. */
  function NatString(n: nat): (s: string)
    decreases n
  {
    if n < 10 then [DigitChar(n)] else NatString(n / 10) + [DigitChar(n % 10)]
  }

  /** `str(i)` for any integer. */
  function DecimalString(i: int): string
  {
    if i < 0 then "-" + NatString(-i) else NatString(i)
  }

  /** Rendering a number and reading it back gives the number. */
  lemma {:induction false} NatStringValue(n: nat)
    ensures |NatString(n)| > 0 && AllDigits(NatString(n))
    ensures DigitsValue(NatString(n)) == n
    decreases n
  {
    if n >= 10 {
      NatStringValue(n / 10);
      var s := NatString(n);
      assert s[..|s| - 1] == NatString(n / 10);
    }
  }

  // ---------------------------------------------------------------------
  // strip()

  function LStrip(s: string): (r: string)
    ensures |r| <= |s| && r == s[|s| - |r|..]
    ensures r == [] || !IsSpace(r[0])
    ensures AllSpaces(s[..|s| - |r|])
  {
    if s == [] || !IsSpace(s[0]) then s
    else
      var r := LStrip(s[1..]);
      assert s[..|s| - |r|] == [s[0]] + s[1..][..|s| - 1 - |r|];
      r
  }

  function RStrip(s: string): (r: string)
    ensures |r| <= |s| && r == s[..|r|]
    ensures r == [] || !IsSpace(r[|r| - 1])
    ensures AllSpaces(s[|r|..])
  {
    if s == [] || !IsSpace(s[|s| - 1]) then s else RStrip(s[..|s| - 1])
  }

  /** `str.strip()`: the input with its leading and trailing whitespace removed. */
  function Strip(s: string): (r: string)
  {
    RStrip(LStrip(s))
  }

  lemma {:induction false} LStripOfSpaces(w: string, s: string)
    requires AllSpaces(w)
    requires s == [] || !IsSpace(s[0])
    ensures LStrip(w + s) == s
    decreases |w|
  {
    if w != [] {
      assert (w + s)[1..] == w[1..] + s;
      LStripOfSpaces(w[1..], s);
    } else {
      assert w + s == s;
    }
  }

  lemma {:induction false} RStripOfSpaces(s: string, w: string)
    requires AllSpaces(w)
    requires s == [] || !IsSpace(s[|s| - 1])
    ensures RStrip(s + w) == s
    decreases |w|
  {
    if w != [] {
      assert (s + w)[..|s + w| - 1] == s + w[..|w| - 1];
      RStripOfSpaces(s, w[..|w| - 1]);
    } else {
      assert s + w == s;
    }
  }

  /** Whitespace around a stripped word is removed and nothing else is. */
  lemma StripPadded(w1: string, s: string, w2: string)
    requires AllSpaces(w1) && AllSpaces(w2)
    requires |s| > 0 && !IsSpace(s[0]) && !IsSpace(s[|s| - 1])
    ensures Strip(w1 + s + w2) == s
  {
    assert w1 + s + w2 == w1 + (s + w2);
    LStripOfSpaces(w1, s + w2);
    RStripOfSpaces(s, w2);
  }

  /** RStrip of a concatenation whose right part holds a non-space character. */
  lemma {:induction false} RStripConcat(p: string, s: string)
    requires exists i :: 0 <= i < |s| && !IsSpace(s[i])
    ensures RStrip(p + s) == p + RStrip(s)
    decreases |s|
  {
    var i :| 0 <= i < |s| && !IsSpace(s[i]);
    if IsSpace(s[|s| - 1]) {
      assert (p + s)[..|p + s| - 1] == p + s[..|s| - 1];
      assert i < |s| - 1;
      assert s[..|s| - 1][i] == s[i];
      RStripConcat(p, s[..|s| - 1]);
    }
  }

  /** LStrip of a concatenation whose right part starts with a non-space. */
  lemma {:induction false} LStripConcat(p: string, s: string)
    requires |s| > 0 && !IsSpace(s[0])
    ensures exists q :: LStrip(p + s) == q + s && q == LStrip(p)
    decreases |p|
  {
    if p == [] {
      assert p + s == s && LStrip(p) == [];
      assert LStrip(p + s) == LStrip(p) + s;
    } else if !IsSpace(p[0]) {
      assert LStrip(p + s) == LStrip(p) + s;
    } else {
      assert (p + s)[1..] == p[1..] + s;
      LStripConcat(p[1..], s);
    }
  }

  // ---------------------------------------------------------------------
  // find(), `in`, replace()

  /** `s.find(c)` as an optional index: the first position holding `c`. */
  function Find(s: string, c: char): (r: Option<nat>)
    ensures r.Some? ==> r.value < |s| && s[r.value] == c && NoChar(s[..r.value], c)
    ensures r.None? ==> NoChar(s, c)
  {
    if s == [] then None
    else if s[0] == c then Some(0)
    else match Find(s[1..], c)
      case Some(k) => (assert s[..k + 1] == [s[0]] + s[1..][..k]; Some(k + 1))
      case None => None
  }

  /** The first `c` of a text is the first one after a prefix without it. */
  lemma {:induction false} FindAfterFree(a: string, b: string, c: char)
    requires NoChar(a, c) && |b| > 0 && b[0] == c
    ensures Find(a + b, c) == Some(|a|)
    decreases |a|
  {
    if a != [] {
      assert (a + b)[1..] == a[1..] + b;
      FindAfterFree(a[1..], b, c);
    }
  }

  predicate OccursAt(s: string, pat: string, k: nat)
  {
    k + |pat| <= |s| && s[k..k + |pat|] == pat
  }

  function FindSubFrom(s: string, pat: string, i: nat): (r: Option<nat>)
    requires i <= |s|
    ensures r.Some? ==> i <= r.value && OccursAt(s, pat, r.value)
    ensures r.Some? ==> forall k: nat :: i <= k < r.value ==> !OccursAt(s, pat, k)
    ensures r.None? ==> forall k: nat :: i <= k <= |s| ==> !OccursAt(s, pat, k)
    decreases |s| - i
  {
    if OccursAt(s, pat, i) then Some(i)
    else if i == |s| then None
    else FindSubFrom(s, pat, i + 1)
  }

  /** `s.find(pat)` (and `s.index(pat)` when it succeeds): the first occurrence. */
  function FindSub(s: string, pat: string): (r: Option<nat>)
    ensures r.Some? ==> OccursAt(s, pat, r.value)
    ensures r.Some? ==> forall k: nat :: k < r.value ==> !OccursAt(s, pat, k)
    ensures r.None? ==> forall k: nat :: k <= |s| ==> !OccursAt(s, pat, k)
  {
    FindSubFrom(s, pat, 0)
  }

  /** Python's `pat in s`. */
  predicate Contains(s: string, pat: string)
  {
    FindSub(s, pat).Some?
  }

  /** `s.replace(c, "")` for one character. */
  function RemoveChar(s: string, c: char): (r: string)
    ensures |r| <= |s| && NoChar(r, c)
  {
    if s == [] then [] else (if s[0] == c then [] else [s[0]]) + RemoveChar(s[1..], c)
  }

  /** `s.replace(target, repl)`: non-overlapping occurrences, left to right. */
  function ReplaceAll(s: string, target: string, repl: string): string
    requires |target| > 0
    decreases |s|
  {
    if s == [] then []
    else if OccursAt(s, target, 0) then repl + ReplaceAll(s[|target|..], target, repl)
    else [s[0]] + ReplaceAll(s[1..], target, repl)
  }

  /** Replacing a string that does not occur changes nothing. */
  lemma {:induction false} ReplaceAllAbsent(s: string, target: string, repl: string)
    requires |target| > 0
    requires forall k: nat :: k <= |s| ==> !OccursAt(s, target, k)
    ensures ReplaceAll(s, target, repl) == s
    decreases |s|
  {
    if s != [] {
      assert !OccursAt(s, target, 0);
      forall k: nat | k <= |s[1..]|
        ensures !OccursAt(s[1..], target, k)
      {
        if OccursAt(s[1..], target, k) {
          assert s[k + 1..k + 1 + |target|] == s[1..][k..k + |target|];
          assert OccursAt(s, target, k + 1);
        }
      }
      ReplaceAllAbsent(s[1..], target, repl);
    }
  }

  // ---------------------------------------------------------------------
  // int(str)

  /** The text `int()` accepts after its sign: digits, with single underscores
      allowed between two digits. */
  predicate IntBody(b: string)
  {
    && |b| > 0 && IsDigit(b[0]) && IsDigit(b[|b| - 1])
    && (forall i :: 0 <= i < |b| ==> IsDigit(b[i]) || b[i] == '_')
    && (forall i :: 0 <= i < |b| - 1 ==> !(b[i] == '_' && b[i + 1] == '_'))
  }

  /** Removing the one non-digit character a string holds leaves only digits. */
  lemma {:induction false} RemoveCharDigits(b: string, c: char)
    requires forall i :: 0 <= i < |b| ==> IsDigit(b[i]) || b[i] == c
    ensures AllDigits(RemoveChar(b, c))
  {
    if b != [] {
      RemoveCharDigits(b[1..], c);
    }
  }

  /** The value of an `IntBody`, underscores ignored. */
  function BodyValue(b: string): Option<nat>
  {
    if IntBody(b) then
      RemoveCharDigits(b, '_');
      Some(DigitsValue(RemoveChar(b, '_')))
    else None
  }

  /** `int()` of an already stripped text: one optional sign, then a body. */
  function SignedValue(t: string): Option<int>
  {
    if t == [] then None
    else if t[0] == '-' then (match BodyValue(t[1..]) case Some(v) => Some(-(v as int)) case None => None)
    else if t[0] == '+' then (match BodyValue(t[1..]) case Some(v) => Some(v) case None => None)
    else (match BodyValue(t) case Some(v) => Some(v) case None => None)
  }

  /** Python's `int(s)` on a `str`: surrounding whitespace is ignored, one
      optional sign, then an `IntBody`; anything else raises ValueError,
      which is `None` here. */
  function ParseInt(s: string): Option<int>
  {
    SignedValue(Strip(s))
  }

  lemma RemoveCharAbsent(s: string, c: char)
    requires NoChar(s, c)
    ensures RemoveChar(s, c) == s
  {
    if s != [] {
      RemoveCharAbsent(s[1..], c);
    }
  }

  /** `int()` ignores the whitespace around an already stripped text. */
  lemma ParseIntPadded(w1: string, t: string, w2: string)
    requires AllSpaces(w1) && AllSpaces(w2)
    requires |t| > 0 && !IsSpace(t[0]) && !IsSpace(t[|t| - 1])
    ensures ParseInt(w1 + t + w2) == SignedValue(t)
  {
    StripPadded(w1, t, w2);
  }

  /** A non-empty digit string is a body whose value it denotes. */
  lemma BodyOfDigits(d: string)
    requires |d| > 0 && AllDigits(d)
    ensures BodyValue(d) == Some(DigitsValue(d))
  {
    assert IntBody(d);
    RemoveCharAbsent(d, '_');
  }

  /** A non-empty digit string is read by `int()` as the number it denotes. */
  lemma ParseIntDigits(d: string)
    requires |d| > 0 && AllDigits(d)
    ensures ParseInt(d) == Some(DigitsValue(d))
  {
    BodyOfDigits(d);
    assert SignedValue(d) == Some(DigitsValue(d));
    ParseIntPadded([], d, []);
    assert [] + d + [] == d;
  }

  /** `int(str(i)) == i`, also with whitespace around the digits. */
  lemma ParseIntRoundTrip(i: int, w1: string, w2: string)
    requires AllSpaces(w1) && AllSpaces(w2)
    ensures ParseInt(w1 + DecimalString(i) + w2) == Some(i)
  {
    var n: nat := if i < 0 then -i else i;
    var d := NatString(n);
    NatStringValue(n);
    BodyOfDigits(d);
    var s := DecimalString(i);
    if i < 0 {
      assert s[0] == '-' && s[1..] == d;
    } else {
      assert s == d;
    }
    assert SignedValue(s) == Some(i);
    assert !IsSpace(s[0]) && !IsSpace(s[|s| - 1]);
    ParseIntPadded(w1, s, w2);
  }

  /** `int()` rejects a string with no digit in it, such as one made of commas. */
  lemma ParseIntNeedsDigit(s: string)
    requires forall i :: 0 <= i < |s| ==> !IsDigit(s[i])
    ensures ParseInt(s) == None
  {
  }
}

/** `os.path.join` on POSIX paths. */
module PosixPath {
  import opened PyStr

  predicate EndsWith(s: string, suffix: string)
  {
    |suffix| <= |s| && s[|s| - |suffix|..] == suffix
  }

  /** One step of `os.path.join`: an absolute component restarts the path,
      otherwise a separator is inserted unless the path already ends in one. */
  function JoinTwo(a: string, b: string): (r: string)
    ensures EndsWith(r, b)
  {
    if |b| > 0 && b[0] == '/' then b
    else if a == [] || a[|a| - 1] == '/' then a + b
    else a + "/" + b
  }

  function Join(parts: seq<string>): string
    requires |parts| > 0
  {
    if |parts| == 1 then parts[0] else JoinTwo(Join(parts[..|parts| - 1]), parts[|parts| - 1])
  }

  /** A path component with no separator in it. */
  predicate Plain(s: string)
  {
    |s| > 0 && NoChar(s, '/')
  }

  /** Joining separator-free components puts exactly one '/' between them. */
  lemma JoinPlain4(a: string, b: string, c: string, d: string)
    requires Plain(a) && Plain(b) && Plain(c) && Plain(d)
    ensures Join([a, b, c, d]) == a + "/" + b + "/" + c + "/" + d
  {
    assert [a, b, c, d][..3] == [a, b, c];
    assert [a, b, c][..2] == [a, b];
    assert [a, b][..1] == [a];
    var ab := a + "/" + b;
    assert Join([a, b]) == ab;
    assert ab[|ab| - 1] == b[|b| - 1];
    var abc := ab + "/" + c;
    assert Join([a, b, c]) == abc;
    assert abc[|abc| - 1] == c[|c| - 1];
  }

  /** Whatever the components, the joined path ends with the last one. */
  lemma JoinEndsWithLast(parts: seq<string>)
    requires |parts| > 0
    ensures EndsWith(Join(parts), parts[|parts| - 1])
  {
  }

  /** `os.path.basename`: what follows the last separator. */
  function Basename(p: string): (r: string)
    ensures NoChar(r, '/') && EndsWith(p, r)
  {
    if p == [] || p[|p| - 1] == '/' then []
    else Basename(p[..|p| - 1]) + [p[|p| - 1]]
  }

  /** The base name of `dir/name` is `name` when `name` has no separator. */
  lemma {:induction false} BasenameOfLast(dir: string, name: string)
    requires NoChar(name, '/')
    ensures Basename(dir + "/" + name) == name
    decreases |name|
  {
    var p := dir + "/" + name;
    if name == [] {
      assert p[|p| - 1] == '/';
    } else {
      var init := name[..|name| - 1];
      assert p[..|p| - 1] == dir + "/" + init;
      BasenameOfLast(dir, init);
      assert init + [name[|name| - 1]] == name;
    }
  }
}
