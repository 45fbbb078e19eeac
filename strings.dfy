/**
 * The parts of Python's `str` behaviour that the pipeline relies on:
 * whitespace stripping, substring tests, ASCII lower-casing, `split()`,
 * `join`, slicing and decimal formatting of integers.
 */
module Strings {
  import opened Wrappers

  // ---------------------------------------------------------------------------
  // Whitespace and stripping

  /** The characters Python's `str.isspace()`, `str.strip()`, `str.split()` and `\s` treat as whitespace. */
  predicate IsSpace(c: char) {
    ('\t' <= c <= '\r') || ('\U{1C}' <= c <= '\U{1F}') || c == ' ' || c == '\U{85}' || c == '\U{A0}'
    || c == '\U{1680}' || ('\U{2000}' <= c <= '\U{200A}') || c == '\U{2028}' || c == '\U{2029}'
    || c == '\U{202F}' || c == '\U{205F}' || c == '\U{3000}'
  }

  predicate AllSpace(s: string) {
    forall i :: 0 <= i < |s| ==> IsSpace(s[i])
  }

  /** Neither the first nor the last character is whitespace. */
  predicate Stripped(s: string) {
    s == [] || (!IsSpace(s[0]) && !IsSpace(s[|s| - 1]))
  }

  /** `s.lstrip()` */
  function TrimStart(s: string): (r: string)
    ensures |r| <= |s|
    ensures r == [] || !IsSpace(r[0])
  {
    if s != [] && IsSpace(s[0]) then TrimStart(s[1..]) else s
  }

  /** What `lstrip()` leaves is a suffix of its input. */
  lemma {:induction false} TrimStartIsSuffix(s: string)
    ensures TrimStart(s) == s[|s| - |TrimStart(s)|..]
  {
    if s != [] && IsSpace(s[0]) {
      TrimStartIsSuffix(s[1..]);
      assert s[1..][|s| - 1 - |TrimStart(s)|..] == s[|s| - |TrimStart(s)|..];
    }
  }

  /** What `rstrip()` leaves is a prefix of its input. */
  lemma {:induction false} TrimEndIsPrefix(s: string)
    ensures TrimEnd(s) == s[..|TrimEnd(s)|]
  {
    if s != [] && IsSpace(s[|s| - 1]) {
      TrimEndIsPrefix(s[..|s| - 1]);
      assert s[..|s| - 1][..|TrimEnd(s)|] == s[..|TrimEnd(s)|];
    }
  }

  /** What `lstrip()` removes is whitespace. */
  lemma {:induction false} TrimStartDropsSpace(s: string)
    ensures AllSpace(s[..|s| - |TrimStart(s)|])
  {
    if s != [] && IsSpace(s[0]) {
      TrimStartDropsSpace(s[1..]);
      var k := |s| - |TrimStart(s)|;
      assert forall i :: 1 <= i < k ==> s[i] == s[1..][i - 1];
    }
  }

  /** `s.rstrip()` */
  function TrimEnd(s: string): (r: string)
    ensures |r| <= |s|
    ensures r == [] || !IsSpace(r[|r| - 1])
  {
    if s != [] && IsSpace(s[|s| - 1]) then TrimEnd(s[..|s| - 1]) else s
  }

  /** What `rstrip()` removes is whitespace. */
  lemma {:induction false} TrimEndDropsSpace(s: string)
    ensures AllSpace(s[|TrimEnd(s)|..])
  {
    if s != [] && IsSpace(s[|s| - 1]) {
      TrimEndDropsSpace(s[..|s| - 1]);
      var k := |TrimEnd(s)|;
      assert forall i :: k <= i < |s| - 1 ==> s[i] == s[..|s| - 1][i];
    }
  }

  /** `s.strip()`: the slice of `s` left once the whitespace runs at both ends are removed. */
  function Strip(s: string): (r: string)
    ensures Stripped(r) && |r| <= |s|
  {
    TrimEndIsPrefix(TrimStart(s));
    TrimEnd(TrimStart(s))
  }

  /** What `strip()` leaves is a slice of the input with only whitespace around it. */
  lemma StripIsSlice(s: string)
    ensures exists i, j :: 0 <= i <= j <= |s| && Strip(s) == s[i..j] && AllSpace(s[..i]) && AllSpace(s[j..])
  {
    var t := TrimStart(s);
    var r := TrimEnd(t);
    var i := |s| - |t|;
    var j := i + |r|;
    TrimStartDropsSpace(s);
    TrimEndDropsSpace(t);
    TrimStartIsSuffix(s);
    TrimEndIsPrefix(t);
    SliceOfSuffix(s, i, |r|);
    assert Strip(s) == s[i..j] && AllSpace(s[..i]) && AllSpace(s[j..]);
  }

  lemma SliceOfSuffix(s: string, i: nat, n: nat)
    requires i + n <= |s|
    ensures s[i..][..n] == s[i..i + n]
    ensures s[i..][n..] == s[i + n..]
  {
  }

  lemma TrimStartNoop(s: string)
    requires s == [] || !IsSpace(s[0])
    ensures TrimStart(s) == s
  {
  }

  lemma TrimEndNoop(s: string)
    requires s == [] || !IsSpace(s[|s| - 1])
    ensures TrimEnd(s) == s
  {
  }

  /** Stripping a string that has no whitespace at either end changes nothing. */
  lemma StripNoop(s: string)
    requires Stripped(s)
    ensures Strip(s) == s
  {
    TrimStartNoop(s);
    TrimEndNoop(s);
  }

  /** `strip()` is idempotent. */
  lemma StripIdempotent(s: string)
    ensures Strip(Strip(s)) == Strip(s)
  {
    StripNoop(Strip(s));
  }

  lemma {:induction false} TrimStartSpacePrefix(w: string, s: string)
    requires AllSpace(w)
    ensures TrimStart(w + s) == TrimStart(s)
  {
    if w == [] {
      assert w + s == s;
    } else {
      assert (w + s)[0] == w[0] && (w + s)[1..] == w[1..] + s;
      TrimStartSpacePrefix(w[1..], s);
    }
  }

  lemma {:induction false} TrimEndSpaceSuffix(s: string, w: string)
    requires AllSpace(w)
    ensures TrimEnd(s + w) == TrimEnd(s)
  {
    if w == [] {
      assert s + w == s;
    } else {
      assert (s + w)[|s + w| - 1] == w[|w| - 1] && (s + w)[..|s + w| - 1] == s + w[..|w| - 1];
      TrimEndSpaceSuffix(s, w[..|w| - 1]);
    }
  }

  /** Left-stripping only looks at the front: once `x` has a non-space character, `y` is untouched. */
  lemma {:induction false} TrimStartAppend(x: string, y: string)
    requires TrimStart(x) != []
    ensures TrimStart(x + y) == TrimStart(x) + y
  {
    assert x != [] && (x + y)[0] == x[0];
    if IsSpace(x[0]) {
      assert (x + y)[1..] == x[1..] + y;
      TrimStartAppend(x[1..], y);
    } else {
      assert TrimStart(x) == x;
      assert TrimStart(x + y) == x + y;
    }
  }

  /** Right-stripping only looks at the back: once `y` has a non-space character, `x` is untouched. */
  lemma {:induction false} TrimEndAppend(x: string, y: string)
    requires TrimEnd(y) != []
    ensures TrimEnd(x + y) == x + TrimEnd(y)
  {
    assert y != [] && (x + y)[|x + y| - 1] == y[|y| - 1];
    if IsSpace(y[|y| - 1]) {
      assert (x + y)[..|x + y| - 1] == x + y[..|y| - 1];
      TrimEndAppend(x, y[..|y| - 1]);
    } else {
      assert TrimEnd(y) == y;
      assert TrimEnd(x + y) == x + y;
    }
  }

  // ---------------------------------------------------------------------------
  // Prefixes, suffixes and substrings

  predicate StartsWith(s: string, p: string) {
    |p| <= |s| && s[..|p|] == p
  }

  predicate EndsWith(s: string, p: string) {
    |p| <= |s| && s[|s| - |p|..] == p
  }

  /** `sub` occurs in `s` at index `i`. */
  predicate At(s: string, sub: string, i: int) {
    0 <= i && i + |sub| <= |s| && s[i..i + |sub|] == sub
  }

  /** Python's `sub in s`. */
  predicate Contains(s: string, sub: string) {
    exists i :: 0 <= i <= |s| - |sub| && At(s, sub, i)
  }

  lemma ContainsAt(s: string, sub: string, i: int)
    requires At(s, sub, i)
    ensures Contains(s, sub)
  {
  }

  /** A string contains everything a slice of it contains. */
  lemma ContainsInSlice(s: string, a: int, b: int, sub: string)
    requires 0 <= a <= b <= |s| && Contains(s[a..b], sub)
    ensures Contains(s, sub)
  {
    var t := s[a..b];
    var i :| 0 <= i <= |t| - |sub| && At(t, sub, i);
    assert t[i..i + |sub|] == sub;
    assert forall k :: 0 <= k < |sub| ==> s[a + i..a + i + |sub|][k] == sub[k];
    assert At(s, sub, a + i);
  }

  lemma ContainsMiddle(x: string, sub: string, y: string)
    ensures Contains(x + sub + y, sub)
  {
    assert (x + sub + y)[|x|..|x| + |sub|] == sub;
    ContainsAt(x + sub + y, sub, |x|);
  }

  /** A text that lacks one of the characters of `sub` does not contain `sub`. */
  lemma MissingCharNotContained(s: string, sub: string, k: nat)
    requires k < |sub| && sub[k] !in s
    ensures !Contains(s, sub)
  {
  }

  /**
   * A text in which character `k` of `sub` can only sit at one place, and
   * not right after character `k - 1` of `sub`, does not contain `sub`.
   */
  lemma LoneCharNotContained(x: string, d: char, y: string, sub: string, k: nat)
    requires 0 < k < |sub| && sub[k] !in x && sub[k] !in y
    requires x == [] || x[|x| - 1] != sub[k - 1]
    ensures !Contains(x + [d] + y, sub)
  {
  }

  /** The first index at or after `from` where `sub` occurs (Python's `s.find(sub, from)`). */
  function IndexOf(s: string, sub: string, from: nat): (r: Option<nat>)
    decreases |s| - from
    ensures r.Some? ==> from <= r.value && At(s, sub, r.value)
    ensures r.Some? ==> forall j :: from <= j < r.value ==> !At(s, sub, j)
    ensures r.None? ==> forall j :: from <= j ==> !At(s, sub, j)
  {
    if from + |sub| > |s| then None
    else if At(s, sub, from) then Some(from)
    else IndexOf(s, sub, from + 1)
  }

  /** The last index of `c` in `s`. */
  function LastIndexOfChar(s: string, c: char): (r: Option<nat>)
    ensures r.Some? ==> r.value < |s| && s[r.value] == c
  {
    if s == [] then None
    else if s[|s| - 1] == c then Some(|s| - 1)
    else LastIndexOfChar(s[..|s| - 1], c)
  }

  /** The first index of `c` in `s`. */
  function FirstIndexOfChar(s: string, c: char): (r: Option<nat>)
    ensures r.Some? ==> r.value < |s| && s[r.value] == c
  {
    if s == [] then None
    else if s[0] == c then Some(0)
    else
      var r := FirstIndexOfChar(s[1..], c);
      if r.Some? then Some(r.value + 1) else None
  }

  /** Nothing after the last index is `c`; without one, `c` does not occur. */
  lemma {:induction false} LastIndexOfCharIsLast(s: string, c: char)
    ensures LastIndexOfChar(s, c).Some? ==> forall k :: LastIndexOfChar(s, c).value < k < |s| ==> s[k] != c
    ensures LastIndexOfChar(s, c).None? ==> forall k :: 0 <= k < |s| ==> s[k] != c
  {
    if s != [] && s[|s| - 1] != c {
      var p := s[..|s| - 1];
      LastIndexOfCharIsLast(p, c);
      assert forall k :: 0 <= k < |p| ==> p[k] == s[k];
    }
  }

  /** Nothing before the first index is `c`; without one, `c` does not occur. */
  lemma {:induction false} FirstIndexOfCharIsFirst(s: string, c: char)
    ensures FirstIndexOfChar(s, c).Some? ==> forall k :: 0 <= k < FirstIndexOfChar(s, c).value ==> s[k] != c
    ensures FirstIndexOfChar(s, c).None? ==> forall k :: 0 <= k < |s| ==> s[k] != c
  {
    if s != [] && s[0] != c {
      var p := s[1..];
      FirstIndexOfCharIsFirst(p, c);
      assert forall k :: 1 <= k < |s| ==> s[k] == p[k - 1];
    }
  }

  // ---------------------------------------------------------------------------
  // Case

  /** `c.lower()` for ASCII letters; every other character is left as it is. */
  function LowerChar(c: char): char {
    if 'A' <= c <= 'Z' then (c as int + 32) as char else c
  }

  function Lower(s: string): (r: string)
    ensures |r| == |s|
    ensures forall i :: 0 <= i < |s| ==> r[i] == LowerChar(s[i])
  {
    if s == [] then [] else [LowerChar(s[0])] + Lower(s[1..])
  }

  lemma LowerAppend(a: string, b: string)
    ensures Lower(a + b) == Lower(a) + Lower(b)
  {
    assert forall i :: 0 <= i < |a + b| ==> Lower(a + b)[i] == (Lower(a) + Lower(b))[i];
  }

  /** A string with no upper-case ASCII letter is its own lower-case form. */
  lemma LowerNoop(s: string)
    requires forall i :: 0 <= i < |s| ==> !('A' <= s[i] <= 'Z')
    ensures Lower(s) == s
  {
  }

  /** A lower-case letter occurs in the lower-cased text only where it or its capital occurred. */
  lemma LowerLacksLetter(s: string, c: char)
    requires 'a' <= c <= 'z' && c !in s && (c as int - 32) as char !in s
    ensures c !in Lower(s)
  {
  }

  /** If the lower-cased text contains `sub`, then so does the lower-cased text with more around it. */
  lemma LowerContainsWithin(x: string, m: string, y: string, sub: string)
    requires Contains(Lower(m), sub)
    ensures Contains(Lower(x + m + y), sub)
  {
    LowerAppend(x + m, y);
    LowerAppend(x, m);
    var i :| 0 <= i <= |Lower(m)| - |sub| && At(Lower(m), sub, i);
    AtShift(Lower(x), Lower(m), Lower(y), sub, i);
    ContainsAt(Lower(x + m + y), sub, |x| + i);
  }

  /** An occurrence inside `m` is an occurrence inside `x + m + y`, shifted by `|x|`. */
  lemma AtShift(x: string, m: string, y: string, sub: string, i: int)
    requires At(m, sub, i)
    ensures At(x + m + y, sub, |x| + i)
  {
    var big := x + m + y;
    assert forall j :: |x| + i <= j < |x| + i + |sub| ==> big[j] == m[j - |x|];
    assert forall k :: 0 <= k < |sub| ==> big[|x| + i..|x| + i + |sub|][k] == sub[k];
  }

  // ---------------------------------------------------------------------------
  // Character classes

  predicate IsAsciiLetterOrDigit(c: char) {
    ('a' <= c <= 'z') || ('A' <= c <= 'Z') || ('0' <= c <= '9')
  }

  /** Python's `s.isalnum()`, restricted to ASCII letters and digits: non-empty and every character alphanumeric. */
  predicate IsAlnum(s: string) {
    |s| > 0 && forall i :: 0 <= i < |s| ==> IsAsciiLetterOrDigit(s[i])
  }

  // ---------------------------------------------------------------------------
  // split() and join

  /** The longest prefix of `t` that holds no whitespace. */
  function WordPrefix(t: string): (w: string)
    ensures |w| <= |t| && w == t[..|w|]
    ensures forall i :: 0 <= i < |w| ==> !IsSpace(w[i])
    ensures |w| == |t| || IsSpace(t[|w|])
    ensures t != [] && !IsSpace(t[0]) ==> |w| >= 1
  {
    if t == [] || IsSpace(t[0]) then [] else [t[0]] + WordPrefix(t[1..])
  }

  /** Python's `s.split()` with no separator: the maximal runs of non-whitespace, in order. */
  function Words(s: string): seq<string>
    decreases |s|
  {
    var t := TrimStart(s);
    if t == [] then []
    else
      var w := WordPrefix(t);
      assert |t[|w|..]| < |s|;
      [w] + Words(t[|w|..])
  }

  /** A non-empty run of non-whitespace. */
  predicate IsWord(w: string) {
    w != [] && forall i :: 0 <= i < |w| ==> !IsSpace(w[i])
  }

  /** Every entry of `s.split()` is a word. */
  lemma {:induction false} WordsAreWords(s: string)
    ensures forall k :: 0 <= k < |Words(s)| ==> IsWord(Words(s)[k])
    decreases |s|
  {
    var t := TrimStart(s);
    if t != [] {
      var w := WordPrefix(t);
      WordsAreWords(t[|w|..]);
      assert Words(s) == [w] + Words(t[|w|..]);
    }
  }

  lemma {:induction false} WordPrefixOfWord(w: string, rest: string)
    requires IsWord(w) && (rest == [] || IsSpace(rest[0]))
    ensures WordPrefix(w + rest) == w
  {
    assert (w + rest)[0] == w[0];
    assert (w + rest)[1..] == w[1..] + rest;
    if |w| > 1 {
      WordPrefixOfWord(w[1..], rest);
    } else {
      assert w[1..] + rest == rest;
    }
  }

  lemma WordsOfWord(w: string)
    requires IsWord(w)
    ensures Words(w) == [w]
  {
    TrimStartNoop(w);
    WordPrefixOfWord(w, []);
    assert w + [] == w;
  }

  lemma WordsSkipSpace(c: char, r: string)
    requires IsSpace(c)
    ensures Words([c] + r) == Words(r)
  {
    assert ([c] + r)[1..] == r;
    assert TrimStart([c] + r) == TrimStart(r);
  }

  /** Splitting words joined by single spaces gives the words back. */
  lemma {:induction false} WordsOfJoin(ws: seq<string>)
    requires forall k :: 0 <= k < |ws| ==> IsWord(ws[k])
    ensures Words(Join(" ", ws)) == ws
    decreases |ws|
  {
    if |ws| == 1 {
      WordsOfWord(ws[0]);
    } else if |ws| > 1 {
      var w := ws[0];
      var r := Join(" ", ws[1..]);
      var t := w + (" " + r);
      assert Join(" ", ws) == t;
      WordsOfJoin(ws[1..]);
      assert t[0] == w[0];
      TrimStartNoop(t);
      WordPrefixOfWord(w, " " + r);
      assert t[|w|..] == [' '] + r;
      WordsSkipSpace(' ', r);
      assert [w] + ws[1..] == ws;
    }
  }

  /** `sep.join(xs)` */
  function Join(sep: string, xs: seq<string>): string {
    if |xs| == 0 then ""
    else if |xs| == 1 then xs[0]
    else xs[0] + sep + Join(sep, xs[1..])
  }

  /** Python's `s.split(c)` for a one-character separator. */
  function SplitOn(s: string, c: char): (parts: seq<string>)
    ensures |parts| >= 1
  {
    if s == [] then [""]
    else if s[0] == c then [""] + SplitOn(s[1..], c)
    else
      var rest := SplitOn(s[1..], c);
      [[s[0]] + rest[0]] + rest[1..]
  }

  lemma {:induction false} SplitOnPlain(x: string, c: char)
    requires c !in x
    ensures SplitOn(x, c) == [x]
  {
    if x != [] {
      SplitOnPlain(x[1..], c);
      assert [x[0]] + x[1..] == x;
    }
  }

  lemma {:induction false} SplitOnSeparated(x: string, c: char, rest: string)
    requires c !in x
    ensures SplitOn(x + [c] + rest, c) == [x] + SplitOn(rest, c)
  {
    if x == [] {
      assert x + [c] + rest == [c] + rest;
      assert ([c] + rest)[1..] == rest;
    } else {
      assert (x + [c] + rest)[1..] == x[1..] + [c] + rest;
      SplitOnSeparated(x[1..], c, rest);
      assert [x[0]] + x[1..] == x;
    }
  }

  /**
   * Joining lines with a separator character and splitting on it again gives
   * the lines back, provided no line holds the separator.
   */
  lemma {:induction false} SplitJoinRoundTrip(xs: seq<string>, c: char)
    requires |xs| > 0
    requires forall k :: 0 <= k < |xs| ==> c !in xs[k]
    ensures SplitOn(Join([c], xs), c) == xs
  {
    if |xs| == 1 {
      SplitOnPlain(xs[0], c);
    } else {
      SplitJoinRoundTrip(xs[1..], c);
      SplitOnSeparated(xs[0], c, Join([c], xs[1..]));
      assert [xs[0]] + xs[1..] == xs;
    }
  }

  // ---------------------------------------------------------------------------
  // Slicing with Python's rules for negative bounds

  function Min(a: int, b: int): int { if a <= b then a else b }
  function Max(a: int, b: int): int { if a >= b then a else b }

  /** The index a Python slice bound `n` stands for in a sequence of length `len`. */
  function SliceBound(len: nat, n: int): (k: nat)
    ensures k <= len
  {
    if n >= 0 then Min(n, len) else Max(len + n, 0)
  }

  /** `xs[:n]` */
  function PyTake<T>(xs: seq<T>, n: int): seq<T> {
    xs[..SliceBound(|xs|, n)]
  }

  /** `xs[a:b]`: empty when the upper bound falls before the lower one. */
  function PySlice<T>(xs: seq<T>, a: int, b: int): seq<T> {
    var i := SliceBound(|xs|, a);
    var j := SliceBound(|xs|, b);
    if i <= j then xs[i..j] else []
  }

  /** `xs[n:]` */
  function PyDrop<T>(xs: seq<T>, n: int): seq<T> {
    xs[SliceBound(|xs|, n)..]
  }

  /** For a bound that is not negative, `xs[:n]` is the prefix of length `min(n, len(xs))`. */
  lemma PyTakeNonNegative<T>(xs: seq<T>, n: int)
    requires n >= 0
    ensures |PyTake(xs, n)| == Min(n, |xs|)
    ensures forall k :: 0 <= k < |PyTake(xs, n)| ==> PyTake(xs, n)[k] == xs[k]
  {
  }

  // ---------------------------------------------------------------------------
  // Decimal formatting

  function DigitChar(d: nat): (c: char)
    requires d < 10
    ensures '0' <= c <= '9'
  {
    ('0' as int + d) as char
  }

  function DigitValue(c: char): nat {
    if '0' <= c <= '9' then c as int - '0' as int else 0
  }

  predicate AllDigits(s: string) {
    forall i :: 0 <= i < |s| ==> '0' <= s[i] <= '9'
  }

  /** `str(n)` for a natural number. */
  function NatToString(n: nat): (s: string)
    ensures |s| >= 1 && AllDigits(s)
    ensures n >= 10 ==> |s| >= 2
    ensures |s| > 1 ==> s[0] != '0'
  {
    if n < 10 then [DigitChar(n)] else NatToString(n / 10) + [DigitChar(n % 10)]
  }

  /** The number a string of decimal digits denotes. */
  function ParseNat(s: string): nat {
    if s == [] then 0 else 10 * ParseNat(s[..|s| - 1]) + DigitValue(s[|s| - 1])
  }

  /** Reading back the decimal form of a number gives the number. */
  lemma {:induction false} ParseNatToString(n: nat)
    ensures ParseNat(NatToString(n)) == n
  {
    var d := DigitChar(n % 10);
    assert DigitValue(d) == n % 10;
    if n >= 10 {
      ParseNatToString(n / 10);
      var s := NatToString(n);
      assert s == NatToString(n / 10) + [d];
      assert s[..|s| - 1] == NatToString(n / 10);
      assert s[|s| - 1] == d;
    }
  }

  lemma NatToStringInjective(a: nat, b: nat)
    requires NatToString(a) == NatToString(b)
    ensures a == b
  {
    ParseNatToString(a);
    ParseNatToString(b);
  }

  /** `str(i)` for any integer. */
  function IntToString(i: int): (s: string)
    ensures |s| >= 1
  {
    if i < 0 then "-" + NatToString(-i) else NatToString(i)
  }

  /** The decimal form starts with a minus sign exactly for negative numbers. */
  lemma IntToStringSign(i: int)
    ensures IntToString(i)[0] == '-' <==> i < 0
  {
    if i >= 0 {
      assert '0' <= NatToString(i)[0] <= '9';
    }
  }

  lemma IntToStringInjective(a: int, b: int)
    requires IntToString(a) == IntToString(b)
    ensures a == b
  {
    IntToStringSign(a);
    IntToStringSign(b);
    if a < 0 {
      assert NatToString(-a) == IntToString(a)[1..];
      assert NatToString(-b) == IntToString(b)[1..];
      NatToStringInjective(-a, -b);
    } else {
      NatToStringInjective(a, b);
    }
  }
}
