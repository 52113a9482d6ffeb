/** The string operations the coordinator relies on: `String.prototype.trim`,
    `toLowerCase` (ASCII letters only), `includes`, `split` with a string
    separator, and decimal rendering of a natural number (`toString`). */
module Text {

  /** The characters `trim` removes: ECMAScript WhiteSpace (tab, vertical tab,
      form feed, BOM and every space separator) and LineTerminator. */
  predicate IsSpace(c: char) {
    c == '\t' || c == '\n' || c == '\U{000B}' || c == '\U{000C}' || c == '\r'
    || c == ' ' || c == '\U{00A0}' || c == '\U{1680}'
    || ('\U{2000}' <= c <= '\U{200A}')
    || c == '\U{2028}' || c == '\U{2029}' || c == '\U{202F}' || c == '\U{205F}'
    || c == '\U{3000}' || c == '\U{FEFF}'
  }

  predicate AllSpace(s: string) {
    forall i :: 0 <= i < |s| ==> IsSpace(s[i])
  }

  /** Length of the run of white space that starts `s`. */
  function LeadingSpaces(s: string): (n: nat)
    ensures n <= |s| && AllSpace(s[..n])
    ensures n == |s| || !IsSpace(s[n])
  {
    if |s| > 0 && IsSpace(s[0]) then
      var k := LeadingSpaces(s[1..]);
      assert s[..k + 1] == [s[0]] + s[1..][..k];
      k + 1
    else 0
  }

  /** Length of the run of white space that ends `s`. */
  function TrailingSpaces(s: string): (n: nat)
    ensures n <= |s| && AllSpace(s[|s| - n..])
    ensures n == |s| || !IsSpace(s[|s| - n - 1])
  {
    if |s| > 0 && IsSpace(s[|s| - 1]) then
      var init := s[..|s| - 1];
      var k := TrailingSpaces(init);
      assert s == init + [s[|s| - 1]];
      SliceAppend(init, s[|s| - 1], |init| - k);
      k + 1
    else 0
  }

  lemma SliceAppend(t: string, c: char, j: nat)
    requires j <= |t|
    ensures (t + [c])[j..] == t[j..] + [c]
  {
  }

  function TrimStart(s: string): (r: string)
    ensures r == [] || !IsSpace(r[0])
  {
    s[LeadingSpaces(s)..]
  }

  function TrimEnd(s: string): (r: string)
    ensures r == [] || !IsSpace(r[|r| - 1])
  {
    s[..|s| - TrailingSpaces(s)]
  }

  /** `s.trim()`: `s` with its leading and trailing white space removed. */
  function Trim(s: string): (r: string)
    ensures r == [] || (!IsSpace(r[0]) && !IsSpace(r[|r| - 1]))
  {
    TrimEnd(TrimStart(s))
  }

  /** Trim removes exactly the white-space padding: a string that neither
      starts nor ends with white space comes back unchanged from any padding. */
  predicate Unpadded(s: string) {
    s == [] || (!IsSpace(s[0]) && !IsSpace(s[|s| - 1]))
  }

  lemma {:induction false} TrimPadded(a: string, t: string, b: string)
    requires AllSpace(a) && AllSpace(b)
    requires Unpadded(t)
    ensures Trim(a + t + b) == t
  {
    if t == [] {
      assert a + t + b == a + b;
      AllSpaceConcat(a, b);
      TrimStartPadded(a + b, []);
      assert a + b + [] == a + b;
    } else {
      assert a + t + b == a + (t + b);
      TrimStartPadded(a, t + b);
      TrimEndPadded(t, b);
    }
  }

  lemma AllSpaceConcat(a: string, b: string)
    requires AllSpace(a) && AllSpace(b)
    ensures AllSpace(a + b)
  {
    assert forall i :: 0 <= i < |a + b| ==> (a + b)[i] == if i < |a| then a[i] else b[i - |a|];
  }

  lemma {:induction false} TrimStartPadded(a: string, u: string)
    requires AllSpace(a)
    requires u == [] || !IsSpace(u[0])
    ensures TrimStart(a + u) == u
  {
    if a != [] {
      assert (a + u)[1..] == a[1..] + u;
      TrimStartPadded(a[1..], u);
    } else {
      assert a + u == u;
    }
  }

  lemma {:induction false} TrimEndPadded(t: string, b: string)
    requires AllSpace(b)
    requires t == [] || !IsSpace(t[|t| - 1])
    ensures TrimEnd(t + b) == t
  {
    if b != [] {
      assert (t + b)[..|t + b| - 1] == t + b[..|b| - 1];
      TrimEndPadded(t, b[..|b| - 1]);
    } else {
      assert t + b == t;
    }
  }

  lemma TrimUnpadded(s: string)
    requires Unpadded(s)
    ensures Trim(s) == s
  {
    TrimPadded([], s, []);
    assert [] + s + [] == s;
  }

  lemma TrimIdempotent(s: string)
    ensures Trim(Trim(s)) == Trim(s)
  {
    var t := Trim(s);
    TrimPadded([], t, []);
    assert [] + t + [] == t;
  }

  function LowerChar(c: char): (r: char)
  {
    if 'A' <= c <= 'Z' then (c as int + 32) as char else c
  }

  /** `s.toLowerCase()`, restricted to the ASCII letters. */
  function Lower(s: string): (r: string)
    ensures |r| == |s|
    ensures forall i :: 0 <= i < |s| ==> r[i] == LowerChar(s[i])
  {
    if s == [] then [] else [LowerChar(s[0])] + Lower(s[1..])
  }

  lemma LowerIdempotent(s: string)
    ensures Lower(Lower(s)) == Lower(s)
  {
    assert forall i :: 0 <= i < |s| ==> Lower(Lower(s))[i] == Lower(s)[i];
  }

  /** Lower-casing never touches white space, so it commutes with trimming. */
  lemma LowerTrimCommute(s: string)
    ensures Lower(Trim(s)) == Trim(Lower(s))
  {
    LowerTrimStart(s);
    LowerTrimEnd(TrimStart(s));
  }

  lemma {:induction false} LowerTrimStart(s: string)
    ensures Lower(TrimStart(s)) == TrimStart(Lower(s))
  {
    if |s| > 0 {
      LowerCharKeepsSpace(s[0]);
      assert Lower(s)[0] == LowerChar(s[0]);
      if IsSpace(s[0]) {
        assert Lower(s)[1..] == Lower(s[1..]);
        LowerTrimStart(s[1..]);
      }
    }
  }

  lemma LowerCharKeepsSpace(c: char)
    ensures IsSpace(LowerChar(c)) <==> IsSpace(c)
  {
  }

  lemma {:induction false} LowerTrimEnd(s: string)
    ensures Lower(TrimEnd(s)) == TrimEnd(Lower(s))
  {
    if |s| > 0 {
      LowerCharKeepsSpace(s[|s| - 1]);
      assert Lower(s)[|s| - 1] == LowerChar(s[|s| - 1]);
      if IsSpace(s[|s| - 1]) {
        assert Lower(s)[..|s| - 1] == Lower(s[..|s| - 1]);
        LowerTrimEnd(s[..|s| - 1]);
      }
    }
  }

  /** `s` has `sub` at position `j`. */
  predicate OccursAt(s: string, sub: string, j: int) {
    0 <= j && j + |sub| <= |s| && s[j..j + |sub|] == sub
  }

  /** `s.indexOf(sub)`: the first position where `sub` occurs, or -1. */
  function IndexOf(s: string, sub: string): (r: int)
    ensures -1 <= r <= |s|
    ensures r >= 0 ==> OccursAt(s, sub, r)
    ensures forall j :: 0 <= j && (r < 0 || j < r) ==> !OccursAt(s, sub, j)
    decreases |s|
  {
    if |s| < |sub| then -1
    else if s[..|sub|] == sub then 0
    else
      var k := IndexOf(s[1..], sub);
      OccursShift(s, sub);
      if k < 0 then -1 else k + 1
  }

  lemma OccursShift(s: string, sub: string)
    requires |s| > 0
    ensures forall j :: 0 < j ==> (OccursAt(s, sub, j) <==> OccursAt(s[1..], sub, j - 1))
  {
    forall j | 0 < j ensures OccursAt(s, sub, j) <==> OccursAt(s[1..], sub, j - 1) {
      if j + |sub| <= |s| {
        assert s[1..][j - 1..j - 1 + |sub|] == s[j..j + |sub|];
      }
    }
  }

  /** `s.includes(sub)`. */
  predicate Contains(s: string, sub: string) {
    IndexOf(s, sub) >= 0
  }

  /** `s.split(sep)` for a non-empty string separator: the pieces between the
      non-overlapping occurrences of `sep`, found left to right. */
  function Split(s: string, sep: string): (r: seq<string>)
    requires |sep| > 0
    ensures |r| >= 1
    ensures forall k :: 0 <= k < |r| ==> !Contains(r[k], sep)
    ensures |r| > 1 <==> Contains(s, sep)
    decreases |s|
  {
    var i := IndexOf(s, sep);
    if i < 0 then [s]
    else
      PrefixHasNoOccurrence(s, sep, i);
      [s[..i]] + Split(s[i + |sep|..], sep)
  }

  lemma PrefixHasNoOccurrence(s: string, sep: string, i: int)
    requires |sep| > 0 && 0 <= i <= |s|
    requires forall j :: 0 <= j < i ==> !OccursAt(s, sep, j)
    ensures !Contains(s[..i], sep)
  {
    var k := IndexOf(s[..i], sep);
    if k >= 0 {
      assert s[..i][k..k + |sep|] == s[k..k + |sep|];
      assert OccursAt(s, sep, k);
    }
  }

  /** `parts.join(sep)`. */
  function Join(parts: seq<string>, sep: string): string
    requires |parts| >= 1
  {
    if |parts| == 1 then parts[0] else parts[0] + sep + Join(parts[1..], sep)
  }

  /** Joining the pieces of a split with the same separator restores the string. */
  lemma {:induction false} JoinSplit(s: string, sep: string)
    requires |sep| > 0
    ensures Join(Split(s, sep), sep) == s
    decreases |s|
  {
    var i := IndexOf(s, sep);
    if i >= 0 {
      var rest := s[i + |sep|..];
      JoinSplit(rest, sep);
      var parts := Split(rest, sep);
      assert Split(s, sep) == [s[..i]] + parts;
      assert ([s[..i]] + parts)[1..] == parts;
      assert s[i..i + |sep|] == sep;
      assert s == s[..i] + s[i..i + |sep|] + rest;
    }
  }

  /** With a one-character separator that no piece contains, splitting a
      join gives the pieces back. */
  lemma {:induction false} SplitJoin(parts: seq<string>, c: char)
    requires |parts| >= 1
    requires forall k :: 0 <= k < |parts| ==> c !in parts[k]
    ensures Split(Join(parts, [c]), [c]) == parts
  {
    var s := Join(parts, [c]);
    if |parts| == 1 {
      FirstCharAbsent(s, [c]);
    } else {
      var rest := Join(parts[1..], [c]);
      var a := parts[0];
      assert s == a + [c] + rest;
      assert OccursAt(s, [c], |a|) by {
        assert s[|a|..|a| + 1] == [c];
      }
      forall j | 0 <= j < |a| ensures !OccursAt(s, [c], j) {
        assert s[j..j + 1] == [a[j]];
      }
      assert IndexOf(s, [c]) == |a|;
      assert s[|a| + 1..] == rest;
      assert s[..|a|] == a;
      SplitJoin(parts[1..], c);
    }
  }

  /** A separator whose first character the left piece lacks is found right
      after that piece, so a right piece free of it ends the split there. */
  lemma SplitAtFirst(a: string, sep: string, b: string)
    requires |sep| > 0 && sep[0] !in a && !Contains(b, sep)
    ensures Split(a + sep + b, sep) == [a, b]
  {
    var s := a + sep + b;
    assert OccursAt(s, sep, |a|) by {
      assert s[|a|..|a| + |sep|] == sep;
    }
    forall j | 0 <= j < |a| ensures !OccursAt(s, sep, j) {
      if j + |sep| <= |s| {
        assert s[j..j + |sep|][0] == a[j];
      }
    }
    assert IndexOf(s, sep) == |a|;
    assert s[..|a|] == a;
    assert s[|a| + |sep|..] == b;
  }

  /** A string cannot contain a separator whose first character it lacks. */
  lemma FirstCharAbsent(s: string, sub: string)
    requires |sub| > 0 && sub[0] !in s
    ensures !Contains(s, sub)
  {
    forall j | 0 <= j < |s| ensures !OccursAt(s, sub, j) {
      if j + |sub| <= |s| {
        assert s[j..j + |sub|][0] == s[j];
      }
    }
  }

  predicate IsDigit(c: char) {
    '0' <= c <= '9'
  }

  predicate AllDigits(s: string) {
    forall i :: 0 <= i < |s| ==> IsDigit(s[i])
  }

  function DigitChar(d: nat): (c: char)
    requires d < 10
    ensures IsDigit(c)
  {
    ('0' as int + d) as char
  }

  function DigitValue(c: char): (d: nat)
    requires IsDigit(c)
    ensures d < 10
  {
    c as int - '0' as int
  }

  /** The number a string of decimal digits denotes. */
  function DigitsValue(s: string): nat
    requires AllDigits(s)
  {
    if s == [] then 0 else DigitsValue(s[..|s| - 1]) * 10 + DigitValue(s[|s| - 1])
  }

  /** `String(n)` for a natural number: its decimal digits, no leading zero. */
  function NatToString(n: nat): (r: string)
    ensures |r| >= 1 && AllDigits(r)
    ensures |r| > 1 ==> r[0] != '0'
  {
    if n < 10 then [DigitChar(n)] else NatToString(n / 10) + [DigitChar(n % 10)]
  }

  /** Reading the digits back gives the number: the rendering is faithful. */
  lemma {:induction false} NatToStringRoundTrip(n: nat)
    ensures DigitsValue(NatToString(n)) == n
  {
    if n >= 10 {
      NatToStringRoundTrip(n / 10);
      var s := NatToString(n);
      assert s[..|s| - 1] == NatToString(n / 10);
    }
  }

  lemma NatToStringInjective(m: nat, n: nat)
    requires NatToString(m) == NatToString(n)
    ensures m == n
  {
    NatToStringRoundTrip(m);
    NatToStringRoundTrip(n);
  }

  /** Length of the run of decimal digits that starts `s`. */
  function LeadingDigits(s: string): (n: nat)
    ensures n <= |s| && AllDigits(s[..n])
    ensures n == |s| || !IsDigit(s[n])
  {
    if |s| > 0 && IsDigit(s[0]) then
      var k := LeadingDigits(s[1..]);
      assert s[..k + 1] == [s[0]] + s[1..][..k];
      k + 1
    else 0
  }

  lemma AllDigitsConcat(a: string, b: string)
    requires AllDigits(a) && AllDigits(b)
    ensures AllDigits(a + b)
  {
    assert forall i :: 0 <= i < |a + b| ==> (a + b)[i] == if i < |a| then a[i] else b[i - |a|];
  }

  lemma {:induction false} LeadingDigitsAll(s: string)
    requires AllDigits(s)
    ensures LeadingDigits(s) == |s|
  {
    if |s| > 0 {
      LeadingDigitsAll(s[1..]);
    }
  }

  lemma {:induction false} LeadingDigitsPrefix(a: string, u: string)
    requires AllDigits(a)
    requires u == [] || !IsDigit(u[0])
    ensures LeadingDigits(a + u) == |a|
  {
    if |a| > 0 {
      assert (a + u)[1..] == a[1..] + u;
      LeadingDigitsPrefix(a[1..], u);
    } else {
      assert a + u == u;
    }
  }
}
