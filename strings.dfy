/** The part of Python's `str` behaviour that the translation pipeline relies on:
    whitespace, stripping, searching, splitting and joining, lower-casing, line splitting,
    and the code-point order that `sorted()` uses on strings. */
module Strings {

  // ---------------------------------------------------------------- characters

  /** Python's `str.isspace()`, which is also what `\s` matches in a `str` regular expression. */
  predicate IsSpace(c: char) {
    var n := c as int;
    (9 <= n <= 13) || (28 <= n <= 32) || n == 0x85 || n == 0xA0 || n == 0x1680
    || (0x2000 <= n <= 0x200A) || n == 0x2028 || n == 0x2029 || n == 0x202F
    || n == 0x205F || n == 0x3000
  }

  /** Characters at which Python's `str.splitlines()` ends a line. */
  predicate IsLineBreak(c: char) {
    var n := c as int;
    (10 <= n <= 13) || (28 <= n <= 30) || n == 0x85 || n == 0x2028 || n == 0x2029
  }

  /** `str.isalnum()` on ASCII, Latin-1, Latin Extended-A and -B, Cyrillic and the CJK
      unified ideographs. */
  predicate IsAlnum(c: char) {
    ('a' <= c <= 'z') || ('A' <= c <= 'Z') || ('0' <= c <= '9')
    || c == '\U{00AA}' || c == '\U{00B2}' || c == '\U{00B3}' || c == '\U{00B5}'
    || c == '\U{00B9}' || c == '\U{00BA}' || ('\U{00BC}' <= c <= '\U{00BE}')
    || ('\U{00C0}' <= c <= '\U{024F}' && c != '\U{00D7}' && c != '\U{00F7}')
    || ('\U{0400}' <= c <= '\U{0481}') || ('\U{048A}' <= c <= '\U{04FF}')
    || ('\U{4E00}' <= c <= '\U{9FFF}')
  }

  /** A capital of Latin Extended-A that `str.lower()` maps to the next code point: the
      even ones of three runs and the odd ones of two. */
  predicate PairedCapital(c: char) {
    var n := c as int;
    ((0x100 <= n <= 0x12F || 0x132 <= n <= 0x137 || 0x14A <= n <= 0x177) && n % 2 == 0)
    || ((0x139 <= n <= 0x148 || 0x179 <= n <= 0x17E) && n % 2 == 1)
  }

  /** `str.lower()` on one character, for the capitals of ASCII, Latin-1, Latin Extended-A
      (except the dotted `I`, which lowers to two characters) and the basic Cyrillic block. */
  function LowerChar(c: char): char {
    if 'A' <= c <= 'Z' then (c as int + 32) as char
    else if '\U{00C0}' <= c <= '\U{00DE}' && c != '\U{00D7}' then (c as int + 32) as char
    else if PairedCapital(c) then (c as int + 1) as char
    else if c == '\U{0178}' then '\U{00FF}'
    else if '\U{0410}' <= c <= '\U{042F}' then (c as int + 32) as char
    else if '\U{0400}' <= c <= '\U{040F}' then (c as int + 80) as char
    else c
  }

  /** `s.lower()`: lower-casing keeps every position. */
  function Lower(s: string): (r: string)
    ensures |r| == |s|
    ensures forall i :: 0 <= i < |s| ==> r[i] == LowerChar(s[i])
  {
    seq(|s|, i requires 0 <= i < |s| => LowerChar(s[i]))
  }

  // ---------------------------------------------------------------- stripping

  predicate IsBlank(s: string) {
    forall i :: 0 <= i < |s| ==> IsSpace(s[i])
  }

  /** One leading space taken off: the facts about the rest carry over to `s`. */
  lemma LStripStep(s: string, r: string)
    requires |s| > 0 && IsSpace(s[0])
    requires |r| <= |s| - 1 && r == s[1..][|s| - 1 - |r|..] && IsBlank(s[1..][..|s| - 1 - |r|])
    ensures r == s[|s| - |r|..] && IsBlank(s[..|s| - |r|])
  {
    var k := |s| - |r|;
    forall i | 0 <= i < k
      ensures IsSpace(s[..k][i])
    {
      if i > 0 {
        assert s[..k][i] == s[1..][..k - 1][i - 1];
      }
    }
  }

  /** One trailing space taken off. */
  lemma RStripStep(s: string, r: string)
    requires |s| > 0 && IsSpace(s[|s| - 1])
    requires |r| <= |s| - 1 && r == s[..|s| - 1][..|r|] && IsBlank(s[..|s| - 1][|r|..])
    ensures r == s[..|r|] && IsBlank(s[|r|..])
  {
    var k := |r|;
    forall i | 0 <= i < |s| - k
      ensures IsSpace(s[k..][i])
    {
      if i < |s| - 1 - k {
        assert s[k..][i] == s[..|s| - 1][k..][i];
      }
    }
  }

  function LStrip(s: string): (r: string)
    ensures |r| <= |s| && r == s[|s| - |r|..]
    ensures r == [] || !IsSpace(r[0])
    ensures IsBlank(s[..|s| - |r|])
  {
    if |s| > 0 && IsSpace(s[0]) then
      var r := LStrip(s[1..]);
      LStripStep(s, r);
      r
    else s
  }

  function RStrip(s: string): (r: string)
    ensures |r| <= |s| && r == s[..|r|]
    ensures r == [] || !IsSpace(r[|r| - 1])
    ensures IsBlank(s[|r|..])
  {
    if |s| > 0 && IsSpace(s[|s| - 1]) then
      var r := RStrip(s[..|s| - 1]);
      RStripStep(s, r);
      r
    else s
  }

  /** `s.strip()`: the result neither starts nor ends with whitespace. */
  function Strip(s: string): (r: string)
    ensures |r| <= |s|
    ensures r == [] || (!IsSpace(r[0]) && !IsSpace(r[|r| - 1]))
  {
    RStrip(LStrip(s))
  }

  lemma StripIdempotent(s: string)
    ensures Strip(Strip(s)) == Strip(s)
  {
  }

  lemma {:induction false} LStripBlankPrefix(w: string, s: string)
    requires IsBlank(w)
    ensures LStrip(w + s) == LStrip(s)
  {
    if w != [] {
      assert IsSpace(w[0]);
      assert IsBlank(w[1..]);
      calc {
        LStrip(w + s);
        { assert (w + s)[0] == w[0]; }
        LStrip((w + s)[1..]);
        { assert (w + s)[1..] == w[1..] + s; }
        LStrip(w[1..] + s);
        { LStripBlankPrefix(w[1..], s); }
        LStrip(s);
      }
    } else {
      assert w + s == s;
    }
  }

  /** Leading whitespace never survives `strip()`. */
  lemma StripBlankPrefix(w: string, s: string)
    requires IsBlank(w)
    ensures Strip(w + s) == Strip(s)
  {
    LStripBlankPrefix(w, s);
  }

  /** `s.strip() == ''` exactly when `s` is all whitespace. */
  lemma StripEmptyIffBlank(s: string)
    ensures Strip(s) == [] <==> IsBlank(s)
  {
    var l := LStrip(s);
    if Strip(s) == [] {
      assert RStrip(l) == [];
      assert l[0..] == l;
      assert IsBlank(l);
      assert l == [];
      assert s[..|s|] == s;
    }
    if IsBlank(s) {
      LStripOfBlank(s);
    }
  }

  lemma {:induction false} LStripOfBlank(s: string)
    requires IsBlank(s)
    ensures LStrip(s) == []
  {
    if s != [] {
      assert IsBlank(s[1..]);
      LStripOfBlank(s[1..]);
    }
  }

  /** Trailing whitespace never survives `rstrip()`. */
  lemma {:induction false} RStripBlankSuffix(s: string, w: string)
    requires IsBlank(w)
    ensures RStrip(s + w) == RStrip(s)
    decreases |w|
  {
    if w != [] {
      var w' := w[..|w| - 1];
      assert IsBlank(w');
      assert (s + w)[..|s + w| - 1] == s + w';
      assert (s + w)[|s + w| - 1] == w[|w| - 1];
      RStripBlankSuffix(s, w');
    } else {
      assert s + w == s;
    }
  }

  /** `s.strip() == ''`, decided one character at a time. */
  predicate BlankLine(s: string)
    decreases |s|
  {
    s == [] || (IsSpace(s[0]) && BlankLine(s[1..]))
  }

  lemma {:induction false} BlankLineIsBlank(s: string)
    ensures BlankLine(s) <==> IsBlank(s)
    decreases |s|
  {
    if s != [] {
      BlankLineIsBlank(s[1..]);
      assert IsBlank(s) <==> IsSpace(s[0]) && IsBlank(s[1..]) by {
        if IsSpace(s[0]) && IsBlank(s[1..]) {
          forall i | 0 <= i < |s| ensures IsSpace(s[i]) {
            if i > 0 { assert s[i] == s[1..][i - 1]; }
          }
        }
      }
    }
  }

  /** A line is blank exactly when stripping it leaves nothing. */
  lemma BlankLineIffStripEmpty(s: string)
    ensures BlankLine(s) <==> Strip(s) == []
  {
    BlankLineIsBlank(s);
    StripEmptyIffBlank(s);
  }

  /** A string that starts with a non-space character keeps that character first after `strip()`. */
  lemma StripKeepsFirst(s: string)
    requires |s| > 0 && !IsSpace(s[0])
    ensures Strip(s) != [] && Strip(s)[0] == s[0]
    ensures LStrip(s) == s
  {
  }

  /** `s.strip(chars)` for an explicit set of characters. */
  function StripSet(s: string, cs: set<char>): (r: string)
    ensures |r| <= |s|
    ensures r == [] || (r[0] !in cs && r[|r| - 1] !in cs)
    decreases |s|
  {
    if |s| > 0 && s[0] in cs then StripSet(s[1..], cs)
    else if |s| > 0 && s[|s| - 1] in cs then StripSet(s[..|s| - 1], cs)
    else s
  }

  // ---------------------------------------------------------------- prefixes and searching

  predicate StartsWith(s: string, p: string) {
    |p| <= |s| && s[..|p|] == p
  }

  predicate EndsWith(s: string, p: string) {
    |p| <= |s| && s[|s| - |p|..] == p
  }

  /** `p` occurs in `s` at index `j`. */
  predicate OccursAt(s: string, p: string, j: int) {
    0 <= j && j + |p| <= |s| && s[j..j + |p|] == p
  }

  /** Python's `p in s`. */
  predicate Contains(s: string, p: string) {
    exists j | 0 <= j <= |s| :: OccursAt(s, p, j)
  }

  lemma ContainsWithin(a: string, s: string, b: string, p: string)
    requires Contains(s, p)
    ensures Contains(a + s + b, p)
  {
    var j :| 0 <= j <= |s| && OccursAt(s, p, j);
    assert 0 <= j && j + |p| <= |s| && s[j..j + |p|] == p;
    assert (a + s + b)[|a| + j..|a| + j + |p|] == s[j..j + |p|];
    assert OccursAt(a + s + b, p, |a| + j);
  }

  lemma ContainsSelf(a: string, p: string, b: string)
    ensures Contains(a + p + b, p)
  {
    assert (a + p + b)[|a|..|a| + |p|] == p;
    assert OccursAt(a + p + b, p, |a|);
  }

  /** `a + m + b` opens with `a`, closes with `b` and holds `m`. */
  lemma Enclosed(a: string, m: string, b: string)
    ensures StartsWith(a + m + b, a) && EndsWith(a + m + b, b) && Contains(a + m + b, m)
  {
    var s := a + m + b;
    assert s[..|a|] == a;
    assert s[|s| - |b|..] == b;
    ContainsSelf(a, m, b);
  }

  /** Concatenation regroups freely. */
  lemma AppendAssociative(a: string, b: string, c: string)
    ensures a + (b + c) == a + b + c
  {
  }

  lemma ContainsSecond(a: string, p: string, b: string, c: string)
    ensures Contains(a + p + b + c, p)
  {
    assert (a + p + b + c)[|a|..|a| + |p|] == p;
    assert OccursAt(a + p + b + c, p, |a|);
  }

  /** Python's `s.find(p, start)`: the first occurrence at or after `start`, or -1. */
  function Find(s: string, p: string, start: nat): (r: int)
    ensures r == -1 ==> forall j :: start <= j ==> !OccursAt(s, p, j)
    ensures r != -1 ==> start <= r && OccursAt(s, p, r)
    ensures r != -1 ==> forall j :: start <= j < r ==> !OccursAt(s, p, j)
    decreases |s| - start
  {
    if start + |p| > |s| then -1
    else if s[start..start + |p|] == p then start
    else Find(s, p, start + 1)
  }

  /** Search downwards from index `j` for the last occurrence of `p`. */
  function RFindFrom(s: string, p: string, j: int): (r: int)
    ensures r == -1 ==> forall k :: k <= j ==> !OccursAt(s, p, k)
    ensures r != -1 ==> r <= j && OccursAt(s, p, r)
    ensures r != -1 ==> forall k :: r < k <= j ==> !OccursAt(s, p, k)
    decreases j + 1
  {
    if j < 0 then -1
    else if OccursAt(s, p, j) then j
    else RFindFrom(s, p, j - 1)
  }

  /** Python's `s.rfind(p)`. */
  function RFind(s: string, p: string): (r: int)
    ensures r == -1 ==> !Contains(s, p)
    ensures r != -1 ==> OccursAt(s, p, r) && forall k :: r < k ==> !OccursAt(s, p, k)
  {
    RFindFrom(s, p, |s| - |p|)
  }

  /** Python's `s.replace(p, q, 1)`. */
  function ReplaceFirst(s: string, p: string, q: string): string {
    var i := Find(s, p, 0);
    if i == -1 then s else s[..i] + q + s[i + |p|..]
  }

  /** Python's `s.replace(c, d)` for single characters. */
  function ReplaceChar(s: string, c: char, d: char): (r: string)
    ensures |r| == |s|
    ensures forall i :: 0 <= i < |s| ==> r[i] == if s[i] == c then d else s[i]
  {
    seq(|s|, i requires 0 <= i < |s| => if s[i] == c then d else s[i])
  }

  // ---------------------------------------------------------------- split and join

  /** Python's `s.split(sep)` for a non-empty separator. */
  function Split(s: string, sep: string): (r: seq<string>)
    requires sep != []
    ensures |r| >= 1
    decreases |s|
  {
    if s == [] then [""]
    else if StartsWith(s, sep) then [""] + Split(s[|sep|..], sep)
    else
      var rest := Split(s[1..], sep);
      [[s[0]] + rest[0]] + rest[1..]
  }

  /** Python's `sep.join(parts)`. */
  function Join(parts: seq<string>, sep: string): string
  {
    if |parts| == 0 then ""
    else if |parts| == 1 then parts[0]
    else parts[0] + sep + Join(parts[1..], sep)
  }

  /** Putting a character in front of the first part puts it in front of the joined text. */
  lemma JoinConsHead(c: char, rest: seq<string>, sep: string)
    requires |rest| >= 1
    ensures Join([[c] + rest[0]] + rest[1..], sep) == [c] + Join(rest, sep)
  {
    var r := [[c] + rest[0]] + rest[1..];
    if |rest| > 1 {
      assert r[1..] == rest[1..];
    }
  }

  /** Splitting and joining with the same separator gives the text back. */
  lemma {:induction false} JoinSplit(s: string, sep: string)
    requires sep != []
    ensures Join(Split(s, sep), sep) == s
    decreases |s|
  {
    if s == [] {
    } else if StartsWith(s, sep) {
      JoinSplit(s[|sep|..], sep);
      JoinSplitAtSeparator(s, sep);
    } else {
      JoinSplit(s[1..], sep);
      JoinSplitAtChar(s, sep);
    }
  }

  lemma JoinSplitAtSeparator(s: string, sep: string)
    requires sep != [] && s != [] && StartsWith(s, sep)
    requires Join(Split(s[|sep|..], sep), sep) == s[|sep|..]
    ensures Join(Split(s, sep), sep) == s
  {
    var rest := Split(s[|sep|..], sep);
    assert Split(s, sep) == [""] + rest;
    JoinAfterEmpty(rest, sep);
    assert s == s[..|sep|] + s[|sep|..];
  }

  lemma JoinAfterEmpty(rest: seq<string>, sep: string)
    requires |rest| >= 1
    ensures Join([""] + rest, sep) == sep + Join(rest, sep)
  {
    assert ([""] + rest)[1..] == rest;
  }

  lemma JoinSplitAtChar(s: string, sep: string)
    requires sep != [] && s != [] && !StartsWith(s, sep)
    requires Join(Split(s[1..], sep), sep) == s[1..]
    ensures Join(Split(s, sep), sep) == s
  {
    var rest := Split(s[1..], sep);
    assert Split(s, sep) == [[s[0]] + rest[0]] + rest[1..];
    JoinConsHead(s[0], rest, sep);
    assert s == [s[0]] + s[1..];
  }

  lemma {:induction false} JoinSnoc(parts: seq<string>, x: string, sep: string)
    requires parts != []
    ensures Join(parts + [x], sep) == Join(parts, sep) + sep + x
  {
    if |parts| == 1 {
      assert parts + [x] == [parts[0], x];
    } else {
      assert (parts + [x])[1..] == parts[1..] + [x];
      JoinSnoc(parts[1..], x, sep);
    }
  }

  lemma {:induction false} JoinConcat(a: seq<string>, b: seq<string>, sep: string)
    requires a != [] && b != []
    ensures Join(a + b, sep) == Join(a, sep) + sep + Join(b, sep)
  {
    if |a| == 1 {
      assert (a + b)[1..] == b;
    } else {
      assert (a + b)[1..] == a[1..] + b;
      JoinConcat(a[1..], b, sep);
    }
  }

  /** The longest prefix of `s` without whitespace. */
  function TakeWord(s: string): (w: string)
    ensures |w| <= |s| && w == s[..|w|]
    ensures |s| > 0 && !IsSpace(s[0]) ==> |w| >= 1
    ensures forall i :: 0 <= i < |w| ==> !IsSpace(w[i])
  {
    if |s| > 0 && !IsSpace(s[0]) then [s[0]] + TakeWord(s[1..]) else []
  }

  /** Python's `s.split()`: the maximal runs of non-whitespace characters. */
  function Words(s: string): (r: seq<string>)
    ensures forall k :: 0 <= k < |r| ==> r[k] != []
    decreases |s|
  {
    if s == [] then []
    else if IsSpace(s[0]) then Words(s[1..])
    else
      var w := TakeWord(s);
      [w] + Words(s[|w|..])
  }

  /** Index of the first line break in `s`, or `|s|`. */
  function LineEnd(s: string): (n: nat)
    ensures n <= |s|
    ensures n < |s| ==> IsLineBreak(s[n])
    ensures forall i :: 0 <= i < n ==> !IsLineBreak(s[i])
  {
    if s == [] || IsLineBreak(s[0]) then 0 else 1 + LineEnd(s[1..])
  }

  /** Python's `s.splitlines()`: `\r\n` counts as one break and no empty last line is produced. */
  function SplitLines(s: string): (r: seq<string>)
    ensures forall k :: 0 <= k < |r| ==> forall i :: 0 <= i < |r[k]| ==> !IsLineBreak(r[k][i])
    decreases |s|
  {
    if s == [] then [] else
      var n := LineEnd(s);
      if n == |s| then [s] else
        var width := if s[n] == '\r' && n + 1 < |s| && s[n + 1] == '\n' then 2 else 1;
        [s[..n]] + SplitLines(s[n + width..])
  }

  /** The concatenation of a sequence of sequences. */
  function Flatten<T>(xss: seq<seq<T>>): seq<T> {
    if xss == [] then [] else Flatten(xss[..|xss| - 1]) + xss[|xss| - 1]
  }

  lemma {:induction false} FlattenConcat<T>(a: seq<seq<T>>, b: seq<seq<T>>)
    ensures Flatten(a + b) == Flatten(a) + Flatten(b)
    decreases |b|
  {
    if b == [] {
      assert a + b == a;
    } else {
      var front := b[..|b| - 1];
      var ab := a + b;
      assert ab[..|ab| - 1] == a + front;
      assert ab[|ab| - 1] == b[|b| - 1];
      assert Flatten(ab) == Flatten(a + front) + b[|b| - 1];
      FlattenConcat(a, front);
      assert Flatten(b) == Flatten(front) + b[|b| - 1];
    }
  }

  // ---------------------------------------------------------------- numbers

  function DigitChar(d: nat): char
    requires d < 10
  {
    "0123456789"[d]
  }

  /** Python's `str(n)` for a natural number. */
  function NatToString(n: nat): (r: string)
    ensures |r| >= 1
    ensures forall i :: 0 <= i < |r| ==> '0' <= r[i] <= '9'
  {
    if n < 10 then [DigitChar(n)] else NatToString(n / 10) + [DigitChar(n % 10)]
  }

  // ---------------------------------------------------------------- ordering

  /** The order Python uses on `str`: lexicographic on code points. */
  predicate Less(a: string, b: string)
    decreases |a|
  {
    if a == [] then b != []
    else if b == [] then false
    else if a[0] != b[0] then a[0] < b[0]
    else Less(a[1..], b[1..])
  }

  lemma {:induction false} LessIrreflexive(a: string)
    ensures !Less(a, a)
  {
    if a != [] { LessIrreflexive(a[1..]); }
  }

  lemma {:induction false} LessTransitive(a: string, b: string, c: string)
    requires Less(a, b) && Less(b, c)
    ensures Less(a, c)
    decreases |a|
  {
    if a != [] && b != [] && c != [] && a[0] == b[0] && b[0] == c[0] {
      LessTransitive(a[1..], b[1..], c[1..]);
    }
  }

  lemma {:induction false} LessTotal(a: string, b: string)
    requires a != b
    ensures Less(a, b) || Less(b, a)
    decreases |a|
  {
    if a != [] && b != [] && a[0] == b[0] {
      assert a == [a[0]] + a[1..] && b == [b[0]] + b[1..];
      LessTotal(a[1..], b[1..]);
    }
  }

  /** Strictly increasing, hence also free of duplicates. */
  predicate SortedStrictly(r: seq<string>) {
    forall i, j :: 0 <= i < j < |r| ==> Less(r[i], r[j])
  }

  function InsertSorted(r: seq<string>, x: string): (q: seq<string>)
    requires SortedStrictly(r) && x !in r
    ensures SortedStrictly(q)
    ensures |q| == |r| + 1
    ensures forall y :: y in q <==> y in r || y == x
  {
    if r == [] then [x]
    else if Less(x, r[0]) then
      assert forall j :: 0 < j < |r| ==> Less(r[0], r[j]);
      forall j | 0 <= j < |r| ensures Less(x, r[j]) {
        if j > 0 { LessTransitive(x, r[0], r[j]); }
      }
      [x] + r
    else
      LessTotal(x, r[0]);
      var q' := InsertSorted(r[1..], x);
      assert forall y :: y in q' ==> Less(r[0], y) by {
        forall y | y in q' ensures Less(r[0], y) {
          if y != x {
            var j :| 0 <= j < |r[1..]| && r[1..][j] == y;
            assert r[j + 1] == y;
          }
        }
      }
      [r[0]] + q'
  }

  /** `sorted(s)` for a set of strings: ascending and without duplicates. */
  method SortSet(s: set<string>) returns (r: seq<string>)
    ensures SortedStrictly(r)
    ensures forall y :: y in r <==> y in s
    ensures |r| == |s|
  {
    r := [];
    var rest := s;
    while rest != {}
      invariant SortedStrictly(r)
      invariant forall y :: y in s <==> y in r || y in rest
      invariant forall y :: y in r ==> y !in rest
      invariant |r| + |rest| == |s|
      decreases |rest|
    {
      var x :| x in rest;
      r := InsertSorted(r, x);
      rest := rest - {x};
    }
  }
}
