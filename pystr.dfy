/** The Python `str` operations the resume engine relies on. Whitespace and
    line boundaries follow Python 3's tables exactly; word characters, digits
    and case mapping cover the ASCII range. */
module PyStr {
  import opened Lists

  // ----- character classes -----

  /** `str.isspace()`, which is also the regex class `\s` on str patterns. */
  predicate IsSpace(c: char) {
    var n := c as int;
    n == 32 || 9 <= n <= 13 || 28 <= n <= 31 || n == 0x85 || n == 0xA0 || n == 0x1680 ||
    0x2000 <= n <= 0x200A || n == 0x2028 || n == 0x2029 || n == 0x202F || n == 0x205F || n == 0x3000
  }

  /** The line boundaries of `str.splitlines()`. */
  predicate IsLineBreak(c: char) {
    var n := c as int;
    10 <= n <= 13 || 28 <= n <= 30 || n == 0x85 || n == 0x2028 || n == 0x2029
  }

  predicate IsDigit(c: char) { '0' <= c <= '9' }
  predicate IsUpper(c: char) { 'A' <= c <= 'Z' }
  predicate IsLower(c: char) { 'a' <= c <= 'z' }
  predicate IsLetter(c: char) { IsUpper(c) || IsLower(c) }
  /** The regex class `\w`. */
  predicate IsWordChar(c: char) { IsLetter(c) || IsDigit(c) || c == '_' }

  /** `not s.strip()`: nothing but whitespace. */
  predicate IsBlank(s: string) {
    forall i :: 0 <= i < |s| ==> IsSpace(s[i])
  }

  // ----- case mapping -----

  function LowerChar(c: char): (d: char)
    ensures !IsUpper(d)
    ensures IsLetter(d) == IsLetter(c) && IsWordChar(d) == IsWordChar(c) && IsSpace(d) == IsSpace(c)
    ensures !IsUpper(c) ==> d == c
  {
    if IsUpper(c) then (c as int + 32) as char else c
  }

  function UpperChar(c: char): (d: char)
    ensures !IsLower(d)
    ensures LowerChar(d) == LowerChar(c)
  {
    if IsLower(c) then (c as int - 32) as char else c
  }

  /** `str.lower()`: every character mapped through LowerChar. */
  function Lower(s: string): (r: string)
    ensures |r| == |s| && forall i :: 0 <= i < |s| ==> r[i] == LowerChar(s[i])
  {
    seq(|s|, i requires 0 <= i < |s| => LowerChar(s[i]))
  }

  lemma LowerAppend(a: string, b: string)
    ensures Lower(a + b) == Lower(a) + Lower(b)
  {
  }

  lemma LowerJoin(a: string, b: string)
    ensures Lower(a + " " + b) == Lower(a) + " " + Lower(b)
  {
    assert LowerChar(' ') == ' ';
  }

  /** `str.title()`: a letter is upper-cased when the character before it is
      not a letter and lower-cased otherwise. Only case changes, so the
      title-cased word and the original agree once lower-cased. */
  function Title(s: string): (r: string)
    ensures |r| == |s|
    ensures Lower(r) == Lower(s)
    ensures forall i :: 0 <= i < |s| && (i == 0 || !IsLetter(s[i - 1])) ==> !IsLower(r[i])
    ensures forall i :: 0 < i < |s| && IsLetter(s[i - 1]) ==> !IsUpper(r[i])
    ensures s != [] ==> r != []
  {
    var r := seq(|s|, i requires 0 <= i < |s| => TitleChar(s, i));
    assert forall i :: 0 <= i < |s| ==> Lower(r)[i] == Lower(s)[i];
    r
  }

  /** The character at position i of `s.title()`. */
  function TitleChar(s: string, i: nat): (c: char)
    requires i < |s|
    ensures LowerChar(c) == LowerChar(s[i])
    ensures i == 0 || !IsLetter(s[i - 1]) ==> !IsLower(c)
    ensures i > 0 && IsLetter(s[i - 1]) ==> !IsUpper(c)
  {
    if i == 0 || !IsLetter(s[i - 1]) then UpperChar(s[i])
    else
      var d := LowerChar(s[i]);
      assert LowerChar(d) == d;
      d
  }

  // ----- strip -----

  function TrimStart(s: string): (r: string)
    ensures |r| <= |s| && r == s[|s| - |r|..]
    ensures IsBlank(s[..|s| - |r|])
    ensures r == [] || !IsSpace(r[0])
  {
    if s != [] && IsSpace(s[0]) then TrimStart(s[1..]) else s
  }

  function TrimEnd(s: string): (r: string)
    ensures |r| <= |s| && r == s[..|r|]
    ensures IsBlank(s[|r|..])
    ensures r == [] || !IsSpace(r[|r| - 1])
  {
    if s != [] && IsSpace(s[|s| - 1]) then
      var r := TrimEnd(s[..|s| - 1]);
      assert s[|r|..] == s[..|s| - 1][|r|..] + [s[|s| - 1]];
      r
    else s
  }

  /** r is s with the whitespace-only prefix s[..i] and a whitespace-only suffix removed. */
  ghost predicate StripsTo(s: string, r: string, i: int) {
    0 <= i <= |s| - |r| && r == s[i..i + |r|] && IsBlank(s[..i]) && IsBlank(s[i + |r|..])
  }

  /** `str.strip()`: removes whitespace, and only whitespace, from both ends. */
  function Strip(s: string): (r: string)
    ensures r == [] <==> IsBlank(s)
    ensures r != [] ==> !IsSpace(r[0]) && !IsSpace(r[|r| - 1])
    ensures exists i :: StripsTo(s, r, i)
  {
    var a := TrimStart(s);
    var b := TrimEnd(a);
    StripFacts(s, a, b, |s| - |a|);
    b
  }

  lemma StripFacts(s: string, a: string, b: string, i: int)
    requires 0 <= i <= |s| && a == s[i..] && IsBlank(s[..i]) && (a == [] || !IsSpace(a[0]))
    requires |b| <= |a| && b == a[..|b|] && IsBlank(a[|b|..])
    ensures b == [] <==> IsBlank(s)
    ensures StripsTo(s, b, i)
  {
    assert s[i + |b|..] == a[|b|..];
    if b == [] {
      assert a == a[|b|..];
      assert s == s[..i] + a;
      BlankAppend(s[..i], a);
    }
  }

  /** Strip only removes characters. */
  lemma StripChars(s: string)
    ensures forall k :: 0 <= k < |Strip(s)| ==> Strip(s)[k] in s
  {
    var r := Strip(s);
    var i :| StripsTo(s, r, i);
    assert forall k :: 0 <= k < |r| ==> r[k] == s[i + k];
  }

  /** Leading whitespace ends inside a that is not blank. */
  lemma {:induction false} TrimStartAppend(a: string, b: string)
    requires !IsBlank(a)
    ensures TrimStart(a + b) == TrimStart(a) + b
  {
    if IsSpace(a[0]) {
      assert (a + b)[1..] == a[1..] + b;
      TrimStartAppend(a[1..], b);
    }
  }

  /** Leading whitespace that covers all of a stops where b starts. */
  lemma {:induction false} TrimStartBlank(a: string, b: string)
    requires IsBlank(a) && (b == [] || !IsSpace(b[0]))
    ensures TrimStart(a + b) == b
  {
    if a != [] {
      assert (a + b)[1..] == a[1..] + b;
      TrimStartBlank(a[1..], b);
    }
  }

  /** Trailing whitespace starts inside b that is not blank. */
  lemma {:induction false} TrimEndAppend(a: string, b: string)
    requires !IsBlank(b)
    ensures TrimEnd(a + b) == a + TrimEnd(b)
  {
    var n := |b|;
    if IsSpace(b[n - 1]) {
      assert (a + b)[..|a + b| - 1] == a + b[..n - 1];
      TrimEndAppend(a, b[..n - 1]);
    }
  }

  /** Two texts joined by one space strip to their stripped forms joined by
      that space, when neither side has whitespace next to it. */
  lemma StripJoin(a: string, b: string)
    requires a != [] && !IsSpace(a[|a| - 1])
    requires b != [] && !IsSpace(b[0])
    ensures Strip(a + " " + b) == Strip(a) + " " + Strip(b)
  {
    var a1 := JoinTrimStart(a, b);
    JoinTrimEnd(a1, b);
    StripIs(a + " " + b);
    StripIs(a);
    StripIs(b);
  }

  lemma JoinTrimStart(a: string, b: string) returns (a1: string)
    requires a != [] && !IsSpace(a[|a| - 1])
    requires b != [] && !IsSpace(b[0])
    ensures a1 == TrimStart(a) && TrimEnd(a1) == a1 && TrimStart(b) == b
    ensures TrimStart(a + " " + b) == a1 + " " + b
  {
    a1 := TrimStart(a);
    assert !IsSpace(a[|a| - 1]);
    TrimStartAppend(a, " " + b);
    AppendAssoc(a, " ", b);
    AppendAssoc(a1, " ", b);
  }

  lemma JoinTrimEnd(a: string, b: string)
    requires b != [] && !IsSpace(b[0])
    ensures TrimEnd(a + " " + b) == a + " " + TrimEnd(b)
  {
    assert !IsSpace(b[0]);
    TrimEndAppend(a + " ", b);
  }

  lemma StripIs(s: string)
    ensures Strip(s) == TrimEnd(TrimStart(s))
  {
  }

  lemma BlankAppend(x: string, y: string)
    requires IsBlank(x) && IsBlank(y)
    ensures IsBlank(x + y)
  {
  }

  // ----- searching -----

  predicate OccursAt(p: string, s: string, i: int) {
    0 <= i && i + |p| <= |s| && s[i..i + |p|] == p
  }

  /** Python's `p in s`. */
  predicate IsSubstring(p: string, s: string) {
    exists i | 0 <= i <= |s| :: OccursAt(p, s, i)
  }

  /** Every character of a substring occurs in the string it is taken from. */
  lemma SubstringChars(p: string, s: string)
    requires IsSubstring(p, s)
    ensures forall k :: 0 <= k < |p| ==> p[k] in s
  {
    var i :| 0 <= i <= |s| && OccursAt(p, s, i);
    forall k | 0 <= k < |p| ensures p[k] in s {
      assert p[k] == s[i + k];
    }
  }

  predicate EndsWith(s: string, suffix: string) {
    |suffix| <= |s| && s[|s| - |suffix|..] == suffix
  }

  predicate StartsWith(s: string, prefix: string) {
    |prefix| <= |s| && s[..|prefix|] == prefix
  }

  // ----- join and split -----

  /** `sep.join(xs)`. */
  function Join(xs: seq<string>, sep: string): (r: string)
    ensures xs == [] ==> r == []
    ensures |xs| == 1 ==> r == xs[0]
    ensures |xs| > 1 ==> r == xs[0] + sep + Join(xs[1..], sep)
  {
    if xs == [] then "" else if |xs| == 1 then xs[0] else xs[0] + sep + Join(xs[1..], sep)
  }

  /** `s.split(", ")`. */
  function SplitCommaSpace(s: string): (r: seq<string>)
    ensures |r| >= 1
    decreases |s|
  {
    if |s| < 2 then [s]
    else if s[0] == ',' && s[1] == ' ' then [""] + SplitCommaSpace(s[2..])
    else
      var rest := SplitCommaSpace(s[1..]);
      [[s[0]] + rest[0]] + rest[1..]
  }

  lemma {:induction false} SplitItem(x: string)
    requires ',' !in x
    ensures SplitCommaSpace(x) == [x]
  {
    if |x| >= 2 {
      SplitItem(x[1..]);
      assert [x[0]] + x[1..] == x;
    }
  }

  lemma {:induction false} SplitItemThen(x: string, t: string)
    requires ',' !in x
    ensures SplitCommaSpace(x + ", " + t) == [x] + SplitCommaSpace(t)
  {
    var s := x + ", " + t;
    if x == [] {
      assert s == ", " + t && s[2..] == t;
    } else {
      assert s[1..] == x[1..] + ", " + t;
      SplitItemThen(x[1..], t);
      assert [x[0]] + x[1..] == x;
    }
  }

  /** Splitting a ", "-joined list recovers it when no item contains a comma. */
  lemma {:induction false} JoinSplitRoundTrip(xs: seq<string>)
    requires xs != []
    requires forall i :: 0 <= i < |xs| ==> ',' !in xs[i]
    ensures SplitCommaSpace(Join(xs, ", ")) == xs
  {
    if |xs| == 1 {
      SplitItem(xs[0]);
    } else {
      JoinSplitRoundTrip(xs[1..]);
      SplitItemThen(xs[0], Join(xs[1..], ", "));
      assert [xs[0]] + xs[1..] == xs;
    }
  }

  /** `s.split(c)[-1]`: what follows the last c, or all of s when it has none. */
  function AfterLast(s: string, c: char): (r: string)
    ensures |r| <= |s| && r == s[|s| - |r|..]
    ensures c !in r
    ensures |r| < |s| ==> s[|s| - |r| - 1] == c
  {
    if s == [] then []
    else if s[|s| - 1] == c then []
    else
      var r := AfterLast(s[..|s| - 1], c) + [s[|s| - 1]];
      assert s[|s| - |r|..] == s[..|s| - 1][|s| - |r|..] + [s[|s| - 1]];
      r
  }

  /** Index of the first line boundary at or after `from`, or |s|. */
  function LineEnd(s: string, from: nat): (k: nat)
    requires from <= |s|
    ensures from <= k <= |s|
    ensures k < |s| ==> IsLineBreak(s[k])
    ensures forall j :: from <= j < k ==> !IsLineBreak(s[j])
    decreases |s| - from
  {
    if from == |s| || IsLineBreak(s[from]) then from else LineEnd(s, from + 1)
  }

  /** `str.splitlines()`: "\r\n" counts as one boundary, and a final boundary
      does not start an empty line. No line contains a boundary character. */
  function SplitLines(s: string): (lines: seq<string>)
    ensures forall i, k :: 0 <= i < |lines| && 0 <= k < |lines[i]| ==> !IsLineBreak(lines[i][k])
    ensures s == [] <==> lines == []
    decreases |s|
  {
    if s == [] then []
    else
      var k := LineEnd(s, 0);
      if k == |s| then [s]
      else
        var w := BoundaryWidth(s, k);
        [s[..k]] + SplitLines(s[k + w..])
  }

  /** A line boundary of `str.splitlines()`: "\r\n" or one boundary character. */
  predicate IsBoundary(b: string) {
    b == "\r\n" || (|b| == 1 && IsLineBreak(b[0]))
  }

  /** The boundary that ends each line of SplitLines(s); "" after a last line
      that has none. */
  function LineBoundaries(s: string): (seps: seq<string>)
    ensures |seps| == |SplitLines(s)|
    decreases |s|
  {
    if s == [] then []
    else
      var k := LineEnd(s, 0);
      if k == |s| then [""]
      else
        var w := BoundaryWidth(s, k);
        SplitLinesUnfold(s, k, w);
        [s[k..k + w]] + LineBoundaries(s[k + w..])
  }

  /** lines[0] + seps[0] + lines[1] + seps[1] + ... */
  function Interleave(lines: seq<string>, seps: seq<string>): string
    requires |lines| == |seps|
  {
    if lines == [] then "" else lines[0] + seps[0] + Interleave(lines[1..], seps[1..])
  }

  /** Width of the boundary at s[k]: 2 for "\r\n", else 1. */
  function BoundaryWidth(s: string, k: nat): (w: nat)
    requires k < |s|
    ensures 1 <= w <= 2 && k + w <= |s|
  {
    if s[k] == '\r' && k + 1 < |s| && s[k + 1] == '\n' then 2 else 1
  }

  /** One step of SplitLines and LineBoundaries when s has a boundary. */
  lemma SplitStep(s: string) returns (k: nat, w: nat)
    requires s != [] && LineEnd(s, 0) < |s|
    ensures k == LineEnd(s, 0) && w == BoundaryWidth(s, k)
    ensures SplitLines(s) == [s[..k]] + SplitLines(s[k + w..])
    ensures LineBoundaries(s) == [s[k..k + w]] + LineBoundaries(s[k + w..])
  {
    k := LineEnd(s, 0);
    w := BoundaryWidth(s, k);
    SplitLinesUnfold(s, k, w);
    LineBoundariesUnfold(s, k, w);
  }

  lemma SplitLinesUnfold(s: string, k: nat, w: nat)
    requires s != [] && k == LineEnd(s, 0) && k < |s| && w == BoundaryWidth(s, k)
    ensures SplitLines(s) == [s[..k]] + SplitLines(s[k + w..])
  {
  }

  lemma LineBoundariesUnfold(s: string, k: nat, w: nat)
    requires s != [] && k == LineEnd(s, 0) && k < |s| && w == BoundaryWidth(s, k)
    ensures LineBoundaries(s) == [s[k..k + w]] + LineBoundaries(s[k + w..])
  {
  }

  /** SplitLines cuts s at its boundaries and nowhere else: putting each line
      back with the boundary that ended it rebuilds s. */
  lemma {:induction false} SplitLinesRebuild(s: string)
    ensures Interleave(SplitLines(s), LineBoundaries(s)) == s
    decreases |s|
  {
    if s != [] {
      if LineEnd(s, 0) == |s| {
        assert Interleave(SplitLines(s), LineBoundaries(s)) == s + "" + "";
      } else {
        var k, w := SplitStep(s);
        SplitLinesRebuild(s[k + w..]);
        RebuildStep(s, k, w, SplitLines(s), LineBoundaries(s));
      }
    }
  }

  lemma RebuildStep(s: string, k: nat, w: nat, lines: seq<string>, seps: seq<string>)
    requires k + w <= |s|
    requires lines == [s[..k]] + SplitLines(s[k + w..])
    requires seps == [s[k..k + w]] + LineBoundaries(s[k + w..])
    requires Interleave(SplitLines(s[k + w..]), LineBoundaries(s[k + w..])) == s[k + w..]
    ensures Interleave(lines, seps) == s
  {
    var rest := s[k + w..];
    InterleaveCons(s[..k], s[k..k + w], SplitLines(rest), LineBoundaries(rest));
    CutTwice(s, k, k + w);
  }

  lemma CutTwice(s: string, i: nat, j: nat)
    requires i <= j <= |s|
    ensures s == s[..i] + s[i..j] + s[j..]
  {
  }

  lemma InterleaveCons(line: string, sep: string, lines: seq<string>, seps: seq<string>)
    requires |lines| == |seps|
    ensures Interleave([line] + lines, [sep] + seps) == line + sep + Interleave(lines, seps)
  {
    assert ([line] + lines)[1..] == lines && ([sep] + seps)[1..] == seps;
  }

  /** Every line but the last ends at a boundary; the last may end the text. */
  lemma {:induction false} LineBoundariesAreBoundaries(s: string)
    ensures var seps := LineBoundaries(s);
            forall i :: 0 <= i < |seps| ==> IsBoundary(seps[i]) || (i == |seps| - 1 && seps[i] == "")
    decreases |s|
  {
    if s != [] && LineEnd(s, 0) < |s| {
      var k, w := SplitStep(s);
      LineBoundariesAreBoundaries(s[k + w..]);
      BoundaryAt(s, k);
      BoundariesStep(s[k..k + w], LineBoundaries(s[k + w..]), LineBoundaries(s));
    }
  }

  lemma BoundaryAt(s: string, k: nat)
    requires k < |s| && IsLineBreak(s[k])
    ensures IsBoundary(s[k..k + BoundaryWidth(s, k)])
  {
  }

  lemma BoundariesStep(b: string, rest: seq<string>, seps: seq<string>)
    requires IsBoundary(b) && seps == [b] + rest
    requires forall i :: 0 <= i < |rest| ==> IsBoundary(rest[i]) || (i == |rest| - 1 && rest[i] == "")
    ensures forall i :: 0 <= i < |seps| ==> IsBoundary(seps[i]) || (i == |seps| - 1 && seps[i] == "")
  {
    assert forall i :: 1 <= i < |seps| ==> seps[i] == rest[i - 1];
  }

  /** No lone "\r" boundary is followed by an empty line ended by "\n": that
      pair would have been one "\r\n" boundary. */
  predicate NoSplitCrLf(lines: seq<string>, seps: seq<string>)
    requires |lines| == |seps|
  {
    forall i :: 0 <= i < |seps| - 1 && seps[i] == "\r" ==> seps[i + 1] != "\n" || lines[i + 1] != ""
  }

  lemma {:induction false} LoneCarriageReturn(s: string)
    ensures NoSplitCrLf(SplitLines(s), LineBoundaries(s))
    decreases |s|
  {
    if s != [] && LineEnd(s, 0) < |s| {
      var k, w := SplitStep(s);
      LoneCarriageReturn(s[k + w..]);
      LoneStep(s, k, w);
    }
  }

  lemma LoneStep(s: string, k: nat, w: nat)
    requires k < |s| && w == BoundaryWidth(s, k)
    requires NoSplitCrLf(SplitLines(s[k + w..]), LineBoundaries(s[k + w..]))
    ensures NoSplitCrLf([s[..k]] + SplitLines(s[k + w..]), [s[k..k + w]] + LineBoundaries(s[k + w..]))
  {
    var t := s[k + w..];
    if s[k..k + w] == "\r" && t != [] {
      assert t[0] != '\n';
      FirstNotLineFeed(t);
    }
    CarriageStep(s[..k], s[k..k + w], SplitLines(t), LineBoundaries(t));
  }

  lemma FirstNotLineFeed(t: string)
    requires t != [] && t[0] != '\n'
    ensures LineBoundaries(t)[0] != "\n" || SplitLines(t)[0] != ""
  {
    if LineEnd(t, 0) < |t| {
      var k, w := SplitStep(t);
      if k == 0 {
        assert LineBoundaries(t)[0][0] == t[0];
      }
    }
  }

  lemma CarriageStep(line: string, b: string, lines: seq<string>, seps: seq<string>)
    requires |lines| == |seps| && NoSplitCrLf(lines, seps)
    requires b == "\r" && seps != [] ==> seps[0] != "\n" || lines[0] != ""
    ensures NoSplitCrLf([line] + lines, [b] + seps)
  {
    var L, S := [line] + lines, [b] + seps;
    assert forall i :: 1 <= i < |S| ==> S[i] == seps[i - 1] && L[i] == lines[i - 1];
  }

  // ----- integers -----

  function DigitChar(d: nat): (c: char)
    requires d < 10
    ensures IsDigit(c) && c as int - '0' as int == d
  {
    ('0' as int + d) as char
  }

  /** `str(n)` for a non-negative n: decimal digits, no leading zero. */
  function NatToString(n: nat): (s: string)
    ensures |s| >= 1 && forall i :: 0 <= i < |s| ==> IsDigit(s[i])
    ensures |s| > 1 ==> s[0] != '0'
    ensures s[0] == '0' <==> n == 0
    decreases n
  {
    if n < 10 then [DigitChar(n)] else NatToString(n / 10) + [DigitChar(n % 10)]
  }

  function DigitValue(c: char): (d: nat)
    requires IsDigit(c)
    ensures d < 10
  {
    c as int - '0' as int
  }

  /** `int(s)` for a string of decimal digits. */
  function DecimalValue(s: string): nat
    requires forall i :: 0 <= i < |s| ==> IsDigit(s[i])
  {
    if s == [] then 0 else 10 * DecimalValue(s[..|s| - 1]) + DigitValue(s[|s| - 1])
  }

  lemma {:induction false} DecimalRoundTrip(n: nat)
    ensures DecimalValue(NatToString(n)) == n
  {
    if n >= 10 {
      var s := NatToString(n);
      assert s[..|s| - 1] == NatToString(n / 10);
      DecimalRoundTrip(n / 10);
    }
  }
}
