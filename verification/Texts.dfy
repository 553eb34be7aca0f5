/** The string operations that the modelled code borrows from its languages. Strings are sequences of code points.

    - substring search, and that what `find` reports is the first occurrence;
    - `split` and `join`, and that the latter undoes the former;
    - whitespace stripping, and what it leaves of a text put behind another; and the order of texts. */
module Texts {

  /** What separates paragraphs, and the messages of an event stream. */
  const BLANK_LINE := "\n\n"

  /** `sub` occurs in `s` at position `k`. */
  predicate At(s: string, sub: string, k: nat) {
    k + |sub| <= |s| && s[k..k + |sub|] == sub
  }

  predicate StartsWith(s: string, prefix: string) {
    |prefix| <= |s| && s[..|prefix|] == prefix
  }

  predicate EndsWith(s: string, suffix: string) {
    |suffix| <= |s| && s[|s| - |suffix|..] == suffix
  }

  /** Position of the first occurrence of `sub` at or after `from`, or -1. */
  function Find(s: string, sub: string, from: nat): (r: int)
    requires |sub| > 0
    ensures r < 0 || (from <= r && At(s, sub, r))
    decreases |s| - from
  {
    if from + |sub| > |s| then -1 else if At(s, sub, from) then from else Find(s, sub, from + 1)
  }

  function IndexOf(s: string, sub: string): (r: int)
    requires |sub| > 0
    ensures r >= 0 ==> At(s, sub, r)
  {
    Find(s, sub, 0)
  }

  lemma {:induction false} FindIsFirst(s: string, sub: string, from: nat, k: nat)
    requires |sub| > 0 && from <= k
    requires Find(s, sub, from) < 0 || k < Find(s, sub, from)
    ensures !At(s, sub, k)
    decreases k - from
  {
    if from < k {
      FindIsFirst(s, sub, from + 1, k);
    }
  }

  /** No occurrence comes before the one that `IndexOf` reports; -1 means there is none. */
  lemma IndexOfIsFirst(s: string, sub: string, k: nat)
    requires |sub| > 0
    requires IndexOf(s, sub) < 0 || k < IndexOf(s, sub)
    ensures !At(s, sub, k)
  {
    FindIsFirst(s, sub, 0, k);
  }

  /** `sub` occurs nowhere in `s`. */
  predicate Free(s: string, sub: string)
    requires |sub| > 0
  {
    IndexOf(s, sub) < 0
  }

  lemma FreeMeansNowhere(s: string, sub: string)
    requires |sub| > 0
    ensures Free(s, sub) <==> forall k: nat :: !At(s, sub, k)
  {
    if Free(s, sub) {
      forall k: nat ensures !At(s, sub, k) {
        IndexOfIsFirst(s, sub, k);
      }
    }
  }

  /** Splits on every occurrence of `sep`, scanning from the left without overlap. */
  function Split(s: string, sep: string): (parts: seq<string>)
    requires |sep| > 0
    ensures |parts| >= 1
    ensures |parts| == 1 <==> Free(s, sep)
    decreases |s|
  {
    var i := IndexOf(s, sep);
    if i < 0 then [s] else [s[..i]] + Split(s[i + |sep|..], sep)
  }

  /** A text with one occurrence of the separator has two parts. */
  lemma SplitOnce(s: string, sep: string, i: nat, rest: string)
    requires |sep| > 0 && IndexOf(s, sep) == i && rest == s[i + |sep|..] && Free(rest, sep)
    ensures Split(s, sep) == [s[..i], rest]
  {
    assert Split(rest, sep) == [rest];
    assert [s[..i]] + [rest] == [s[..i], rest];
  }

  function Join(sep: string, parts: seq<string>): string {
    if |parts| == 0 then ""
    else if |parts| == 1 then parts[0]
    else parts[0] + sep + Join(sep, parts[1..])
  }

  lemma JoinCons(sep: string, part: string, parts: seq<string>)
    requires parts != []
    ensures Join(sep, [part] + parts) == part + sep + Join(sep, parts)
  {
    assert ([part] + parts)[1..] == parts;
  }

  lemma CutAt(s: string, i: nat, n: nat)
    requires i + n <= |s|
    ensures s == s[..i] + s[i..i + n] + s[i + n..]
  {
  }

  lemma {:induction false} JoinSplit(s: string, sep: string)
    requires |sep| > 0
    ensures Join(sep, Split(s, sep)) == s
    decreases |s|
  {
    var i := IndexOf(s, sep);
    if i >= 0 {
      JoinSplit(s[i + |sep|..], sep);
      JoinCons(sep, s[..i], Split(s[i + |sep|..], sep));
      CutAt(s, i, |sep|);
    }
  }

  lemma SliceOfSlice(s: string, i: nat, j: nat, a: nat, b: nat)
    requires i <= j <= |s| && a <= b <= j - i
    ensures s[i..j][a..b] == s[i + a..i + b]
  {
    var left, right := s[i..j][a..b], s[i + a..i + b];
    forall k | 0 <= k < b - a ensures left[k] == right[k] {
      assert s[i..j][a + k] == s[i + a + k];
    }
  }

  lemma FreeSubstring(s: string, sub: string, i: nat, j: nat)
    requires |sub| > 0 && i <= j <= |s| && Free(s, sub)
    ensures Free(s[i..j], sub)
  {
    var k := IndexOf(s[i..j], sub);
    if k >= 0 {
      SliceOfSlice(s, i, j, k, k + |sub|);
      IndexOfIsFirst(s, sub, i + k);
    }
  }

  /** The text before the first occurrence contains none. */
  lemma FreeBeforeFirst(s: string, sub: string)
    requires |sub| > 0 && !Free(s, sub)
    ensures Free(s[..IndexOf(s, sub)], sub)
  {
    var i := IndexOf(s, sub);
    var k := IndexOf(s[..i], sub);
    if k >= 0 {
      SliceOfSlice(s, 0, i, k, k + |sub|);
      IndexOfIsFirst(s, sub, k);
    }
  }

  /** Cutting out `n` characters keeps both sides free of whatever the text was free of. */
  lemma FreeSides(s: string, i: nat, n: nat, other: string)
    requires |other| > 0 && i + n <= |s| && Free(s, other)
    ensures Free(s[..i], other) && Free(s[i + n..], other)
  {
    FreeSubstring(s, other, 0, i);
    FreeSubstring(s, other, i + n, |s|);
    assert s[i + n..|s|] == s[i + n..] && s[0..i] == s[..i];
  }

  lemma SplitRest(s: string, sep: string, n: nat)
    requires |sep| > 0 && !Free(s, sep) && n < |Split(s, sep)|
    ensures var i := IndexOf(s, sep);
            var rest := Split(s[i + |sep|..], sep);
            Split(s, sep)[n] == (if n == 0 then s[..i] else rest[n - 1])
  {
  }

  /** The parts contain no separator. */
  lemma {:induction false} PartsFree(s: string, sep: string, n: nat)
    requires |sep| > 0 && n < |Split(s, sep)|
    ensures Free(Split(s, sep)[n], sep)
    decreases |s|
  {
    if !Free(s, sep) {
      SplitRest(s, sep, n);
      if n == 0 {
        FreeBeforeFirst(s, sep);
      } else {
        PartsFree(s[IndexOf(s, sep) + |sep|..], sep, n - 1);
      }
    }
  }

  /** The parts contain nothing that the whole text did not contain. */
  lemma {:induction false} PartsStayFree(s: string, sep: string, n: nat, other: string)
    requires |sep| > 0 && |other| > 0 && n < |Split(s, sep)| && Free(s, other)
    ensures Free(Split(s, sep)[n], other)
    decreases |s|
  {
    if !Free(s, sep) {
      SplitRest(s, sep, n);
      FreeSides(s, IndexOf(s, sep), |sep|, other);
      if n > 0 {
        PartsStayFree(s[IndexOf(s, sep) + |sep|..], sep, n - 1, other);
      }
    }
  }

  /** The characters that Python's `str.strip()` removes. */
  predicate IsSpace(c: char) {
    var n := c as int;
    || 0x09 <= n <= 0x0D || 0x1C <= n <= 0x20 || n == 0x85 || n == 0xA0 || n == 0x1680
    || 0x2000 <= n <= 0x200A || n == 0x2028 || n == 0x2029 || n == 0x202F || n == 0x205F || n == 0x3000
  }

  predicate Blank(s: string) {
    forall i :: 0 <= i < |s| ==> IsSpace(s[i])
  }

  /** Number of leading whitespace characters. */
  function Leading(s: string): (n: nat)
    ensures n <= |s| && (forall i :: 0 <= i < n ==> IsSpace(s[i]))
    ensures n < |s| ==> !IsSpace(s[n])
  {
    if s != "" && IsSpace(s[0]) then 1 + Leading(s[1..]) else 0
  }

  /** Length of the text up to its last non-whitespace character. */
  function Trailing(s: string): (n: nat)
    ensures n <= |s| && (forall i :: n <= i < |s| ==> IsSpace(s[i]))
    ensures n > 0 ==> !IsSpace(s[n - 1])
  {
    if s != "" && IsSpace(s[|s| - 1]) then Trailing(s[..|s| - 1]) else |s|
  }

  function Strip(s: string): (r: string)
    ensures r == "" <==> Blank(s)
    ensures r != "" ==> !IsSpace(r[0]) && !IsSpace(r[|r| - 1])
    ensures |r| <= |s|
  {
    if Leading(s) < Trailing(s) then s[Leading(s)..Trailing(s)] else ""
  }

  lemma StripOfTrimmed(s: string)
    requires s != "" ==> !IsSpace(s[0]) && !IsSpace(s[|s| - 1])
    ensures Strip(s) == s
  {
    if s != "" {
      assert Leading(s) == 0 && Trailing(s) == |s|;
    }
  }

  lemma {:induction false} TrailingBehind(t: string, p: string)
    requires !Blank(p)
    ensures Trailing(t + p) == |t| + Trailing(p)
    decreases |p|
  {
    var n := |p| - 1;
    assert (t + p)[|t| + n] == p[n];
    if IsSpace(p[n]) {
      assert (t + p)[..|t| + n] == t + p[..n];
      TrailingBehind(t, p[..n]);
    }
  }

  lemma {:induction false} LeadingBehind(t: string, p: string)
    requires !Blank(p)
    ensures Leading(p) < Trailing(p) && Leading(t + p) <= |t| + Leading(p) && !Blank(t + p)
  {
    assert (t + p)[|t| + Leading(p)] == p[Leading(p)];
  }

  lemma SliceBehind(t: string, p: string, i: nat, j: nat)
    requires i <= j <= |p|
    ensures (t + p)[|t| + i..|t| + j] == p[i..j]
  {
  }

  lemma SuffixOfSlice(w: string, a: nat, c: nat, b: nat, x: string, y: string)
    requires a <= c <= b <= |w| && x == w[a..b] && y == w[c..b]
    ensures EndsWith(x, y)
  {
    SliceOfSlice(w, a, b, c - a, b - a);
    assert x[c - a..b - a] == x[c - a..];
  }

  lemma StripIsSlice(s: string)
    requires !Blank(s)
    ensures Leading(s) < Trailing(s) && Strip(s) == s[Leading(s)..Trailing(s)]
  {
  }

  /** Text put in front of a non-blank `p` leaves its stripped form at the end of the stripped whole. */
  lemma StripKeepsSuffix(t: string, p: string)
    requires !Blank(p)
    ensures EndsWith(Strip(t + p), Strip(p))
  {
    var w := t + p;
    LeadingBehind(t, p);
    TrailingBehind(t, p);
    StripIsSlice(p);
    StripIsSlice(w);
    SliceKeepsSuffix(t, p, Leading(w), Leading(p), Trailing(p), Strip(w), Strip(p));
  }

  lemma SliceKeepsSuffix(t: string, p: string, a: nat, i: nat, j: nat, x: string, y: string)
    requires i <= j <= |p| && a <= |t| + i && x == (t + p)[a..|t| + j] && y == p[i..j]
    ensures EndsWith(x, y)
  {
    SliceBehind(t, p, i, j);
    SuffixOfSlice(t + p, a, |t| + i, |t| + j, x, y);
  }

  // ----- order -----

  /** Strings in the order of their code points. */
  predicate TextLess(a: string, b: string) {
    b != "" && (a == "" || a[0] < b[0] || (a[0] == b[0] && TextLess(a[1..], b[1..])))
  }

  lemma {:induction false} TextLessOrder(a: string, b: string, c: string)
    ensures !TextLess(a, a)
    ensures TextLess(a, b) && TextLess(b, c) ==> TextLess(a, c)
    ensures a != b ==> TextLess(a, b) || TextLess(b, a)
    decreases |a|
  {
    if a != "" {
      TextLessOrder(a[1..], if b == "" then "" else b[1..], if c == "" then "" else c[1..]);
      if b != "" && a[0] == b[0] && a[1..] == b[1..] {
        assert a == [a[0]] + a[1..] && b == [b[0]] + b[1..];
      }
    }
  }
}
