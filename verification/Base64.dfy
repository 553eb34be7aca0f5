/** URL-safe base64 (section 5 of RFC 4648) without padding, as cursors carry it.

    - `Encode` and `Decode` are the padded forms, group by group of three bytes and four symbols;
    - `EncodeUnpadded` strips the padding, and `DecodeUnpadded` puts it back from the length alone;
    - the two together are the identity on byte strings of every length. */
module Base64 {
  import opened Collections
  import opened Wrappers

  type Sextet = x: int | 0 <= x < 64

  function Symbol(v: Sextet): char {
    if v < 26 then (v + 'A' as int) as char
    else if v < 52 then (v - 26 + 'a' as int) as char
    else if v < 62 then (v - 52 + '0' as int) as char
    else if v == 62 then '-'
    else '_'
  }

  function ValueOf(c: char): Option<Sextet> {
    if 'A' <= c <= 'Z' then Some(c as int - 'A' as int)
    else if 'a' <= c <= 'z' then Some(c as int - 'a' as int + 26)
    else if '0' <= c <= '9' then Some(c as int - '0' as int + 52)
    else if c == '-' then Some(62)
    else if c == '_' then Some(63)
    else None
  }

  predicate InAlphabet(c: char) {
    ValueOf(c).Some?
  }

  /** Three bytes as four sextets, and back. */
  function First(a: Byte): Sextet { a / 4 }
  function Second(a: Byte, b: Byte): Sextet { a % 4 * 16 + b / 16 }
  function Third(b: Byte, c: Byte): Sextet { b % 16 * 4 + c / 64 }
  function Fourth(c: Byte): Sextet { c % 64 }
  function ByteOne(p: Sextet, q: Sextet): Byte { p * 4 + q / 16 }
  function ByteTwo(q: Sextet, r: Sextet): Byte { q % 16 * 16 + r / 4 }
  function ByteThree(r: Sextet, s: Sextet): Byte { r % 4 * 64 + s }

  function Padding(n: nat): string {
    seq(n, _ => '=')
  }

  /** The symbols of one group of at most three bytes. */
  function GroupSymbols(b: seq<Byte>): (s: string)
    requires 1 <= |b| <= 3
    ensures |s| == |b| + 1
  {
    if |b| == 1 then [Symbol(First(b[0])), Symbol(Second(b[0], 0))]
    else if |b| == 2 then [Symbol(First(b[0])), Symbol(Second(b[0], b[1])), Symbol(Third(b[1], 0))]
    else [Symbol(First(b[0])), Symbol(Second(b[0], b[1])), Symbol(Third(b[1], b[2])), Symbol(Fourth(b[2]))]
  }

  /** `urlsafe_b64encode`: groups of three bytes, the last one padded to four symbols. */
  function Encode(b: seq<Byte>): string
    decreases |b|
  {
    if |b| == 0 then ""
    else if |b| <= 3 then GroupSymbols(b) + Padding(3 - |b|)
    else GroupSymbols(b[..3]) + Encode(b[3..])
  }

  /** The bytes of four symbols; padding only in the last group. */
  function DecodeGroup(g: string, last: bool): Option<seq<Byte>>
    requires |g| == 4
  {
    var p, q, r, s := ValueOf(g[0]), ValueOf(g[1]), ValueOf(g[2]), ValueOf(g[3]);
    if p.None? || q.None? then None
    else if r.Some? && s.Some? then
      Some([ByteOne(p.value, q.value), ByteTwo(q.value, r.value), ByteThree(r.value, s.value)])
    else if r.Some? && last && g[3] == '=' then Some([ByteOne(p.value, q.value), ByteTwo(q.value, r.value)])
    else if r.None? && last && g[2] == '=' && g[3] == '=' then Some([ByteOne(p.value, q.value)])
    else None
  }

  function Decode(s: string): Option<seq<Byte>>
    decreases |s|
  {
    if |s| == 0 then Some([])
    else if |s| < 4 then None
    else if |s| == 4 then DecodeGroup(s, true)
    else
      var group, rest := DecodeGroup(s[..4], false), Decode(s[4..]);
      if group.Some? && rest.Some? then Some(group.value + rest.value) else None
  }

  function StripPadding(s: string): string {
    if s != "" && s[|s| - 1] == '=' then StripPadding(s[..|s| - 1]) else s
  }

  /** Python's `-len(s) % 4`, whose result is never negative. */
  function Repad(s: string): string {
    s + Padding((4 - |s| % 4) % 4)
  }

  function EncodeUnpadded(b: seq<Byte>): string {
    StripPadding(Encode(b))
  }

  function DecodeUnpadded(s: string): Option<seq<Byte>> {
    Decode(Repad(s))
  }

  // ----- round trip -----

  lemma SymbolRoundTrip(v: Sextet)
    ensures ValueOf(Symbol(v)) == Some(v) && Symbol(v) != '='
  {
  }

  lemma SextetsRoundTrip(a: Byte, b: Byte, c: Byte)
    ensures ByteOne(First(a), Second(a, b)) == a
    ensures ByteTwo(Second(a, b), Third(b, c)) == b
    ensures ByteThree(Third(b, c), Fourth(c)) == c
  {
  }

  lemma GroupSymbolsInAlphabet(b: seq<Byte>)
    requires 1 <= |b| <= 3
    ensures forall i :: 0 <= i < |b| + 1 ==> InAlphabet(GroupSymbols(b)[i])
  {
    SymbolRoundTrip(First(b[0]));
  }

  lemma GroupOfThree(a: Byte, b: Byte, c: Byte, g: string, last: bool)
    requires |g| == 4 && g[0] == Symbol(First(a)) && g[1] == Symbol(Second(a, b))
    requires g[2] == Symbol(Third(b, c)) && g[3] == Symbol(Fourth(c))
    ensures DecodeGroup(g, last) == Some([a, b, c])
  {
    SymbolRoundTrip(First(a));
    SymbolRoundTrip(Second(a, b));
    SymbolRoundTrip(Third(b, c));
    SymbolRoundTrip(Fourth(c));
    SextetsRoundTrip(a, b, c);
  }

  lemma GroupOfTwo(a: Byte, b: Byte, g: string)
    requires |g| == 4 && g[0] == Symbol(First(a)) && g[1] == Symbol(Second(a, b))
    requires g[2] == Symbol(Third(b, 0)) && g[3] == '='
    ensures DecodeGroup(g, true) == Some([a, b])
  {
    SymbolRoundTrip(First(a));
    SymbolRoundTrip(Second(a, b));
    SymbolRoundTrip(Third(b, 0));
    SextetsRoundTrip(a, b, 0);
  }

  lemma OneByteRoundTrip(a: Byte)
    ensures ByteOne(First(a), Second(a, 0)) == a
  {
    SextetsRoundTrip(a, 0, 0);
  }

  lemma DecodePaddedOne(g: string, p: Sextet, q: Sextet)
    requires |g| == 4 && ValueOf(g[0]) == Some(p) && ValueOf(g[1]) == Some(q) && g[2] == '=' && g[3] == '='
    ensures DecodeGroup(g, true) == Some([ByteOne(p, q)])
  {
  }

  lemma GroupOfOne(a: Byte, g: string)
    requires |g| == 4 && g[0] == Symbol(First(a)) && g[1] == Symbol(Second(a, 0)) && g[2] == '=' && g[3] == '='
    ensures DecodeGroup(g, true) == Some([a])
  {
    SymbolRoundTrip(First(a));
    SymbolRoundTrip(Second(a, 0));
    DecodePaddedOne(g, First(a), Second(a, 0));
    OneByteRoundTrip(a);
  }

  lemma GroupRoundTrip(b: seq<Byte>, last: bool)
    requires 1 <= |b| <= 3 && (last || |b| == 3)
    ensures DecodeGroup(GroupSymbols(b) + Padding(3 - |b|), last) == Some(b)
  {
    var g := GroupSymbols(b) + Padding(3 - |b|);
    if |b| == 1 {
      assert b == [b[0]];
      GroupOfOne(b[0], g);
    } else if |b| == 2 {
      assert b == [b[0], b[1]];
      GroupOfTwo(b[0], b[1], g);
    } else {
      assert b == [b[0], b[1], b[2]];
      GroupOfThree(b[0], b[1], b[2], g, last);
    }
  }

  lemma {:induction false} DecodeEncode(b: seq<Byte>)
    ensures Decode(Encode(b)) == Some(b)
    decreases |b|
  {
    if 0 < |b| <= 3 {
      GroupRoundTrip(b, true);
    } else if |b| > 3 {
      GroupRoundTrip(b[..3], false);
      var head, rest := GroupSymbols(b[..3]), Encode(b[3..]);
      assert head + Padding(0) == head;
      assert (head + rest)[..4] == head && (head + rest)[4..] == rest;
      assert |rest| > 0;
      DecodeEncode(b[3..]);
      assert b[..3] + b[3..] == b;
    }
  }

  /** The encoding without its padding. */
  function Symbols(b: seq<Byte>): string
    decreases |b|
  {
    if |b| == 0 then "" else if |b| <= 3 then GroupSymbols(b) else GroupSymbols(b[..3]) + Symbols(b[3..])
  }

  lemma {:induction false} EncodeIsPaddedSymbols(b: seq<Byte>, pad: nat)
    requires pad == (3 - |b| % 3) % 3
    ensures Encode(b) == Symbols(b) + Padding(pad)
    decreases |b|
  {
    if |b| > 3 {
      ThreeFewer(|b|);
      EncodeIsPaddedSymbols(b[3..], pad);
      Associative(GroupSymbols(b[..3]), Symbols(b[3..]), Padding(pad));
    } else if |b| == 0 {
      assert "" + Padding(0) == "";
    }
  }

  lemma ThreeFewer(n: nat)
    requires n > 3
    ensures (n - 3) % 3 == n % 3
  {
  }

  lemma FourMore(n: nat)
    ensures (n + 4) % 4 == n % 4
  {
  }

  lemma {:induction false} SymbolsLength(b: seq<Byte>)
    ensures |Symbols(b)| % 4 == (if |b| % 3 == 0 then 0 else |b| % 3 + 1)
    decreases |b|
  {
    if |b| > 3 {
      ThreeFewer(|b|);
      SymbolsLength(b[3..]);
      FourMore(|Symbols(b[3..])|);
    }
  }

  lemma {:induction false} SymbolsInAlphabet(b: seq<Byte>, i: nat)
    requires i < |Symbols(b)|
    ensures InAlphabet(Symbols(b)[i])
    decreases |b|
  {
    if |b| <= 3 {
      GroupSymbolsInAlphabet(b);
    } else {
      GroupSymbolsInAlphabet(b[..3]);
      if i >= 4 {
        SymbolsInAlphabet(b[3..], i - 4);
      }
    }
  }

  lemma {:induction false} StripOfPadded(s: string, n: nat)
    requires forall i :: 0 <= i < |s| ==> InAlphabet(s[i])
    ensures StripPadding(s + Padding(n)) == s
  {
    if n == 0 {
      assert s + Padding(0) == s;
    } else {
      var whole := s + Padding(n);
      assert whole[|whole| - 1] == '=';
      assert whole[..|whole| - 1] == s + Padding(n - 1);
      StripOfPadded(s, n - 1);
    }
  }

  lemma UnpaddedIsSymbols(b: seq<Byte>)
    ensures EncodeUnpadded(b) == Symbols(b) && Repad(Symbols(b)) == Encode(b)
  {
    var pad := (3 - |b| % 3) % 3;
    EncodeIsPaddedSymbols(b, pad);
    SymbolsLength(b);
    forall i | 0 <= i < |Symbols(b)| ensures InAlphabet(Symbols(b)[i]) {
      SymbolsInAlphabet(b, i);
    }
    StripOfPadded(Symbols(b), pad);
    PadAmount(|b|, |Symbols(b)|);
  }

  lemma PadAmount(n: nat, m: nat)
    requires m % 4 == (if n % 3 == 0 then 0 else n % 3 + 1)
    ensures (4 - m % 4) % 4 == (3 - n % 3) % 3
  {
  }

  /** For every byte string: dropping the padding, putting `-len % 4` of it back and decoding is the identity; the
      length is never 1 modulo 4, and only symbols of the URL-safe alphabet are used. */
  lemma UnpaddedRoundTrip(b: seq<Byte>)
    ensures DecodeUnpadded(EncodeUnpadded(b)) == Some(b)
    ensures |EncodeUnpadded(b)| % 4 != 1
    ensures forall i :: 0 <= i < |EncodeUnpadded(b)| ==> InAlphabet(EncodeUnpadded(b)[i])
  {
    UnpaddedIsSymbols(b);
    SymbolsLength(b);
    forall i | 0 <= i < |Symbols(b)| ensures InAlphabet(Symbols(b)[i]) {
      SymbolsInAlphabet(b, i);
    }
    DecodeEncode(b);
  }
}
