/** A byte-level tokenizer with a token for each byte and two more for pairs of bytes.

    - `Merge` takes the tokens greedily from the left, and what it takes spells the bytes it was given;
    - behind an "a" the text "bc" and so on takes one token more than by itself;
    - a character of four bytes takes four tokens. */
module PairTokens {
  import opened Collections
  import opened Wrappers
  import opened Texts
  import opened Chunker
  import opened ByteTokens
  import Utf8

  /** A token for each byte, and one each for "ab" and "bc", taken greedily from the left. */
  function Merge(bytes: seq<Byte>): seq<int>
    decreases |bytes|
  {
    if bytes == [] then []
    else if bytes[..Least(2, |bytes|)] == [97, 98] then [256] + Merge(bytes[2..])
    else if bytes[..Least(2, |bytes|)] == [98, 99] then [257] + Merge(bytes[2..])
    else [bytes[0]] + Merge(bytes[1..])
  }

  function Spell(t: int): seq<Byte> {
    if t == 256 then [97, 98] else if t == 257 then [98, 99] else if 0 <= t < 256 then [t] else [0]
  }

  const PAIRS := Tokenizer(s => Merge(Utf8.Encode(s)), tokens => Decoded(Bytes(Spell, tokens)))

  lemma {:induction false} MergeSpells(bytes: seq<Byte>)
    ensures Bytes(Spell, Merge(bytes)) == bytes
    decreases |bytes|
  {
    if bytes != [] {
      if bytes[..Least(2, |bytes|)] in {[97, 98], [98, 99]} {
        MergeSpells(bytes[2..]);
        assert bytes == bytes[..2] + bytes[2..];
      } else {
        MergeSpells(bytes[1..]);
        assert bytes == [bytes[0]] + bytes[1..];
      }
    }
  }

  lemma PairsAreByteLevel()
    ensures ByteLevel(PAIRS, Spell)
  {
    forall s: string ensures Spells(PAIRS, Spell, s) {
      MergeSpells(Utf8.Encode(s));
    }
    forall tokens: seq<int> ensures Decodes(PAIRS, Spell, tokens) {
    }
  }

  /** A text whose bytes are those of these tokens is what they decode to. */
  lemma DecodesTo(tokens: seq<int>, text: string)
    requires Bytes(Spell, tokens) == Utf8.Encode(text)
    ensures PAIRS.decode(tokens) == text
  {
    Utf8.RoundTrip(true, text);
  }

  // ----- the text and its tokens -----

  /** "bc" n times. */
  function Bc(n: nat): (s: string)
    ensures |s| == 2 * n && forall i :: 0 <= i < |s| ==> s[i] == 'b' || s[i] == 'c'
    ensures n > 0 ==> s[0] == 'b' && s[|s| - 1] == 'c'
  {
    if n == 0 then "" else ['b', 'c'] + Bc(n - 1)
  }

  /** Its bytes, and its tokens. */
  function BcBytes(n: nat): seq<Byte> {
    if n == 0 then [] else [98, 99] + BcBytes(n - 1)
  }

  function BcTokens(n: nat): (tokens: seq<int>)
    ensures |tokens| == n
  {
    if n == 0 then [] else [257] + BcTokens(n - 1)
  }

  lemma LetterFirst(c: char, rest: string)
    requires c as int < 0x80
    ensures Utf8.Encode([c] + rest) == [c as int] + Utf8.Encode(rest)
  {
    assert ([c] + rest)[1..] == rest;
  }

  lemma {:induction false} EncodeBc(n: nat)
    ensures Utf8.Encode(Bc(n)) == BcBytes(n)
  {
    if n > 0 {
      EncodeBc(n - 1);
      BcBehind(Bc(n - 1), BcBytes(n - 1), Bc(n));
    }
  }

  lemma BcBehind(rest: string, bytes: seq<Byte>, s: string)
    requires Utf8.Encode(rest) == bytes && s == ['b', 'c'] + rest
    ensures Utf8.Encode(s) == [98, 99] + bytes
  {
    EncodePair('b', 'c', rest);
  }

  lemma EncodePair(c: char, d: char, rest: string)
    requires c as int < 0x80 && d as int < 0x80
    ensures Utf8.Encode([c, d] + rest) == [c as int, d as int] + Utf8.Encode(rest)
  {
    LetterFirst(d, rest);
    LetterFirst(c, [d] + rest);
    assert [c] + ([d] + rest) == [c, d] + rest;
    assert [c as int] + ([d as int] + Utf8.Encode(rest)) == [c as int, d as int] + Utf8.Encode(rest);
  }

  lemma MergePair(p: Byte, q: Byte, rest: seq<Byte>)
    ensures p == 97 && q == 98 ==> Merge([p, q] + rest) == [256] + Merge(rest)
    ensures p == 98 && q == 99 ==> Merge([p, q] + rest) == [257] + Merge(rest)
  {
    assert ([p, q] + rest)[..2] == [p, q] && ([p, q] + rest)[2..] == rest;
  }

  lemma MergeSingle(b: Byte, rest: seq<Byte>)
    requires !(rest != [] && ((b == 97 && rest[0] == 98) || (b == 98 && rest[0] == 99)))
    ensures Merge([b] + rest) == [b] + Merge(rest)
  {
    var bytes := [b] + rest;
    assert bytes[1..] == rest;
    if rest != [] {
      assert bytes[..2] == [b, rest[0]];
    }
  }

  lemma {:induction false} MergeBc(n: nat)
    ensures Merge(BcBytes(n)) == BcTokens(n)
  {
    if n > 0 {
      MergeBc(n - 1);
      MergePair(98, 99, BcBytes(n - 1));
    }
  }

  lemma {:induction false} SpellBc(n: nat)
    ensures Bytes(Spell, BcTokens(n)) == BcBytes(n)
  {
    if n > 0 {
      SpellBc(n - 1);
      assert BcTokens(n)[1..] == BcTokens(n - 1);
    }
  }

  lemma BcOpens(n: nat)
    ensures BcBytes(n) != [] ==> BcBytes(n)[0] == 98
  {
  }

  lemma TokensOfA()
    ensures PAIRS.encode("a") == [97]
  {
    LetterFirst('a', "");
    assert ['a'] + "" == "a" && [97] + [] == [97];
    MergeSingle(97, []);
  }

  lemma TokensOfBc(n: nat)
    ensures PAIRS.encode(Bc(n)) == BcTokens(n)
  {
    EncodeBc(n);
    MergeBc(n);
  }

  /** Behind an "a" the same text takes one token more than with the "a" by itself. */
  lemma TokensBehindA(n: nat)
    requires n > 0
    ensures PAIRS.encode("a" + Bc(n)) == [256] + ([99] + BcTokens(n - 1))
  {
    LetterFirst('a', Bc(n));
    EncodeBc(n);
    var rest := BcBytes(n - 1);
    assert [97] + ([98, 99] + rest) == [97, 98] + ([99] + rest);
    MergePair(97, 98, [99] + rest);
    BcOpens(n - 1);
    MergeSingle(99, rest);
    MergeBc(n - 1);
  }

  lemma TokensOfText(n: nat)
    ensures PAIRS.encode("a" + (" " + Bc(n))) == [97] + ([32] + BcTokens(n))
  {
    LetterFirst('a', " " + Bc(n));
    LetterFirst(' ', Bc(n));
    EncodeBc(n);
    MergeSingle(97, [32] + BcBytes(n));
    MergeSingle(32, BcBytes(n));
    MergeBc(n);
  }

  lemma DecodeBehindC(n: nat)
    ensures PAIRS.decode([99] + BcTokens(n)) == "c" + Bc(n)
  {
    LetterFirst('c', Bc(n));
    EncodeBc(n);
    SpellBc(n);
    assert ([99] + BcTokens(n))[1..] == BcTokens(n);
    DecodesTo([99] + BcTokens(n), "c" + Bc(n));
  }

  lemma CountOfTrimmed(text: string)
    requires text != "" && !IsSpace(text[0]) && !IsSpace(text[|text| - 1])
    ensures Strip(text) == text && PAIRS.Count(text) == |PAIRS.encode(text)|
  {
    StripOfTrimmed(text);
  }

  lemma Counts(n: nat)
    requires n > 0
    ensures PAIRS.Count("a") == 1 && PAIRS.Count(Bc(n)) == n && PAIRS.Count("a" + Bc(n)) == n + 1
    ensures PAIRS.Count("a" + (" " + Bc(n))) == n + 2
  {
    CountOfA();
    CountOfBc(n);
    CountBehindA(n);
    CountOfText(n);
  }

  lemma CountOfA()
    ensures PAIRS.Count("a") == 1
  {
    TokensOfA();
    CountOfTrimmed("a");
  }

  lemma CountOfBc(n: nat)
    requires n > 0
    ensures PAIRS.Count(Bc(n)) == n
  {
    TokensOfBc(n);
    CountOfTrimmed(Bc(n));
  }

  lemma CountBehindA(n: nat)
    requires n > 0
    ensures PAIRS.Count("a" + Bc(n)) == n + 1
  {
    TokensBehindA(n);
    CountOfTrimmed("a" + Bc(n));
  }

  lemma CountOfText(n: nat)
    requires n > 0
    ensures PAIRS.Count("a" + (" " + Bc(n))) == n + 2
  {
    TokensOfText(n);
    CountOfTrimmed("a" + (" " + Bc(n)));
  }

  // ----- characters of several tokens -----

  /** A character of four bytes, n times. */
  function Emojis(n: nat): (s: string)
    ensures |s| == n && forall i :: 0 <= i < n ==> s[i] == '\U{1F600}'
  {
    seq(n, _ => '\U{1F600}')
  }

  ghost predicate High(bytes: seq<Byte>) {
    forall i :: 0 <= i < |bytes| ==> bytes[i] >= 0x80
  }

  lemma {:induction false} EmojiBytes(text: string)
    requires forall i :: 0 <= i < |text| ==> text[i] == '\U{1F600}'
    ensures |Utf8.Encode(text)| == 4 * |text| && High(Utf8.Encode(text))
    decreases |text|
  {
    if text != "" {
      EmojiBytes(text[1..]);
      assert |Utf8.EncodeChar(text[0])| == 4 && High(Utf8.EncodeChar(text[0]));
    }
  }

  lemma {:induction false} MergeHigh(bytes: seq<Byte>)
    requires High(bytes)
    ensures Merge(bytes) == bytes
    decreases |bytes|
  {
    if bytes != [] {
      MergeHigh(bytes[1..]);
      MergeSingle(bytes[0], bytes[1..]);
      assert bytes == [bytes[0]] + bytes[1..];
    }
  }
}
