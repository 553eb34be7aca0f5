/** What the chunker makes of two documents under a byte-level tokenizer, whatever it is configured with: it loses text
    of the one, and breaks its cap on the other. */
module TrimLoss {
  import opened Wrappers
  import opened Texts
  import opened Parser
  import opened Splitter
  import opened Chunker
  import opened ByteTokens
  import opened PairTokens
  import Utf8

  // ----- the pieces of the text -----

  lemma FreeWithoutFirst(text: string, sep: string)
    requires sep != "" && forall i :: 0 <= i < |text| ==> text[i] != sep[0]
    ensures Free(text, sep)
  {
    FreeMeansNowhere(text, sep);
    forall k: nat ensures !At(text, sep, k) {
      if k + |sep| <= |text| {
        assert text[k..k + |sep|][0] == text[k];
      }
    }
  }

  lemma SplitAtSpace(rest: string)
    requires forall i :: 0 <= i < |rest| ==> rest[i] != ' '
    ensures Split("a" + (" " + rest), " ") == ["a", rest]
  {
    var text := "a" + (" " + rest);
    SpaceAtOne(text, rest);
    FreeWithoutFirst(rest, " ");
    SplitOnce(text, " ", 1, rest);
  }

  lemma SpaceAtOne(text: string, rest: string)
    requires text == "a" + (" " + rest)
    ensures IndexOf(text, " ") == 1 && text[..1] == "a" && text[2..] == rest
  {
    assert text[0..1] == "a" && text[1..2] == " ";
    IndexOfIsOne(text);
  }

  lemma IndexOfIsOne(text: string)
    requires At(text, " ", 1) && !At(text, " ", 0)
    ensures IndexOf(text, " ") == 1
  {
    var i := IndexOf(text, " ");
    if i != 1 {
      IndexOfIsFirst(text, " ", 1);
    }
  }

  lemma PackTwo(r: Rules, a: string, b: string)
    requires a != "" && b != "" && r.count(a) <= r.maxTokens && r.count(a + (" " + b)) > r.maxTokens
    ensures Pack(r, " ", "", [a, b]) == [a, b]
  {
    assert Extended(" ", "", a) == a && [a, b][1..] == [b] && [b][1..] == [];
    assert Extended(" ", a, b) == a + (" " + b);
    assert Pack(r, " ", a, [b]) == [a] + [b];
  }

  lemma TwoFit(r: Rules, depth: nat, a: string, b: string)
    requires r.Valid() && depth <= |r.seps| && a != "" && b != ""
    requires r.count(a) <= r.maxTokens && r.count(b) <= r.maxTokens
    ensures PiecesOfAll(r, depth, [a, b]) == [a, b]
  {
    assert [a, b][1..] == [b] && [b][1..] == [];
    assert PiecesOfAll(r, depth, [b]) == [b] + [];
  }

  const SPACE: nat := 6

  /** The tokenizer, and a space among the separators behind others that begin with no character of the text. */
  ghost predicate Deployed(s: Settings) {
    && s.tok == PAIRS && s.Valid() && SPACE < s.SplitRules().Listed() && s.seps[SPACE] == " "
    && forall k :: 0 <= k < SPACE ==> BeginsOtherwise(s.seps[k])
  }

  predicate BeginsOtherwise(sep: string) {
    sep != "" && sep[0] != 'a' && sep[0] != ' ' && sep[0] != 'b' && sep[0] != 'c'
  }

  lemma SourceIsDeployed(maxTokens: nat, overlap: nat)
    requires maxTokens >= 1
    ensures Deployed(SourceSettings(PAIRS, maxTokens, overlap))
  {
    SeparatorsBegin();
  }

  lemma SeparatorsBegin()
    ensures |SEPARATORS| == SPACE + 2 && SEPARATORS[SPACE] == " "
    ensures forall k :: 0 <= k < SPACE ==> BeginsOtherwise(SEPARATORS[k])
  {
    assert BeginsOtherwise("\n\n") && BeginsOtherwise("\n") && BeginsOtherwise(". ");
    assert BeginsOtherwise("! ") && BeginsOtherwise("? ") && BeginsOtherwise("\U{3002}");
  }

  lemma CutInTwo(r: Rules, depth: nat, text: string, a: string, b: string)
    requires r.Valid() && depth < r.Listed() && r.seps[depth] == " " && r.count(text) > r.maxTokens
    requires Split(text, " ") == [a, b] && text == a + (" " + b) && a != "" && b != ""
    requires r.count(a) <= r.maxTokens && r.count(b) <= r.maxTokens
    ensures Pieces(r, depth, text) == [a, b]
  {
    PiecesLevel(r, depth, text);
    PackTwo(r, a, b);
    TwoFit(r, depth + 1, a, b);
  }

  ghost predicate NoSpace(b: string) {
    forall i :: 0 <= i < |b| ==> b[i] != ' '
  }

  lemma CutAtSpace(r: Rules, text: string, b: string)
    requires r.Valid() && SPACE < r.Listed() && r.seps[SPACE] == " " && FreeUpTo(r, text, SPACE)
    requires text == "a" + (" " + b) && b != "" && NoSpace(b)
    requires r.count(text) > r.maxTokens && r.count("a") <= r.maxTokens && r.count(b) <= r.maxTokens
    ensures Pieces(r, 0, text) == ["a", b]
  {
    SkipFree(r, 0, SPACE, text);
    SplitAtSpace(b);
    CutInTwo(r, SPACE, text, "a", b);
  }

  /** The splitter cuts the text at its space. */
  lemma TwoPieces(s: Settings, text: string, b: string)
    requires Deployed(s) && text == "a" + (" " + b) && b == Bc(s.maxTokens)
    ensures Pieces(s.SplitRules(), 0, text) == ["a", b]
  {
    RulesCount(s, text, b);
    BcHasNoSpace(s.maxTokens);
    FreeOfBc(s, text, b);
    CutAtSpace(s.SplitRules(), text, b);
  }

  lemma RulesCount(s: Settings, text: string, b: string)
    requires s.tok == PAIRS && s.maxTokens >= 1 && text == "a" + (" " + b) && b == Bc(s.maxTokens)
    ensures var r := s.SplitRules();
            r.count(text) > s.maxTokens && r.count("a") <= s.maxTokens && r.count(b) <= s.maxTokens
  {
    Counts(s.maxTokens);
    SameCount(s, text);
    SameCount(s, "a");
    SameCount(s, b);
  }

  lemma SameCount(s: Settings, text: string)
    ensures s.SplitRules().count(text) == s.tok.Count(text)
  {
  }

  lemma BcHasNoSpace(n: nat)
    ensures NoSpace(Bc(n))
  {
  }

  lemma FreeOfBc(s: Settings, text: string, b: string)
    requires Deployed(s) && text == "a" + (" " + b) && b == Bc(s.maxTokens)
    ensures FreeUpTo(s.SplitRules(), text, SPACE)
  {
    FreeBeforeSpace(s, text);
  }

  lemma FreeBeforeSpace(s: Settings, text: string)
    requires Deployed(s)
    requires forall i :: 0 <= i < |text| ==> text[i] == 'a' || text[i] == ' ' || text[i] == 'b' || text[i] == 'c'
    ensures FreeUpTo(s.SplitRules(), text, SPACE)
  {
    forall k | 0 <= k < SPACE ensures Free(text, s.seps[k]) {
      assert BeginsOtherwise(s.seps[k]);
      FreeWithoutFirst(text, s.seps[k]);
    }
  }

  // ----- what trimming does to the second piece -----

  lemma HandsOnA(s: Settings)
    requires s.tok == PAIRS && s.overlap >= 1
    ensures NextBody(s, "", "a") == "a" && TailForOverlap(s, "a") == "a"
  {
    TokensOfA();
    StripOfTrimmed("a");
  }

  lemma CutsToC(s: Settings)
    requires s.tok == PAIRS && s.maxTokens >= 1
    ensures TrimToTokens(s, "a" + Bc(s.maxTokens)) == "c" + Bc(s.maxTokens - 1)
  {
    var n := s.maxTokens;
    CountBehindA(n);
    TokensBehindA(n);
    AllButFirst(s, "a" + Bc(n), 256, [99] + BcTokens(n - 1));
    DecodeBehindC(n - 1);
  }

  lemma AllButFirst(s: Settings, text: string, t: int, rest: seq<int>)
    requires s.tok.encode(text) == [t] + rest
    ensures LastTokens(s, text, |rest|) == s.tok.decode(rest)
  {
    assert ([t] + rest)[1..] == rest;
  }

  lemma TrimsToC(s: Settings)
    requires s.tok == PAIRS && s.maxTokens >= 1 && s.overlap >= 1
    ensures NextBody(s, "a", Bc(s.maxTokens)) == "c" + Bc(s.maxTokens - 1)
    ensures !Whole(s, "a", Bc(s.maxTokens))
  {
    CutsToC(s);
    StripOfTrimmed("c" + Bc(s.maxTokens - 1));
  }

  lemma TwoBodies(s: Settings, p: string, q: string, a: string, c: string)
    requires NextBody(s, "", p) == a != "" && NextBody(s, TailForOverlap(s, a), q) == c != ""
    ensures Bodies(s, [p, q]) == [a, c] && Bodies(s, [p, q][..1]) == [a]
  {
    FirstBody(s, [p, q], a);
    SecondBody(s, [p, q], a, c);
  }

  lemma FirstBody(s: Settings, pieces: seq<string>, a: string)
    requires pieces != [] && NextBody(s, "", pieces[0]) == a != ""
    ensures Bodies(s, pieces[..1]) == [a]
  {
    assert pieces[..0] == [];
    BodiesStep(s, pieces, 0, [], a);
    assert [] + [a] == [a];
  }

  lemma SecondBody(s: Settings, pieces: seq<string>, a: string, c: string)
    requires |pieces| == 2 && Bodies(s, pieces[..1]) == [a]
    requires NextBody(s, TailForOverlap(s, a), pieces[1]) == c != ""
    ensures Bodies(s, pieces) == [a, c]
  {
    assert pieces[..2] == pieces;
    BodiesStep(s, pieces, 1, [a], c);
    assert [a] + [c] == [a, c];
  }

  /** Behind the tail "a" the second piece, which fits by itself, takes one token more than the cap, and loses its first
      character. */
  lemma BodiesLoseText(s: Settings)
    requires Deployed(s) && s.overlap >= 1
    ensures var pieces := ["a", Bc(s.maxTokens)];
            Bodies(s, pieces) == ["a", "c" + Bc(s.maxTokens - 1)] && !WholeAt(s, pieces, 1)
  {
    HandsOnA(s);
    TrimsToC(s);
    TwoBodies(s, "a", Bc(s.maxTokens), "a", "c" + Bc(s.maxTokens - 1));
  }

  /** The settings that the chunker makes of arguments it accepts. */
  ghost predicate Accepted(targetTokens: int, maxTokens: int, overlapRatio: real, overlap: nat) {
    Validated(targetTokens, maxTokens, overlapRatio) == None && overlap == (targetTokens as real * overlapRatio).Floor
  }

  lemma RatioWithin(targetTokens: int, overlapRatio: real)
    requires targetTokens > 0 && 0.0 <= overlapRatio < 1.0
    ensures 0 <= (targetTokens as real * overlapRatio).Floor < targetTokens
  {
    var t := targetTokens as real;
    assert 0.0 <= t * overlapRatio < t;
  }

  /** There are two chunks, with these texts. */
  ghost predicate AreTexts(chunks: seq<Chunk>, a: string, b: string) {
    |chunks| == 2 && chunks[0].text == a && chunks[1].text == b
  }

  /** For all arguments the chunker accepts that come to an overlap at all: a document is given chunks that lack one of
      its characters, under a byte-level tokenizer. The first "b" is in no chunk. */
  lemma TrimLosesText(targetTokens: int, maxTokens: int, overlapRatio: real, overlap: nat, section: Section)
    requires Accepted(targetTokens, maxTokens, overlapRatio, overlap) && overlap >= 1
    requires section.text == "a" + (" " + Bc(maxTokens))
    ensures ByteLevel(PAIRS, Spell)
    ensures AreTexts(Chunks(SourceSettings(PAIRS, maxTokens, overlap), [section]), "a", "c" + Bc(maxTokens - 1))
  {
    AnyOverlapLosesText(maxTokens, overlap, section);
  }

  lemma AnyOverlapLosesText(maxTokens: nat, overlap: nat, section: Section)
    requires maxTokens >= 1 && overlap >= 1 && section.text == "a" + (" " + Bc(maxTokens))
    ensures ByteLevel(PAIRS, Spell)
    ensures AreTexts(Chunks(SourceSettings(PAIRS, maxTokens, overlap), [section]), "a", "c" + Bc(maxTokens - 1))
  {
    PairsAreByteLevel();
    SourceIsDeployed(maxTokens, overlap);
    ChunksLoseText(SourceSettings(PAIRS, maxTokens, overlap), section);
  }

  lemma ChunksLoseText(s: Settings, section: Section)
    requires Deployed(s) && s.overlap >= 1 && section.text == "a" + (" " + Bc(s.maxTokens))
    ensures AreTexts(Chunks(s, [section]), "a", "c" + Bc(s.maxTokens - 1))
  {
    SectionLosesText(s, section);
    OneSection(s, section);
  }

  lemma SectionLosesText(s: Settings, section: Section)
    requires Deployed(s) && s.overlap >= 1 && section.text == "a" + (" " + Bc(s.maxTokens))
    ensures SectionBodies(s, section) == ["a", "c" + Bc(s.maxTokens - 1)]
  {
    CountOfText(s.maxTokens);
    CountOfTrimmed(section.text);
    TwoPieces(s, section.text, Bc(s.maxTokens));
    BodiesLoseText(s);
  }

  /** The pieces of every text stay whole under this tokenizer. */
  ghost predicate KeepsPieces(s: Settings) {
    s.Valid() && forall text: string, p: nat :: KeepsPiece(s, Pieces(s.SplitRules(), 0, text), p)
  }

  predicate KeepsPiece(s: Settings, pieces: seq<string>, p: nat) {
    p < |pieces| ==> WholeAt(s, pieces, p)
  }

  /** Exactly when trimming never eats into a piece, whatever the byte-level tokenizer and the text: when there is no
      overlap. */
  lemma TrimIsSafeIff(targetTokens: int, maxTokens: int, overlapRatio: real, overlap: nat)
    requires Accepted(targetTokens, maxTokens, overlapRatio, overlap)
    ensures (forall tok, bytesOf :: ByteLevel(tok, bytesOf) ==> KeepsPieces(SourceSettings(tok, maxTokens, overlap)))
       <==> overlap == 0
  {
    if overlap == 0 {
      forall tok, bytesOf | ByteLevel(tok, bytesOf) ensures KeepsPieces(SourceSettings(tok, maxTokens, overlap)) {
        NoOverlapKeepsPieces(SourceSettings(tok, maxTokens, overlap));
      }
    } else {
      PairsAreByteLevel();
      SourceIsDeployed(maxTokens, overlap);
      EatsPiece(SourceSettings(PAIRS, maxTokens, overlap));
    }
  }

  /** Such arguments come to no overlap if and only if the ratio is below one part in the target. */
  lemma NoOverlapIff(targetTokens: int, maxTokens: int, overlapRatio: real, overlap: nat)
    requires Accepted(targetTokens, maxTokens, overlapRatio, overlap)
    ensures overlap < targetTokens <= maxTokens && (overlap == 0 <==> targetTokens as real * overlapRatio < 1.0)
  {
    RatioWithin(targetTokens, overlapRatio);
  }

  lemma NoOverlapKeepsPieces(s: Settings)
    requires s.Valid() && s.overlap == 0
    ensures KeepsPieces(s)
  {
    forall text: string, p: nat ensures KeepsPiece(s, Pieces(s.SplitRules(), 0, text), p) {
      var pieces := Pieces(s.SplitRules(), 0, text);
      if p < |pieces| {
        WholeUntrimmed(s, TailOf(s, Bodies(s, pieces[..p])), pieces[p]);
      }
    }
  }

  lemma EatsPiece(s: Settings)
    requires Deployed(s) && s.overlap >= 1
    ensures !KeepsPieces(s)
  {
    var text := "a" + (" " + Bc(s.maxTokens));
    TwoPieces(s, text, Bc(s.maxTokens));
    BodiesLoseText(s);
    assert !KeepsPiece(s, Pieces(s.SplitRules(), 0, text), 1);
  }

  // ----- characters of several tokens -----

  lemma EmojisAreRun(s: Settings, n: nat)
    requires s.Valid() && s.seps == SEPARATORS && 0 < n <= s.maxTokens
    ensures TrimmedRun(s.SplitRules(), Emojis(n))
  {
    var r, text := s.SplitRules(), Emojis(n);
    StripOfTrimmed(text);
    forall k | 0 <= k < r.Listed() ensures Free(text, r.seps[k]) {
      FreeWithoutFirst(text, r.seps[k]);
    }
  }

  /** For all arguments the chunker accepts: the only chunk of a text of as many such characters as the cap has four
      times as many tokens as the cap. */
  lemma CapBrokenByWideCharacters(targetTokens: int, maxTokens: int, overlapRatio: real, overlap: nat, section: Section)
    requires Accepted(targetTokens, maxTokens, overlapRatio, overlap) && section.text == Emojis(maxTokens)
    ensures ByteLevel(PAIRS, Spell)
    ensures Chunks(SourceSettings(PAIRS, maxTokens, overlap), [section])
         == [Chunk(section.text, section.title, 0, 4 * maxTokens, section.page)]
  {
    PairsAreByteLevel();
    var s := SourceSettings(PAIRS, maxTokens, overlap);
    EmojiBytes(section.text);
    MergeHigh(Utf8.Encode(section.text));
    CountOfTrimmed(section.text);
    EmojisAreRun(s, s.maxTokens);
    RunIsOneChunk(s, section);
  }
}
