/** The chunker: one chunk per section that fits, and otherwise the pieces of the section, each carrying
    the tail of the chunk before it as overlap. */
module Chunker {
  import opened Wrappers
  import opened Texts
  import opened Parser
  import opened Splitter
  import Utf8

  /** What a cut through a character leaves of it, at most three replacement characters, and the text from `j` on. */
  function Mended(s: string, m: nat, j: nat): string
    requires j <= |s|
  {
    Utf8.Replacements(m) + s[j..]
  }

  /** An end of the text, up to a character cut through. */
  ghost predicate IsEnd(s: string, out: string) {
    exists m: nat, j: nat :: m <= 3 && j <= |s| && out == Mended(s, m, j)
  }

  datatype Chunk = Chunk(text: string, title: string, index: nat, tokenCount: nat, page: Option<int>)

  datatype ChunkError = TargetNotPositive | MaxBelowTarget | RatioOutOfRange

  datatype Tokenizer = Tokenizer(encode: string -> seq<int>, decode: seq<int> -> string) {

    /** `count_tokens`: whitespace counts nothing. */
    function Count(text: string): nat {
      if Strip(text) == "" then 0 else |encode(text)|
    }

    function Counter(): string -> nat {
      text => Count(text)
    }

    /** Cutting tokens off the front of the text leaves an end of it, and nothing only when all are cut. */
    ghost predicate CutsToEnds(s: string) {
      && (s != "" ==> encode(s) != [])
      && forall k :: 0 <= k <= |encode(s)| ==>
           IsEnd(s, decode(encode(s)[k..])) && (k < |encode(s)| ==> decode(encode(s)[k..]) != "")
    }

    /** The last n tokens of the text count as n tokens at most, and stripping it does not make it count more. */
    ghost predicate Shrinks(s: string) {
      && Count(Strip(s)) <= Count(s)
      && forall k :: 0 <= k <= |encode(s)| ==> Count(decode(encode(s)[k..])) <= |encode(s)| - k
    }

    /** One token per character, so that cutting tokens cuts characters. */
    ghost predicate OnePerChar() {
      forall s: string :: OnePerCharOf(s)
    }

    ghost predicate OnePerCharOf(s: string) {
      |encode(s)| == |s| && forall k :: 0 <= k <= |s| ==> decode(encode(s)[k..]) == s[k..]
    }
  }

  /** What a document is chunked with: `overlap` is the number of tokens carried over. */
  datatype Settings = Settings(tok: Tokenizer, maxTokens: nat, overlap: nat, seps: seq<string>) {

    function SplitRules(): Rules {
      Rules(tok.Counter(), maxTokens, seps)
    }

    predicate Valid() {
      SplitRules().Valid()
    }
  }

  function SourceSettings(tok: Tokenizer, maxTokens: nat, overlap: nat): (s: Settings)
    ensures maxTokens >= 1 ==> s.Valid()
  {
    Settings(tok, maxTokens, overlap, SEPARATORS)
  }

  function LastTokens(s: Settings, text: string, n: nat): string {
    var tokens := s.tok.encode(text);
    if |tokens| <= n then text else s.tok.decode(tokens[|tokens| - n..])
  }

  function TailForOverlap(s: Settings, text: string): string {
    if s.overlap == 0 || text == "" then "" else LastTokens(s, text, s.overlap)
  }

  /** Cuts from the front to keep the end. */
  function TrimToTokens(s: Settings, text: string): string {
    if s.tok.Count(text) <= s.maxTokens then text else LastTokens(s, text, s.maxTokens)
  }

  /** A piece with the overlap in front of it; no overlap yet is the empty `tail`. */
  function Overlapped(s: Settings, tail: string, piece: string): string {
    if tail != "" && s.overlap > 0 then TrimToTokens(s, tail + piece) else piece
  }

  /** What the texts so far hand on to the next one. */
  function TailOf(s: Settings, bodies: seq<string>): string {
    if bodies == [] then "" else TailForOverlap(s, bodies[|bodies| - 1])
  }

  function NextBody(s: Settings, tail: string, piece: string): string {
    Strip(Overlapped(s, tail, piece))
  }

  /** The texts made of `pieces` one by one, `next` giving each from the texts before it; blank ones are left out. */
  function Grow(next: (seq<string>, string) -> string, pieces: seq<string>): seq<string> {
    if pieces == [] then []
    else
      var before := Grow(next, pieces[..|pieces| - 1]);
      var body := next(before, pieces[|pieces| - 1]);
      if body == "" then before else before + [body]
  }

  /** Each piece comes behind the tail of the text before it. */
  function Behind(s: Settings): (seq<string>, string) -> string {
    (before: seq<string>, piece: string) => NextBody(s, TailOf(s, before), piece)
  }

  /** The chunk texts made of the pieces of one section. */
  function Bodies(s: Settings, pieces: seq<string>): seq<string> {
    Grow(Behind(s), pieces)
  }

  function SectionBodies(s: Settings, section: Section): seq<string>
    requires s.Valid()
  {
    var text := Strip(section.text);
    if text == "" then []
    else if s.tok.Count(text) <= s.maxTokens then [text]
    else Bodies(s, Pieces(s.SplitRules(), 0, text))
  }

  function Record(s: Settings, section: Section, body: string, index: nat): Chunk {
    Chunk(body, section.title, index, s.tok.Count(body), section.page)
  }

  /** Chunk records for the texts of one section, numbered from `next`. */
  function Records(s: Settings, section: Section, bodies: seq<string>, next: nat): (chunks: seq<Chunk>)
    ensures |chunks| == |bodies|
    ensures forall i :: 0 <= i < |bodies| ==> chunks[i] == Record(s, section, bodies[i], next + i)
  {
    seq(|bodies|, i requires 0 <= i < |bodies| => Record(s, section, bodies[i], next + i))
  }

  /** The texts that each section gives. */
  function TextsOf(s: Settings): Section -> seq<string> {
    (section: Section) => if s.Valid() then SectionBodies(s, section) else []
  }

  /** The chunks of a document, section by section, numbered through. */
  function Assemble(s: Settings, texts: Section -> seq<string>, sections: seq<Section>): seq<Chunk> {
    if sections == [] then []
    else
      var last := |sections| - 1;
      var before := Assemble(s, texts, sections[..last]);
      before + Records(s, sections[last], texts(sections[last]), |before|)
  }

  function Chunks(s: Settings, sections: seq<Section>): seq<Chunk> {
    Assemble(s, TextsOf(s), sections)
  }

  // ----- the chunker as written -----

  function Validated(targetTokens: int, maxTokens: int, overlapRatio: real): Option<ChunkError> {
    if targetTokens <= 0 then Some(TargetNotPositive)
    else if maxTokens < targetTokens then Some(MaxBelowTarget)
    else if !(0.0 <= overlapRatio < 1.0) then Some(RatioOutOfRange)
    else None
  }

  lemma RecordsGrow(s: Settings, section: Section, bodies: seq<string>, body: string, next: nat)
    ensures Records(s, section, bodies + [body], next)
         == Records(s, section, bodies, next) + [Record(s, section, body, next + |bodies|)]
  {
  }

  lemma GrowStep(next: (seq<string>, string) -> string, pieces: seq<string>, i: nat)
    requires i < |pieces|
    ensures var before := Grow(next, pieces[..i]);
            var body := next(before, pieces[i]);
            Grow(next, pieces[..i + 1]) == (if body == "" then before else before + [body])
  {
    assert pieces[..i + 1][..i] == pieces[..i];
  }

  lemma BodiesStep(s: Settings, pieces: seq<string>, i: nat, bodies: seq<string>, body: string)
    requires i < |pieces| && bodies == Bodies(s, pieces[..i])
    requires body == NextBody(s, TailOf(s, bodies), pieces[i])
    ensures Bodies(s, pieces[..i + 1]) == (if body == "" then bodies else bodies + [body])
    ensures TailOf(s, bodies + [body]) == TailForOverlap(s, body)
  {
    GrowStep(Behind(s), pieces, i);
  }

  method OverlapPiece(s: Settings, prevTail: string, piece: string) returns (body: string)
    ensures body == NextBody(s, prevTail, piece)
  {
    var combined := piece;
    if prevTail != "" && s.overlap > 0 {
      combined := TrimToTokens(s, prevTail + piece);
    }
    body := Strip(combined);
  }

  /** The variables of the loop when it has made these texts. */
  ghost predicate Made(s: Settings, section: Section, bodies: seq<string>, next: nat, chunks: seq<Chunk>,
                       nextIndex: nat, prevTail: string) {
    nextIndex == next + |bodies| && chunks == Records(s, section, bodies, next) && prevTail == TailOf(s, bodies)
  }

  lemma MadeOneMore(s: Settings, section: Section, bodies: seq<string>, next: nat, chunks: seq<Chunk>, nextIndex: nat,
                    prevTail: string, body: string)
    requires Made(s, section, bodies, next, chunks, nextIndex, prevTail)
    ensures Made(s, section, bodies + [body], next, chunks + [Record(s, section, body, nextIndex)], nextIndex + 1,
                 TailForOverlap(s, body))
  {
    RecordsGrow(s, section, bodies, body, next);
  }

  method ChunkPieces(s: Settings, section: Section, pieces: seq<string>, next: nat) returns (chunks: seq<Chunk>)
    ensures chunks == Records(s, section, Bodies(s, pieces), next)
  {
    chunks := [];
    var nextIndex := next;
    var prevTail := "";
    ghost var bodies := [];
    assert pieces[..0] == [] && Made(s, section, bodies, next, chunks, nextIndex, prevTail);
    for i := 0 to |pieces|
      invariant bodies == Bodies(s, pieces[..i]) && Made(s, section, bodies, next, chunks, nextIndex, prevTail)
    {
      var piece := OverlapPiece(s, prevTail, pieces[i]);
      BodiesStep(s, pieces, i, bodies, piece);
      if piece != "" {
        MadeOneMore(s, section, bodies, next, chunks, nextIndex, prevTail, piece);
        chunks := chunks + [Chunk(piece, section.title, nextIndex, s.tok.Count(piece), section.page)];
        nextIndex := nextIndex + 1;
        prevTail := TailForOverlap(s, piece);
        bodies := bodies + [piece];
      }
    }
    assert pieces[..|pieces|] == pieces;
  }

  method ChunkSection(s: Settings, section: Section, next: nat) returns (chunks: seq<Chunk>)
    requires s.Valid()
    ensures chunks == Records(s, section, SectionBodies(s, section), next)
  {
    var text := Strip(section.text);
    if text == "" {
      return [];
    }
    var n := s.tok.Count(text);
    if n <= s.maxTokens {
      return [Chunk(text, section.title, next, n, section.page)];
    }
    var pieces := SplitRecursive(s.SplitRules(), text, 0);
    chunks := ChunkPieces(s, section, pieces, next);
  }

  lemma AssembleStep(s: Settings, texts: Section -> seq<string>, sections: seq<Section>, i: nat)
    requires i < |sections|
    ensures var before := Assemble(s, texts, sections[..i]);
            Assemble(s, texts, sections[..i + 1]) == before + Records(s, sections[i], texts(sections[i]), |before|)
  {
    assert sections[..i + 1][..i] == sections[..i];
  }

  method ChunkAll(s: Settings, sections: seq<Section>) returns (chunks: seq<Chunk>)
    requires s.Valid()
    ensures chunks == Chunks(s, sections)
  {
    chunks := [];
    for i := 0 to |sections|
      invariant chunks == Assemble(s, TextsOf(s), sections[..i])
    {
      var more := ChunkSection(s, sections[i], |chunks|);
      AssembleStep(s, TextsOf(s), sections, i);
      chunks := chunks + more;
    }
    assert sections[..|sections|] == sections;
  }

  method ChunkBySections(tok: Tokenizer, sections: seq<Section>, targetTokens: int, maxTokens: int, overlapRatio: real)
    returns (r: Result<seq<Chunk>, ChunkError>)
    ensures match Validated(targetTokens, maxTokens, overlapRatio)
            case Some(e) => r == Err(e)
            case None =>
              r == Ok(Chunks(SourceSettings(tok, maxTokens, (targetTokens as real * overlapRatio).Floor), sections))
  {
    if targetTokens <= 0 {
      return Err(TargetNotPositive);
    }
    if maxTokens < targetTokens {
      return Err(MaxBelowTarget);
    }
    if !(0.0 <= overlapRatio < 1.0) {
      return Err(RatioOutOfRange);
    }
    var chunks := ChunkAll(SourceSettings(tok, maxTokens, (targetTokens as real * overlapRatio).Floor), sections);
    r := Ok(chunks);
  }

  // ----- numbering and provenance -----

  /** Chunk `n` is the `i`-th text of section `j`, numbered by its own position. */
  ghost predicate ComesFrom(s: Settings, texts: Section -> seq<string>, sections: seq<Section>,
                            n: nat, j: nat, i: nat) {
    var chunks := Assemble(s, texts, sections);
    && j < |sections| && i < |texts(sections[j])| && n < |chunks|
    && n == |Assemble(s, texts, sections[..j])| + i
    && chunks[n] == Chunk(texts(sections[j])[i], sections[j].title, n, s.tok.Count(texts(sections[j])[i]),
                          sections[j].page)
  }

  lemma SectionsBefore(sections: seq<Section>, j: nat)
    requires j < |sections| - 1
    ensures sections[..|sections| - 1][..j] == sections[..j] && sections[..|sections| - 1][j] == sections[j]
  {
  }

  lemma ComesFromEarlier(s: Settings, texts: Section -> seq<string>, sections: seq<Section>, n: nat, j: nat, i: nat)
    requires sections != [] && ComesFrom(s, texts, sections[..|sections| - 1], n, j, i)
    ensures ComesFrom(s, texts, sections, n, j, i)
  {
    SectionsBefore(sections, j);
    assert Assemble(s, texts, sections)[n] == Assemble(s, texts, sections[..|sections| - 1])[n];
  }

  lemma ComesFromLast(s: Settings, texts: Section -> seq<string>, sections: seq<Section>, i: nat)
    requires sections != [] && i < |texts(sections[|sections| - 1])|
    ensures var last := |sections| - 1;
            ComesFrom(s, texts, sections, |Assemble(s, texts, sections[..last])| + i, last, i)
  {
    var last := |sections| - 1;
    var before := Assemble(s, texts, sections[..last]);
    var more := Records(s, sections[last], texts(sections[last]), |before|);
    assert Assemble(s, texts, sections) == before + more;
    assert (before + more)[|before| + i] == more[i];
  }

  lemma {:induction false} TextHasChunk(s: Settings, texts: Section -> seq<string>, sections: seq<Section>,
                                        n: nat, j: nat, i: nat)
    requires j < |sections| && i < |texts(sections[j])| && n == |Assemble(s, texts, sections[..j])| + i
    ensures ComesFrom(s, texts, sections, n, j, i)
    decreases |sections|
  {
    var last := |sections| - 1;
    if j < last {
      SectionsBefore(sections, j);
      TextHasChunk(s, texts, sections[..last], n, j, i);
      ComesFromEarlier(s, texts, sections, n, j, i);
    } else {
      ComesFromLast(s, texts, sections, i);
    }
  }

  /** For any tokenizer: the `i`-th text of section `j` becomes the chunk at its place in the whole document. */
  lemma ChunkOfSection(s: Settings, texts: Section -> seq<string>, sections: seq<Section>, j: nat, i: nat)
    requires j < |sections| && i < |texts(sections[j])|
    ensures ComesFrom(s, texts, sections, |Assemble(s, texts, sections[..j])| + i, j, i)
  {
    TextHasChunk(s, texts, sections, |Assemble(s, texts, sections[..j])| + i, j, i);
  }

  /** Conversely, every chunk comes from a section; with that, `chunk_index` runs 0..n-1. */
  lemma {:induction false} SectionOfChunk(s: Settings, texts: Section -> seq<string>, sections: seq<Section>, n: nat)
    returns (j: nat, i: nat)
    requires n < |Assemble(s, texts, sections)|
    ensures ComesFrom(s, texts, sections, n, j, i) && Assemble(s, texts, sections)[n].index == n
    decreases |sections|
  {
    var last := |sections| - 1;
    var before := Assemble(s, texts, sections[..last]);
    if n < |before| {
      j, i := SectionOfChunk(s, texts, sections[..last], n);
      ComesFromEarlier(s, texts, sections, n, j, i);
    } else {
      j, i := last, n - |before|;
      ComesFromLast(s, texts, sections, i);
    }
  }

  // ----- the overlap -----

  function Codes(text: string): seq<int> {
    seq(|text|, i requires 0 <= i < |text| => text[i] as int)
  }

  function Characters(tokens: seq<int>): string {
    seq(|tokens|, i requires 0 <= i < |tokens| =>
          if 0 <= tokens[i] < 0xD800 || 0xE000 <= tokens[i] < 0x110000 then tokens[i] as char else '?')
  }

  lemma CodesBack(s: string, k: nat)
    requires k <= |s|
    ensures Characters(Codes(s)[k..]) == s[k..]
  {
    var back := Characters(Codes(s)[k..]);
    forall i | 0 <= i < |s| - k ensures back[i] == s[k..][i] {
      assert Codes(s)[k..][i] == s[k + i] as int;
    }
  }

  /** There are such tokenizers: one is the code of each character. */
  lemma CodesAreOnePerChar()
    ensures Tokenizer(Codes, Characters).OnePerChar()
  {
    var tok := Tokenizer(Codes, Characters);
    forall s: string ensures tok.OnePerCharOf(s) {
      assert tok.encode(s) == Codes(s);
      forall k | 0 <= k <= |s| ensures tok.decode(Codes(s)[k..]) == s[k..] {
        CodesBack(s, k);
      }
    }
  }

  lemma EndOf(s: string, m: nat, j: nat)
    requires m <= 3 && j <= |s|
    ensures IsEnd(s, Mended(s, m, j))
  {
  }

  lemma MendedNothing(s: string, j: nat)
    requires j <= |s|
    ensures Mended(s, 0, j) == s[j..] && IsEnd(s, s[j..])
  {
    assert Mended(s, 0, j) == s[j..];
  }

  lemma OnePerCharCuts(tok: Tokenizer, s: string)
    requires tok.OnePerChar()
    ensures tok.CutsToEnds(s)
  {
    assert tok.OnePerCharOf(s);
    forall k | 0 <= k <= |s| ensures IsEnd(s, s[k..]) {
      MendedNothing(s, k);
    }
  }

  lemma OnePerCharShrinks(tok: Tokenizer, s: string)
    requires tok.OnePerChar()
    ensures tok.Shrinks(s)
  {
    assert tok.OnePerCharOf(s) && tok.OnePerCharOf(Strip(s));
    forall k | 0 <= k <= |s| ensures tok.Count(s[k..]) <= |s| - k {
      assert tok.OnePerCharOf(s[k..]);
    }
  }

  lemma OnePerCharCounts(s: Settings)
    requires s.Valid() && s.tok.OnePerChar()
    ensures CountsShortRuns(s.SplitRules())
  {
    forall run: string ensures s.SplitRules().count(run) <= |run| {
      assert s.tok.OnePerCharOf(run);
    }
  }

  /** Such a tokenizer keeps both laws, and counts short runs as the splitter needs. */
  lemma OnePerCharIsLawful(s: Settings, text: string)
    requires s.Valid() && s.tok.OnePerChar()
    ensures s.tok.CutsToEnds(text) && s.tok.Shrinks(text) && CountsShortRuns(s.SplitRules())
  {
    OnePerCharCuts(s.tok, text);
    OnePerCharShrinks(s.tok, text);
    OnePerCharCounts(s);
  }

  /** Trimming leaves the piece whole. */
  predicate Whole(s: Settings, tail: string, piece: string) {
    EndsWith(Overlapped(s, tail, piece), piece)
  }

  /** For every tokenizer the piece stays whole when nothing is trimmed. */
  lemma WholeUntrimmed(s: Settings, tail: string, piece: string)
    requires tail == "" || s.overlap == 0 || s.tok.Count(tail + piece) <= s.maxTokens
    ensures Whole(s, tail, piece)
  {
    assert (tail + piece)[|tail|..] == piece;
  }

  /** With one token per character every piece within the cap does. */
  lemma WholePerChar(s: Settings, tail: string, piece: string)
    requires s.tok.OnePerChar() && |piece| <= s.maxTokens
    ensures Whole(s, tail, piece)
  {
    var whole := tail + piece;
    assert s.tok.OnePerCharOf(whole);
    assert whole[|tail|..] == piece;
    if |whole| > s.maxTokens {
      var cut := |whole| - s.maxTokens;
      assert whole[cut..][|tail| - cut..] == whole[|tail|..];
    }
  }

  lemma EndOfBoth(tail: string, piece: string, m: nat, j: nat)
    requires m <= 3 && j <= |tail + piece| && EndsWith(Mended(tail + piece, m, j), piece)
    ensures var out := Mended(tail + piece, m, j); IsEnd(tail, out[..|out| - |piece|])
  {
    var out := Mended(tail + piece, m, j);
    var kept := out[..|out| - |piece|];
    if j <= |tail| {
      assert kept == Mended(tail, m, j);
    } else {
      assert kept == Mended(tail, m - (j - |tail|), |tail|);
    }
  }

  lemma TrimmedIsEnd(s: Settings, text: string)
    requires s.tok.CutsToEnds(text)
    ensures IsEnd(text, TrimToTokens(s, text))
  {
    MendedNothing(text, 0);
    assert text[0..] == text;
  }

  lemma EndWithPiece(tail: string, piece: string, out: string)
    requires IsEnd(tail + piece, out) && EndsWith(out, piece)
    ensures IsEnd(tail, out[..|out| - |piece|])
  {
    var m: nat, j: nat :| m <= 3 && j <= |tail + piece| && out == Mended(tail + piece, m, j);
    EndOfBoth(tail, piece, m, j);
  }

  /** Where it does, trimming only eats the overlap: what it leaves in front of the piece is an end of the tail, and
      the whole tail when nothing had to be trimmed. */
  lemma TrimEatsOverlap(s: Settings, tail: string, piece: string) returns (kept: string)
    requires Whole(s, tail, piece) && s.tok.CutsToEnds(tail + piece)
    ensures Overlapped(s, tail, piece) == kept + piece && IsEnd(tail, kept)
    ensures s.overlap > 0 && s.tok.Count(tail + piece) <= s.maxTokens ==> kept == tail
  {
    var out := Overlapped(s, tail, piece);
    kept := out[..|out| - |piece|];
    EndsInPiece(out, piece);
    KeptIsTail(tail, piece);
    OverlappedIsEnd(s, tail, piece);
    EndWithPiece(tail, piece, out);
  }

  lemma EndsInPiece(out: string, piece: string)
    requires EndsWith(out, piece)
    ensures out[..|out| - |piece|] + piece == out
  {
  }

  lemma KeptIsTail(tail: string, piece: string)
    ensures (tail + piece)[..|tail + piece| - |piece|] == tail
    ensures tail == "" ==> tail + piece == piece
  {
  }

  lemma OverlappedIsEnd(s: Settings, tail: string, piece: string)
    requires s.tok.CutsToEnds(tail + piece)
    ensures IsEnd(tail + piece, Overlapped(s, tail, piece))
  {
    TrimmedIsEnd(s, tail + piece);
    MendedNothing(tail + piece, |tail|);
    assert (tail + piece)[|tail|..] == piece;
  }

  /** The texts of the first pieces are the first texts. */
  lemma {:induction false} GrowPrefix(next: (seq<string>, string) -> string, pieces: seq<string>, i: nat)
    requires i <= |pieces|
    ensures |Grow(next, pieces[..i])| <= |Grow(next, pieces)|
    ensures Grow(next, pieces)[..|Grow(next, pieces[..i])|] == Grow(next, pieces[..i])
    decreases |pieces|
  {
    if i == |pieces| {
      assert pieces[..i] == pieces;
    } else {
      var shorter := pieces[..|pieces| - 1];
      assert shorter[..i] == pieces[..i];
      GrowPrefix(next, shorter, i);
      var n := |Grow(next, pieces[..i])|;
      assert Grow(next, pieces)[..n] == Grow(next, shorter)[..n];
    }
  }

  lemma GrowAt(next: (seq<string>, string) -> string, pieces: seq<string>, i: nat, body: string)
    requires i < |pieces| && body == next(Grow(next, pieces[..i]), pieces[i]) != ""
    ensures var n := |Grow(next, pieces[..i])|;
            n < |Grow(next, pieces)| && n < |Grow(next, pieces[..i + 1])| && Grow(next, pieces)[n] == body
  {
    GrowStep(next, pieces, i);
    GrowPrefix(next, pieces, i + 1);
    var n := |Grow(next, pieces[..i])|;
    assert Grow(next, pieces)[..n + 1][n] == body;
  }

  lemma NextBodySurvives(s: Settings, tail: string, piece: string) returns (kept: string)
    requires !Blank(piece) && Whole(s, tail, piece)
    ensures Overlapped(s, tail, piece) == kept + piece && NextBody(s, tail, piece) == Strip(kept + piece) != ""
    ensures EndsWith(NextBody(s, tail, piece), Strip(piece))
  {
    var out := Overlapped(s, tail, piece);
    kept := out[..|out| - |piece|];
    assert out == kept + piece;
    LeadingBehind(kept, piece);
    StripKeepsSuffix(kept, piece);
  }

  /** Trimming leaves piece `i` whole behind what the texts of the pieces before it hand on. */
  predicate WholeAt(s: Settings, pieces: seq<string>, i: nat)
    requires i < |pieces|
  {
    Whole(s, TailOf(s, Bodies(s, pieces[..i])), pieces[i])
  }

  /** For every tokenizer: every non-blank piece that stays whole ends up, up to outer whitespace, as a suffix of a text
      of its own, at the place counted by the pieces before it; what stands in front of it is `kept`. */
  lemma PieceSurvives(s: Settings, pieces: seq<string>, i: nat) returns (kept: string)
    requires i < |pieces| && !Blank(pieces[i]) && WholeAt(s, pieces, i)
    ensures var before := Bodies(s, pieces[..i]);
            && |before| < |Bodies(s, pieces)|
            && |before| < |Bodies(s, pieces[..i + 1])|
            && Overlapped(s, TailOf(s, before), pieces[i]) == kept + pieces[i]
            && Bodies(s, pieces)[|before|] == Strip(kept + pieces[i])
            && EndsWith(Bodies(s, pieces)[|before|], Strip(pieces[i]))
  {
    var tail := TailOf(s, Bodies(s, pieces[..i]));
    kept := NextBodySurvives(s, tail, pieces[i]);
    GrowAt(Behind(s), pieces, i, NextBody(s, tail, pieces[i]));
  }

  /** Distinct pieces of this kind get distinct texts, in order. */
  lemma SlotsIncrease(s: Settings, pieces: seq<string>, i: nat, j: nat)
    requires i < j < |pieces| && !Blank(pieces[i]) && WholeAt(s, pieces, i)
    ensures |Bodies(s, pieces[..i])| < |Bodies(s, pieces[..j])|
  {
    assert pieces[..j][..i] == pieces[..i];
    var _ := PieceSurvives(s, pieces[..j], i);
  }

  /** What a text hands on: an end of it, and something whenever there is an overlap; and `overlap` tokens at most when
      the tokenizer does not count more of what it cut. */
  lemma TailIsShortSuffix(s: Settings, text: string)
    ensures s.tok.CutsToEnds(text) ==> IsEnd(text, TailForOverlap(s, text))
    ensures s.tok.CutsToEnds(text) && s.overlap > 0 && text != "" ==> TailForOverlap(s, text) != ""
    ensures s.tok.Shrinks(text) ==> s.tok.Count(TailForOverlap(s, text)) <= s.overlap
  {
    LastIsEnd(s, text, s.overlap);
    MendedNothing(text, |text|);
    assert text[|text|..] == "";
    LastIsShort(s, text, s.overlap);
  }

  lemma LastIsShort(s: Settings, text: string, n: nat)
    ensures s.tok.Shrinks(text) ==> s.tok.Count(LastTokens(s, text, n)) <= n
  {
    var tokens := s.tok.encode(text);
    if |tokens| > n && s.tok.Shrinks(text) {
      assert s.tok.Count(s.tok.decode(tokens[|tokens| - n..])) <= |tokens| - (|tokens| - n);
    }
  }

  lemma LastIsEnd(s: Settings, text: string, n: nat)
    ensures s.tok.CutsToEnds(text) ==> IsEnd(text, LastTokens(s, text, n))
    ensures s.tok.CutsToEnds(text) && n > 0 && text != "" ==> LastTokens(s, text, n) != ""
  {
    MendedNothing(text, 0);
    assert text[0..] == text;
  }

  // ----- the cap -----

  /** Cutting and stripping do not make the text of this piece count more. */
  ghost predicate ShrinksBehind(s: Settings, tail: string, piece: string) {
    s.tok.Shrinks(tail + piece) && s.tok.Shrinks(Overlapped(s, tail, piece))
  }

  lemma TrimmedWithin(s: Settings, text: string)
    requires s.tok.Shrinks(text)
    ensures s.tok.Count(TrimToTokens(s, text)) <= s.maxTokens
  {
    LastIsShort(s, text, s.maxTokens);
  }

  /** Without a tail in front of it the stripped piece is within the cap. */
  predicate FitsBehind(s: Settings, tail: string, piece: string) {
    tail == "" || s.overlap == 0 ==> s.tok.Count(Strip(piece)) <= s.maxTokens
  }

  lemma OverlappedWithin(s: Settings, tail: string, piece: string)
    requires ShrinksBehind(s, tail, piece) && FitsBehind(s, tail, piece)
    ensures s.tok.Count(NextBody(s, tail, piece)) <= s.maxTokens
  {
    TrimmedWithin(s, tail + piece);
  }

  /** Both of every piece, behind what the texts of the pieces before it hand on. */
  ghost predicate ShrinksAlong(s: Settings, pieces: seq<string>) {
    forall p :: 0 <= p < |pieces| ==> ShrinksAt(s, pieces, p)
  }

  ghost predicate ShrinksAt(s: Settings, pieces: seq<string>, p: nat)
    requires p < |pieces|
  {
    var tail := TailOf(s, Bodies(s, pieces[..p]));
    ShrinksBehind(s, tail, pieces[p]) && FitsBehind(s, tail, pieces[p])
  }

  lemma ShrinksBefore(s: Settings, pieces: seq<string>, n: nat)
    requires ShrinksAlong(s, pieces) && n <= |pieces|
    ensures ShrinksAlong(s, pieces[..n])
  {
    forall p | 0 <= p < n ensures ShrinksAt(s, pieces[..n], p) {
      SliceBefore(pieces, n, p);
      assert ShrinksAt(s, pieces, p);
    }
  }

  lemma SliceBefore(pieces: seq<string>, n: nat, p: nat)
    requires p < n <= |pieces|
    ensures pieces[..n][..p] == pieces[..p] && pieces[..n][p] == pieces[p]
  {
  }

  lemma NextWithin(s: Settings, pieces: seq<string>, n: nat, before: seq<string>)
    requires ShrinksAlong(s, pieces) && n < |pieces| && before == Bodies(s, pieces[..n])
    ensures s.tok.Count(NextBody(s, TailOf(s, before), pieces[n])) <= s.maxTokens
  {
    assert ShrinksAt(s, pieces, n);
    OverlappedWithin(s, TailOf(s, before), pieces[n]);
  }

  lemma {:induction false} BodiesWithin(s: Settings, pieces: seq<string>, i: nat)
    requires ShrinksAlong(s, pieces)
    ensures i < |Bodies(s, pieces)| ==> s.tok.Count(Bodies(s, pieces)[i]) <= s.maxTokens
    decreases |pieces|
  {
    if i < |Bodies(s, pieces)| {
      var last := |pieces| - 1;
      var before := Bodies(s, pieces[..last]);
      if i < |before| {
        ShrinksBefore(s, pieces, last);
        BodiesWithin(s, pieces[..last], i);
      } else {
        NextWithin(s, pieces, last, before);
      }
    }
  }

  /** No piece of this section that has no tail in front of it is over the cap once it is stripped, and none comes to
      count more when it is cut and stripped. A section that fits as a whole has no pieces. */
  ghost predicate Docile(s: Settings, section: Section)
    requires s.Valid()
  {
    var text := Strip(section.text);
    s.tok.Count(text) > s.maxTokens ==> ShrinksAlong(s, Pieces(s.SplitRules(), 0, text))
  }

  lemma SectionBodiesWithin(s: Settings, section: Section, i: nat)
    requires s.Valid() && Docile(s, section) && i < |SectionBodies(s, section)|
    ensures s.tok.Count(SectionBodies(s, section)[i]) <= s.maxTokens
  {
    var text := Strip(section.text);
    if s.tok.Count(text) > s.maxTokens {
      BodiesWithin(s, Pieces(s.SplitRules(), 0, text), i);
    }
  }

  /** For every tokenizer: a chunk can only be over the cap in a section with a stripped piece over the cap, or with a
      text that counts more when it is cut or stripped. */
  lemma ChunksWithinCap(s: Settings, sections: seq<Section>, n: nat)
    requires s.Valid() && n < |Chunks(s, sections)|
    ensures Chunks(s, sections)[n].tokenCount == s.tok.Count(Chunks(s, sections)[n].text)
    ensures (forall j :: 0 <= j < |sections| ==> Docile(s, sections[j])) ==>
              Chunks(s, sections)[n].tokenCount <= s.maxTokens
  {
    var j, i := SectionOfChunk(s, TextsOf(s), sections, n);
    if Docile(s, sections[j]) {
      SectionBodiesWithin(s, sections[j], i);
    }
  }

  /** Cutting and stripping make no text count more. */
  ghost predicate AllShrink(tok: Tokenizer) {
    forall text: string :: tok.Shrinks(text)
  }

  ghost predicate TrimmedRun(r: Rules, run: string)
    requires r.Valid()
  {
    0 < |run| <= r.maxTokens && FreeUpTo(r, run, r.Listed()) && Strip(run) == run
  }

  /** The counter gives every short separator-free text without outer whitespace at most `maxTokens` tokens. */
  ghost predicate CountsTrimmedRuns(s: Settings)
    requires s.Valid()
  {
    forall run: string :: TrimmedRun(s.SplitRules(), run) ==> s.tok.Count(run) <= s.maxTokens
  }

  lemma StrippedIsRun(r: Rules, piece: string)
    requires r.Valid() && 0 < |piece| <= r.maxTokens && FreeUpTo(r, piece, r.Listed()) && !Blank(piece)
    ensures TrimmedRun(r, Strip(piece))
  {
    StripIsSlice(piece);
    StripOfTrimmed(Strip(piece));
    forall k | 0 <= k < r.Listed() ensures Free(Strip(piece), r.seps[k]) {
      FreeSubstring(piece, r.seps[k], Leading(piece), Trailing(piece));
    }
  }

  lemma BlankCounts(tok: Tokenizer, text: string)
    requires Blank(text)
    ensures tok.Count(Strip(text)) == 0
  {
    StripOfTrimmed("");
  }

  lemma SettledFits(s: Settings, piece: string)
    requires s.Valid() && CountsTrimmedRuns(s) && s.tok.Shrinks(piece) && Settled(s.SplitRules(), piece)
    ensures s.tok.Count(Strip(piece)) <= s.maxTokens
  {
    assert s.SplitRules().count(piece) == s.tok.Count(piece);
    if Blank(piece) {
      BlankCounts(s.tok, piece);
    } else if s.tok.Count(piece) > s.maxTokens {
      StrippedIsRun(s.SplitRules(), piece);
    }
  }

  /** No section is of the other kind when the counter keeps such runs within the cap and the tokenizer counts nothing
      more that is cut or stripped. */
  lemma LawfulIsDocile(s: Settings, section: Section)
    requires s.Valid() && CountsTrimmedRuns(s) && AllShrink(s.tok)
    ensures Docile(s, section)
  {
    var text := Strip(section.text);
    var pieces := Pieces(s.SplitRules(), 0, text);
    PiecesSettled(s.SplitRules(), 0, text);
    forall p | 0 <= p < |pieces| ensures ShrinksAt(s, pieces, p) {
      SettledFits(s, pieces[p]);
    }
  }

  ghost predicate AllChunksWithin(s: Settings, sections: seq<Section>) {
    forall n :: 0 <= n < |Chunks(s, sections)| ==> Chunks(s, sections)[n].tokenCount <= s.maxTokens
  }

  lemma AssembleOne(s: Settings, texts: Section -> seq<string>, section: Section)
    ensures Assemble(s, texts, [section]) == Records(s, section, texts(section), 0)
  {
    AssembleStep(s, texts, [section], 0);
    assert [section][..0] == [] && [section][..1] == [section];
  }

  lemma OneSection(s: Settings, section: Section)
    requires s.Valid()
    ensures Chunks(s, [section]) == Records(s, section, SectionBodies(s, section), 0)
  {
    AssembleOne(s, TextsOf(s), section);
  }

  lemma OneBody(s: Settings, p: string)
    requires p != "" && Strip(p) == p
    ensures Bodies(s, [p]) == [p]
  {
    assert [p][..0] == [] && [p][..1] == [p];
    BodiesStep(s, [p], 0, [], p);
  }

  /** A document that is one run without outer whitespace is one chunk, over the cap or not. */
  lemma RunIsOneChunk(s: Settings, section: Section)
    requires s.Valid() && TrimmedRun(s.SplitRules(), section.text)
    ensures Chunks(s, [section]) == [Record(s, section, section.text, 0)]
  {
    ShortRunIsOnePiece(s.SplitRules(), 0, section.text);
    OneBody(s, section.text);
    OneSection(s, section);
  }

  lemma RunOverCap(s: Settings, run: string)
    requires s.Valid() && TrimmedRun(s.SplitRules(), run) && s.tok.Count(run) > s.maxTokens
    ensures exists sections :: !AllChunksWithin(s, sections)
  {
    var section := Section("", None, run, None);
    RunIsOneChunk(s, section);
    assert Chunks(s, [section])[0].tokenCount == s.tok.Count(run);
    assert !AllChunksWithin(s, [section]);
  }

  lemma AllWithinCap(s: Settings, sections: seq<Section>)
    requires s.Valid() && CountsTrimmedRuns(s) && AllShrink(s.tok)
    ensures AllChunksWithin(s, sections)
  {
    forall j | 0 <= j < |sections| ensures Docile(s, sections[j]) {
      LawfulIsDocile(s, sections[j]);
    }
    forall n | 0 <= n < |Chunks(s, sections)| ensures Chunks(s, sections)[n].tokenCount <= s.maxTokens {
      ChunksWithinCap(s, sections, n);
    }
  }

  /** Exactly when the documented cap of a chunk holds, for a tokenizer that counts nothing more that is cut or
      stripped: no chunk of any document is over it if and only if no short separator-free text without outer whitespace
      is. */
  lemma ChunksWithinCapIff(s: Settings)
    requires s.Valid() && AllShrink(s.tok)
    ensures (forall sections :: AllChunksWithin(s, sections)) <==> CountsTrimmedRuns(s)
  {
    if CountsTrimmedRuns(s) {
      forall sections ensures AllChunksWithin(s, sections) {
        AllWithinCap(s, sections);
      }
    } else {
      var run: string :| TrimmedRun(s.SplitRules(), run) && s.tok.Count(run) > s.maxTokens;
      RunOverCap(s, run);
    }
  }

  /** With one token per character no chunk of any document is over the cap. */
  lemma PerCharWithinCap(s: Settings, sections: seq<Section>)
    requires s.Valid() && s.tok.OnePerChar()
    ensures AllChunksWithin(s, sections)
  {
    forall text: string ensures s.tok.Shrinks(text) {
      OnePerCharShrinks(s.tok, text);
    }
    forall run: string ensures s.tok.Count(run) <= |run| {
      assert s.tok.OnePerCharOf(run);
    }
    AllWithinCap(s, sections);
  }

  lemma PiecesWithin(s: Settings, text: string)
    requires s.Valid() && CountsShortRuns(s.SplitRules())
    ensures AllWithin(s.SplitRules(), Pieces(s.SplitRules(), 0, text))
  {
    CapHoldsIff(s.SplitRules());
  }

  /** Nothing of an over-long section but separators and outer whitespace is lost, for any tokenizer. Its text is tiled
      by pieces, and each non-blank piece that stays whole is, up to outer whitespace, a suffix of a text of the
      section, at the place counted by the pieces before it; `ChunkOfSection` says which chunk of the document it is. */
  lemma LongSectionSurvives(s: Settings, section: Section, p: nat)
    requires s.Valid() && s.tok.Count(Strip(section.text)) > s.maxTokens
    ensures var pieces := Pieces(s.SplitRules(), 0, Strip(section.text));
            && Tiles(s.seps, Strip(section.text), pieces)
            && (p < |pieces| && !Blank(pieces[p]) && WholeAt(s, pieces, p) ==>
                  var n := |Bodies(s, pieces[..p])|;
                  n < |SectionBodies(s, section)| && EndsWith(SectionBodies(s, section)[n], Strip(pieces[p])))
  {
    var pieces := Pieces(s.SplitRules(), 0, Strip(section.text));
    PiecesTile(s.SplitRules(), 0, Strip(section.text));
    if p < |pieces| && !Blank(pieces[p]) && WholeAt(s, pieces, p) {
      var _ := PieceSurvives(s, pieces, p);
    }
  }

  /** With one token per character every non-blank piece of every section stays whole. */
  lemma AllWholePerChar(s: Settings, text: string, p: nat)
    requires s.Valid() && s.tok.OnePerChar()
    ensures var pieces := Pieces(s.SplitRules(), 0, text); p < |pieces| && !Blank(pieces[p]) ==> WholeAt(s, pieces, p)
  {
    var pieces := Pieces(s.SplitRules(), 0, text);
    OnePerCharCounts(s);
    PiecesWithin(s, text);
    if p < |pieces| && !Blank(pieces[p]) {
      ShortPiece(s, pieces, p);
      WholePerChar(s, TailOf(s, Bodies(s, pieces[..p])), pieces[p]);
    }
  }

  lemma ShortPiece(s: Settings, pieces: seq<string>, p: nat)
    requires s.tok.OnePerChar() && AllWithin(s.SplitRules(), pieces) && p < |pieces| && !Blank(pieces[p])
    ensures |pieces[p]| <= s.maxTokens
  {
    assert s.SplitRules().count(pieces[p]) == s.tok.Count(pieces[p]);
    assert s.tok.OnePerCharOf(pieces[p]);
  }
}
