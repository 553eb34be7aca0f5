/** In which order the splitter tries its boundaries: a text is cut at one only when the cuts at the boundaries before
    it left it over the cap, and then into runs of consecutive parts, each as long as the cap allows. */
module SplitOrder {
  import opened Collections
  import opened Texts
  import opened Splitter
  import opened Chunker

  /** Paragraphs, lines, sentences, words. */
  const BOUNDARIES: seq<string> := ["\n\n", "\n", ". ", "! ", "? ", "\U{3002}", " "]

  /** The parts `from` to `to`. */
  datatype Run = Run(from: nat, to: nat)

  /** This is the run of parts, joined again; it begins with a part that is not empty. */
  ghost predicate IsRun(r: Rules, sep: string, parts: seq<string>, run: Run, y: string) {
    && run.from < run.to <= |parts| && parts[run.from] != "" && y == Join(sep, parts[run.from..run.to])
    && (run.to - run.from > 1 ==> r.count(y) <= r.maxTokens)
  }

  ghost predicate Covered(runs: seq<Run>, j: nat) {
    exists i :: 0 <= i < |runs| && runs[i].from <= j < runs[i].to
  }

  ghost predicate AreRuns(r: Rules, sep: string, parts: seq<string>, ys: seq<string>, runs: seq<Run>) {
    && |runs| == |ys| && (forall i :: 0 <= i < |ys| ==> IsRun(r, sep, parts, runs[i], ys[i]))
    && (forall i :: 0 < i < |runs| ==> runs[i - 1].to <= runs[i].from)
  }

  /** The part behind each run but the last would have put it over the cap. */
  ghost predicate AreForced(r: Rules, sep: string, parts: seq<string>, ys: seq<string>, runs: seq<Run>)
    requires AreRuns(r, sep, parts, ys, runs)
  {
    forall i :: 0 <= i < |ys| - 1 ==>
      runs[i].to < |parts| && r.count(ys[i] + sep + parts[runs[i].to]) > r.maxTokens
  }

  /** These are consecutive runs of the parts from `a` on, with nothing but empty parts left out. */
  ghost predicate CutFrom(r: Rules, sep: string, parts: seq<string>, a: nat, ys: seq<string>, runs: seq<Run>) {
    && AreRuns(r, sep, parts, ys, runs) && AreForced(r, sep, parts, ys, runs)
    && (runs != [] ==> a <= runs[0].from)
    && (forall j :: a <= j < |parts| && parts[j] != "" ==> Covered(runs, j))
  }

  lemma {:induction false} JoinSnoc(sep: string, xs: seq<string>, x: string)
    requires xs != []
    ensures Join(sep, xs + [x]) == Join(sep, xs) + sep + x
    decreases |xs|
  {
    if |xs| > 1 {
      assert (xs + [x])[1..] == xs[1..] + [x];
      JoinSnoc(sep, xs[1..], x);
    } else {
      assert (xs + [x])[1..] == [x];
    }
  }

  /** What the loop has in its buffer: nothing but empty parts, or a run. */
  ghost predicate Buffered(r: Rules, sep: string, parts: seq<string>, buffer: string, a: nat, j: nat)
    requires a <= j <= |parts|
  {
    if buffer == "" then forall k :: a <= k < j ==> parts[k] == "" else IsRun(r, sep, parts, Run(a, j), buffer)
  }

  lemma OneMorePart(r: Rules, sep: string, parts: seq<string>, buffer: string, a: nat, j: nat)
    requires a <= j < |parts| && Buffered(r, sep, parts, buffer, a, j) && buffer != ""
    requires r.count(buffer + sep + parts[j]) <= r.maxTokens
    ensures Buffered(r, sep, parts, buffer + sep + parts[j], a, j + 1)
  {
    assert parts[a..j + 1] == parts[a..j] + [parts[j]];
    JoinSnoc(sep, parts[a..j], parts[j]);
  }

  lemma FreshPart(r: Rules, sep: string, parts: seq<string>, j: nat)
    requires j < |parts|
    ensures Buffered(r, sep, parts, parts[j], j, j + 1)
  {
    assert parts[j..j + 1] == [parts[j]];
  }

  lemma Flushed(r: Rules, sep: string, parts: seq<string>, buffer: string, a: nat, j: nat, ys: seq<string>,
                runs: seq<Run>)
    requires a <= j < |parts| && Buffered(r, sep, parts, buffer, a, j) && buffer != ""
    requires r.count(buffer + sep + parts[j]) > r.maxTokens && CutFrom(r, sep, parts, j, ys, runs)
    ensures CutFrom(r, sep, parts, a, [buffer] + ys, [Run(a, j)] + runs)
  {
    FlushedRuns(r, sep, parts, buffer, a, j, ys, runs);
    forall k | a <= k < |parts| && parts[k] != "" ensures Covered([Run(a, j)] + runs, k) {
      FlushedCovers(a, j, runs, k);
    }
  }

  lemma FlushedCovers(a: nat, j: nat, runs: seq<Run>, k: nat)
    requires a <= k && (k < j || Covered(runs, k))
    ensures Covered([Run(a, j)] + runs, k)
  {
    var all := [Run(a, j)] + runs;
    if k < j {
      assert all[0].from <= k < all[0].to;
    } else {
      var i :| 0 <= i < |runs| && runs[i].from <= k < runs[i].to;
      assert all[i + 1].from <= k < all[i + 1].to;
    }
  }

  lemma FlushedRuns(r: Rules, sep: string, parts: seq<string>, buffer: string, a: nat, j: nat, ys: seq<string>,
                    runs: seq<Run>)
    requires a <= j < |parts| && IsRun(r, sep, parts, Run(a, j), buffer)
    requires r.count(buffer + sep + parts[j]) > r.maxTokens
    requires AreRuns(r, sep, parts, ys, runs) && AreForced(r, sep, parts, ys, runs)
    requires runs != [] ==> j <= runs[0].from
    ensures AreRuns(r, sep, parts, [buffer] + ys, [Run(a, j)] + runs)
    ensures AreForced(r, sep, parts, [buffer] + ys, [Run(a, j)] + runs)
  {
    var zs, all := [buffer] + ys, [Run(a, j)] + runs;
    forall i | 0 <= i < |zs| ensures IsRun(r, sep, parts, all[i], zs[i]) {
      assert i > 0 ==> all[i] == runs[i - 1] && zs[i] == ys[i - 1];
    }
    forall i | 0 < i < |all| ensures all[i - 1].to <= all[i].from {
      assert i > 1 ==> all[i - 1] == runs[i - 2] && all[i] == runs[i - 1];
    }
    forall i | 0 <= i < |zs| - 1
      ensures all[i].to < |parts| && r.count(zs[i] + sep + parts[all[i].to]) > r.maxTokens
    {
      assert i > 0 ==> all[i] == runs[i - 1] && zs[i] == ys[i - 1];
    }
  }

  lemma LastRun(r: Rules, sep: string, parts: seq<string>, buffer: string, a: nat)
    requires a <= |parts| && Buffered(r, sep, parts, buffer, a, |parts|)
    ensures CutFrom(r, sep, parts, a, if buffer == "" then [] else [buffer],
                    if buffer == "" then [] else [Run(a, |parts|)])
  {
    if buffer != "" {
      forall j | a <= j < |parts| ensures Covered([Run(a, |parts|)], j) {
        assert [Run(a, |parts|)][0].from <= j < [Run(a, |parts|)][0].to;
      }
    }
  }

  lemma StillCut(r: Rules, sep: string, parts: seq<string>, a: nat, b: nat, ys: seq<string>, runs: seq<Run>)
    requires a <= b <= |parts| && CutFrom(r, sep, parts, b, ys, runs) && forall k :: a <= k < b ==> parts[k] == ""
    ensures CutFrom(r, sep, parts, a, ys, runs)
  {
  }

  lemma PackFresh(r: Rules, sep: string, parts: seq<string>, j: nat)
    requires j < |parts|
    ensures Pack(r, sep, "", parts[j..]) == Pack(r, sep, parts[j], parts[j + 1..])
  {
    PackStep(r, sep, "", parts, j);
    assert "" + "" + parts[j] == parts[j];
  }

  lemma PackOn(r: Rules, sep: string, buffer: string, parts: seq<string>, j: nat)
    requires j < |parts| && buffer != ""
    ensures Pack(r, sep, buffer, parts[j..])
         == if r.count(buffer + sep + parts[j]) <= r.maxTokens then
              Pack(r, sep, buffer + sep + parts[j], parts[j + 1..])
            else [buffer] + Pack(r, sep, parts[j], parts[j + 1..])
  {
    PackStep(r, sep, buffer, parts, j);
  }

  /** The reassembly loop makes such runs. */
  lemma {:induction false} PackCuts(r: Rules, sep: string, parts: seq<string>, buffer: string, a: nat, j: nat)
    returns (runs: seq<Run>)
    requires a <= j <= |parts| && Buffered(r, sep, parts, buffer, a, j)
    ensures CutFrom(r, sep, parts, a, Pack(r, sep, buffer, parts[j..]), runs)
    decreases |parts| - j
  {
    if j == |parts| {
      LastRun(r, sep, parts, buffer, a);
      runs := if buffer == "" then [] else [Run(a, j)];
    } else if buffer == "" {
      PackFresh(r, sep, parts, j);
      FreshPart(r, sep, parts, j);
      runs := PackCuts(r, sep, parts, parts[j], j, j + 1);
      StillCut(r, sep, parts, a, j, Pack(r, sep, parts[j], parts[j + 1..]), runs);
    } else if r.count(buffer + sep + parts[j]) <= r.maxTokens {
      PackOn(r, sep, buffer, parts, j);
      OneMorePart(r, sep, parts, buffer, a, j);
      runs := PackCuts(r, sep, parts, buffer + sep + parts[j], a, j + 1);
    } else {
      PackOn(r, sep, buffer, parts, j);
      FreshPart(r, sep, parts, j);
      var rest := PackCuts(r, sep, parts, parts[j], j, j + 1);
      Flushed(r, sep, parts, buffer, a, j, Pack(r, sep, parts[j], parts[j + 1..]), rest);
      runs := [Run(a, j)] + rest;
    }
  }

  // ----- one boundary -----

  /** What becomes of a text at one boundary: it is kept when it is within the cap, and otherwise cut into runs of the
      parts between the occurrences of the boundary. */
  ghost predicate CutAt(r: Rules, sep: string, x: string, ys: seq<string>) {
    if r.count(x) <= r.maxTokens then ys == (if x == "" then [] else [x])
    else sep != "" && exists runs :: CutFrom(r, sep, Split(x, sep), 0, ys, runs)
  }

  /** And after the last boundary: consecutive slices as wide as the cap. */
  ghost predicate Sliced(r: Rules, x: string, ys: seq<string>) {
    if r.count(x) <= r.maxTokens then ys == (if x == "" then [] else [x])
    else
      && Concat(ys) == x && (forall i :: 0 <= i < |ys| ==> 0 < |ys[i]| <= r.maxTokens)
      && forall i :: 0 <= i < |ys| - 1 ==> |ys[i]| == r.maxTokens
  }

  function Concat(xs: seq<string>): string {
    if xs == [] then "" else xs[0] + Concat(xs[1..])
  }

  function Flat(groups: seq<seq<string>>): seq<string> {
    if groups == [] then [] else groups[0] + Flat(groups[1..])
  }

  function Group(r: Rules, depth: nat, x: string): seq<string>
    requires r.Valid() && depth < r.Listed()
  {
    if r.count(x) <= r.maxTokens then (if x == "" then [] else [x])
    else Pack(r, r.seps[depth], "", Split(x, r.seps[depth]))
  }

  function Groups(r: Rules, depth: nat, xs: seq<string>): (groups: seq<seq<string>>)
    requires r.Valid() && depth < r.Listed()
    ensures |groups| == |xs| && forall i :: 0 <= i < |xs| ==> groups[i] == Group(r, depth, xs[i])
  {
    seq(|xs|, i requires 0 <= i < |xs| => Group(r, depth, xs[i]))
  }

  lemma GroupIsCut(r: Rules, depth: nat, x: string)
    requires r.Valid() && depth < r.Listed()
    ensures CutAt(r, r.seps[depth], x, Group(r, depth, x))
  {
    if r.count(x) > r.maxTokens {
      var runs := GroupRuns(r, depth, x);
    }
  }

  // ----- all of them, one after the other -----

  lemma {:induction false} NothingFromNothing(r: Rules, depth: nat)
    requires r.Valid() && depth <= r.Listed()
    ensures Pieces(r, depth, "") == []
    decreases r.Listed() - depth
  {
    if r.count("") > r.maxTokens && depth < r.Listed() {
      PiecesLevel(r, depth, "");
      assert Split("", r.seps[depth]) == [""];
      NothingFromNothing(r, depth + 1);
    }
  }

  lemma {:induction false} PiecesOfAllAppend(r: Rules, depth: nat, a: seq<string>, b: seq<string>)
    requires r.Valid() && depth <= |r.seps|
    ensures PiecesOfAll(r, depth, a + b) == PiecesOfAll(r, depth, a) + PiecesOfAll(r, depth, b)
    decreases |a|
  {
    if a == [] {
      assert a + b == b;
    } else {
      assert (a + b)[1..] == a[1..] + b;
      PiecesOfAllAppend(r, depth, a[1..], b);
      Associative(Pieces(r, depth, a[0]), PiecesOfAll(r, depth, a[1..]), PiecesOfAll(r, depth, b));
    }
  }

  lemma PiecesOfOne(r: Rules, depth: nat, x: string)
    requires r.Valid() && depth <= |r.seps|
    ensures PiecesOfAll(r, depth, [x]) == Pieces(r, depth, x)
  {
    assert [x][1..] == [];
    assert Pieces(r, depth, x) + [] == Pieces(r, depth, x);
  }

  lemma EmptyGroup(r: Rules, depth: nat)
    requires r.Valid() && depth < r.Listed()
    ensures Group(r, depth, "") == []
  {
    var sep := r.seps[depth];
    assert Split("", sep) == [""] && [""][1..] == [];
    assert Extended(sep, "", "") == "";
    assert Pack(r, sep, "", []) == [];
  }

  lemma GroupHasPieces(r: Rules, depth: nat, x: string)
    requires r.Valid() && depth < r.Listed()
    ensures Pieces(r, depth, x) == PiecesOfAll(r, depth + 1, Group(r, depth, x))
  {
    PiecesOfOne(r, depth + 1, x);
    if x == "" {
      NothingFromNothing(r, depth);
      EmptyGroup(r, depth);
    } else if r.count(x) > r.maxTokens {
      PiecesLevel(r, depth, x);
      if |Split(x, r.seps[depth])| == 1 {
        AlonePart(r, depth, x);
      }
    }
  }

  lemma AlonePart(r: Rules, depth: nat, x: string)
    requires r.Valid() && depth < r.Listed() && x != "" && |Split(x, r.seps[depth])| == 1
    ensures Pack(r, r.seps[depth], "", Split(x, r.seps[depth])) == [x]
  {
    assert Split(x, r.seps[depth]) == [x];
    assert [x][1..] == [];
    assert "" + "" + x == x;
  }

  lemma {:induction false} LayerHasPieces(r: Rules, depth: nat, xs: seq<string>)
    requires r.Valid() && depth < r.Listed()
    ensures PiecesOfAll(r, depth, xs) == PiecesOfAll(r, depth + 1, Flat(Groups(r, depth, xs)))
    decreases |xs|
  {
    if xs != [] {
      GroupsOfRest(r, depth, xs);
      LayerHasPieces(r, depth, xs[1..]);
      GroupHasPieces(r, depth, xs[0]);
      PiecesOfAllAppend(r, depth + 1, Group(r, depth, xs[0]), Flat(Groups(r, depth, xs[1..])));
    }
  }

  lemma GroupsOfRest(r: Rules, depth: nat, xs: seq<string>)
    requires r.Valid() && depth < r.Listed() && xs != []
    ensures Flat(Groups(r, depth, xs)) == Group(r, depth, xs[0]) + Flat(Groups(r, depth, xs[1..]))
  {
    assert Groups(r, depth, xs)[1..] == Groups(r, depth, xs[1..]);
  }

  /** Every text of `xs` is cut at the boundary, or kept, and `ys` is what comes of them, in order. */
  ghost predicate Layer(r: Rules, sep: string, xs: seq<string>, ys: seq<string>) {
    exists groups :: AreCut(r, sep, xs, groups) && ys == Flat(groups)
  }

  ghost predicate AreCut(r: Rules, sep: string, xs: seq<string>, groups: seq<seq<string>>) {
    |groups| == |xs| && forall i :: 0 <= i < |xs| ==> CutAt(r, sep, xs[i], groups[i])
  }

  lemma LayerOf(r: Rules, depth: nat, xs: seq<string>)
    requires r.Valid() && depth < r.Listed()
    ensures Layer(r, r.seps[depth], xs, Flat(Groups(r, depth, xs)))
  {
    var groups := Groups(r, depth, xs);
    forall i | 0 <= i < |xs| ensures CutAt(r, r.seps[depth], xs[i], groups[i]) {
      GroupIsCut(r, depth, xs[i]);
    }
    assert AreCut(r, r.seps[depth], xs, groups);
  }

  ghost predicate LastLayer(r: Rules, xs: seq<string>, ys: seq<string>) {
    exists groups :: AreSliced(r, xs, groups) && ys == Flat(groups)
  }

  ghost predicate AreSliced(r: Rules, xs: seq<string>, groups: seq<seq<string>>) {
    |groups| == |xs| && forall i :: 0 <= i < |xs| ==> Sliced(r, xs[i], groups[i])
  }

  lemma {:induction false} SlicesAreSliced(text: string, width: nat)
    requires width >= 1
    ensures Concat(Slices(text, width)) == text
    ensures forall i :: 0 <= i < |Slices(text, width)| ==> 0 < |Slices(text, width)[i]| <= width
    ensures forall i :: 0 <= i < |Slices(text, width)| - 1 ==> |Slices(text, width)[i]| == width
    decreases |text|
  {
    if |text| > width {
      SlicesAreSliced(text[width..], width);
      var rest := Slices(text[width..], width);
      assert Slices(text, width)[1..] == rest;
      assert text == text[..width] + text[width..];
    }
  }

  lemma LastPieces(r: Rules, x: string)
    requires r.Valid()
    ensures Sliced(r, x, Pieces(r, r.Listed(), x))
  {
    SlicesAreSliced(x, r.maxTokens);
  }

  lemma {:induction false} LastOfAll(r: Rules, xs: seq<string>) returns (groups: seq<seq<string>>)
    requires r.Valid()
    ensures AreSliced(r, xs, groups) && PiecesOfAll(r, r.Listed(), xs) == Flat(groups)
    decreases |xs|
  {
    groups := [];
    if xs != [] {
      var rest := LastOfAll(r, xs[1..]);
      LastPieces(r, xs[0]);
      groups := [Pieces(r, r.Listed(), xs[0])] + rest;
      assert groups[1..] == rest;
    }
  }

  lemma LastIsSliced(r: Rules, xs: seq<string>)
    requires r.Valid()
    ensures LastLayer(r, xs, PiecesOfAll(r, r.Listed(), xs))
  {
    var groups := LastOfAll(r, xs);
  }

  /** Cutting these texts at one boundary after the other, and into slices in the end, gives these pieces: each boundary
      cuts what the boundaries before it left over the cap, and nothing else. */
  ghost predicate CutBy(r: Rules, boundaries: seq<string>, xs: seq<string>, pieces: seq<string>) {
    if boundaries == [] then LastLayer(r, xs, pieces)
    else exists ys :: Layer(r, boundaries[0], xs, ys) && CutBy(r, boundaries[1..], ys, pieces)
  }

  lemma OneBoundaryMore(r: Rules, boundaries: seq<string>, xs: seq<string>, ys: seq<string>, pieces: seq<string>)
    requires boundaries != [] && Layer(r, boundaries[0], xs, ys) && CutBy(r, boundaries[1..], ys, pieces)
    ensures CutBy(r, boundaries, xs, pieces)
  {
  }

  lemma RestOf(r: Rules, depth: nat)
    requires r.Valid() && depth < r.Listed()
    ensures r.seps[depth..r.Listed()][0] == r.seps[depth]
    ensures r.seps[depth..r.Listed()][1..] == r.seps[depth + 1..r.Listed()]
  {
  }

  /** For any boundaries: the pieces of a text come of cutting at one after the other. */
  lemma {:induction false} PiecesAreCutBy(r: Rules, depth: nat, xs: seq<string>, pieces: seq<string>)
    requires r.Valid() && depth <= r.Listed() && pieces == PiecesOfAll(r, depth, xs)
    ensures CutBy(r, r.seps[depth..r.Listed()], xs, pieces)
    decreases r.Listed() - depth
  {
    if depth == r.Listed() {
      LastIsSliced(r, xs);
    } else {
      var ys := Flat(Groups(r, depth, xs));
      LayerHasPieces(r, depth, xs);
      PiecesAreCutBy(r, depth + 1, ys, pieces);
      LayerOf(r, depth, xs);
      RestOf(r, depth);
      OneBoundaryMore(r, r.seps[depth..r.Listed()], xs, ys, pieces);
    }
  }

  /** The rules of the chunker: these boundaries in this order, and nothing behind them but single characters. */
  lemma SourceBoundaries(tok: Tokenizer, maxTokens: nat, overlap: nat)
    requires maxTokens >= 1
    ensures var r := SourceSettings(tok, maxTokens, overlap).SplitRules();
            && r.Valid() && r.maxTokens == maxTokens && r.Listed() == |BOUNDARIES|
            && forall k :: 0 <= k < |BOUNDARIES| ==> r.seps[k] == BOUNDARIES[k]
  {
  }

  /** The splitter of the chunker tries paragraphs first, then lines, sentences, words and characters: the whole text is
      cut at the first boundary if it is over the cap; of what comes of it, exactly the texts still over the cap at the
      second; and so on. */
  lemma BoundariesInOrder(tok: Tokenizer, maxTokens: nat, overlap: nat, text: string)
    requires maxTokens >= 1
    ensures SourceSettings(tok, maxTokens, overlap).Valid()
    ensures var r := SourceSettings(tok, maxTokens, overlap).SplitRules();
            CutBy(r, ["\n\n", "\n", ". ", "! ", "? ", "\U{3002}", " "], [text], Pieces(r, 0, text))
  {
    SourceBoundaries(tok, maxTokens, overlap);
    var r := SourceSettings(tok, maxTokens, overlap).SplitRules();
    PiecesOfOne(r, 0, text);
    PiecesAreCutBy(r, 0, [text], Pieces(r, 0, text));
    assert r.seps[0..r.Listed()] == BOUNDARIES;
  }

  ghost predicate AllFitting(r: Rules, xs: seq<string>) {
    forall i :: 0 <= i < |xs| ==> xs[i] != "" && r.count(xs[i]) <= r.maxTokens
  }

  lemma {:induction false} AllFit(r: Rules, depth: nat, xs: seq<string>)
    requires r.Valid() && depth <= |r.seps| && AllFitting(r, xs)
    ensures PiecesOfAll(r, depth, xs) == xs
    decreases |xs|
  {
    if xs != [] {
      AllFit(r, depth, xs[1..]);
      assert [xs[0]] + xs[1..] == xs;
    }
  }

  lemma RunsFit(r: Rules, sep: string, parts: seq<string>, ys: seq<string>, runs: seq<Run>)
    requires AreRuns(r, sep, parts, ys, runs) && AllWithin(r, parts)
    ensures AllFitting(r, ys)
  {
    forall i | 0 <= i < |ys| ensures ys[i] != "" && r.count(ys[i]) <= r.maxTokens {
      assert IsRun(r, sep, parts, runs[i], ys[i]);
      var run := parts[runs[i].from..runs[i].to];
      assert run[0] == parts[runs[i].from];
    }
  }

  ghost predicate AllCount(tok: Tokenizer, maxTokens: nat, parts: seq<string>) {
    forall j :: 0 <= j < |parts| ==> tok.Count(parts[j]) <= maxTokens
  }

  lemma CountsAreWithin(tok: Tokenizer, maxTokens: nat, overlap: nat, parts: seq<string>)
    requires AllCount(tok, maxTokens, parts)
    ensures AllWithin(SourceSettings(tok, maxTokens, overlap).SplitRules(), parts)
  {
    var r := SourceSettings(tok, maxTokens, overlap).SplitRules();
    forall j | 0 <= j < |parts| ensures r.count(parts[j]) <= maxTokens {
      assert tok.Count(parts[j]) <= maxTokens;
    }
  }

  /** A text over the cap without the boundaries before number `d`, whose parts between those are within the cap, is cut
      there and nowhere else: its pieces are runs of whole parts. So paragraphs are not torn where they fit, nor lines
      and sentences in a text without paragraphs. */
  lemma PartsStayWhole(tok: Tokenizer, maxTokens: nat, overlap: nat, text: string, d: nat) returns (runs: seq<Run>)
    requires maxTokens >= 1 && tok.Count(text) > maxTokens && d < |BOUNDARIES|
    requires forall k :: 0 <= k < d ==> BOUNDARIES[k] != "" && Free(text, BOUNDARIES[k])
    requires BOUNDARIES[d] != "" && AllCount(tok, maxTokens, Split(text, BOUNDARIES[d]))
    ensures SourceSettings(tok, maxTokens, overlap).Valid()
    ensures var r := SourceSettings(tok, maxTokens, overlap).SplitRules();
            CutFrom(r, BOUNDARIES[d], Split(text, BOUNDARIES[d]), 0, Pieces(r, 0, text), runs)
  {
    SourceBoundaries(tok, maxTokens, overlap);
    var r := SourceSettings(tok, maxTokens, overlap).SplitRules();
    CountsAreWithin(tok, maxTokens, overlap, Split(text, BOUNDARIES[d]));
    runs := WholeParts(r, d, text);
  }

  lemma WholeParts(r: Rules, d: nat, text: string) returns (runs: seq<Run>)
    requires r.Valid() && d < r.Listed() && r.count(text) > r.maxTokens
    requires FreeUpTo(r, text, d) && AllWithin(r, Split(text, r.seps[d]))
    ensures CutFrom(r, r.seps[d], Split(text, r.seps[d]), 0, Pieces(r, 0, text), runs)
  {
    runs := GroupRuns(r, d, text);
    RunsFit(r, r.seps[d], Split(text, r.seps[d]), Group(r, d, text), runs);
    GroupIsPieces(r, d, text);
  }

  lemma GroupIsPieces(r: Rules, d: nat, text: string)
    requires r.Valid() && d < r.Listed() && r.count(text) > r.maxTokens && FreeUpTo(r, text, d)
    requires AllFitting(r, Group(r, d, text))
    ensures Pieces(r, 0, text) == Group(r, d, text)
  {
    AllFit(r, d + 1, Group(r, d, text));
    GroupHasPieces(r, d, text);
    SkipFree(r, 0, d, text);
  }

  lemma GroupRuns(r: Rules, d: nat, text: string) returns (runs: seq<Run>)
    requires r.Valid() && d < r.Listed() && r.count(text) > r.maxTokens
    ensures CutFrom(r, r.seps[d], Split(text, r.seps[d]), 0, Group(r, d, text), runs)
  {
    var parts := Split(text, r.seps[d]);
    assert parts[0..] == parts;
    runs := PackCuts(r, r.seps[d], parts, "", 0, 0);
  }
}
