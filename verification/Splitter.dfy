/** The recursive splitter of the chunker. `SplitRecursive` is the generator as written, with its buffer loop; `Pieces`
    is the list it yields. The token counter stays abstract. The pieces tile the text, the reassembly is greedy, and the
    cap holds exactly for counters that keep short runs within it; `SplitOrder` has the order of the boundaries. */
module Splitter {
  import opened Collections
  import opened Texts

  /** Boundaries in priority order; the empty string stands for a cut at every `maxTokens` characters. */
  const SEPARATORS: seq<string> := ["\n\n", "\n", ". ", "! ", "? ", "\U{3002}", " ", ""]

  /** What the splitter is given: the token counter, the cap and the boundaries. */
  datatype Rules = Rules(count: string -> nat, maxTokens: nat, seps: seq<string>) {

    /** How many of the boundaries are real separators. */
    function Listed(): nat
      requires seps != []
    {
      |seps| - 1
    }

    /** A positive cap, and the empty string in last place only. */
    predicate Valid() {
      maxTokens >= 1 && seps != [] && forall k :: 0 <= k < |seps| ==> (seps[k] == "" <==> k == |seps| - 1)
    }
  }

  /** Fixed-width cuts. */
  function Slices(text: string, width: nat): seq<string>
    requires width >= 1
    decreases |text|
  {
    if |text| <= width then
      if text == "" then [] else [text]
    else
      [text[..width]] + Slices(text[width..], width)
  }

  /** The buffers that greedy reassembly of `parts` passes on, starting from `buffer`. */
  function Pack(r: Rules, sep: string, buffer: string, parts: seq<string>): seq<string>
    decreases |parts|
  {
    if parts == [] then
      if buffer == "" then [] else [buffer]
    else
      var candidate := Extended(sep, buffer, parts[0]);
      if r.count(candidate) <= r.maxTokens then
        Pack(r, sep, candidate, parts[1..])
      else
        (if buffer == "" then [] else [buffer]) + Pack(r, sep, parts[0], parts[1..])
  }

  function Extended(sep: string, buffer: string, part: string): string {
    buffer + (if buffer == "" then "" else sep) + part
  }

  function Pieces(r: Rules, depth: nat, text: string): seq<string>
    requires r.Valid() && depth <= |r.seps|
    decreases |r.seps| - depth, 0
  {
    if r.count(text) <= r.maxTokens then
      if text == "" then [] else [text]
    else if depth >= |r.seps| || r.seps[depth] == "" then
      Slices(text, r.maxTokens)
    else
      var parts := Split(text, r.seps[depth]);
      if |parts| == 1 then
        Pieces(r, depth + 1, text)
      else
        PiecesOfAll(r, depth + 1, Pack(r, r.seps[depth], "", parts))
  }

  function PiecesOfAll(r: Rules, depth: nat, buffers: seq<string>): seq<string>
    requires r.Valid() && depth <= |r.seps|
    decreases |r.seps| - depth, |buffers|
  {
    if buffers == [] then []
    else Pieces(r, depth, buffers[0]) + PiecesOfAll(r, depth, buffers[1..])
  }

  // ----- the generator as written -----

  method CharSlices(text: string, width: nat) returns (out: seq<string>)
    requires width >= 1
    ensures out == Slices(text, width)
  {
    out := [];
    var i := 0;
    while i < |text|
      invariant 0 <= i
      invariant out + Slices(if i < |text| then text[i..] else "", width) == Slices(text, width)
      decreases |text| - i
    {
      var end := if i + width < |text| then i + width else |text|;
      SlicesStep(text, i, width);
      out := out + [text[i..end]];
      i := i + width;
    }
  }

  lemma SlicesStep(text: string, i: nat, width: nat)
    requires width >= 1 && i < |text|
    ensures var end := if i + width < |text| then i + width else |text|;
            Slices(text[i..], width) == [text[i..end]]
            + Slices(if i + width < |text| then text[i + width..] else "", width)
  {
    var rest := text[i..];
    if |rest| > width {
      assert rest[width..] == text[i + width..] && rest[..width] == text[i..i + width];
    } else {
      assert text[i..|text|] == rest && [rest] + [] == [rest];
    }
  }

  method SplitRecursive(r: Rules, text: string, depth: nat) returns (out: seq<string>)
    requires r.Valid() && depth <= |r.seps|
    ensures out == Pieces(r, depth, text)
    decreases |r.seps| - depth
  {
    if r.count(text) <= r.maxTokens {
      return if text == "" then [] else [text];
    }
    if depth >= |r.seps| {
      out := CharSlices(text, r.maxTokens);
      return;
    }
    var sep := r.seps[depth];
    if sep == "" {
      out := CharSlices(text, r.maxTokens);
      return;
    }
    var parts := Split(text, sep);
    if |parts| == 1 {
      out := SplitRecursive(r, text, depth + 1);
      return;
    }
    out := [];
    var buffer := "";
    ghost var all := Pack(r, sep, "", parts);
    for i := 0 to |parts|
      invariant out + PiecesOfAll(r, depth + 1, Pack(r, sep, buffer, parts[i..]))
             == PiecesOfAll(r, depth + 1, all)
    {
      var candidate := buffer + (if buffer == "" then "" else sep) + parts[i];
      assert parts[i..][1..] == parts[i + 1..];
      if r.count(candidate) <= r.maxTokens {
        buffer := candidate;
      } else {
        ghost var rest := Pack(r, sep, parts[i], parts[i + 1..]);
        if buffer != "" {
          var flushed := SplitRecursive(r, buffer, depth + 1);
          assert ([buffer] + rest)[1..] == rest;
          out := out + flushed;
        } else {
          assert [] + rest == rest;
        }
        buffer := parts[i];
      }
    }
    if buffer != "" {
      var flushed := SplitRecursive(r, buffer, depth + 1);
      assert Pack(r, sep, buffer, parts[|parts|..]) == [buffer];
      out := out + flushed;
    }
  }

  // ----- nothing but separators is lost -----

  /** A concatenation of listed separators. */
  ghost predicate IsGap(seps: seq<string>, s: string)
    decreases |s|, 1
  {
    s == "" || exists k: nat, rest: string :: GapWith(seps, s, k, rest)
  }

  /** The text is the separator `k` and a gap. */
  ghost predicate GapWith(seps: seq<string>, s: string, k: nat, rest: string)
    decreases |s|, 0
  {
    k < |seps| && seps[k] != "" && s == seps[k] + rest && IsGap(seps, rest)
  }

  /** `pieces` are disjoint contiguous segments of `text`, in order, and everything around them is a gap. */
  ghost predicate Tiles(seps: seq<string>, text: string, pieces: seq<string>)
    decreases |pieces|
  {
    if pieces == [] then
      IsGap(seps, text)
    else
      exists gap: string, rest: string :: TilesWith(seps, text, pieces, gap, rest)
  }

  /** The text is a gap, the first piece, and a rest tiled by the other pieces. */
  ghost predicate TilesWith(seps: seq<string>, text: string, pieces: seq<string>, gap: string, rest: string)
    requires pieces != []
    decreases |pieces|, 0
  {
    text == gap + (pieces[0] + rest) && IsGap(seps, gap) && Tiles(seps, rest, pieces[1..])
  }

  lemma {:induction false} GapsConcatenate(seps: seq<string>, a: string, b: string)
    requires IsGap(seps, a) && IsGap(seps, b)
    ensures IsGap(seps, a + b)
    decreases |a|
  {
    if a == "" {
      assert a + b == b;
    } else {
      var k: nat, rest: string :| GapWith(seps, a, k, rest);
      GapsConcatenate(seps, rest, b);
      Associative(seps[k], rest, b);
      assert GapWith(seps, a + b, k, rest + b);
    }
  }

  lemma SeparatorIsGap(seps: seq<string>, k: nat)
    requires k < |seps| && seps[k] != ""
    ensures IsGap(seps, seps[k])
  {
    assert seps[k] + "" == seps[k];
    assert GapWith(seps, seps[k], k, "");
  }

  lemma GapBefore(seps: seq<string>, gap: string, text: string, pieces: seq<string>)
    requires IsGap(seps, gap) && Tiles(seps, text, pieces)
    ensures Tiles(seps, gap + text, pieces)
  {
    if pieces == [] {
      GapsConcatenate(seps, gap, text);
    } else {
      var g, rest :| TilesWith(seps, text, pieces, g, rest);
      GapsConcatenate(seps, gap, g);
      Associative(gap, g, pieces[0] + rest);
      assert TilesWith(seps, gap + text, pieces, gap + g, rest);
    }
  }

  lemma PieceBefore(seps: seq<string>, piece: string, text: string, pieces: seq<string>)
    requires Tiles(seps, text, pieces)
    ensures Tiles(seps, piece + text, [piece] + pieces)
  {
    assert ([piece] + pieces)[1..] == pieces;
    assert "" + (piece + text) == piece + text;
    assert TilesWith(seps, piece + text, [piece] + pieces, "", text);
  }

  lemma {:induction false} TilesConcatenate(seps: seq<string>, a: string, ps: seq<string>, b: string, qs: seq<string>)
    requires Tiles(seps, a, ps) && Tiles(seps, b, qs)
    ensures Tiles(seps, a + b, ps + qs)
    decreases |ps|
  {
    if ps == [] {
      GapBefore(seps, a, b, qs);
      assert ps + qs == qs;
    } else {
      var gap, rest :| TilesWith(seps, a, ps, gap, rest);
      TilesConcatenate(seps, rest, ps[1..], b, qs);
      Associative(gap, ps[0] + rest, b);
      Associative(ps[0], rest, b);
      assert (ps + qs)[1..] == ps[1..] + qs;
      assert TilesWith(seps, a + b, ps + qs, gap, rest + b);
    }
  }

  lemma {:induction false} SlicesTile(seps: seq<string>, text: string, width: nat)
    requires width >= 1
    ensures Tiles(seps, text, Slices(text, width))
    decreases |text|
  {
    if |text| <= width {
      if text != "" {
        PieceBefore(seps, text, "", []);
        assert text + "" == text && [text] + [] == [text];
      }
    } else {
      SlicesTile(seps, text[width..], width);
      PieceBefore(seps, text[..width], text[width..], Slices(text[width..], width));
      assert text[..width] + text[width..] == text;
    }
  }

  /** What a buffer and the parts still to come stand for; `mid` says that a separator stood before the parts. */
  function Remaining(sep: string, buffer: string, parts: seq<string>, mid: bool): string {
    buffer + (if mid && parts != [] then sep else "") + Join(sep, parts)
  }

  lemma {:induction false} PackTiles(r: Rules, k: nat, buffer: string, parts: seq<string>, mid: bool)
    requires r.Valid() && k < r.Listed() && (buffer != "" ==> mid)
    ensures Tiles(r.seps, Remaining(r.seps[k], buffer, parts, mid), Pack(r, r.seps[k], buffer, parts))
    decreases |parts|
  {
    var sep := r.seps[k];
    SeparatorIsGap(r.seps, k);
    if parts == [] {
      assert Remaining(sep, buffer, parts, mid) == buffer + "";
      BufferBefore(r.seps, buffer, "", []);
      assert [buffer] + [] == [buffer];
    } else {
      var candidate := Extended(sep, buffer, parts[0]);
      if r.count(candidate) <= r.maxTokens {
        PackTiles(r, k, candidate, parts[1..], true);
        RemainingExtends(sep, buffer, parts, mid);
        GapBefore(r.seps, if buffer == "" && mid then sep else "",
                  Remaining(sep, candidate, parts[1..], true), Pack(r, sep, candidate, parts[1..]));
      } else {
        var rest, tail := Remaining(sep, parts[0], parts[1..], true), Pack(r, sep, parts[0], parts[1..]);
        PackTiles(r, k, parts[0], parts[1..], true);
        RemainingFlushes(sep, buffer, parts, mid);
        GapBefore(r.seps, if mid then sep else "", rest, tail);
        BufferBefore(r.seps, buffer, (if mid then sep else "") + rest, tail);
      }
    }
  }

  /** An empty buffer is not passed on. */
  lemma BufferBefore(seps: seq<string>, buffer: string, text: string, pieces: seq<string>)
    requires Tiles(seps, text, pieces)
    ensures Tiles(seps, buffer + text, (if buffer == "" then [] else [buffer]) + pieces)
  {
    if buffer == "" {
      assert buffer + text == text && [] + pieces == pieces;
    } else {
      PieceBefore(seps, buffer, text, pieces);
    }
  }

  lemma RemainingExtends(sep: string, buffer: string, parts: seq<string>, mid: bool)
    requires parts != [] && (buffer != "" ==> mid)
    ensures Remaining(sep, buffer, parts, mid)
         == (if buffer == "" && mid then sep else "")
          + Remaining(sep, Extended(sep, buffer, parts[0]), parts[1..], true)
  {
  }

  lemma RemainingFlushes(sep: string, buffer: string, parts: seq<string>, mid: bool)
    requires parts != []
    ensures Remaining(sep, buffer, parts, mid)
         == buffer + ((if mid then sep else "") + Remaining(sep, parts[0], parts[1..], true))
  {
  }

  /** For every text, cap and counter: the pieces are disjoint in-order segments of the text and every gap, in
      front, between or at the end, is a concatenation of listed separators. */
  lemma {:induction false} PiecesTile(r: Rules, depth: nat, text: string)
    requires r.Valid() && depth <= |r.seps|
    ensures Tiles(r.seps, text, Pieces(r, depth, text))
    decreases |r.seps| - depth, 0
  {
    if r.count(text) <= r.maxTokens {
      if text != "" {
        PieceBefore(r.seps, text, "", []);
        assert text + "" == text && [text] + [] == [text];
      }
    } else if depth >= |r.seps| || r.seps[depth] == "" {
      SlicesTile(r.seps, text, r.maxTokens);
    } else {
      var sep := r.seps[depth];
      var parts := Split(text, sep);
      if |parts| == 1 {
        PiecesTile(r, depth + 1, text);
      } else {
        JoinSplit(text, sep);
        assert depth < r.Listed();
        PackTiles(r, depth, "", parts, false);
        assert Remaining(sep, "", parts, false) == text;
        PiecesOfAllTile(r, depth + 1, text, Pack(r, sep, "", parts));
      }
    }
  }

  /** Splitting every buffer of a tiling gives a tiling. */
  lemma {:induction false} PiecesOfAllTile(r: Rules, depth: nat, text: string, buffers: seq<string>)
    requires r.Valid() && depth <= |r.seps| && Tiles(r.seps, text, buffers)
    ensures Tiles(r.seps, text, PiecesOfAll(r, depth, buffers))
    decreases |r.seps| - depth, |buffers|
  {
    if buffers != [] {
      var gap, rest :| TilesWith(r.seps, text, buffers, gap, rest);
      PiecesTile(r, depth, buffers[0]);
      PiecesOfAllTile(r, depth, rest, buffers[1..]);
      var ps, qs := Pieces(r, depth, buffers[0]), PiecesOfAll(r, depth, buffers[1..]);
      TilesConcatenate(r.seps, buffers[0], ps, rest, qs);
      GapBefore(r.seps, gap, buffers[0] + rest, ps + qs);
    }
  }

  // ----- the reassembly is greedy -----

  /** Parts joined into a buffer one by one; the separator is left out while the buffer is empty. */
  function Gather(sep: string, parts: seq<string>): string {
    if parts == [] then "" else Extended(sep, Gather(sep, parts[..|parts| - 1]), parts[|parts| - 1])
  }

  /** Part `j` does not go into the buffer gathered from part `m` on. */
  predicate Overflows(r: Rules, sep: string, parts: seq<string>, m: nat, j: nat)
    requires m <= j < |parts|
  {
    Gather(sep, parts[m..j]) != "" && r.count(Extended(sep, Gather(sep, parts[m..j]), parts[j])) > r.maxTokens
  }

  /** Where the parts are cut, reading on from part `j` with what was gathered since part `m` in the buffer. */
  function Cuts(r: Rules, sep: string, parts: seq<string>, m: nat, j: nat): seq<nat>
    requires m <= j <= |parts|
    decreases |parts| - j
  {
    if j == |parts| then []
    else if Overflows(r, sep, parts, m, j) then [j] + Cuts(r, sep, parts, j, j + 1)
    else Cuts(r, sep, parts, m, j + 1)
  }

  /** The runs of parts between the cuts, gathered; an empty last one is left out. */
  function Runs(sep: string, parts: seq<string>, m: nat, cuts: seq<nat>): seq<string>
    requires m <= |parts| && forall i :: 0 <= i < |cuts| ==> cuts[i] <= |parts| && (i == 0 ==> m <= cuts[i])
    requires forall i :: 0 < i < |cuts| ==> cuts[i - 1] <= cuts[i]
    decreases |cuts|
  {
    if cuts == [] then
      if Gather(sep, parts[m..]) == "" then [] else [Gather(sep, parts[m..])]
    else [Gather(sep, parts[m..cuts[0]])] + Runs(sep, parts, cuts[0], cuts[1..])
  }

  ghost predicate Ascending(m: nat, cuts: seq<nat>, n: nat) {
    && (forall i :: 0 <= i < |cuts| ==> cuts[i] < n && (i == 0 ==> m < cuts[i]))
    && (forall i :: 0 < i < |cuts| ==> cuts[i - 1] < cuts[i])
  }

  /** The parts from `m` to `n` go into one buffer. */
  ghost predicate Fits(r: Rules, sep: string, parts: seq<string>, m: nat, n: nat)
    requires n <= |parts|
  {
    forall k :: m <= k < n ==> !Overflows(r, sep, parts, m, k)
  }

  /** A run that begins at `m` is cut at `n`, the first part that its buffer could not take. */
  ghost predicate Forced(r: Rules, sep: string, parts: seq<string>, m: nat, n: nat) {
    m < n < |parts| && Overflows(r, sep, parts, m, n) && Fits(r, sep, parts, m, n)
  }

  function RunStart(m: nat, cuts: seq<nat>, i: nat): nat
    requires i <= |cuts|
  {
    if i == 0 then m else cuts[i - 1]
  }

  lemma GatherStep(sep: string, parts: seq<string>, m: nat, j: nat)
    requires m <= j < |parts|
    ensures Gather(sep, parts[m..j + 1]) == Extended(sep, Gather(sep, parts[m..j]), parts[j])
    ensures Gather(sep, parts[j..j + 1]) == parts[j]
  {
    assert parts[m..j + 1][..j - m] == parts[m..j];
    assert parts[j..j + 1][..0] == [];
    assert Gather(sep, []) == "";
  }

  lemma {:induction false} CutsAscend(r: Rules, sep: string, parts: seq<string>, m: nat, j: nat)
    requires m <= j <= |parts|
    ensures Ascending(m, Cuts(r, sep, parts, m, j), |parts|)
    decreases |parts| - j
  {
    if j < |parts| {
      if Overflows(r, sep, parts, m, j) {
        CutsAscend(r, sep, parts, j, j + 1);
        OverflowIsLater(r, sep, parts, m, j);
        OneCutMore(m, j, Cuts(r, sep, parts, j, j + 1), |parts|);
      } else {
        CutsAscend(r, sep, parts, m, j + 1);
      }
    }
  }

  lemma OneCutMore(m: nat, j: nat, cuts: seq<nat>, n: nat)
    requires m < j < n && Ascending(j, cuts, n)
    ensures Ascending(m, [j] + cuts, n)
  {
  }

  /** The reassembly loop gathers the runs between these cuts. */
  lemma {:induction false} PackIsRuns(r: Rules, sep: string, parts: seq<string>, m: nat, j: nat)
    requires m <= j <= |parts|
    ensures Ascending(m, Cuts(r, sep, parts, m, j), |parts|)
    ensures Pack(r, sep, Gather(sep, parts[m..j]), parts[j..]) == Runs(sep, parts, m, Cuts(r, sep, parts, m, j))
    decreases |parts| - j
  {
    CutsAscend(r, sep, parts, m, j);
    if j == |parts| {
      assert parts[m..j] == parts[m..] && parts[j..] == [];
    } else if Overflows(r, sep, parts, m, j) {
      PackIsRuns(r, sep, parts, j, j + 1);
      RunsStep(r, sep, parts, m, j);
    } else {
      PackIsRuns(r, sep, parts, m, j + 1);
      PackStep(r, sep, Gather(sep, parts[m..j]), parts, j);
      GatherStep(sep, parts, m, j);
    }
  }

  lemma RunsStep(r: Rules, sep: string, parts: seq<string>, m: nat, j: nat)
    requires m <= j < |parts| && Overflows(r, sep, parts, m, j)
    requires Ascending(j, Cuts(r, sep, parts, j, j + 1), |parts|)
    requires Ascending(m, Cuts(r, sep, parts, m, j), |parts|)
    requires Pack(r, sep, Gather(sep, parts[j..j + 1]), parts[j + 1..])
          == Runs(sep, parts, j, Cuts(r, sep, parts, j, j + 1))
    ensures Pack(r, sep, Gather(sep, parts[m..j]), parts[j..]) == Runs(sep, parts, m, Cuts(r, sep, parts, m, j))
  {
    PackStep(r, sep, Gather(sep, parts[m..j]), parts, j);
    GatherStep(sep, parts, m, j);
    assert Cuts(r, sep, parts, m, j)[1..] == Cuts(r, sep, parts, j, j + 1);
  }

  lemma PackStep(r: Rules, sep: string, buffer: string, parts: seq<string>, j: nat)
    requires j < |parts|
    ensures var candidate := Extended(sep, buffer, parts[j]);
            Pack(r, sep, buffer, parts[j..])
            == if buffer != "" && r.count(candidate) > r.maxTokens then
                 [buffer] + Pack(r, sep, parts[j], parts[j + 1..])
               else Pack(r, sep, candidate, parts[j + 1..])
  {
    assert parts[j..][0] == parts[j] && parts[j..][1..] == parts[j + 1..];
    if buffer == "" {
      assert "" + "" + parts[j] == parts[j];
      assert [] + Pack(r, sep, parts[j], parts[j + 1..]) == Pack(r, sep, parts[j], parts[j + 1..]);
    }
  }

  lemma OverflowIsLater(r: Rules, sep: string, parts: seq<string>, m: nat, j: nat)
    requires m <= j < |parts| && Overflows(r, sep, parts, m, j)
    ensures m < j && Fits(r, sep, parts, j, j + 1)
  {
    assert parts[j..j] == [];
  }

  lemma {:induction false} CutsAreForced(r: Rules, sep: string, parts: seq<string>, m: nat, j: nat, i: nat)
    requires m <= j <= |parts| && Fits(r, sep, parts, m, j) && i < |Cuts(r, sep, parts, m, j)|
    ensures var cuts := Cuts(r, sep, parts, m, j); Forced(r, sep, parts, RunStart(m, cuts, i), cuts[i])
    decreases |parts| - j
  {
    if Overflows(r, sep, parts, m, j) {
      OverflowIsLater(r, sep, parts, m, j);
      if i > 0 {
        CutsAreForced(r, sep, parts, j, j + 1, i - 1);
      }
    } else {
      CutsAreForced(r, sep, parts, m, j + 1, i);
    }
  }

  /** The reassembly is greedy: its buffers are consecutive runs of parts, and each run but the last ends at the
      very part that would have put it over the cap, the first such part since the run began. */
  lemma PackIsGreedy(r: Rules, sep: string, parts: seq<string>)
    ensures var cuts := Cuts(r, sep, parts, 0, 0);
            && Ascending(0, cuts, |parts|) && Pack(r, sep, "", parts) == Runs(sep, parts, 0, cuts)
            && forall i :: 0 <= i < |cuts| ==> Forced(r, sep, parts, RunStart(0, cuts, i), cuts[i])
  {
    var cuts := Cuts(r, sep, parts, 0, 0);
    PackIsRuns(r, sep, parts, 0, 0);
    assert parts[0..0] == [] && parts[0..] == parts;
    forall i | 0 <= i < |cuts| ensures Forced(r, sep, parts, RunStart(0, cuts, i), cuts[i]) {
      CutsAreForced(r, sep, parts, 0, 0, i);
    }
  }

  // ----- the token cap -----

  /** None of the first `n` separators occurs in the text. */
  ghost predicate FreeUpTo(r: Rules, text: string, n: nat)
    requires r.Valid() && n <= r.Listed()
  {
    forall k :: 0 <= k < n ==> Free(text, r.seps[k])
  }

  /** The counter gives every short separator-free text at most `maxTokens` tokens. A counter that never gives a
      text more tokens than characters has this property for every cap. */
  ghost predicate CountsShortRuns(r: Rules)
    requires r.Valid()
  {
    forall s: string :: 0 < |s| <= r.maxTokens && FreeUpTo(r, s, r.Listed()) ==> r.count(s) <= r.maxTokens
  }

  ghost predicate AllWithin(r: Rules, pieces: seq<string>) {
    forall i :: 0 <= i < |pieces| ==> r.count(pieces[i]) <= r.maxTokens
  }

  /** A piece is within the cap, or it is a separator-free run of at most `maxTokens` characters. */
  ghost predicate Settled(r: Rules, piece: string)
    requires r.Valid()
  {
    r.count(piece) <= r.maxTokens || (0 < |piece| <= r.maxTokens && FreeUpTo(r, piece, r.Listed()))
  }

  ghost predicate AllSettled(r: Rules, pieces: seq<string>)
    requires r.Valid()
  {
    forall i :: 0 <= i < |pieces| ==> Settled(r, pieces[i])
  }

  lemma {:induction false} SlicesSettled(r: Rules, text: string)
    requires r.Valid() && FreeUpTo(r, text, r.Listed())
    ensures AllSettled(r, Slices(text, r.maxTokens))
    decreases |text|
  {
    if |text| > r.maxTokens {
      forall k | 0 <= k < r.Listed()
        ensures Free(text[..r.maxTokens], r.seps[k]) && Free(text[r.maxTokens..], r.seps[k])
      {
        FreeSides(text, r.maxTokens, 0, r.seps[k]);
      }
      SlicesSettled(r, text[r.maxTokens..]);
    }
  }

  /** A buffer over the cap is a single part. */
  lemma {:induction false} PackOverCap(r: Rules, sep: string, buffer: string, parts: seq<string>, i: nat)
    requires i < |Pack(r, sep, buffer, parts)|
    ensures var packed := Pack(r, sep, buffer, parts)[i];
            r.count(packed) <= r.maxTokens || packed == buffer != ""
            || exists n :: 0 <= n < |parts| && parts[n] == packed
    decreases |parts|
  {
    if parts != [] {
      var packed, rest := Pack(r, sep, buffer, parts)[i], parts[1..];
      var candidate := Extended(sep, buffer, parts[0]);
      if r.count(candidate) <= r.maxTokens {
        PackOverCap(r, sep, candidate, rest, i);
      } else if buffer == "" {
        PackOverCap(r, sep, parts[0], rest, i);
      } else if i > 0 {
        PackOverCap(r, sep, parts[0], rest, i - 1);
      }
      if n :| 0 <= n < |rest| && rest[n] == packed {
        assert parts[n + 1] == packed;
      }
    }
  }

  lemma PartFreeUpTo(r: Rules, depth: nat, text: string, n: nat)
    requires r.Valid() && depth < r.Listed() && FreeUpTo(r, text, depth) && n < |Split(text, r.seps[depth])|
    ensures FreeUpTo(r, Split(text, r.seps[depth])[n], depth + 1)
  {
    forall k | 0 <= k < depth + 1 ensures Free(Split(text, r.seps[depth])[n], r.seps[k]) {
      if k == depth {
        PartsFree(text, r.seps[depth], n);
      } else {
        PartsStayFree(text, r.seps[depth], n, r.seps[k]);
      }
    }
  }

  ghost predicate WithinOrFree(r: Rules, text: string, depth: nat)
    requires r.Valid() && depth <= r.Listed()
  {
    r.count(text) <= r.maxTokens || FreeUpTo(r, text, depth)
  }

  ghost predicate AllWithinOrFree(r: Rules, buffers: seq<string>, depth: nat)
    requires r.Valid() && depth <= r.Listed()
  {
    forall i :: 0 <= i < |buffers| ==> WithinOrFree(r, buffers[i], depth)
  }

  lemma BuffersWithinOrFree(r: Rules, depth: nat, text: string)
    requires r.Valid() && depth < r.Listed() && FreeUpTo(r, text, depth)
    ensures AllWithinOrFree(r, Pack(r, r.seps[depth], "", Split(text, r.seps[depth])), depth + 1)
  {
    var parts := Split(text, r.seps[depth]);
    var buffers := Pack(r, r.seps[depth], "", parts);
    forall i | 0 <= i < |buffers| ensures WithinOrFree(r, buffers[i], depth + 1) {
      PackOverCap(r, r.seps[depth], "", parts, i);
      if n :| 0 <= n < |parts| && parts[n] == buffers[i] {
        PartFreeUpTo(r, depth, text, n);
      }
    }
  }

  /** One level of the splitter: over the cap, with a real separator. */
  lemma PiecesLevel(r: Rules, depth: nat, text: string)
    requires r.Valid() && depth < r.Listed() && r.count(text) > r.maxTokens
    ensures var parts := Split(text, r.seps[depth]);
            Pieces(r, depth, text) == (if |parts| == 1 then Pieces(r, depth + 1, text)
                                       else PiecesOfAll(r, depth + 1, Pack(r, r.seps[depth], "", parts)))
  {
  }

  /** Separators that the text is free of change nothing. */
  lemma {:induction false} SkipFree(r: Rules, depth: nat, to: nat, text: string)
    requires r.Valid() && depth <= to <= r.Listed() && r.count(text) > r.maxTokens && FreeUpTo(r, text, to)
    ensures Pieces(r, depth, text) == Pieces(r, to, text)
    decreases r.Listed() - depth
  {
    if depth < to {
      OneFree(r, depth, text);
      SkipFree(r, depth + 1, to, text);
    }
  }

  lemma OneFree(r: Rules, depth: nat, text: string)
    requires r.Valid() && depth < r.Listed() && r.count(text) > r.maxTokens && Free(text, r.seps[depth])
    ensures Pieces(r, depth, text) == Pieces(r, depth + 1, text)
  {
    PiecesLevel(r, depth, text);
  }

  lemma {:induction false} PiecesSettled(r: Rules, depth: nat, text: string)
    requires r.Valid() && depth <= r.Listed() && WithinOrFree(r, text, depth)
    ensures AllSettled(r, Pieces(r, depth, text))
    decreases r.Listed() - depth, 0
  {
    if r.count(text) > r.maxTokens {
      if depth == r.Listed() {
        SlicesSettled(r, text);
      } else {
        PiecesLevel(r, depth, text);
        var parts := Split(text, r.seps[depth]);
        if |parts| == 1 {
          PiecesSettled(r, depth + 1, text);
        } else {
          BuffersWithinOrFree(r, depth, text);
          PiecesOfAllSettled(r, depth + 1, Pack(r, r.seps[depth], "", parts));
        }
      }
    }
  }

  lemma {:induction false} PiecesOfAllSettled(r: Rules, depth: nat, buffers: seq<string>)
    requires r.Valid() && depth <= r.Listed() && AllWithinOrFree(r, buffers, depth)
    ensures AllSettled(r, PiecesOfAll(r, depth, buffers))
    decreases r.Listed() - depth, |buffers|
  {
    if buffers != [] {
      PiecesSettled(r, depth, buffers[0]);
      PiecesOfAllSettled(r, depth, buffers[1..]);
    }
  }

  /** A separator-free text of at most `maxTokens` characters is passed through whole, over the cap or not. */
  lemma {:induction false} ShortRunIsOnePiece(r: Rules, depth: nat, text: string)
    requires r.Valid() && depth <= r.Listed() && 0 < |text| <= r.maxTokens && FreeUpTo(r, text, r.Listed())
    ensures Pieces(r, depth, text) == [text]
    decreases |r.seps| - depth
  {
    if r.count(text) > r.maxTokens && depth < r.Listed() {
      ShortRunIsOnePiece(r, depth + 1, text);
    }
  }

  /** Exactly when the cap is a hard cap: no text is ever given a piece over `maxTokens` if and only if the
      counter keeps every separator-free run of at most `maxTokens` characters within it. */
  lemma CapHoldsIff(r: Rules)
    requires r.Valid()
    ensures (forall text: string :: AllWithin(r, Pieces(r, 0, text)))
       <==> CountsShortRuns(r)
  {
    if CountsShortRuns(r) {
      forall text: string ensures AllWithin(r, Pieces(r, 0, text)) {
        PiecesSettled(r, 0, text);
      }
    } else {
      var s: string :| 0 < |s| <= r.maxTokens && FreeUpTo(r, s, r.Listed()) && r.count(s) > r.maxTokens;
      ShortRunIsOnePiece(r, 0, s);
      assert Pieces(r, 0, s)[0] == s;
      assert !AllWithin(r, Pieces(r, 0, s));
    }
  }

  /** In particular it is one for every counter that gives no text more tokens than characters. */
  lemma CapHoldsForShortCounts(r: Rules, text: string)
    requires r.Valid() && forall s: string :: r.count(s) <= |s|
    ensures AllWithin(r, Pieces(r, 0, text))
  {
    assert CountsShortRuns(r);
    CapHoldsIff(r);
  }
}
