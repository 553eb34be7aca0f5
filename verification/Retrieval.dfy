/** A hybrid search over the stores as any history left them: what vector search and keyword search return, merged and
    hydrated. */
module Retrieval {
  import opened Wrappers
  import opened ChunkStores
  import opened ChunkHistory
  import opened RrfMerge

  /** The id of a row belongs to no other row and to no point. */
  ghost predicate RowIdsApart(svc: Services) {
    && (forall k, l :: svc.rowId(k) == svc.rowId(l) ==> k == l)
    && (forall k, d, j: nat :: svc.rowId(k) != MakePointId(svc.uuid5, d, j))
  }

  /** The candidate that vector search makes of a point; the score is the database's. */
  ghost predicate FromPoint(c: Candidate, id: string, point: Point) {
    && c.chunkId == ReportedId(id, point) && c.docId == point.payload.docId && c.text == "" && c.source == Vector
    && c.title == point.payload.title && c.page == None && c.language == point.payload.language
  }

  /** What vector search can return to a caller with these groups: the candidates of distinct points that pass the group
      filter, in whatever order. */
  ghost predicate VectorResults(s: Stores, groups: seq<string>, ids: seq<string>, vec: seq<Candidate>) {
    && |vec| == |ids| && (forall i, j :: 0 <= i < j < |ids| ==> ids[i] != ids[j])
    && forall i :: 0 <= i < |ids| ==> VisibleAt(s.points, ids[i], groups) && FromPoint(vec[i], ids[i], s.points[ids[i]])
  }

  ghost predicate IsRowOf(svc: Services, c: Candidate, k: Key, row: Row) {
    && c.chunkId == svc.rowId(k) && c.docId == k.0 && c.text == row.text && c.source == Keyword
    && c.title == Some(row.title) && c.page == row.page && c.language == Some(row.language)
  }

  /** What keyword search can return: rows, one as often as the join has it. */
  ghost predicate KeywordResults(svc: Services, s: Stores, ks: seq<Key>, kw: seq<Candidate>) {
    |kw| == |ks| && forall i :: 0 <= i < |ks| ==> ks[i] in s.rows && IsRowOf(svc, kw[i], ks[i], s.rows[ks[i]])
  }

  ghost predicate IsRowId(svc: Services, id: string) {
    exists k :: svc.rowId(k) == id
  }

  /** The text query of the hydration finds texts under the ids of rows. */
  ghost predicate RowTexts(svc: Services, texts: map<string, string>) {
    forall id :: id in texts ==> IsRowId(svc, id)
  }

  /** What the two lists have to do with each other. */
  ghost predicate Apart(svc: Services, vec: seq<Candidate>, kw: seq<Candidate>) {
    && NoDuplicates(vec)
    && (forall i :: 0 <= i < |vec| ==> vec[i].text == "" && MadeId(svc.uuid5, vec[i].chunkId))
    && (forall i :: 0 <= i < |kw| ==> IsRowId(svc, kw[i].chunkId))
  }

  lemma ListsAreApart(svc: Services, steps: seq<Step>, groups: seq<string>, ids: seq<string>, vec: seq<Candidate>,
                      ks: seq<Key>, kw: seq<Candidate>)
    requires CollisionFree(svc.uuid5) && AllLegal(svc, steps)
    requires VectorResults(Run(svc, steps).stores, groups, ids, vec)
    requires KeywordResults(svc, Run(svc, steps).stores, ks, kw)
    ensures Apart(svc, vec, kw)
  {
    forall i | 0 <= i < |vec| ensures vec[i].chunkId == ids[i] && MadeId(svc.uuid5, ids[i]) {
      ReportedByPointId(svc, steps, ids[i], groups);
    }
    forall i | 0 <= i < |kw| ensures IsRowId(svc, kw[i].chunkId) {
      assert svc.rowId(ks[i]) == kw[i].chunkId;
    }
  }

  lemma NothingShared(svc: Services, vec: seq<Candidate>, kw: seq<Candidate>, id: string)
    requires RowIdsApart(svc) && Apart(svc, vec, kw)
    ensures !(Occurs(vec, id) && Occurs(kw, id)) && !Repeats(vec, id)
    ensures Occurs(vec, id) ==> MadeId(svc.uuid5, id)
  {
  }

  /** In any search after any history the two lists share no chunk, so "both" marks exactly the chunks that keyword
      search returns more than once, and only those can be labelled other than "low". */
  lemma FusionIsUnion(svc: Services, steps: seq<Step>, groups: seq<string>, ids: seq<string>, vec: seq<Candidate>,
                      ks: seq<Key>, kw: seq<Candidate>, k: nat, id: string)
    requires CollisionFree(svc.uuid5) && RowIdsApart(svc) && AllLegal(svc, steps)
    requires VectorResults(Run(svc, steps).stores, groups, ids, vec)
    requires KeywordResults(svc, Run(svc, steps).stores, ks, kw)
    ensures !(Occurs(vec, id) && Occurs(kw, id))
    ensures MarkedBoth(vec, kw, k, id) <==> Repeats(kw, id)
    ensures Confidence(ScoreOf(AllHits(vec, kw, RRF_K), id)) != Low ==> Repeats(kw, id)
  {
    ListsAreApart(svc, steps, groups, ids, vec, ks, kw);
    NothingShared(svc, vec, kw, id);
    ScoreOfConcat(HitsOf(vec, Vector, k), HitsOf(kw, Keyword, k), id);
    CountsOccurrences(vec, Vector, k, id);
    CountsOccurrences(kw, Keyword, k, id);
    HighTakesRepeats(vec, kw, id);
  }

  ghost predicate HaveText(hits: seq<Hit>, id: string, text: string) {
    forall i :: 0 <= i < |hits| && hits[i].cand.chunkId == id ==> hits[i].cand.text == text
  }

  ghost predicate ListHasText(results: seq<Candidate>, id: string, text: string) {
    forall i :: 0 <= i < |results| && results[i].chunkId == id ==> results[i].text == text
  }

  lemma BothHaveText(vec: seq<Candidate>, kw: seq<Candidate>, k: nat, id: string, text: string)
    requires ListHasText(vec, id, text) && ListHasText(kw, id, text)
    ensures HaveText(AllHits(vec, kw, k), id, text)
  {
  }

  lemma {:induction false} SameText(hits: seq<Hit>, id: string, text: string)
    requires HaveText(hits, id, text) && CountOf(hits, id) > 0
    ensures FirstText(hits, id) == text
  {
    var front := hits[..|hits| - 1];
    CollectText(front, id);
    if CountOf(front, id) > 0 {
      SameText(front, id, text);
    }
  }

  /** What is handed out for a chunk that vector search found: no text, whatever the hydration finds. */
  lemma VectorStaysBare(svc: Services, steps: seq<Step>, groups: seq<string>, ids: seq<string>, vec: seq<Candidate>,
                        ks: seq<Key>, kw: seq<Candidate>, k: nat, topK: nat, texts: map<string, string>, i: nat)
    requires CollisionFree(svc.uuid5) && RowIdsApart(svc) && AllLegal(svc, steps) && RowTexts(svc, texts)
    requires VectorResults(Run(svc, steps).stores, groups, ids, vec)
    requires KeywordResults(svc, Run(svc, steps).stores, ks, kw)
    requires i < |TopOf(AllHits(vec, kw, k), topK)|
    ensures var out := TopOf(AllHits(vec, kw, k), topK)[i];
            Occurs(vec, out.chunkId) ==> out.text == "" && Supplied(out, texts) == out
  {
    ListsAreApart(svc, steps, groups, ids, vec, ks, kw);
    var hits := AllHits(vec, kw, k);
    var id := TopOf(hits, topK)[i].chunkId;
    TopEntry(hits, topK, i);
    NothingShared(svc, vec, kw, id);
    if Occurs(vec, id) {
      BothHaveText(vec, kw, k, id, "");
      SameText(hits, id, "");
    }
  }

  /** And for a chunk that keyword search found: the text of its row. */
  lemma KeywordKeepsText(svc: Services, steps: seq<Step>, groups: seq<string>, ids: seq<string>, vec: seq<Candidate>,
                         ks: seq<Key>, kw: seq<Candidate>, k: nat, topK: nat, i: nat, key: Key)
    requires CollisionFree(svc.uuid5) && RowIdsApart(svc) && AllLegal(svc, steps)
    requires VectorResults(Run(svc, steps).stores, groups, ids, vec)
    requires KeywordResults(svc, Run(svc, steps).stores, ks, kw)
    requires i < |TopOf(AllHits(vec, kw, k), topK)| && key in Run(svc, steps).stores.rows
    requires TopOf(AllHits(vec, kw, k), topK)[i].chunkId == svc.rowId(key)
    ensures TopOf(AllHits(vec, kw, k), topK)[i].text == Run(svc, steps).stores.rows[key].text
  {
    ListsAreApart(svc, steps, groups, ids, vec, ks, kw);
    var hits, id := AllHits(vec, kw, k), svc.rowId(key);
    TopEntry(hits, topK, i);
    NothingShared(svc, vec, kw, id);
    var text := Run(svc, steps).stores.rows[key].text;
    forall n | 0 <= n < |kw| && kw[n].chunkId == id ensures kw[n].text == text {
      assert svc.rowId(ks[n]) == svc.rowId(key);
    }
    BothHaveText(vec, kw, k, id, text);
    SameText(hits, id, text);
  }
}
