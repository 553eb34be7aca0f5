/** Where the chunks of a document go: a point in the vector store and a row in the database, both keyed by the document
    and the index of the chunk. `Indexer` holds both stores and writes them as an ingest and the re-embedding tasks do;
    `ChunkHistory` has what is stored after any history of them. */
module ChunkStores {
  import opened Collections
  import opened Decimals
  import opened Wrappers
  import opened Chunker
  import opened Parser

  // ----- point ids -----

  function PointName(docId: string, index: nat): string {
    docId + ":" + Digits(index)
  }

  /** `uuid5` in the fixed namespace. */
  type Uuid5 = string -> string

  ghost predicate CollisionFree(uuid5: Uuid5) {
    forall a, b :: uuid5(a) == uuid5(b) ==> a == b
  }

  function MakePointId(uuid5: Uuid5, docId: string, index: nat): string {
    uuid5(PointName(docId, index))
  }

  lemma ColonStays(d: string, i: nat, e: string, j: nat)
    requires PointName(d, i) == PointName(e, j)
    ensures |d| >= |e|
  {
    var s := PointName(d, i);
    assert PointName(e, j)[|e|] == ':';
    assert forall k :: |d| < k < |s| ==> s[k] == Digits(i)[k - |d| - 1];
  }

  /** A document id and an index can be told from the name of their point, whatever characters the id holds. */
  lemma PointNameInjective(d: string, i: nat, e: string, j: nat)
    requires PointName(d, i) == PointName(e, j)
    ensures d == e && i == j
  {
    ColonStays(d, i, e, j);
    ColonStays(e, j, d, i);
    var s, t := PointName(d, i), PointName(e, j);
    assert s[..|d|] == d && t[..|e|] == e;
    assert s[|d| + 1..] == Digits(i) && t[|e| + 1..] == Digits(j);
    DigitsInjective(i, j);
  }

  lemma PointIdInjective(uuid5: Uuid5, d: string, i: nat, e: string, j: nat)
    requires CollisionFree(uuid5) && MakePointId(uuid5, d, i) == MakePointId(uuid5, e, j)
    ensures d == e && i == j
  {
    assert PointName(d, i) == PointName(e, j);
    PointNameInjective(d, i, e, j);
  }

  // ----- what is stored -----

  /** `chunkId` is for the id of the chunk's row. */
  datatype Payload = Payload(chunkId: Option<string>, docId: string, groupIds: seq<string>, language: Option<string>,
                             index: nat, title: Option<string>, indexedAt: Option<string>, source: Option<string>,
                             sourceId: Option<string>)

  /** The chunk id that vector search reports for a point. */
  function ReportedId(id: string, point: Point): string {
    var c := point.payload.chunkId;
    if c.Some? && c.value != "" then c.value else id
  }

  datatype Point = Point(vector: seq<real>, payload: Payload)

  datatype Row = Row(title: string, text: string, tokenCount: nat, page: Option<int>, language: string,
                     pointId: string, model: string, dim: nat)

  datatype Keyed = Keyed(id: string, point: Point)

  /** What one ingest knows about its document when it comes to storing. */
  datatype Ingest = Ingest(docId: string, chunks: seq<Chunk>, languages: seq<string>, vectors: seq<seq<real>>,
                           groupIds: seq<string>, indexedAt: string, source: string, sourceId: string,
                           model: string, dim: nat) {

    /** One language for each chunk; the chunks numbered as the chunker numbers them. */
    ghost predicate Aligned() {
      |languages| == |chunks| && forall i :: 0 <= i < |chunks| ==> chunks[i].index == i
    }
  }

  function PointAt(uuid5: Uuid5, g: Ingest, i: nat): Keyed
    requires i < |g.chunks| == |g.languages| == |g.vectors|
  {
    var c := g.chunks[i];
    Keyed(MakePointId(uuid5, g.docId, c.index),
          Point(g.vectors[i], Payload(None, g.docId, g.groupIds, Some(g.languages[i]), c.index, Some(c.title),
                                      Some(g.indexedAt), Some(g.source), Some(g.sourceId))))
  }

  function PointsOf(uuid5: Uuid5, g: Ingest): (ps: seq<Keyed>)
    requires |g.chunks| == |g.languages| == |g.vectors|
    ensures |ps| == |g.chunks| && forall i :: 0 <= i < |ps| ==> ps[i] == PointAt(uuid5, g, i)
  {
    seq(|g.chunks|, i requires 0 <= i < |g.chunks| => PointAt(uuid5, g, i))
  }

  function RowAt(uuid5: Uuid5, g: Ingest, i: nat): Row
    requires i < |g.chunks| == |g.languages|
  {
    var c := g.chunks[i];
    Row(c.title, c.text, c.tokenCount, c.page, g.languages[i], MakePointId(uuid5, g.docId, c.index), g.model, g.dim)
  }

  /** One upsert of all these points. */
  function UpsertAll(points: map<string, Point>, ps: seq<Keyed>): map<string, Point> {
    if ps == [] then points else UpsertAll(points, ps[..|ps| - 1])[ps[|ps| - 1].id := ps[|ps| - 1].point]
  }

  /** The rows after upserting those of the first `n` chunks. */
  function Persisted(uuid5: Uuid5, rows: map<Key, Row>, g: Ingest, n: nat): map<Key, Row>
    requires n <= |g.chunks| == |g.languages|
  {
    if n == 0 then rows
    else Persisted(uuid5, rows, g, n - 1)[(g.docId, g.chunks[n - 1].index) := RowAt(uuid5, g, n - 1)]
  }

  type Key = (string, nat)

  /** What the database and the embedding model bring along: the id of the row of a chunk, and the vector of a text. */
  datatype Services = Services(uuid5: Uuid5, rowId: Key -> string, embed: string -> seq<real>)

  /** The point a re-embedding makes of a row. */
  function FromRow(svc: Services, rows: map<Key, Row>, k: Key): Keyed
    requires k in rows
  {
    Keyed(MakePointId(svc.uuid5, k.0, k.1),
          Point(svc.embed(rows[k].text), Payload(Some(svc.rowId(k)), k.0, [], None, k.1, None, None, None, None)))
  }

  function FromRows(svc: Services, rows: map<Key, Row>, ks: seq<Key>): (ps: seq<Keyed>)
    requires forall i :: 0 <= i < |ks| ==> ks[i] in rows
    ensures |ps| == |ks| && forall i :: 0 <= i < |ks| ==> ps[i] == FromRow(svc, rows, ks[i])
  {
    seq(|ks|, i requires 0 <= i < |ks| => FromRow(svc, rows, ks[i]))
  }

  lemma FromRowsSlice(svc: Services, rows: map<Key, Row>, ks: seq<Key>, start: nat, end: nat)
    requires start <= end <= |ks| && forall i :: 0 <= i < |ks| ==> ks[i] in rows
    ensures FromRows(svc, rows, ks[start..end]) == FromRows(svc, rows, ks)[start..end]
  {
  }

  /** All rows with the model that made their vectors. */
  function Relabeled(rows: map<Key, Row>, model: string, dim: nat): map<Key, Row> {
    map k | k in rows :: rows[k].(model := model, dim := dim)
  }

  lemma NothingToRelabel(rows: map<Key, Row>, all: seq<Key>, model: string, dim: nat)
    requires all == [] && forall k :: k in all <==> k in rows
    ensures Relabeled(rows, model, dim) == rows
  {
    forall k ensures k !in rows {
      assert k in all <==> k in rows;
    }
  }

  datatype Stores = Stores(points: map<string, Point>, rows: map<Key, Row>)

  datatype Outcome = NoChunks | VectorMismatch | Active(chunkCount: nat)

  /** Both stores after an ingest; nothing is stored without chunks or without a vector for each. */
  function After(uuid5: Uuid5, s: Stores, g: Ingest): Stores
    requires |g.languages| == |g.chunks|
  {
    if g.chunks == [] || |g.vectors| != |g.chunks| then s
    else Stores(UpsertAll(s.points, PointsOf(uuid5, g)), Persisted(uuid5, s.rows, g, |g.chunks|))
  }

  class Indexer {
    const svc: Services
    var points: map<string, Point>
    var rows: map<Key, Row>

    constructor (svc: Services)
      ensures this.svc == svc && points == map[] && rows == map[]
    {
      this.svc, points, rows := svc, map[], map[];
    }

    /** `upsert_chunks_bulk`: sending the points in batches stores what sending them at once would, and counts all. */
    method UpsertBulk(ps: seq<Keyed>, batchSize: nat) returns (total: nat)
      requires batchSize > 0
      modifies this`points
      ensures total == |ps| && points == UpsertAll(old(points), ps)
    {
      total := 0;
      var start := 0;
      while start < |ps|
        invariant start >= |ps| ==> total == |ps|
        invariant start < |ps| ==> total == start
        invariant total <= |ps| && points == UpsertAll(old(points), ps[..total])
        decreases |ps| - start
      {
        var end := if start + batchSize < |ps| then start + batchSize else |ps|;
        var batch := ps[start..end];
        UpsertBatch(old(points), ps, start, end);
        points := UpsertAll(points, batch);
        total := total + |batch|;
        start := start + batchSize;
      }
      assert ps[..|ps|] == ps;
    }

    /** `_persist_chunks`: one transaction. */
    method PersistChunks(g: Ingest)
      requires |g.languages| == |g.chunks|
      modifies this`rows
      ensures rows == Persisted(svc.uuid5, old(rows), g, |g.chunks|)
    {
      var session := rows;
      for i := 0 to |g.chunks|
        invariant session == Persisted(svc.uuid5, old(rows), g, i) && rows == old(rows)
      {
        var c := g.chunks[i];
        var row := Row(c.title, c.text, c.tokenCount, c.page, g.languages[i], MakePointId(svc.uuid5, g.docId, c.index),
                       g.model, g.dim);
        session := session[(g.docId, c.index) := row];
      }
      rows := session;
    }

    /** The storing half of `ingest_document`. */
    method Store(g: Ingest) returns (outcome: Outcome)
      requires |g.languages| == |g.chunks|
      modifies this
      ensures Stores(points, rows) == After(svc.uuid5, Stores(old(points), old(rows)), g)
      ensures outcome == if g.chunks == [] then NoChunks else if |g.vectors| != |g.chunks| then VectorMismatch
                         else Active(|g.chunks|)
    {
      if g.chunks == [] {
        return NoChunks;
      }
      if |g.vectors| != |g.chunks| {
        return VectorMismatch;
      }
      var written := UpsertBulk(PointsOf(svc.uuid5, g), BULK_BATCH_SIZE);
      PersistChunks(g);
      return Active(|g.chunks|);
    }

    /** The batches of `reembed_all_task`. */
    method ReembedBatches(all: seq<Key>) returns (upserted: nat)
      requires forall i :: 0 <= i < |all| ==> all[i] in rows
      modifies this`points
      ensures points == UpsertAll(old(points), FromRows(svc, rows, all)) && upserted == |all|
    {
      upserted := 0;
      var start := 0;
      ghost var ps := FromRows(svc, rows, all);
      while start < |all|
        invariant upserted == if start < |all| then start else |all|
        invariant points == UpsertAll(old(points), ps[..upserted])
        decreases |all| - start
      {
        var end := if start + REEMBED_BATCH_SIZE < |all| then start + REEMBED_BATCH_SIZE else |all|;
        UpsertBatch(old(points), ps, start, end);
        FromRowsSlice(svc, rows, all, start, end);
        var written := UpsertBulk(FromRows(svc, rows, all[start..end]), BULK_BATCH_SIZE);
        upserted := upserted + written;
        start := start + REEMBED_BATCH_SIZE;
      }
      assert ps[..|ps|] == ps;
    }

    /** `reembed_all_task`: `all` is what the first query returns, in whatever order. */
    method ReembedAll(all: seq<Key>, model: string, dim: nat) returns (upserted: nat)
      requires forall k :: k in all <==> k in rows
      modifies this
      ensures points == UpsertAll(old(points), FromRows(svc, old(rows), all)) && upserted == |all|
      ensures rows == Relabeled(old(rows), model, dim)
    {
      if |all| == 0 {
        NothingToRelabel(rows, all, model, dim);
        return 0;
      }
      upserted := ReembedBatches(all);
      rows := Relabeled(rows, model, dim);
    }

    /** `reembed_one_task`; a chunk without a row is not found. */
    method ReembedOne(k: Key) returns (found: bool)
      modifies this`points
      ensures found <==> k in rows
      ensures points == if k in rows then UpsertAll(old(points), FromRows(svc, rows, [k])) else old(points)
    {
      found := k in rows;
      if found {
        var written := UpsertBulk(FromRows(svc, rows, [k]), BULK_BATCH_SIZE);
      }
    }
  }

  const BULK_BATCH_SIZE: nat := 500
  const REEMBED_BATCH_SIZE: nat := 256

  lemma {:induction false} UpsertAppend(points: map<string, Point>, a: seq<Keyed>, b: seq<Keyed>)
    ensures UpsertAll(points, a + b) == UpsertAll(UpsertAll(points, a), b)
    decreases |b|
  {
    if b == [] {
      assert a + b == a;
    } else {
      assert (a + b)[..|a + b| - 1] == a + b[..|b| - 1];
      UpsertAppend(points, a, b[..|b| - 1]);
    }
  }

  lemma UpsertBatch(points: map<string, Point>, ps: seq<Keyed>, start: nat, end: nat)
    requires start <= end <= |ps|
    ensures UpsertAll(points, ps[..end]) == UpsertAll(UpsertAll(points, ps[..start]), ps[start..end])
  {
    UpsertAppend(points, ps[..start], ps[start..end]);
    assert ps[..start] + ps[start..end] == ps[..end];
  }

  // ----- what is stored where -----

  ghost predicate Names(ps: seq<Keyed>, id: string) {
    exists i :: 0 <= i < |ps| && ps[i].id == id
  }

  lemma {:induction false} OtherPoints(points: map<string, Point>, ps: seq<Keyed>, id: string)
    requires !Names(ps, id)
    ensures Get(UpsertAll(points, ps), id) == Get(points, id)
    decreases |ps|
  {
    if ps != [] {
      var before := ps[..|ps| - 1];
      assert !Names(before, id) by {
        forall i | 0 <= i < |before| ensures before[i].id != id {
          assert before[i] == ps[i];
        }
      }
      OtherPoints(points, before, id);
    }
  }

  /** The last point with an id is the one that stays. */
  lemma {:induction false} LastPointStays(points: map<string, Point>, ps: seq<Keyed>, i: nat)
    requires i < |ps| && forall j :: i < j < |ps| ==> ps[j].id != ps[i].id
    ensures Get(UpsertAll(points, ps), ps[i].id) == Some(ps[i].point)
    decreases |ps|
  {
    if i < |ps| - 1 {
      assert ps[..|ps| - 1][i] == ps[i];
      LastPointStays(points, ps[..|ps| - 1], i);
    }
  }

  /** What an upsert stores under the ids it names does not depend on what was there. */
  lemma {:induction false} UpsertForgets(a: map<string, Point>, b: map<string, Point>, ps: seq<Keyed>, id: string)
    requires Get(a, id) == Get(b, id) || Names(ps, id)
    ensures Get(UpsertAll(a, ps), id) == Get(UpsertAll(b, ps), id)
    decreases |ps|
  {
    if ps != [] && ps[|ps| - 1].id != id {
      var before := ps[..|ps| - 1];
      if Names(ps, id) {
        var i :| 0 <= i < |ps| && ps[i].id == id;
        assert before[i].id == id;
      }
      UpsertForgets(a, b, before, id);
    }
  }

  lemma {:induction false} RowsAfter(uuid5: Uuid5, rows: map<Key, Row>, g: Ingest, n: nat, d: string, j: nat)
    requires g.Aligned() && n <= |g.chunks|
    ensures Get(Persisted(uuid5, rows, g, n), (d, j))
         == if d == g.docId && j < n then Some(RowAt(uuid5, g, j)) else Get(rows, (d, j))
    decreases n
  {
    if n > 0 {
      RowsAfter(uuid5, rows, g, n - 1, d, j);
    }
  }

  lemma PointsAfter(uuid5: Uuid5, points: map<string, Point>, g: Ingest, d: string, j: nat)
    requires CollisionFree(uuid5) && g.Aligned() && |g.vectors| == |g.chunks|
    ensures Get(UpsertAll(points, PointsOf(uuid5, g)), MakePointId(uuid5, d, j))
         == if d == g.docId && j < |g.chunks| then Some(PointAt(uuid5, g, j).point)
            else Get(points, MakePointId(uuid5, d, j))
  {
    var ps, id := PointsOf(uuid5, g), MakePointId(uuid5, d, j);
    forall i | 0 <= i < |ps| && ps[i].id == id ensures d == g.docId && i == j {
      PointIdInjective(uuid5, g.docId, i, d, j);
    }
    if d == g.docId && j < |ps| {
      LastPointStays(points, ps, j);
    } else {
      OtherPoints(points, ps, id);
    }
  }

  /** After an ingest of n chunks the row and the point of (document, i) both describe chunk i, for every i below n; the
      rows and points of other documents, and those of the document from n on, are as they were. */
  lemma IngestStoresChunks(uuid5: Uuid5, s: Stores, g: Ingest, d: string, j: nat)
    requires CollisionFree(uuid5) && g.Aligned() && |g.vectors| == |g.chunks|
    ensures var t, id := After(uuid5, s, g), MakePointId(uuid5, d, j);
            if d == g.docId && j < |g.chunks| then
              Get(t.rows, (d, j)) == Some(RowAt(uuid5, g, j)) && Get(t.points, id) == Some(PointAt(uuid5, g, j).point)
            else Get(t.rows, (d, j)) == Get(s.rows, (d, j)) && Get(t.points, id) == Get(s.points, id)
  {
    RowsAfter(uuid5, s.rows, g, |g.chunks|, d, j);
    PointsAfter(uuid5, s.points, g, d, j);
  }

  /** What there is to find of chunk j afterwards: its text, title, page and language in the row, its vector in the
      point, and in each the key of the other. */
  lemma ChunkIsInBothStores(uuid5: Uuid5, s: Stores, g: Ingest, j: nat)
    requires CollisionFree(uuid5) && g.Aligned() && |g.vectors| == |g.chunks| && j < |g.chunks|
    ensures var t, id, c := After(uuid5, s, g), MakePointId(uuid5, g.docId, j), g.chunks[j];
            && (g.docId, j) in t.rows && id in t.points && t.rows[(g.docId, j)].pointId == id
            && t.rows[(g.docId, j)].text == c.text && t.rows[(g.docId, j)].title == c.title
            && t.rows[(g.docId, j)].page == c.page && t.rows[(g.docId, j)].tokenCount == c.tokenCount
            && t.rows[(g.docId, j)].language == g.languages[j] && t.points[id].payload.language == Some(g.languages[j])
            && t.points[id].vector == g.vectors[j] && t.points[id].payload.groupIds == g.groupIds
            && t.points[id].payload.docId == g.docId && t.points[id].payload.index == j
            && t.points[id].payload.title == Some(c.title) && t.points[id].payload.chunkId == None
            && t.points[id].payload.indexedAt == Some(g.indexedAt) && t.points[id].payload.source == Some(g.source)
            && t.points[id].payload.sourceId == Some(g.sourceId)
            && t.rows[(g.docId, j)].model == g.model && t.rows[(g.docId, j)].dim == g.dim
            && id == uuid5(g.docId + ":" + Digits(j))
  {
    IngestStoresChunks(uuid5, s, g, g.docId, j);
  }

  /** The document has exactly the rows of its chunks afterwards if and only if it had no row from n on before: rows of
      an earlier, longer version are never removed. */
  lemma OnlyOwnRowsIff(uuid5: Uuid5, s: Stores, g: Ingest)
    requires g.Aligned() && |g.vectors| == |g.chunks| && g.chunks != []
    ensures (forall j: nat :: (g.docId, j) in After(uuid5, s, g).rows <==> j < |g.chunks|)
       <==> forall j: nat :: (g.docId, j) in s.rows ==> j < |g.chunks|
  {
    forall j: nat ensures (g.docId, j) in After(uuid5, s, g).rows <==> j < |g.chunks| || (g.docId, j) in s.rows {
      RowsAfter(uuid5, s.rows, g, |g.chunks|, g.docId, j);
    }
  }

  // ----- running again -----

  /** The same chunks, ingested at another time. */
  ghost predicate SameChunks(g: Ingest, h: Ingest) {
    g == h.(indexedAt := g.indexedAt)
  }

  /** An ingest that died after storing the first `k` points, before any row, and is run again leaves what one run at
      the later time would have left. */
  lemma InterruptedIngest(uuid5: Uuid5, s: Stores, g: Ingest, h: Ingest, k: nat)
    requires g.Aligned() && |g.vectors| == |g.chunks| && SameChunks(g, h) && k <= |g.chunks|
    ensures After(uuid5, s.(points := UpsertAll(s.points, PointsOf(uuid5, g)[..k])), h) == After(uuid5, s, h)
  {
    var first, again := PointsOf(uuid5, g)[..k], PointsOf(uuid5, h);
    forall id ensures Get(UpsertAll(UpsertAll(s.points, first), again), id) == Get(UpsertAll(s.points, again), id) {
      if Names(first, id) {
        var i :| 0 <= i < |first| && first[i].id == id;
        assert again[i].id == id;
      } else {
        OtherPoints(s.points, first, id);
      }
      UpsertForgets(UpsertAll(s.points, first), s.points, again, id);
    }
    SameMap(UpsertAll(UpsertAll(s.points, first), again), UpsertAll(s.points, again));
  }

  /** Running an ingest again changes no row, and nothing in the points but the time they were indexed. */
  lemma SecondIngest(uuid5: Uuid5, s: Stores, g: Ingest, h: Ingest, d: string, j: nat)
    requires CollisionFree(uuid5) && g.Aligned() && |g.vectors| == |g.chunks| && SameChunks(g, h)
    ensures var once := After(uuid5, s, g); var twice := After(uuid5, once, h);
            && Get(twice.rows, (d, j)) == Get(once.rows, (d, j))
            && Timeless(Get(twice.points, MakePointId(uuid5, d, j)))
            == Timeless(Get(once.points, MakePointId(uuid5, d, j)))
  {
    var once := After(uuid5, s, g);
    IngestStoresChunks(uuid5, s, g, d, j);
    IngestStoresChunks(uuid5, once, h, d, j);
  }

  function Timeless(point: Option<Point>): Option<Point> {
    if point.None? then None else Some(point.value.(payload := point.value.payload.(indexedAt := None)))
  }

  /** The chunks of the chunker are numbered as the stores need them. */
  lemma ChunkerAligns(s: Settings, sections: seq<Section>, g: Ingest)
    requires g.chunks == Chunks(s, sections) && |g.languages| == |g.chunks|
    ensures g.Aligned()
  {
    forall n | 0 <= n < |g.chunks| ensures g.chunks[n].index == n {
      var j, i := SectionOfChunk(s, Chunker.TextsOf(s), sections, n);
    }
  }
}
