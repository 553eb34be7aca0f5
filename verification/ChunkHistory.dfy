/** What is stored of a chunk after any history of syncs, ingests, re-embeddings and ingests that die between the two
    stores. */
module ChunkHistory {
  import opened Collections
  import opened Wrappers
  import opened ChunkStores
  import SyncReplay

  type DocumentStatus = SyncReplay.DocumentStatus

  /** Of a document's row, what decides whether an ingest of it does anything; and the groups it is shared with. */
  datatype DocState = DocState(status: DocumentStatus, indexed: bool, groups: seq<string>)

  datatype World = World(stores: Stores, docs: map<string, DocState>)

  /** `Upserted` is the sync's upsert of the document; `StatusSet` its tombstone, or what an administrator sets;
      `Shared` a change of the groups it is shared with. `Ingested` is an ingest that stored everything, `marked` says
      whether it lived to mark the document active; `Died` is one that stored its first `k` points and no row.
      `Reembedded` writes points for these rows, one row, all of them, or as many as the task got to; `Relabel` is what
      the task does at its end. */
  datatype Step =
    | Upserted(docId: string)
    | StatusSet(docId: string, status: DocumentStatus)
    | Shared(docId: string, groups: seq<string>)
    | Ingested(g: Ingest, marked: bool)
    | Died(g: Ingest, k: nat)
    | Reembedded(ks: seq<Key>)
    | Relabel(model: string, dim: nat)

  /** The vectors are those of the texts, unless there are too few or too many of them. */
  ghost predicate Embedded(svc: Services, g: Ingest) {
    |g.vectors| == |g.chunks| ==> forall i :: 0 <= i < |g.chunks| ==> g.vectors[i] == svc.embed(g.chunks[i].text)
  }

  ghost predicate Legal(svc: Services, step: Step) {
    match step
    case Ingested(g, _) => g.Aligned() && Embedded(svc, g)
    case Died(g, _) => g.Aligned() && Embedded(svc, g)
    case _ => true
  }

  ghost predicate AllLegal(svc: Services, steps: seq<Step>) {
    forall i :: 0 <= i < |steps| ==> Legal(svc, steps[i])
  }

  /** An ingest goes ahead: there is such a document, and it is not active and indexed already. */
  predicate Ready(w: World, d: string) {
    d in w.docs && !(w.docs[d].status.Active? && w.docs[d].indexed)
  }

  function GroupsOf(w: World, d: string): seq<string> {
    if d in w.docs then w.docs[d].groups else []
  }

  /** The ingest as it runs in this world: it reads the groups of its document from the table. */
  function Grouped(w: World, g: Ingest): Ingest {
    g.(groupIds := GroupsOf(w, g.docId))
  }

  function AsRun(w: World, step: Step): Step {
    match step
    case Ingested(g, marked) => Ingested(Grouped(w, g), marked)
    case Died(g, k) => Died(Grouped(w, g), k)
    case _ => step
  }

  /** Only keys of rows can be re-embedded. */
  ghost predicate HasRows(s: Stores, ks: seq<Key>) {
    forall i :: 0 <= i < |ks| ==> ks[i] in s.rows
  }

  ghost function Next(svc: Services, w: World, step: Step): World
    requires Legal(svc, step)
  {
    match step
    case Upserted(d) =>
      w.(docs := w.docs[d := DocState(SyncReplay.Discovered, d in w.docs && w.docs[d].indexed, GroupsOf(w, d))])
    case StatusSet(d, status) =>
      if d in w.docs then w.(docs := w.docs[d := w.docs[d].(status := status)]) else w
    case Shared(d, groups) =>
      if d in w.docs then w.(docs := w.docs[d := w.docs[d].(groups := groups)]) else w
    case Ingested(g, marked) => if Ready(w, g.docId) then AfterIngest(svc, w, Grouped(w, g), marked) else w
    case Died(g, k) => if Ready(w, g.docId) then AfterDeath(svc, w, Grouped(w, g), k) else w
    case Reembedded(ks) =>
      if HasRows(w.stores, ks) then
        w.(stores := w.stores.(points := UpsertAll(w.stores.points, FromRows(svc, w.stores.rows, ks)))) else w
    case Relabel(model, dim) => w.(stores := w.stores.(rows := Relabeled(w.stores.rows, model, dim)))
  }

  /** Without chunks, or without a vector for each, the document stays in its indexing state. */
  ghost function AfterIngest(svc: Services, w: World, g: Ingest, marked: bool): World
    requires g.Aligned() && g.docId in w.docs
  {
    var doc := w.docs[g.docId];
    var done := if g.chunks == [] || |g.vectors| != |g.chunks| || !marked then doc.(status := SyncReplay.Indexing)
                else doc.(status := SyncReplay.Active, indexed := true);
    World(After(svc.uuid5, w.stores, g), w.docs[g.docId := done])
  }

  ghost function AfterDeath(svc: Services, w: World, g: Ingest, k: nat): World
    requires g.Aligned() && g.docId in w.docs
  {
    var docs := w.docs[g.docId := w.docs[g.docId].(status := SyncReplay.Indexing)];
    if |g.vectors| == |g.chunks| && k <= |g.chunks| then
      World(w.stores.(points := UpsertAll(w.stores.points, PointsOf(svc.uuid5, g)[..k])), docs)
    else World(w.stores, docs)
  }

  ghost function Run(svc: Services, steps: seq<Step>): World
    requires AllLegal(svc, steps)
  {
    if steps == [] then World(Stores(map[], map[]), map[])
    else Next(svc, Run(svc, steps[..|steps| - 1]), steps[|steps| - 1])
  }

  // ----- who wrote what last -----

  /** The step writes the point of chunk (d, j). */
  ghost predicate WritesPoint(w: World, step: Step, d: string, j: nat) {
    match step
    case Ingested(g, _) => Ready(w, g.docId) && |g.vectors| == |g.chunks| && d == g.docId && j < |g.chunks|
    case Died(g, k) => Ready(w, g.docId) && |g.vectors| == |g.chunks| && d == g.docId && j < k <= |g.chunks|
    case Reembedded(ks) => HasRows(w.stores, ks) && (d, j) in ks
    case _ => false
  }

  /** The last step to write the point, as it ran. A row is only ever written by a complete ingest, which writes the
      point too, so this is also the last step to write either. */
  ghost function LastWriter(svc: Services, steps: seq<Step>, d: string, j: nat): Option<Step>
    requires AllLegal(svc, steps)
  {
    if steps == [] then None
    else
      var last := steps[|steps| - 1];
      var w := Run(svc, steps[..|steps| - 1]);
      if WritesPoint(w, last, d, j) then Some(AsRun(w, last))
      else LastWriter(svc, steps[..|steps| - 1], d, j)
  }

  /** The last complete ingest of the chunk. */
  ghost function LastIngest(svc: Services, steps: seq<Step>, d: string, j: nat): Option<Ingest>
    requires AllLegal(svc, steps)
  {
    if steps == [] then None
    else
      var last := steps[|steps| - 1];
      var w := Run(svc, steps[..|steps| - 1]);
      if last.Ingested? && WritesPoint(w, last, d, j) then Some(Grouped(w, last.g))
      else LastIngest(svc, steps[..|steps| - 1], d, j)
  }

  /** The point is what this writer makes of the chunk; a re-embedding takes its text from the last complete ingest. */
  ghost predicate PointFrom(svc: Services, writer: Option<Step>, last: Option<Ingest>, point: Option<Point>,
                            d: string, j: nat) {
    if writer.None? then point.None?
    else
      match writer.value
      case Ingested(g, _) => Describes(svc, g, point, d, j)
      case Died(g, _) => Describes(svc, g, point, d, j)
      case Reembedded(_) =>
        last.Some? && j < |last.value.chunks|
        && point == Some(Point(svc.embed(last.value.chunks[j].text),
                               Payload(Some(svc.rowId((d, j))), d, [], None, j, None, None, None, None)))
      case _ => false
  }

  ghost predicate Describes(svc: Services, g: Ingest, point: Option<Point>, d: string, j: nat) {
    && g.Aligned() && |g.vectors| == |g.chunks| && j < |g.chunks| && d == g.docId
    && point == Some(PointAt(svc.uuid5, g, j).point) && g.vectors[j] == svc.embed(g.chunks[j].text)
  }

  /** The row is what this ingest made it, whatever model it is labelled with since. */
  ghost predicate RowFrom(svc: Services, g: Option<Ingest>, row: Option<Row>, d: string, j: nat) {
    if g.None? then row.None?
    else
      && g.value.Aligned() && j < |g.value.chunks| && d == g.value.docId
      && row.Some? && row.value.(model := g.value.model, dim := g.value.dim) == RowAt(svc.uuid5, g.value, j)
  }

  lemma PointsDied(svc: Services, points: map<string, Point>, g: Ingest, k: nat, d: string, j: nat)
    requires CollisionFree(svc.uuid5) && g.Aligned() && |g.vectors| == |g.chunks| && k <= |g.chunks|
    ensures Get(UpsertAll(points, PointsOf(svc.uuid5, g)[..k]), MakePointId(svc.uuid5, d, j))
         == if d == g.docId && j < k then Some(PointAt(svc.uuid5, g, j).point)
            else Get(points, MakePointId(svc.uuid5, d, j))
  {
    var ps, id := PointsOf(svc.uuid5, g)[..k], MakePointId(svc.uuid5, d, j);
    forall i | 0 <= i < |ps| && ps[i].id == id ensures d == g.docId && i == j {
      PointIdInjective(svc.uuid5, g.docId, i, d, j);
    }
    if d == g.docId && j < k {
      LastPointStays(points, ps, j);
    } else {
      OtherPoints(points, ps, id);
    }
  }

  /** A re-embedding writes the points of its rows; which of several entries for one row comes last is no matter. */
  lemma {:induction false} PointsReembedded(svc: Services, s: Stores, ks: seq<Key>, d: string, j: nat)
    requires CollisionFree(svc.uuid5) && HasRows(s, ks)
    ensures Get(UpsertAll(s.points, FromRows(svc, s.rows, ks)), MakePointId(svc.uuid5, d, j))
         == if (d, j) in ks then Some(FromRow(svc, s.rows, (d, j)).point)
            else Get(s.points, MakePointId(svc.uuid5, d, j))
    decreases |ks|
  {
    if ks != [] {
      var front, last := ks[..|ks| - 1], ks[|ks| - 1];
      PointsReembedded(svc, s, front, d, j);
      assert FromRows(svc, s.rows, ks)[..|ks| - 1] == FromRows(svc, s.rows, front);
      assert ks == front + [last];
      if MakePointId(svc.uuid5, last.0, last.1) == MakePointId(svc.uuid5, d, j) {
        PointIdInjective(svc.uuid5, last.0, last.1, d, j);
      }
    }
  }

  /** What is stored of chunk (d, j), given its last writer and its last complete ingest. */
  ghost predicate Stored(svc: Services, s: Stores, writer: Option<Step>, g: Option<Ingest>, d: string, j: nat) {
    && PointFrom(svc, writer, g, Get(s.points, MakePointId(svc.uuid5, d, j)), d, j)
    && RowFrom(svc, g, Get(s.rows, (d, j)), d, j)
    && (writer.Some? && writer.value.Ingested? ==> g == Some(writer.value.g))
    && (g.Some? ==> writer.Some?)
  }

  lemma StepIngested(svc: Services, w: World, writer: Option<Step>, last: Option<Ingest>, step: Step, d: string, j: nat)
    requires CollisionFree(svc.uuid5) && step.Ingested? && Legal(svc, step) && Stored(svc, w.stores, writer, last, d, j)
    ensures var writes := WritesPoint(w, step, d, j);
            Stored(svc, Next(svc, w, step).stores, if writes then Some(AsRun(w, step)) else writer,
                   if writes then Some(Grouped(w, step.g)) else last, d, j)
  {
    var g := Grouped(w, step.g);
    if |g.vectors| == |g.chunks| {
      IngestStoresChunks(svc.uuid5, w.stores, g, d, j);
    }
  }

  lemma StepDied(svc: Services, w: World, writer: Option<Step>, last: Option<Ingest>, step: Step, d: string, j: nat)
    requires CollisionFree(svc.uuid5) && step.Died? && Legal(svc, step) && Stored(svc, w.stores, writer, last, d, j)
    ensures Stored(svc, Next(svc, w, step).stores,
                   if WritesPoint(w, step, d, j) then Some(AsRun(w, step)) else writer, last, d, j)
  {
    var g := Grouped(w, step.g);
    if |g.vectors| == |g.chunks| && step.k <= |g.chunks| {
      PointsDied(svc, w.stores.points, g, step.k, d, j);
    }
  }

  lemma StepReembedded(svc: Services, w: World, writer: Option<Step>, last: Option<Ingest>,
                       ks: seq<Key>, d: string, j: nat)
    requires CollisionFree(svc.uuid5) && Stored(svc, w.stores, writer, last, d, j)
    ensures Stored(svc, Next(svc, w, Reembedded(ks)).stores,
                   if WritesPoint(w, Reembedded(ks), d, j) then Some(Reembedded(ks)) else writer, last, d, j)
  {
    if HasRows(w.stores, ks) {
      PointsReembedded(svc, w.stores, ks, d, j);
    }
  }

  /** After every history the point of a chunk is what its last writer made, and its row what its last complete ingest
      made. */
  lemma {:induction false} StoredByLastWriters(svc: Services, steps: seq<Step>, d: string, j: nat)
    requires CollisionFree(svc.uuid5) && AllLegal(svc, steps)
    ensures Stored(svc, Run(svc, steps).stores, LastWriter(svc, steps, d, j), LastIngest(svc, steps, d, j), d, j)
    decreases |steps|
  {
    if steps != [] {
      var front, last := steps[..|steps| - 1], steps[|steps| - 1];
      StoredByLastWriters(svc, front, d, j);
      OneStep(svc, Run(svc, front), LastWriter(svc, front, d, j), LastIngest(svc, front, d, j), last, d, j);
    }
  }

  lemma OneStep(svc: Services, w: World, writer: Option<Step>, last: Option<Ingest>, step: Step, d: string, j: nat)
    requires CollisionFree(svc.uuid5) && Legal(svc, step) && Stored(svc, w.stores, writer, last, d, j)
    ensures Stored(svc, Next(svc, w, step).stores,
                   if WritesPoint(w, step, d, j) then Some(AsRun(w, step)) else writer,
                   if step.Ingested? && WritesPoint(w, step, d, j) then Some(Grouped(w, step.g)) else last, d, j)
  {
    match step
    case Ingested(_, _) => StepIngested(svc, w, writer, last, step, d, j);
    case Died(_, _) => StepDied(svc, w, writer, last, step, d, j);
    case Reembedded(ks) => StepReembedded(svc, w, writer, last, ks, d, j);
    case _ =>
  }

  // ----- what vector search finds -----

  /** The point passes the group filter of vector search; its status is "active" from whatever writer. */
  ghost predicate Visible(p: Point, groups: seq<string>) {
    exists g :: g in groups && g in p.payload.groupIds
  }

  ghost predicate VisibleAt(points: map<string, Point>, id: string, groups: seq<string>) {
    id in points && Visible(points[id], groups)
  }

  ghost predicate Meet(a: seq<string>, b: seq<string>) {
    exists g :: g in a && g in b
  }

  /** The step is an ingest, complete or not, that found its document shared with one of the groups. */
  ghost predicate SharedIngest(step: Step, groups: seq<string>) {
    (step.Ingested? || step.Died?) && Meet(groups, step.g.groupIds)
  }

  /** After every history the point of a chunk can be found by a caller if and only if its last writer was an ingest,
      and the document was then shared with one of the caller's groups: a re-embedded point can be found by nobody. */
  lemma VisibleIff(svc: Services, steps: seq<Step>, d: string, j: nat, groups: seq<string>)
    requires CollisionFree(svc.uuid5) && AllLegal(svc, steps)
    ensures VisibleAt(Run(svc, steps).stores.points, MakePointId(svc.uuid5, d, j), groups)
       <==> LastWriter(svc, steps, d, j).Some? && SharedIngest(LastWriter(svc, steps, d, j).value, groups)
  {
    StoredByLastWriters(svc, steps, d, j);
  }

  /** Whatever is done to documents without ingesting or re-embedding any, deleting them and sharing them with others
      included, changes nothing in what anybody finds. */
  lemma {:induction false} OnlyIngestsShow(svc: Services, steps: seq<Step>, more: seq<Step>)
    requires AllLegal(svc, steps) && AllLegal(svc, steps + more)
    requires forall i :: 0 <= i < |more| ==> !more[i].Ingested? && !more[i].Died? && !more[i].Reembedded?
    ensures Run(svc, steps + more).stores.points == Run(svc, steps).stores.points
    decreases |more|
  {
    if more == [] {
      assert steps + more == steps;
    } else {
      var front := more[..|more| - 1];
      assert (steps + more)[..|steps + more| - 1] == steps + front;
      assert (steps + more)[|steps + more| - 1] == more[|more| - 1];
      OnlyIngestsShow(svc, steps, front);
    }
  }

  ghost predicate SameGroups(a: seq<string>, b: seq<string>) {
    forall g :: g in a <==> g in b
  }

  lemma SameGroupsMeet(a: seq<string>, b: seq<string>)
    ensures (forall groups :: Meet(groups, a) <==> Meet(groups, b)) <==> SameGroups(a, b)
  {
    if forall groups :: Meet(groups, a) <==> Meet(groups, b) {
      forall g ensures g in a <==> g in b {
        assert Meet([g], a) <==> g in a;
        assert Meet([g], b) <==> g in b;
      }
    }
  }

  /** The point is found by exactly the callers its document is shared with now. */
  ghost predicate ShownAsShared(svc: Services, w: World, d: string, j: nat) {
    forall groups ::
      VisibleAt(w.stores.points, MakePointId(svc.uuid5, d, j), groups) <==> Meet(groups, GroupsOf(w, d))
  }

  /** The groups that can find the point. */
  ghost function ShownTo(writer: Option<Step>): seq<string> {
    if writer.Some? && (writer.value.Ingested? || writer.value.Died?) then writer.value.g.groupIds else []
  }

  /** Exactly when vector search follows the table: when the document is shared with the groups that the last ingest of
      the chunk found it shared with, or with none, after a re-embedding. */
  lemma ShownAsSharedIff(svc: Services, steps: seq<Step>, d: string, j: nat)
    requires CollisionFree(svc.uuid5) && AllLegal(svc, steps)
    ensures ShownAsShared(svc, Run(svc, steps), d, j)
       <==> SameGroups(ShownTo(LastWriter(svc, steps, d, j)), GroupsOf(Run(svc, steps), d))
  {
    var w, shown := Run(svc, steps), ShownTo(LastWriter(svc, steps, d, j));
    forall groups
      ensures VisibleAt(w.stores.points, MakePointId(svc.uuid5, d, j), groups) <==> Meet(groups, shown)
    {
      VisibleIff(svc, steps, d, j, groups);
    }
    SameGroupsMeet(shown, GroupsOf(w, d));
  }

  /** The point of a chunk holds the id of its row if and only if its last writer was a re-embedding. */
  lemma RowIdIff(svc: Services, steps: seq<Step>, d: string, j: nat)
    requires CollisionFree(svc.uuid5) && AllLegal(svc, steps)
    requires MakePointId(svc.uuid5, d, j) in Run(svc, steps).stores.points
    ensures var id, writer := MakePointId(svc.uuid5, d, j), LastWriter(svc, steps, d, j);
            var point := Run(svc, steps).stores.points[id];
            && writer.Some? && point.payload.chunkId in {None, Some(svc.rowId((d, j)))}
            && (point.payload.chunkId.Some? <==> writer.value.Reembedded?)
  {
    StoredByLastWriters(svc, steps, d, j);
  }

  ghost predicate MadeId(uuid5: Uuid5, id: string) {
    exists d, j: nat :: id == MakePointId(uuid5, d, j)
  }

  ghost predicate AllMade(uuid5: Uuid5, points: map<string, Point>) {
    forall id :: id in points ==> MadeId(uuid5, id)
  }

  lemma {:induction false} UpsertMade(uuid5: Uuid5, points: map<string, Point>, ps: seq<Keyed>)
    requires AllMade(uuid5, points) && forall i :: 0 <= i < |ps| ==> MadeId(uuid5, ps[i].id)
    ensures AllMade(uuid5, UpsertAll(points, ps))
    decreases |ps|
  {
    if ps != [] {
      UpsertMade(uuid5, points, ps[..|ps| - 1]);
    }
  }

  /** Every point that was ever stored is that of some chunk. */
  lemma {:induction false} PointsAreOfChunks(svc: Services, steps: seq<Step>)
    requires AllLegal(svc, steps)
    ensures AllMade(svc.uuid5, Run(svc, steps).stores.points)
    decreases |steps|
  {
    if steps != [] {
      var front, last := steps[..|steps| - 1], steps[|steps| - 1];
      PointsAreOfChunks(svc, front);
      var w := Run(svc, front);
      match last
      case Ingested(g, _) =>
        if |g.vectors| == |g.chunks| {
          IngestMade(svc, w.stores.points, Grouped(w, g), |g.chunks|);
        }
      case Died(g, k) =>
        if |g.vectors| == |g.chunks| && k <= |g.chunks| {
          IngestMade(svc, w.stores.points, Grouped(w, g), k);
        }
      case Reembedded(ks) =>
        if HasRows(w.stores, ks) {
          forall i | 0 <= i < |ks| ensures MadeId(svc.uuid5, FromRows(svc, w.stores.rows, ks)[i].id) {
            assert FromRows(svc, w.stores.rows, ks)[i].id == MakePointId(svc.uuid5, ks[i].0, ks[i].1);
          }
          UpsertMade(svc.uuid5, w.stores.points, FromRows(svc, w.stores.rows, ks));
        }
      case _ =>
    }
  }

  lemma IngestMade(svc: Services, points: map<string, Point>, g: Ingest, k: nat)
    requires AllMade(svc.uuid5, points) && g.Aligned() && |g.vectors| == |g.chunks| && k <= |g.chunks|
    ensures AllMade(svc.uuid5, UpsertAll(points, PointsOf(svc.uuid5, g)[..k]))
    ensures AllMade(svc.uuid5, UpsertAll(points, PointsOf(svc.uuid5, g)))
  {
    var ps := PointsOf(svc.uuid5, g);
    forall i | 0 <= i < |ps| ensures MadeId(svc.uuid5, ps[i].id) {
      assert ps[i].id == MakePointId(svc.uuid5, g.docId, i);
    }
    UpsertMade(svc.uuid5, points, ps);
    UpsertMade(svc.uuid5, points, ps[..k]);
  }

  /** Whatever vector search finds it reports by the id of the point, never by that of the row. */
  lemma ReportedByPointId(svc: Services, steps: seq<Step>, id: string, groups: seq<string>)
    requires CollisionFree(svc.uuid5) && AllLegal(svc, steps)
    requires VisibleAt(Run(svc, steps).stores.points, id, groups)
    ensures ReportedId(id, Run(svc, steps).stores.points[id]) == id && MadeId(svc.uuid5, id)
  {
    PointsAreOfChunks(svc, steps);
    var d, j: nat :| id == MakePointId(svc.uuid5, d, j);
    StoredByLastWriters(svc, steps, d, j);
  }

  /** Re-embedding everything hides every chunk that has a row from everybody; what can be found after it is what could
      be found before it without having a row. */
  lemma ReembedAllHides(svc: Services, steps: seq<Step>, all: seq<Key>, d: string, j: nat, groups: seq<string>)
    requires CollisionFree(svc.uuid5) && AllLegal(svc, steps)
    requires forall k :: k in all <==> k in Run(svc, steps).stores.rows
    ensures AllLegal(svc, steps + [Reembedded(all)])
    ensures var id, before := MakePointId(svc.uuid5, d, j), Run(svc, steps).stores;
            VisibleAt(Run(svc, steps + [Reembedded(all)]).stores.points, id, groups) <==>
              (d, j) !in before.rows && VisibleAt(before.points, id, groups)
  {
    forall i | 0 <= i < |all| ensures all[i] in Run(svc, steps).stores.rows {
      assert all[i] in all;
    }
    RunMore(svc, steps, Reembedded(all), d, j);
    VisibleIff(svc, steps, d, j, groups);
    VisibleIff(svc, steps + [Reembedded(all)], d, j, groups);
  }

  // ----- the two stores agree -----

  /** The row has its point, under the id it names, with the same document, index, title and language, and with the
      vector of the row's text. */
  ghost predicate AgreeAt(svc: Services, s: Stores, d: string, j: nat)
    requires (d, j) in s.rows
  {
    var row, id := s.rows[(d, j)], MakePointId(svc.uuid5, d, j);
    && row.pointId == id && id in s.points
    && s.points[id].payload.docId == d && s.points[id].payload.index == j
    && s.points[id].payload.title == Some(row.title) && s.points[id].payload.language == Some(row.language)
    && s.points[id].vector == svc.embed(row.text)
  }

  ghost predicate SameVector(svc: Services, g: Ingest, row: Row, j: nat) {
    j < |g.chunks| && svc.embed(g.chunks[j].text) == svc.embed(row.text)
  }

  /** Of the ingest that died: its chunk reads as the row does. */
  ghost predicate ReadsAlike(svc: Services, g: Ingest, row: Row, j: nat) {
    && j < |g.chunks| == |g.languages| && g.chunks[j].title == row.title && g.languages[j] == row.language
    && SameVector(svc, g, row, j)
  }

  /** After every history a row agrees with its point if and only if the last step to write either was a complete
      ingest, or one that died on a chunk with the title and language that the row already had, and a text with the
      vector of the row's. */
  lemma AgreeIff(svc: Services, steps: seq<Step>, d: string, j: nat)
    requires CollisionFree(svc.uuid5) && AllLegal(svc, steps) && (d, j) in Run(svc, steps).stores.rows
    ensures var s, writer := Run(svc, steps).stores, LastWriter(svc, steps, d, j);
            && writer.Some?
            && (AgreeAt(svc, s, d, j) <==>
                  writer.value.Ingested?
                  || (writer.value.Died? && ReadsAlike(svc, writer.value.g, s.rows[(d, j)], j)))
  {
    StoredByLastWriters(svc, steps, d, j);
  }

  /** After every history a row's point holds the vector of its text if and only if the last step to write either did
      not die, or died on a text with the same vector: re-embedding keeps the vector right. */
  lemma VectorIff(svc: Services, steps: seq<Step>, d: string, j: nat)
    requires CollisionFree(svc.uuid5) && AllLegal(svc, steps) && (d, j) in Run(svc, steps).stores.rows
    ensures var s, id, writer := Run(svc, steps).stores, MakePointId(svc.uuid5, d, j), LastWriter(svc, steps, d, j);
            && writer.Some? && id in s.points
            && (s.points[id].vector == svc.embed(s.rows[(d, j)].text) <==>
                  (writer.value.Died? ==> SameVector(svc, writer.value.g, s.rows[(d, j)], j)))
  {
    StoredByLastWriters(svc, steps, d, j);
  }

  ghost predicate NoDeathNoReembedding(steps: seq<Step>) {
    forall step :: step in steps ==> !step.Died? && !step.Reembedded?
  }

  /** Without deaths and re-embeddings, whatever else happens to any documents in any order, every row agrees with its
      point. */
  lemma IngestsAgree(svc: Services, steps: seq<Step>, d: string, j: nat)
    requires CollisionFree(svc.uuid5) && AllLegal(svc, steps) && (d, j) in Run(svc, steps).stores.rows
    requires NoDeathNoReembedding(steps)
    ensures AgreeAt(svc, Run(svc, steps).stores, d, j)
  {
    AgreeIff(svc, steps, d, j);
    WriterIsComplete(svc, steps, d, j);
  }

  lemma {:induction false} WriterIsComplete(svc: Services, steps: seq<Step>, d: string, j: nat)
    requires AllLegal(svc, steps) && NoDeathNoReembedding(steps) && LastWriter(svc, steps, d, j).Some?
    ensures LastWriter(svc, steps, d, j).value.Ingested?
    decreases |steps|
  {
    var front, last := steps[..|steps| - 1], steps[|steps| - 1];
    assert last in steps;
    if !WritesPoint(Run(svc, front), last, d, j) {
      WriterIsComplete(svc, front, d, j);
    }
  }

  // ----- what a re-embedding forgets, and until when -----

  /** Re-embedding a row breaks the agreement whatever came before. Ingesting its document again right after it restores
      the agreement if and only if the document was ready before, which an active document is not. */
  lemma ReembeddingForgets(svc: Services, steps: seq<Step>, h: Ingest, marked: bool, j: nat)
    requires CollisionFree(svc.uuid5) && AllLegal(svc, steps) && (h.docId, j) in Run(svc, steps).stores.rows
    requires Legal(svc, Ingested(h, marked)) && |h.vectors| == |h.chunks| && j < |h.chunks|
    ensures var more := steps + [Reembedded([(h.docId, j)])];
            && AllLegal(svc, more) && (h.docId, j) in Run(svc, more).stores.rows
            && !AgreeAt(svc, Run(svc, more).stores, h.docId, j)
    ensures var more := steps + [Reembedded([(h.docId, j)])] + [Ingested(h, marked)];
            && AllLegal(svc, more) && (h.docId, j) in Run(svc, more).stores.rows
            && (AgreeAt(svc, Run(svc, more).stores, h.docId, j) <==> Ready(Run(svc, steps), h.docId))
  {
    var reembed := Reembedded([(h.docId, j)]);
    var more := steps + [reembed];
    RunMore(svc, steps, reembed, h.docId, j);
    AgreeIff(svc, more, h.docId, j);
    RunMore(svc, more, Ingested(h, marked), h.docId, j);
    RowsAfter(svc.uuid5, Run(svc, more).stores.rows, Grouped(Run(svc, more), h), |h.chunks|, h.docId, j);
    AgreeIff(svc, more + [Ingested(h, marked)], h.docId, j);
  }

  /** The step makes an active document ready for an ingest again. */
  ghost predicate Wakes(step: Step, d: string) {
    step == Upserted(d) || (step.StatusSet? && step.docId == d && !step.status.Active?)
  }

  ghost predicate Ingests(step: Step, d: string) {
    (step.Ingested? || step.Died?) && step.g.docId == d
  }

  ghost predicate NoWake(more: seq<Step>, d: string) {
    forall i :: 0 <= i < |more| ==> !Wakes(more[i], d)
  }

  /** No ingest of the document follows a step that wakes it. */
  ghost predicate NoIngestAfterWake(more: seq<Step>, d: string) {
    forall i, k :: 0 <= i < k < |more| && Wakes(more[i], d) ==> !Ingests(more[k], d)
  }

  lemma {:induction false} StaysActive(svc: Services, steps: seq<Step>, more: seq<Step>, d: string)
    requires AllLegal(svc, steps + more) && AllLegal(svc, steps) && NoWake(more, d)
    requires d in Run(svc, steps).docs && !Ready(Run(svc, steps), d)
    ensures d in Run(svc, steps + more).docs && !Ready(Run(svc, steps + more), d)
    decreases |more|
  {
    if more == [] {
      assert steps + more == steps;
    } else {
      var front := more[..|more| - 1];
      assert (steps + more)[..|steps + more| - 1] == steps + front;
      assert (steps + more)[|steps + more| - 1] == more[|more| - 1];
      StaysActive(svc, steps, front, d);
    }
  }

  /** A re-embedded chunk of an active document stays as the re-embedding left it, at odds with its row and found by
      nobody, until the document is upserted or put in another status and after that ingested. */
  lemma {:induction false} StaysForgotten(svc: Services, steps: seq<Step>, more: seq<Step>, d: string, j: nat,
                                          groups: seq<string>)
    requires CollisionFree(svc.uuid5) && AllLegal(svc, steps + more) && AllLegal(svc, steps)
    requires d in Run(svc, steps).docs && !Ready(Run(svc, steps), d)
    requires LastWriter(svc, steps, d, j).Some? && LastWriter(svc, steps, d, j).value.Reembedded?
    requires NoIngestAfterWake(more, d)
    ensures LastWriter(svc, steps + more, d, j).Some? && LastWriter(svc, steps + more, d, j).value.Reembedded?
    ensures !VisibleAt(Run(svc, steps + more).stores.points, MakePointId(svc.uuid5, d, j), groups)
    ensures (d, j) in Run(svc, steps + more).stores.rows ==> !AgreeAt(svc, Run(svc, steps + more).stores, d, j)
    decreases |more|
  {
    if more == [] {
      assert steps + more == steps;
    } else {
      var front, last := more[..|more| - 1], more[|more| - 1];
      assert (steps + more)[..|steps + more| - 1] == steps + front;
      assert (steps + more)[|steps + more| - 1] == last;
      StaysForgotten(svc, steps, front, d, j, groups);
      if Ingests(last, d) {
        assert NoWake(front, d);
        StaysActive(svc, steps, front, d);
      }
    }
    VisibleIff(svc, steps + more, d, j, groups);
    if (d, j) in Run(svc, steps + more).stores.rows {
      AgreeIff(svc, steps + more, d, j);
    }
  }

  /** Whatever came before, waking a document and ingesting it puts its chunks in agreement, and before the groups it is
      shared with. */
  lemma WakeAndIngestRestore(svc: Services, steps: seq<Step>, wake: Step, h: Ingest, marked: bool, j: nat,
                             groups: seq<string>)
    requires CollisionFree(svc.uuid5) && AllLegal(svc, steps) && Wakes(wake, h.docId)
    requires wake.StatusSet? ==> h.docId in Run(svc, steps).docs
    requires Legal(svc, Ingested(h, marked)) && |h.vectors| == |h.chunks| && j < |h.chunks|
    ensures var more := steps + [wake] + [Ingested(h, marked)];
            && AllLegal(svc, more) && (h.docId, j) in Run(svc, more).stores.rows
            && AgreeAt(svc, Run(svc, more).stores, h.docId, j)
            && (VisibleAt(Run(svc, more).stores.points, MakePointId(svc.uuid5, h.docId, j), groups) <==>
                  Meet(groups, GroupsOf(Run(svc, steps), h.docId)))
  {
    var more := steps + [wake];
    RunMore(svc, steps, wake, h.docId, j);
    RunMore(svc, more, Ingested(h, marked), h.docId, j);
    RowsAfter(svc.uuid5, Run(svc, more).stores.rows, Grouped(Run(svc, more), h), |h.chunks|, h.docId, j);
    AgreeIff(svc, more + [Ingested(h, marked)], h.docId, j);
    VisibleIff(svc, more + [Ingested(h, marked)], h.docId, j, groups);
  }

  /** Upserting is such a step for every document, known or not. */
  lemma UpsertAndIngestRestore(svc: Services, steps: seq<Step>, h: Ingest, marked: bool, j: nat, groups: seq<string>)
    requires CollisionFree(svc.uuid5) && AllLegal(svc, steps)
    requires Legal(svc, Ingested(h, marked)) && |h.vectors| == |h.chunks| && j < |h.chunks|
    ensures var more := steps + [Upserted(h.docId)] + [Ingested(h, marked)];
            && AllLegal(svc, more) && (h.docId, j) in Run(svc, more).stores.rows
            && AgreeAt(svc, Run(svc, more).stores, h.docId, j)
            && (VisibleAt(Run(svc, more).stores.points, MakePointId(svc.uuid5, h.docId, j), groups) <==>
                  Meet(groups, GroupsOf(Run(svc, steps), h.docId)))
  {
    WakeAndIngestRestore(svc, steps, Upserted(h.docId), h, marked, j, groups);
  }

  /** What the steps that touch no chunk make of their document, and of no other: an upsert discovers it, a status and
      groups are as set. */
  lemma DocumentSteps(svc: Services, w: World, d: string, status: DocumentStatus, groups: seq<string>, e: string)
    ensures var v := Next(svc, w, Upserted(d));
            && d in v.docs && v.docs[d].status == SyncReplay.Discovered && v.docs[d].groups == GroupsOf(w, d)
            && v.docs[d].indexed == (d in w.docs && w.docs[d].indexed)
            && v.stores == w.stores && (e != d ==> Get(v.docs, e) == Get(w.docs, e))
    ensures d in w.docs ==>
              Next(svc, w, StatusSet(d, status)) == w.(docs := w.docs[d := w.docs[d].(status := status)])
    ensures d in w.docs ==>
              Next(svc, w, Shared(d, groups)) == w.(docs := w.docs[d := w.docs[d].(groups := groups)])
    ensures d !in w.docs ==> Next(svc, w, StatusSet(d, status)) == w && Next(svc, w, Shared(d, groups)) == w
  {
  }

  /** An ingest that goes ahead leaves its document active and indexed when it stored its chunks and lived to say so,
      and otherwise in its indexing state, to be ingested again. */
  lemma IngestMarks(svc: Services, w: World, g: Ingest, marked: bool, k: nat)
    requires Legal(svc, Ingested(g, marked)) && Ready(w, g.docId)
    ensures var v := Next(svc, w, Ingested(g, marked));
            && g.docId in v.docs && v.docs[g.docId].groups == w.docs[g.docId].groups
            && (Ready(v, g.docId) <==> !marked || g.chunks == [] || |g.vectors| != |g.chunks|)
            && v.docs[g.docId].status == if Ready(v, g.docId) then SyncReplay.Indexing else SyncReplay.Active
    ensures var v := Next(svc, w, Died(g, k));
            Ready(v, g.docId) && v.docs[g.docId].status == SyncReplay.Indexing
  {
  }

  lemma RunMore(svc: Services, steps: seq<Step>, step: Step, d: string, j: nat)
    requires AllLegal(svc, steps) && Legal(svc, step)
    ensures AllLegal(svc, steps + [step]) && Run(svc, steps + [step]) == Next(svc, Run(svc, steps), step)
    ensures LastWriter(svc, steps + [step], d, j)
         == if WritesPoint(Run(svc, steps), step, d, j) then Some(AsRun(Run(svc, steps), step))
            else LastWriter(svc, steps, d, j)
  {
    assert (steps + [step])[..|steps|] == steps;
  }
}
