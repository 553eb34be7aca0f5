/** One sync run over a source: the changes it lists are written to the Document table and to object storage one at a
    time, the source's cursor moves at the end, and a run that dies is started again from the same cursor. */
module SyncReplay {
  import opened Collections
  import opened Wrappers

  // ----- what is stored -----

  datatype DocumentStatus = Discovered | Indexing | Active | Outdated | Deprecated | Archived | Deleted

  datatype Content = Content(url: string, modifiedAt: int, title: string, mimeType: Option<string>, size: Option<nat>,
                             extra: map<string, string>)

  /** `contentHash` belongs to the ingest worker: an insert leaves it empty, an update does not touch it. */
  datatype Row = Row(content: Content, status: DocumentStatus, contentHash: Option<string>)

  datatype RowKey = RowKey(source: string, sourceId: string)

  datatype Blob = Blob(raw: seq<Byte>, contentType: string)

  datatype Store = Store(rows: map<RowKey, Row>, blobs: map<string, Blob>)

  /** The steps that survive a crash. */
  datatype Write =
    | Put(objectKey: string, blob: Blob)
    | Upsert(key: RowKey, content: Content)
    | MarkDeleted(key: RowKey)

  function HashOf(row: Option<Row>): Option<string> {
    if row.None? then None else row.value.contentHash
  }

  /** What a write makes of the row with key `k`. */
  function Rewrite(w: Write, k: RowKey, row: Option<Row>): Option<Row> {
    match w
    case Put(_, _) => row
    case Upsert(key, content) => if key == k then Some(Row(content, Discovered, HashOf(row))) else row
    case MarkDeleted(key) => if key == k && row.Some? then Some(row.value.(status := Deleted)) else row
  }

  function Apply(s: Store, w: Write): (s': Store)
    ensures forall k :: Get(s'.rows, k) == Rewrite(w, k, Get(s.rows, k))
  {
    match w
    case Put(objectKey, blob) => s.(blobs := s.blobs[objectKey := blob])
    case Upsert(key, content) => s.(rows := s.rows[key := Row(content, Discovered, HashOf(Get(s.rows, key)))])
    case MarkDeleted(key) => if key in s.rows then s.(rows := s.rows[key := s.rows[key].(status := Deleted)]) else s
  }

  function ApplyAll(s: Store, ws: seq<Write>): Store {
    if ws == [] then s else Apply(ApplyAll(s, ws[..|ws| - 1]), ws[|ws| - 1])
  }

  // ----- what one change writes -----

  datatype Change = Change(id: string, isDeleted: bool, size: Option<nat>)

  datatype Doc = Doc(id: string, content: Content)

  /** How far fetching, uploading and upserting one change gets; the upsert commits before it reads its row again. */
  datatype Outcome =
    | FetchFails(error: string)
    | UploadFails(error: string)
    | UpsertFails(raw: seq<Byte>, current: Doc, error: string)
    | RereadFails(raw: seq<Byte>, current: Doc, error: string)
    | Stored(raw: seq<Byte>, current: Doc)

  datatype Item = Item(change: Change, outcome: Outcome)

  datatype Source = Source(kind: string, id: string, maxDocSize: nat)

  datatype Reason = TooLarge(size: nat) | Raised(error: string)

  predicate IsTooLarge(src: Source, c: Change) {
    c.size.Some? && c.size.value != 0 && c.size.value > src.maxDocSize
  }

  function ObjectKey(src: Source, c: Change): string {
    src.kind + "/" + src.id + "/" + c.id
  }

  function Upload(src: Source, c: Change, raw: seq<Byte>, current: Doc): Write {
    var mime := current.content.mimeType;
    Put(ObjectKey(src, c), Blob(raw, if mime.None? || mime.value == "" then "application/octet-stream" else mime.value))
  }

  function UpsertOf(src: Source, c: Change, current: Doc): Write {
    Upsert(RowKey(src.kind, current.id),
           current.content.(extra := current.content.extra["object_key" := ObjectKey(src, c)]))
  }

  /** The error an item is counted as failed for, if any. */
  function Failure(src: Source, item: Item): Option<Reason> {
    if item.change.isDeleted then None
    else if IsTooLarge(src, item.change) then Some(TooLarge(item.change.size.value))
    else if item.outcome.Stored? then None
    else Some(Raised(item.outcome.error))
  }

  function WritesOf(src: Source, item: Item): seq<Write> {
    var c := item.change;
    if c.isDeleted then [MarkDeleted(RowKey(src.kind, c.id))]
    else if IsTooLarge(src, c) then []
    else
      match item.outcome
      case FetchFails(_) => []
      case UploadFails(_) => []
      case UpsertFails(raw, current, _) => [Upload(src, c, raw, current)]
      case RereadFails(raw, current, _) => [Upload(src, c, raw, current), UpsertOf(src, c, current)]
      case Stored(raw, current) => [Upload(src, c, raw, current), UpsertOf(src, c, current)]
  }

  function Writes(src: Source, items: seq<Item>): seq<Write> {
    if items == [] then [] else Writes(src, items[..|items| - 1]) + WritesOf(src, items[|items| - 1])
  }

  function Failed(src: Source, items: seq<Item>): (n: nat)
    ensures n <= |items|
  {
    if items == [] then 0
    else Failed(src, items[..|items| - 1]) + if Failure(src, items[|items| - 1]).Some? then 1 else 0
  }

  function Errors(src: Source, items: seq<Item>): map<string, Reason> {
    if items == [] then map[]
    else
      var before, item := Errors(src, items[..|items| - 1]), items[|items| - 1];
      var failure := Failure(src, item);
      if failure.Some? then before[item.change.id := failure.value] else before
  }

  // ----- the run -----

  datatype JobStatus = Queued | Running | Completed | Partial | JobFailed

  datatype Job = Job(status: JobStatus, total: nat, indexed: nat, failed: nat, errors: map<string, Reason>)

  /** What comes of loading the source, building and validating its connector and listing the changes. */
  datatype Listing =
    | SourceMissing
    | ConnectorUnusable(error: string)
    | AuthFailed(error: string)
    | RateLimited(error: string)
    | Unlisted(error: string)
    | Listed(items: seq<Item>, next: Option<string>)

  function FinalStatus(total: nat, failed: nat): JobStatus {
    if failed == 0 then Completed else if total as int - failed as int > 0 then Partial else JobFailed
  }

  function Finalized(job: Job, status: JobStatus, indexed: nat, failed: nat, errors: map<string, Reason>): Job {
    job.(status := status, indexed := indexed, failed := failed, errors := job.errors + errors)
  }

  /** The job of a run that ends before the loop. */
  function Stopped(job: Job, listing: Listing): Job
    requires !listing.Listed?
  {
    var error := if listing.SourceMissing? then "source not found"
                 else if listing.AuthFailed? then "auth failed: " + listing.error
                 else if listing.RateLimited? then "rate limit: " + listing.error
                 else listing.error;
    Finalized(job, if listing.RateLimited? then Queued else JobFailed, 0, 0,
              if error == "" then map[] else map["_summary" := Raised(error)])
  }

  /** The job of a run that reaches its end. */
  function Closed(src: Source, job: Job, items: seq<Item>): Job {
    var failed := Failed(src, items);
    Finalized(job.(total := |items|), FinalStatus(|items|, failed), |items| - failed, failed, Errors(src, items))
  }

  /** The cursor after a run that lived for `life` durable steps. */
  function CursorAfter(src: Source, items: seq<Item>, cursor: Option<string>,
                       next: Option<string>, life: nat): Option<string> {
    if life > |Writes(src, items)| then next else cursor
  }

  class Sync {
    const src: Source
    var store: Store
    var cursor: Option<string>
    var authFailed: bool
    var job: Job
    /** How many more durable steps the process lives to make; after them it changes nothing any more. */
    var alive: nat

    constructor (src: Source, store: Store, cursor: Option<string>, job: Job, alive: nat)
      ensures this.src == src && this.store == store && this.cursor == cursor && this.job == job && this.alive == alive
      ensures !authFailed
    {
      this.src, this.store, this.cursor, this.job, this.alive := src, store, cursor, job, alive;
      authFailed := false;
    }

    method Commit(w: Write)
      modifies this`store, this`alive
      ensures alive == if old(alive) == 0 then 0 else old(alive) - 1
      ensures store == if old(alive) == 0 then old(store) else Apply(old(store), w)
    {
      if alive > 0 {
        store, alive := Apply(store, w), alive - 1;
      }
    }

    /** One change of the list; `failure` says whether it counts as failed, and why. */
    method Process(item: Item) returns (failure: Option<Reason>)
      modifies this`store, this`alive
      ensures failure == Failure(src, item)
      ensures var ws := WritesOf(src, item); var n := Least(old(alive), |ws|);
              store == ApplyAll(old(store), ws[..n]) && alive == old(alive) - n
    {
      failure := None;
      var c, outcome := item.change, item.outcome;
      ghost var ws, n, s := WritesOf(src, item), Least(alive, |WritesOf(src, item)|), store;
      FirstWrites(s, ws);
      if c.isDeleted {
        Commit(MarkDeleted(RowKey(src.kind, c.id)));
      } else if c.size.Some? && c.size.value != 0 && c.size.value > src.maxDocSize {
        failure := Some(TooLarge(c.size.value));
      } else {
        match outcome
        case FetchFails(error) =>
          failure := Some(Raised(error));
        case UploadFails(error) =>
          failure := Some(Raised(error));
        case UpsertFails(raw, current, error) =>
          Commit(Upload(src, c, raw, current));
          failure := Some(Raised(error));
        case RereadFails(raw, current, error) =>
          Commit(Upload(src, c, raw, current));
          Commit(UpsertOf(src, c, current));
          failure := Some(Raised(error));
        case Stored(raw, current) =>
          Commit(Upload(src, c, raw, current));
          Commit(UpsertOf(src, c, current));
      }
    }

    /** Where the run stops when the process dies after `alive` durable steps: the cursor only moves after every change
        was tried, and the job is only closed after that. */
    method RunSync(listing: Listing)
      modifies this
      ensures !listing.Listed? ==> store == old(store) && cursor == old(cursor) && job == Stopped(old(job), listing)
      ensures authFailed == (old(authFailed) || listing.AuthFailed?)
      ensures listing.Listed? ==>
                store == ApplyAll(old(store), Done(src, Attempt(listing.items, old(alive))))
      ensures listing.Listed? ==> cursor == CursorAfter(src, listing.items, old(cursor), listing.next, old(alive))
      ensures listing.Listed? ==>
                job == if old(alive) > |Writes(src, listing.items)| + 1 then Closed(src, old(job), listing.items)
                       else old(job).(total := |listing.items|)
    {
      if !listing.Listed? {
        authFailed := authFailed || listing.AuthFailed?;
        job := Stopped(job, listing);
        return;
      }
      var docs := listing.items;
      var total, failed, errors := |docs|, 0, map[];
      job := job.(total := total);
      for i := 0 to |docs|
        invariant authFailed == old(authFailed) && cursor == old(cursor) && job == old(job).(total := total)
        invariant failed == Failed(src, docs[..i]) && errors == Errors(src, docs[..i])
        invariant Made(old(store), Writes(src, docs[..i]), old(alive), store, alive)
      {
        assert docs[..i + 1][..i] == docs[..i];
        ghost var s, a := store, alive;
        var failure := Process(docs[i]);
        MadeMore(old(store), Writes(src, docs[..i]), old(alive), s, a, WritesOf(src, docs[i]), store, alive);
        if failure.Some? {
          errors := errors[docs[i].change.id := failure.value];
          failed := failed + 1;
        }
      }
      assert docs[..|docs|] == docs;
      if alive > 0 {
        cursor, alive := listing.next, alive - 1;
      } else {
        return;
      }
      if alive > 0 {
        job := Finalized(job, FinalStatus(total, failed), total - failed, failed, errors);
      }
    }
  }

  /** The process has made the writes `ws`, as far as its life reached. */
  ghost predicate Made(s: Store, ws: seq<Write>, life: nat, now: Store, left: nat) {
    now == ApplyAll(s, ws[..Least(life, |ws|)]) && left == life - Least(life, |ws|)
  }

  lemma {:induction false} ApplyAllAppend(s: Store, a: seq<Write>, b: seq<Write>)
    ensures ApplyAll(s, a + b) == ApplyAll(ApplyAll(s, a), b)
    decreases |b|
  {
    if b == [] {
      assert a + b == a;
    } else {
      assert (a + b)[..|a + b| - 1] == a + b[..|b| - 1];
      ApplyAllAppend(s, a, b[..|b| - 1]);
    }
  }

  lemma MadeMore(s: Store, ws: seq<Write>, life: nat, mid: Store, left: nat, more: seq<Write>, end: Store, rest: nat)
    requires Made(s, ws, life, mid, left) && Made(mid, more, left, end, rest)
    ensures Made(s, ws + more, life, end, rest)
  {
    if life <= |ws| {
      assert (ws + more)[..life] == ws[..life];
      assert more[..0] == [];
    } else {
      var n := Least(left, |more|);
      assert (ws + more)[..|ws| + n] == ws + more[..n];
      assert ws[..|ws|] == ws;
      ApplyAllAppend(s, ws, more[..n]);
    }
  }

  lemma FirstWrites(s: Store, ws: seq<Write>)
    ensures ApplyAll(s, ws[..0]) == s
    ensures |ws| >= 1 ==> ApplyAll(s, ws[..1]) == Apply(s, ws[0])
    ensures |ws| >= 2 ==> ApplyAll(s, ws[..2]) == Apply(Apply(s, ws[0]), ws[1])
  {
    if |ws| >= 1 {
      assert ws[..1][..0] == [];
    }
    if |ws| >= 2 {
      assert ws[..2][..1] == ws[..1];
    }
  }

  // ----- replay -----

  ghost predicate Upserts(w: Write, k: RowKey) {
    w.Upsert? && w.key == k
  }

  ghost predicate Deletes(w: Write, k: RowKey) {
    w.MarkDeleted? && w.key == k
  }

  /** The row with key `k` after the writes. */
  function RowAfter(ws: seq<Write>, k: RowKey, row: Option<Row>): Option<Row> {
    if ws == [] then row else RowAfter(ws[1..], k, Rewrite(ws[0], k, row))
  }

  function BlobAfter(ws: seq<Write>, objectKey: string, blob: Option<Blob>): Option<Blob> {
    if ws == [] then blob
    else BlobAfter(ws[1..], objectKey, if ws[0].Put? && ws[0].objectKey == objectKey then Some(ws[0].blob) else blob)
  }

  lemma ApplyAllFirst(s: Store, ws: seq<Write>)
    requires ws != []
    ensures ApplyAll(s, ws) == ApplyAll(Apply(s, ws[0]), ws[1..])
  {
    assert ws == ws[..1] + ws[1..];
    ApplyAllAppend(s, ws[..1], ws[1..]);
    FirstWrites(s, ws);
  }

  /** The store after the writes, row by row and object by object. */
  lemma {:induction false} ApplyAllIsPointwise(s: Store, ws: seq<Write>)
    ensures forall k :: Get(ApplyAll(s, ws).rows, k) == RowAfter(ws, k, Get(s.rows, k))
    ensures forall o :: Get(ApplyAll(s, ws).blobs, o) == BlobAfter(ws, o, Get(s.blobs, o))
    decreases |ws|
  {
    if ws != [] {
      ApplyAllFirst(s, ws);
      ApplyAllIsPointwise(Apply(s, ws[0]), ws[1..]);
    }
  }

  ghost predicate UpsertAhead(ws: seq<Write>, k: RowKey) {
    exists i :: 0 <= i < |ws| && Upserts(ws[i], k)
  }

  ghost predicate DeleteAhead(ws: seq<Write>, k: RowKey) {
    exists i :: 0 <= i < |ws| && Deletes(ws[i], k)
  }

  /** Two rows that the writes ahead make equal. */
  ghost predicate Converge(a: Option<Row>, b: Option<Row>, ws: seq<Write>, k: RowKey) {
    || a == b
    || (HashOf(a) == HashOf(b) && UpsertAhead(ws, k))
    || (a.Some? && b.Some? && a.value == b.value.(status := a.value.status) && DeleteAhead(ws, k))
  }

  lemma AheadStep(ws: seq<Write>, k: RowKey)
    requires ws != []
    ensures UpsertAhead(ws, k) ==> Upserts(ws[0], k) || UpsertAhead(ws[1..], k)
    ensures DeleteAhead(ws, k) ==> Deletes(ws[0], k) || DeleteAhead(ws[1..], k)
  {
    if UpsertAhead(ws, k) && !Upserts(ws[0], k) {
      var i :| 0 <= i < |ws| && Upserts(ws[i], k);
      assert Upserts(ws[1..][i - 1], k);
    }
    if DeleteAhead(ws, k) && !Deletes(ws[0], k) {
      var i :| 0 <= i < |ws| && Deletes(ws[i], k);
      assert Deletes(ws[1..][i - 1], k);
    }
  }

  lemma {:induction false} ConvergingRows(a: Option<Row>, b: Option<Row>, ws: seq<Write>, k: RowKey)
    requires Converge(a, b, ws, k)
    ensures RowAfter(ws, k, a) == RowAfter(ws, k, b)
    decreases |ws|
  {
    if ws != [] {
      AheadStep(ws, k);
      ConvergingRows(Rewrite(ws[0], k, a), Rewrite(ws[0], k, b), ws[1..], k);
    }
  }

  ghost predicate PutAhead(ws: seq<Write>, o: string) {
    exists i :: 0 <= i < |ws| && ws[i].Put? && ws[i].objectKey == o
  }

  lemma {:induction false} ConvergingBlobs(a: Option<Blob>, b: Option<Blob>, ws: seq<Write>, o: string)
    requires a == b || PutAhead(ws, o)
    ensures BlobAfter(ws, o, a) == BlobAfter(ws, o, b)
    decreases |ws|
  {
    if ws != [] {
      var w := ws[0];
      if a != b && !(w.Put? && w.objectKey == o) {
        var i :| 0 <= i < |ws| && ws[i].Put? && ws[i].objectKey == o;
        assert ws[1..][i - 1] == ws[i];
      }
      ConvergingBlobs(if w.Put? && w.objectKey == o then Some(w.blob) else a,
                      if w.Put? && w.objectKey == o then Some(w.blob) else b, ws[1..], o);
    }
  }

  // ----- what the run leaves -----

  /** No write from `i` on upserts the row. */
  ghost predicate QuietFrom(ws: seq<Write>, i: nat, k: RowKey) {
    forall j :: i <= j < |ws| ==> !Upserts(ws[j], k)
  }

  /** Without another upsert a row keeps its content and hash, and is deleted exactly when a deletion comes. */
  lemma {:induction false} QuietRow(row: Option<Row>, ws: seq<Write>, k: RowKey)
    requires QuietFrom(ws, 0, k)
    ensures RowAfter(ws, k, row) == if row.Some? && DeleteAhead(ws, k) then Some(row.value.(status := Deleted)) else row
    decreases |ws|
  {
    if ws != [] {
      AheadStep(ws, k);
      assert QuietFrom(ws[1..], 0, k) by {
        forall j | 0 <= j < |ws[1..]| ensures !Upserts(ws[1..][j], k) {
          assert ws[1..][j] == ws[j + 1];
        }
      }
      QuietRow(Rewrite(ws[0], k, row), ws[1..], k);
      if DeleteAhead(ws[1..], k) {
        var i :| 0 <= i < |ws[1..]| && Deletes(ws[1..][i], k);
        assert Deletes(ws[i + 1], k);
      }
    }
  }

  lemma {:induction false} HashSurvives(row: Option<Row>, ws: seq<Write>, k: RowKey)
    ensures HashOf(RowAfter(ws, k, row)) == HashOf(row)
    decreases |ws|
  {
    if ws != [] {
      HashSurvives(Rewrite(ws[0], k, row), ws[1..], k);
    }
  }

  /** The last upsert of a document decides its row: its content is there, marked deleted exactly when a tombstone
      follows, and the hash the ingest worker stored is kept. */
  lemma {:induction false} LastUpsertWins(row: Option<Row>, ws: seq<Write>, k: RowKey, i: nat)
    requires i < |ws| && Upserts(ws[i], k) && QuietFrom(ws, i + 1, k)
    ensures RowAfter(ws, k, row)
         == Some(Row(ws[i].content, if DeleteAhead(ws[i + 1..], k) then Deleted else Discovered, HashOf(row)))
    decreases |ws|
  {
    var next := Rewrite(ws[0], k, row);
    if i == 0 {
      assert QuietFrom(ws[1..], 0, k);
      QuietRow(next, ws[1..], k);
    } else {
      assert ws[1..][i - 1] == ws[i] && ws[1..][i..] == ws[i + 1..];
      assert QuietFrom(ws[1..], i, k);
      LastUpsertWins(next, ws[1..], k, i - 1);
    }
  }

  // ----- running again -----

  /** Whatever row or object `p` writes, `ws` writes too: it upserts what `p` upserts, upserts or deletes what `p`
      deletes, and puts what `p` puts. What is written does not matter. */
  ghost predicate Covers(p: seq<Write>, ws: seq<Write>) {
    && (forall k :: UpsertAhead(p, k) ==> UpsertAhead(ws, k))
    && (forall k :: DeleteAhead(p, k) ==> UpsertAhead(ws, k) || DeleteAhead(ws, k))
    && (forall o :: PutAhead(p, o) ==> PutAhead(ws, o))
  }

  lemma NoUpsertIsQuiet(ws: seq<Write>, k: RowKey)
    requires !UpsertAhead(ws, k)
    ensures QuietFrom(ws, 0, k)
  {
  }

  lemma CoveredRow(a: Option<Row>, p: seq<Write>, ws: seq<Write>, k: RowKey)
    requires Covers(p, ws)
    ensures Converge(RowAfter(p, k, a), a, ws, k)
  {
    HashSurvives(a, p, k);
    if !UpsertAhead(p, k) {
      NoUpsertIsQuiet(p, k);
      QuietRow(a, p, k);
    }
  }

  lemma {:induction false} QuietBlob(blob: Option<Blob>, ws: seq<Write>, o: string)
    requires !PutAhead(ws, o)
    ensures BlobAfter(ws, o, blob) == blob
    decreases |ws|
  {
    if ws != [] {
      assert !(ws[0].Put? && ws[0].objectKey == o);
      forall i | 0 <= i < |ws[1..]| ensures !(ws[1..][i].Put? && ws[1..][i].objectKey == o) {
        assert ws[1..][i] == ws[i + 1];
      }
      QuietBlob(blob, ws[1..], o);
    }
  }

  lemma CoveredBlob(b: Option<Blob>, p: seq<Write>, ws: seq<Write>, o: string)
    requires Covers(p, ws)
    ensures BlobAfter(p, o, b) == b || PutAhead(ws, o)
  {
    if !PutAhead(p, o) {
      QuietBlob(b, p, o);
    }
  }

  /** Making `ws` after `p` leaves what `ws` alone would have left. */
  ghost predicate NoTrace(s: Store, p: seq<Write>, ws: seq<Write>) {
    ApplyAll(ApplyAll(s, p), ws) == ApplyAll(s, ws)
  }

  lemma CoveredLeavesNoTrace(s: Store, p: seq<Write>, ws: seq<Write>)
    requires Covers(p, ws)
    ensures NoTrace(s, p, ws)
  {
    var mid := ApplyAll(s, p);
    ApplyAllIsPointwise(s, p);
    ApplyAllIsPointwise(mid, ws);
    ApplyAllIsPointwise(s, ws);
    forall k ensures Get(ApplyAll(mid, ws).rows, k) == Get(ApplyAll(s, ws).rows, k) {
      CoveredRow(Get(s.rows, k), p, ws, k);
      ConvergingRows(Get(mid.rows, k), Get(s.rows, k), ws, k);
    }
    forall o ensures Get(ApplyAll(mid, ws).blobs, o) == Get(ApplyAll(s, ws).blobs, o) {
      CoveredBlob(Get(s.blobs, o), p, ws, o);
      ConvergingBlobs(Get(mid.blobs, o), Get(s.blobs, o), ws, o);
    }
    SameMap(ApplyAll(mid, ws).rows, ApplyAll(s, ws).rows);
    SameMap(ApplyAll(mid, ws).blobs, ApplyAll(s, ws).blobs);
  }

  lemma {:induction false} UpsertedIsThere(row: Option<Row>, ws: seq<Write>, k: RowKey)
    requires UpsertAhead(ws, k) || row.Some?
    ensures RowAfter(ws, k, row).Some?
    decreases |ws|
  {
    if ws != [] {
      AheadStep(ws, k);
      UpsertedIsThere(Rewrite(ws[0], k, row), ws[1..], k);
    }
  }

  lemma {:induction false} PutIsThere(blob: Option<Blob>, ws: seq<Write>, o: string)
    requires PutAhead(ws, o) || blob.Some?
    ensures BlobAfter(ws, o, blob).Some?
    decreases |ws|
  {
    if ws != [] {
      var w := ws[0];
      if blob.None? && !(w.Put? && w.objectKey == o) {
        var i :| 0 <= i < |ws| && ws[i].Put? && ws[i].objectKey == o;
        assert ws[1..][i - 1] == ws[i];
      }
      PutIsThere(if w.Put? && w.objectKey == o then Some(w.blob) else blob, ws[1..], o);
    }
  }

  lemma NoTraceOfKey(s: Store, p: seq<Write>, ws: seq<Write>, k: RowKey, o: string)
    requires NoTrace(s, p, ws)
    ensures RowAfter(ws, k, RowAfter(p, k, Get(s.rows, k))) == RowAfter(ws, k, Get(s.rows, k))
    ensures BlobAfter(ws, o, BlobAfter(p, o, Get(s.blobs, o))) == BlobAfter(ws, o, Get(s.blobs, o))
  {
    ApplyAllIsPointwise(s, p);
    ApplyAllIsPointwise(ApplyAll(s, p), ws);
    ApplyAllIsPointwise(s, ws);
  }

  lemma UpsertNeedsUpsert(p: seq<Write>, ws: seq<Write>, k: RowKey)
    requires NoTrace(Store(map[], map[]), p, ws) && UpsertAhead(p, k)
    ensures UpsertAhead(ws, k)
  {
    NoTraceOfKey(Store(map[], map[]), p, ws, k, "");
    UpsertedIsThere(None, p, k);
    UpsertedIsThere(RowAfter(p, k, None), ws, k);
    if !UpsertAhead(ws, k) {
      NoUpsertIsQuiet(ws, k);
      QuietRow(None, ws, k);
    }
  }

  const PLAIN := Row(Content("", 0, "", None, None, map[]), Discovered, None)

  lemma DeleteNeedsWrite(p: seq<Write>, ws: seq<Write>, k: RowKey)
    requires NoTrace(Store(map[k := PLAIN], map[]), p, ws) && DeleteAhead(p, k) && !UpsertAhead(p, k)
    ensures UpsertAhead(ws, k) || DeleteAhead(ws, k)
  {
    NoTraceOfKey(Store(map[k := PLAIN], map[]), p, ws, k, "");
    NoUpsertIsQuiet(p, k);
    QuietRow(Some(PLAIN), p, k);
    if !UpsertAhead(ws, k) {
      NoUpsertIsQuiet(ws, k);
      QuietRow(Some(PLAIN), ws, k);
      QuietRow(Some(PLAIN.(status := Deleted)), ws, k);
    }
  }

  lemma PutNeedsPut(p: seq<Write>, ws: seq<Write>, o: string)
    requires NoTrace(Store(map[], map[]), p, ws) && PutAhead(p, o)
    ensures PutAhead(ws, o)
  {
    NoTraceOfKey(Store(map[], map[]), p, ws, RowKey("", ""), o);
    PutIsThere(None, p, o);
    PutIsThere(BlobAfter(p, o, None), ws, o);
    if !PutAhead(ws, o) {
      QuietBlob(None, ws, o);
    }
  }

  /** Exactly when running again is safe, whatever was stored before and whatever the writes hold: the writes `ws` leave
      no trace of the writes `p` before them if and only if they cover them. */
  lemma NoTraceIff(p: seq<Write>, ws: seq<Write>)
    ensures (forall s :: NoTrace(s, p, ws)) <==> Covers(p, ws)
  {
    if Covers(p, ws) {
      forall s ensures NoTrace(s, p, ws) {
        CoveredLeavesNoTrace(s, p, ws);
      }
    }
    if forall s :: NoTrace(s, p, ws) {
      forall k | UpsertAhead(p, k) ensures UpsertAhead(ws, k) {
        UpsertNeedsUpsert(p, ws, k);
      }
      forall k | DeleteAhead(p, k) ensures UpsertAhead(ws, k) || DeleteAhead(ws, k) {
        if UpsertAhead(p, k) {
          UpsertNeedsUpsert(p, ws, k);
        } else {
          DeleteNeedsWrite(p, ws, k);
        }
      }
      forall o | PutAhead(p, o) ensures PutAhead(ws, o) {
        PutNeedsPut(p, ws, o);
      }
    }
  }

  ghost predicate AllOf(p: seq<Write>, ws: seq<Write>) {
    forall i :: 0 <= i < |p| ==> p[i] in ws
  }

  /** Replay is safe: after any of the writes, in any order and number, making all of them in order gives the table and
      the objects of one uninterrupted run. */
  lemma ReplayConverges(s: Store, p: seq<Write>, ws: seq<Write>)
    requires AllOf(p, ws)
    ensures ApplyAll(ApplyAll(s, p), ws) == ApplyAll(s, ws)
  {
    forall i | 0 <= i < |p| ensures exists j :: 0 <= j < |ws| && ws[j] == p[i] {
      assert p[i] in ws;
    }
    assert Covers(p, ws);
    CoveredLeavesNoTrace(s, p, ws);
  }

  /** A run that died after `life` durable steps, with the changes and outcomes it met. */
  datatype Attempt = Attempt(items: seq<Item>, life: nat)

  function Done(src: Source, a: Attempt): seq<Write> {
    Writes(src, a.items)[..Least(a.life, |Writes(src, a.items)|)]
  }

  /** The store after these runs. */
  function AfterAttempts(s: Store, src: Source, attempts: seq<Attempt>): Store {
    if attempts == [] then s
    else ApplyAll(AfterAttempts(s, src, attempts[..|attempts| - 1]), Done(src, attempts[|attempts| - 1]))
  }

  /** However often and wherever runs die, and whatever outcomes they met, the run that gets through leaves the
      store of a run without crashes, provided it covers what they had written. */
  lemma {:induction false} CrashesLeaveNoTrace(s: Store, src: Source, items: seq<Item>, attempts: seq<Attempt>)
    requires forall i :: 0 <= i < |attempts| ==> Covers(Done(src, attempts[i]), Writes(src, items))
    ensures ApplyAll(AfterAttempts(s, src, attempts), Writes(src, items)) == ApplyAll(s, Writes(src, items))
    decreases |attempts|
  {
    if attempts != [] {
      var before := attempts[..|attempts| - 1];
      CoveredLeavesNoTrace(AfterAttempts(s, src, before), Done(src, attempts[|attempts| - 1]), Writes(src, items));
      CrashesLeaveNoTrace(s, src, items, before);
    }
  }

  /** With the outcomes it met before, the run that gets through covers every one that died. */
  lemma SameOutcomesCover(src: Source, items: seq<Item>, life: nat)
    ensures Covers(Done(src, Attempt(items, life)), Writes(src, items))
  {
    var p, ws := Done(src, Attempt(items, life)), Writes(src, items);
    forall i | 0 <= i < |p| ensures p[i] == ws[i] {
    }
  }

  // ----- the cursor -----

  /** Where in the source's changes the listing of run `u` begins: behind those the cursor covers, or, without a cursor,
      wherever a first run of that time begins. */
  function Begin(at: string -> nat, first: nat -> nat, cursor: Option<string>, u: nat): nat {
    if cursor.Some? then at(cursor.value) else first(u)
  }

  /** Run `u` lists change `i` of run `t` again, when it begins from the cursor that run `t` left by living for `life`
      steps. */
  ghost predicate ListedAgain(src: Source, items: seq<Item>, cursor: Option<string>, next: Option<string>, life: nat,
                              at: string -> nat, first: nat -> nat, t: nat, u: nat, i: nat) {
    Begin(at, first, CursorAfter(src, items, cursor, next, life), u) <= Begin(at, first, cursor, t) + i
  }

  /** A later run lists a change again if and only if the run that listed it died before the cursor moved, and there was
      a cursor, or the later run begins no later in the changes. Whether the change failed makes no difference. */
  lemma ListedAgainIff(src: Source, items: seq<Item>, cursor: Option<string>, next: Option<string>, life: nat,
                       at: string -> nat, first: nat -> nat, t: nat, u: nat, i: nat)
    requires i < |items| && Begin(at, first, next, u) >= Begin(at, first, cursor, t) + |items|
    ensures ListedAgain(src, items, cursor, next, life, at, first, t, u, i)
       <==> life <= |Writes(src, items)| && (cursor.Some? || first(u) <= first(t) + i)
  {
  }

  /** A Notion source without a cursor lists everything: its first run is repeated if and only if it died. */
  lemma FirstNotionRunIsRepeatedIff(src: Source, items: seq<Item>, next: Option<string>, life: nat,
                                    at: string -> nat, t: nat, u: nat, i: nat)
    requires i < |items| && next.Some? && at(next.value) >= |items|
    ensures ListedAgain(src, items, None, next, life, at, _ => 0, t, u, i) <==> life <= |Writes(src, items)|
  {
    ListedAgainIff(src, items, None, next, life, at, _ => 0, t, u, i);
  }

  /** Consecutive runs of one source; where their listings begin is theirs alone to say while there is no cursor. */
  datatype SyncRun = SyncRun(items: seq<Item>, next: Option<string>, life: nat)

  predicate GotThrough(src: Source, run: SyncRun) {
    run.life > |Writes(src, run.items)|
  }

  function CursorAt(src: Source, cursor: Option<string>, runs: seq<SyncRun>): Option<string> {
    if runs == [] then cursor
    else
      var last := runs[|runs| - 1];
      CursorAfter(src, last.items, CursorAt(src, cursor, runs[..|runs| - 1]), last.next, last.life)
  }

  /** Where the listing of the last run began. */
  function LastBegin(src: Source, cursor: Option<string>, runs: seq<SyncRun>, at: string -> nat, first: nat -> nat): nat
    requires runs != []
  {
    Begin(at, first, CursorAt(src, cursor, runs[..|runs| - 1]), |runs| - 1)
  }

  /** The next cursor of each run lies right behind what it listed. */
  ghost predicate Gapless(src: Source, cursor: Option<string>, runs: seq<SyncRun>, at: string -> nat,
                          first: nat -> nat) {
    runs == [] ||
    var last := runs[|runs| - 1];
    && Gapless(src, cursor, runs[..|runs| - 1], at, first) && last.next.Some?
    && at(last.next.value) == LastBegin(src, cursor, runs, at, first) + |last.items|
  }

  /** How many of the runs that got through had change number `p` on their list. */
  function TimesTried(src: Source, cursor: Option<string>, runs: seq<SyncRun>, at: string -> nat,
                      first: nat -> nat, p: nat): nat {
    if runs == [] then 0
    else
      var last, begin := runs[|runs| - 1], LastBegin(src, cursor, runs, at, first);
      TimesTried(src, cursor, runs[..|runs| - 1], at, first, p)
      + if GotThrough(src, last) && begin <= p < begin + |last.items| then 1 else 0
  }

  /** Where the first run that got through began. */
  function FirstThrough(src: Source, cursor: Option<string>, runs: seq<SyncRun>, at: string -> nat,
                        first: nat -> nat): Option<nat> {
    if runs == [] then None
    else
      var before := FirstThrough(src, cursor, runs[..|runs| - 1], at, first);
      if before.Some? || !GotThrough(src, runs[|runs| - 1]) then before
      else Some(LastBegin(src, cursor, runs, at, first))
  }

  /** Over any number of runs, wherever each of them died, a change is on the list of exactly one run that got through,
      if it stands between the beginning of the first such run and the cursor, and of none otherwise. */
  lemma {:induction false} TriedOnceIff(src: Source, cursor: Option<string>, runs: seq<SyncRun>, at: string -> nat,
                                        first: nat -> nat, p: nat)
    requires Gapless(src, cursor, runs, at, first)
    ensures var begin, end := FirstThrough(src, cursor, runs, at, first), CursorAt(src, cursor, runs);
            && (if begin.Some? then end.Some? && begin.value <= at(end.value) else end == cursor)
            && TimesTried(src, cursor, runs, at, first, p)
            == if begin.Some? && begin.value <= p < at(end.value) then 1 else 0
    decreases |runs|
  {
    if runs != [] {
      TriedOnceIff(src, cursor, runs[..|runs| - 1], at, first, p);
    }
  }

  lemma {:induction false} BeginsAtCursor(src: Source, cursor: Option<string>, runs: seq<SyncRun>, at: string -> nat,
                                          first: nat -> nat)
    requires cursor.Some? && Gapless(src, cursor, runs, at, first)
    ensures var begin := FirstThrough(src, cursor, runs, at, first);
            begin.None? || begin == Some(at(cursor.value))
    decreases |runs|
  {
    if runs != [] {
      BeginsAtCursor(src, cursor, runs[..|runs| - 1], at, first);
      TriedOnceIff(src, cursor, runs[..|runs| - 1], at, first, 0);
    }
  }

  /** A source that has a cursor loses nothing: every change from that cursor up to the latest one is on the list of
      exactly one run that got through. */
  lemma NothingIsLost(src: Source, cursor: Option<string>, runs: seq<SyncRun>, at: string -> nat, first: nat -> nat,
                      p: nat)
    requires cursor.Some? && Gapless(src, cursor, runs, at, first)
    ensures var end := CursorAt(src, cursor, runs);
            && end.Some? && at(cursor.value) <= at(end.value)
            && TimesTried(src, cursor, runs, at, first, p) == if at(cursor.value) <= p < at(end.value) then 1 else 0
  {
    TriedOnceIff(src, cursor, runs, at, first, p);
    BeginsAtCursor(src, cursor, runs, at, first);
  }

  /** So a change whose fetch failed is passed over: the run counts it as failed and moves the cursor behind it. */
  lemma FailedChangeIsPassed(src: Source, id: string, error: string, cursor: Option<string>,
                             next: Option<string>, life: nat)
    requires life >= 1
    ensures var items := [Item(Change(id, false, None), FetchFails(error))];
            && Failed(src, items) == 1 && Writes(src, items) == []
            && CursorAfter(src, items, cursor, next, life) == next
  {
    var items := [Item(Change(id, false, None), FetchFails(error))];
    assert items[..0] == [];
    assert Failure(src, items[0]) == Some(Raised(error)) && WritesOf(src, items[0]) == [];
    assert Failed(src, items[..0]) == 0 && Writes(src, items[..0]) == [];
  }

  // ----- every row has its object -----

  ghost predicate HasObject(content: Content, blobs: map<string, Blob>) {
    "object_key" in content.extra && content.extra["object_key"] in blobs
  }

  /** Every row names an object that is there; the ingest of a document begins by downloading it. */
  ghost predicate Linked(s: Store) {
    forall k :: k in s.rows ==> HasObject(s.rows[k].content, s.blobs)
  }

  ghost predicate PutBefore(ws: seq<Write>, i: nat, o: string)
    requires i <= |ws|
  {
    exists j :: 0 <= j < i && ws[j].Put? && ws[j].objectKey == o
  }

  /** Each upsert names an object that an earlier write has put. */
  ghost predicate PutsFirst(ws: seq<Write>) {
    forall i :: 0 <= i < |ws| && ws[i].Upsert? ==>
      "object_key" in ws[i].content.extra && PutBefore(ws, i, ws[i].content.extra["object_key"])
  }

  lemma PutBeforeIn(a: seq<Write>, b: seq<Write>, i: nat, o: string)
    requires i <= |a| && a <= b
    ensures PutBefore(a, i, o) <==> PutBefore(b, i, o)
  {
    if PutBefore(a, i, o) {
      var j :| 0 <= j < i && a[j].Put? && a[j].objectKey == o;
      assert b[j].Put? && b[j].objectKey == o;
    }
    if PutBefore(b, i, o) {
      var j :| 0 <= j < i && b[j].Put? && b[j].objectKey == o;
      assert a[j].Put? && a[j].objectKey == o;
    }
  }

  lemma PrefixPutsFirst(a: seq<Write>, b: seq<Write>)
    requires a <= b && PutsFirst(b)
    ensures PutsFirst(a)
  {
    forall i | 0 <= i < |a| && a[i].Upsert?
      ensures "object_key" in a[i].content.extra && PutBefore(a, i, a[i].content.extra["object_key"])
    {
      assert b[i] == a[i];
      PutBeforeIn(a, b, i, a[i].content.extra["object_key"]);
    }
  }

  lemma PutsFirstAppend(a: seq<Write>, b: seq<Write>)
    requires PutsFirst(a) && PutsFirst(b)
    ensures PutsFirst(a + b)
  {
    var ws := a + b;
    forall i | 0 <= i < |ws| && ws[i].Upsert?
      ensures "object_key" in ws[i].content.extra && PutBefore(ws, i, ws[i].content.extra["object_key"])
    {
      if i < |a| {
        PutBeforeIn(a, ws, i, a[i].content.extra["object_key"]);
      } else {
        var o := b[i - |a|].content.extra["object_key"];
        var j :| 0 <= j < i - |a| && b[j].Put? && b[j].objectKey == o;
        assert ws[|a| + j].Put? && ws[|a| + j].objectKey == o;
      }
    }
  }

  lemma {:induction false} WritesPutFirst(src: Source, items: seq<Item>)
    ensures PutsFirst(Writes(src, items))
    decreases |items|
  {
    if items != [] {
      WritesPutFirst(src, items[..|items| - 1]);
      OneItemPutsFirst(src, items[|items| - 1]);
      PutsFirstAppend(Writes(src, items[..|items| - 1]), WritesOf(src, items[|items| - 1]));
    }
  }

  lemma OneItemPutsFirst(src: Source, item: Item)
    ensures PutsFirst(WritesOf(src, item))
  {
    var ws := WritesOf(src, item);
    if |ws| == 2 {
      assert ws[0].Put? && ws[0].objectKey == ws[1].content.extra["object_key"];
      assert PutBefore(ws, 1, ws[1].content.extra["object_key"]);
    }
  }

  lemma {:induction false} PutsStay(s: Store, ws: seq<Write>, j: nat)
    requires j < |ws| && ws[j].Put?
    ensures ws[j].objectKey in ApplyAll(s, ws).blobs
    decreases |ws|
  {
    if j < |ws| - 1 {
      assert ws[..|ws| - 1][j] == ws[j];
      PutsStay(s, ws[..|ws| - 1], j);
    }
  }

  lemma {:induction false} LinkedAfter(s: Store, ws: seq<Write>)
    requires Linked(s) && PutsFirst(ws)
    ensures Linked(ApplyAll(s, ws))
    decreases |ws|
  {
    if ws != [] {
      var n := |ws| - 1;
      var front, w := ws[..n], ws[n];
      PrefixPutsFirst(front, ws);
      LinkedAfter(s, front);
      if w.Upsert? {
        var j :| 0 <= j < n && ws[j].Put? && ws[j].objectKey == w.content.extra["object_key"];
        assert front[j] == ws[j];
        PutsStay(s, front, j);
      }
    }
  }

  /** Wherever a run dies, every row has its object: the upload comes before the row. */
  lemma EveryRowHasItsObject(s: Store, src: Source, items: seq<Item>, life: nat)
    requires Linked(s)
    ensures Linked(ApplyAll(s, Writes(src, items)[..Least(life, |Writes(src, items)|)]))
  {
    var ws := Writes(src, items);
    WritesPutFirst(src, items);
    PrefixPutsFirst(ws[..Least(life, |ws|)], ws);
    LinkedAfter(s, ws[..Least(life, |ws|)]);
  }

  // ----- what the job says -----

  ghost predicate SomeFail(src: Source, items: seq<Item>) {
    exists i :: 0 <= i < |items| && Failure(src, items[i]).Some?
  }

  ghost predicate AllFail(src: Source, items: seq<Item>) {
    forall i :: 0 <= i < |items| ==> Failure(src, items[i]).Some?
  }

  lemma {:induction false} FailedCounts(src: Source, items: seq<Item>)
    ensures Failed(src, items) == 0 <==> forall i :: 0 <= i < |items| ==> Failure(src, items[i]).None?
    ensures Failed(src, items) == |items| <==> forall i :: 0 <= i < |items| ==> Failure(src, items[i]).Some?
    decreases |items|
  {
    if items != [] {
      var before := items[..|items| - 1];
      FailedCounts(src, before);
      assert forall i :: 0 <= i < |before| ==> before[i] == items[i];
      assert items[|items| - 1] == items[|before|];
    }
  }

  /** The counts add up, and the status says whether none, some or all of the changes failed. */
  lemma ClosedJob(src: Source, job: Job, items: seq<Item>)
    ensures var done := Closed(src, job, items);
            && done.indexed + done.failed == done.total == |items|
            && (done.status == Completed <==> !SomeFail(src, items))
            && (done.status == JobFailed <==> SomeFail(src, items) && AllFail(src, items))
            && (done.status == Partial <==> SomeFail(src, items) && !AllFail(src, items))
  {
    FailedCounts(src, items);
    if items != [] {
      assert Failure(src, items[0]).None? || Failure(src, items[0]).Some?;
    }
  }

  /** The error log names the failed changes and no others. */
  lemma {:induction false} ErrorsNameFailures(src: Source, items: seq<Item>, id: string)
    ensures id in Errors(src, items)
       <==> exists i :: 0 <= i < |items| && items[i].change.id == id && Failure(src, items[i]).Some?
    decreases |items|
  {
    if items != [] {
      var before := items[..|items| - 1];
      ErrorsNameFailures(src, before, id);
      assert forall i :: 0 <= i < |before| ==> before[i] == items[i];
    }
  }
}
