/** What the browser is told about a sync job, field by field. */
module JobReport {
  import opened Collections
  import opened Wrappers
  import opened EventStream
  import opened JobStream
  import SyncReplay
  import Utf8
  import Json

  /** The statuses as the client knows them. */
  function StatusText(s: SyncReplay.JobStatus): string {
    match s
    case Queued => "queued"
    case Running => "running"
    case Completed => "completed"
    case Partial => "partial"
    case JobFailed => "failed"
  }

  ghost predicate Reads(fields: seq<Json.Field>, name: string, v: Json.Value) {
    Json.Lookup(fields, name) == Some(v)
  }

  function Number(n: nat): Json.Value {
    Json.Number(false, n, "", None)
  }

  function TimeValue(time: Option<string>): Json.Value {
    if time.Some? then Json.Text(time.value) else Json.Null
  }

  /** The payload says how far the job is. */
  ghost predicate TellsCounts(fields: seq<Json.Field>, job: Job) {
    && Reads(fields, "status", Json.Text(StatusText(job.status))) && Reads(fields, "indexed_docs", Number(job.indexed))
    && Reads(fields, "failed_docs", Number(job.failed)) && Reads(fields, "total_docs", Number(job.total))
  }

  ghost predicate TellsJob(fields: seq<Json.Field>, row: JobRow) {
    && TellsCounts(fields, row.job)
    && Reads(fields, "id", Json.Text(row.id)) && Reads(fields, "source_id", Json.Text(row.sourceId))
    && Reads(fields, "started_at", TimeValue(row.startedAt))
    && Reads(fields, "completed_at", TimeValue(row.completedAt))
  }

  /** A field whose name no later one has is found by it. */
  lemma {:induction false} FoundByName(fs: seq<Json.Field>, i: nat)
    requires i < |fs| && forall j :: i < j < |fs| ==> fs[j].name != fs[i].name
    ensures Reads(fs, fs[i].name, fs[i].value)
    decreases |fs|
  {
    if i < |fs| - 1 {
      FoundByName(fs[..|fs| - 1], i);
    }
  }

  /** The snapshot that opens a stream tells the job as its row has it. */
  lemma SnapshotTells(row: JobRow)
    ensures EventOf(SnapshotOf(row)).name == "snapshot" && TellsJob(EventOf(SnapshotOf(row)).data, row)
  {
    var fs := EventOf(SnapshotOf(row)).data;
    FoundByName(fs, 0);
    FoundByName(fs, 1);
    FoundByName(fs, 2);
    FoundByName(fs, 3);
    FoundByName(fs, 4);
    FoundByName(fs, 5);
    FoundByName(fs, 6);
    FoundByName(fs, 7);
  }

  /** And so does the message that ends it, with the counts when the polling saw the end. */
  lemma TerminalTells(row: JobRow)
    ensures EventOf(TerminalOf(row)).name == "terminal" && TellsCounts(EventOf(TerminalOf(row)).data, row.job)
    ensures EventOf(Ended(StatusName(row.job.status))).name == "terminal"
    ensures Reads(EventOf(Ended(StatusName(row.job.status))).data, "status", Json.Text(StatusText(row.job.status)))
  {
    var fs := EventOf(TerminalOf(row)).data;
    FoundByName(fs, 0);
    FoundByName(fs, 1);
    FoundByName(fs, 2);
    FoundByName(fs, 3);
    FoundByName(EventOf(Ended(StatusName(row.job.status))).data, 0);
  }

  /** A keep-alive says the time, an error what is wrong; what came over the channel is passed on as it came. */
  lemma OthersTell(seconds: nat, fraction: Json.DigitString, name: string, fields: seq<Json.Field>)
    ensures EventOf(Ping(seconds, fraction))
         == Event("ping", [Json.Field("ts", Json.Number(false, seconds, fraction, None))])
    ensures EventOf(Missing) == Event("error", [Json.Field("message", Json.Text("Job not found"))])
    ensures EventOf(Forwarded(name, fields)) == Event(name, fields)
  {
  }

  lemma {:induction false} DataAt<P>(events: seq<Event<P>>, i: nat)
    requires i < |events|
    ensures |DataOf(events)| == |events| && DataOf(events)[i] == events[i].data
    decreases |events|
  {
    if |events| > 1 {
      DataAt(events[1..], if i == 0 then 0 else i - 1);
    }
  }

  ghost predicate OneLineNames(ms: seq<Message>) {
    forall i :: 0 <= i < |ms| && ms[i].Forwarded? ==> '\n' !in ms[i].name
  }

  /** In whatever pieces the bytes of a stream arrive: the first payload that the client delivers tells the job as its
      row had it when the stream was opened, and when the polling saw the end, the last one as the row had it then. */
  lemma ClientIsTold(row: JobRow, polls: seq<Poll>, pieces: seq<seq<Byte>>, last: JobRow)
    requires OneLineNames(Sent(Some(row), polls))
    requires Concat(pieces) == Utf8.Encode(SseAll(OBJECTS, EventsOf(Sent(Some(row), polls))))
    ensures var delivered, n := Payloads(OBJECTS, Utf8.Feed(Utf8.FRESH, Concat(pieces)).1), |Sent(Some(row), polls)|;
            && |delivered| == n >= 1 && TellsJob(delivered[0], row)
            && (Sent(Some(row), polls)[n - 1] == TerminalOf(last) ==> TellsCounts(delivered[n - 1], last.job))
  {
    var sent := Sent(Some(row), polls);
    JobStreamArrives(sent, pieces);
    DataAt(EventsOf(sent), 0);
    DataAt(EventsOf(sent), |sent| - 1);
    SnapshotTells(row);
    TerminalTells(last);
  }

  // ----- what each poll sends -----

  /** While nothing ends a stream every poll sends on what arrived and its keep-alive, in the order of the polls. */
  lemma {:induction false} PollsAreSent(polls: seq<Poll>, i: nat)
    requires i < |polls| && forall j :: 0 <= j < i ==> !Ends(polls[j])
    ensures var a := polls[i].arrived; a.Some? ==> Forwarded(a.value.name, a.value.fields) in SentOver(polls)
    ensures polls[i].ping.Some? && !ForwardsEnd(polls[i]) ==> polls[i].ping.value in SentOver(polls)
    ensures polls[i].row.Some? && Final(polls[i].row.value) && !ForwardsEnd(polls[i]) ==>
              TerminalOf(polls[i].row.value) in SentOver(polls)
    decreases |polls|
  {
    if i > 0 {
      PollsAreSent(polls[1..], i - 1);
    }
  }

  /** The endpoint takes exactly these two statuses for the end. */
  lemma FinalIff(row: JobRow)
    ensures Final(row) <==> StatusText(row.job.status) in {"completed", "failed"}
  {
  }
}
