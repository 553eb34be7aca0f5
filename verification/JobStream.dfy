/** What the progress stream of a sync job sends while the client stays connected, and whether it ends. */
module JobStream {
  import opened Collections
  import opened Wrappers
  import opened EventStream
  import SyncReplay
  import Json

  type Job = SyncReplay.Job

  /** The job's row in the table. */
  datatype JobRow = JobRow(id: string, sourceId: string, job: Job, startedAt: Option<string>,
                           completedAt: Option<string>)

  datatype Arrival = Arrival(name: string, fields: seq<Json.Field>)

  /** One turn of the loop: what came in over the progress channel, if anything; the keep-alive, if one is due; and the
      job as the table has it, if it still does. */
  datatype Poll = Poll(arrived: Option<Arrival>, ping: Option<Message>, row: Option<JobRow>)

  function StatusName(s: SyncReplay.JobStatus): string {
    match s
    case Queued => "queued"
    case Running => "running"
    case Completed => "completed"
    case Partial => "partial"
    case JobFailed => "failed"
  }

  /** What the endpoint takes for the end of a job. */
  predicate Final(row: JobRow) {
    row.job.status.Completed? || row.job.status.JobFailed?
  }

  function SnapshotOf(row: JobRow): Message {
    Snapshot(row.id, row.sourceId, StatusName(row.job.status), row.job.total, row.job.indexed, row.job.failed,
             row.startedAt, row.completedAt)
  }

  function TerminalOf(row: JobRow): Message {
    Terminal(StatusName(row.job.status), row.job.indexed, row.job.failed, row.job.total)
  }

  /** Of a poll that forwards a message named "terminal" nothing more is sent. */
  predicate ForwardsEnd(p: Poll) {
    p.arrived.Some? && p.arrived.value.name == "terminal"
  }

  predicate Ends(p: Poll) {
    ForwardsEnd(p) || (p.row.Some? && Final(p.row.value))
  }

  function SentBy(p: Poll): seq<Message> {
    var forwarded := if p.arrived.None? then [] else [Forwarded(p.arrived.value.name, p.arrived.value.fields)];
    if ForwardsEnd(p) then forwarded
    else
      forwarded + (if p.ping.None? then [] else [p.ping.value])
      + (if p.row.Some? && Final(p.row.value) then [TerminalOf(p.row.value)] else [])
  }

  /** What the loop sends over these polls, the first that ends it being the last. */
  function SentOver(polls: seq<Poll>): seq<Message> {
    if polls == [] then [] else SentBy(polls[0]) + if Ends(polls[0]) then [] else SentOver(polls[1..])
  }

  function Sent(row: Option<JobRow>, polls: seq<Poll>): seq<Message> {
    if row.None? then [Missing]
    else [SnapshotOf(row.value)] + if Final(row.value) then [Ended(StatusName(row.value.job.status))]
                                   else SentOver(polls)
  }

  /** One turn of the loop; it may be the last. */
  method Turn(p: Poll) returns (sent: seq<Message>, ends: bool)
    ensures sent == SentBy(p) && ends == Ends(p)
  {
    sent := [];
    if p.arrived.Some? {
      sent := sent + [Forwarded(p.arrived.value.name, p.arrived.value.fields)];
      if p.arrived.value.name == "terminal" {
        return sent, true;
      }
    }
    if p.ping.Some? {
      sent := sent + [p.ping.value];
    }
    if p.row.Some? && Final(p.row.value) {
      sent := sent + [TerminalOf(p.row.value)];
      return sent, true;
    }
    return sent, false;
  }

  /** `event_generator`, for a client that stays for these polls. */
  method Serve(row: Option<JobRow>, polls: seq<Poll>) returns (sent: seq<Message>)
    ensures sent == Sent(row, polls)
  {
    if row.None? {
      return [Missing];
    }
    sent := [SnapshotOf(row.value)];
    if Final(row.value) {
      return sent + [Ended(StatusName(row.value.job.status))];
    }
    ghost var whole := sent + SentOver(polls);
    for i := 0 to |polls|
      invariant sent + SentOver(polls[i..]) == whole
    {
      var part, ends := Turn(polls[i]);
      FirstPoll(sent, polls[i..]);
      assert polls[i..][1..] == polls[i + 1..];
      sent := sent + part;
      if ends {
        return;
      }
    }
  }

  lemma FirstPoll(sent: seq<Message>, polls: seq<Poll>)
    requires polls != []
    ensures sent + SentOver(polls)
         == if Ends(polls[0]) then sent + SentBy(polls[0]) else sent + SentBy(polls[0]) + SentOver(polls[1..])
  {
    var part, rest := SentBy(polls[0]), if Ends(polls[0]) then [] else SentOver(polls[1..]);
    assert SentOver(polls) == part + rest;
    Associative(sent, part, rest);
    assert sent + part + [] == sent + part;
  }

  // ----- how a stream ends -----

  /** The client takes it for the end of the job. */
  predicate IsTerminal(m: Message) {
    EventOf(m).name == "terminal"
  }

  ghost predicate Terminates(sent: seq<Message>) {
    exists i :: 0 <= i < |sent| && IsTerminal(sent[i])
  }

  /** Nothing but the last message is terminal. */
  ghost predicate TerminalIsLast(sent: seq<Message>) {
    forall i :: 0 <= i < |sent| - 1 ==> !IsTerminal(sent[i])
  }

  /** A keep-alive is a keep-alive. */
  ghost predicate Pings(polls: seq<Poll>) {
    forall i :: 0 <= i < |polls| && polls[i].ping.Some? ==> polls[i].ping.value.Ping?
  }

  ghost predicate SomePollEnds(polls: seq<Poll>) {
    exists i :: 0 <= i < |polls| && Ends(polls[i])
  }

  lemma OnePoll(p: Poll)
    requires p.ping.Some? ==> p.ping.value.Ping?
    ensures Terminates(SentBy(p)) <==> Ends(p)
    ensures TerminalIsLast(SentBy(p))
  {
    var sent := SentBy(p);
    if Ends(p) {
      assert IsTerminal(sent[|sent| - 1]);
    }
  }

  lemma TerminatesAppend(a: seq<Message>, b: seq<Message>)
    ensures Terminates(a + b) <==> Terminates(a) || Terminates(b)
    ensures !Terminates(a) && TerminalIsLast(b) ==> TerminalIsLast(a + b)
  {
    if Terminates(a) {
      var i :| 0 <= i < |a| && IsTerminal(a[i]);
      assert IsTerminal((a + b)[i]);
    }
    if Terminates(b) {
      var i :| 0 <= i < |b| && IsTerminal(b[i]);
      assert IsTerminal((a + b)[|a| + i]);
    }
  }

  lemma {:induction false} LoopEndsIff(polls: seq<Poll>)
    requires Pings(polls)
    ensures Terminates(SentOver(polls)) <==> SomePollEnds(polls)
    ensures TerminalIsLast(SentOver(polls))
    decreases |polls|
  {
    if polls != [] {
      OnePoll(polls[0]);
      if Ends(polls[0]) {
        assert SentOver(polls) == SentBy(polls[0]);
      } else {
        LoopEndsIff(polls[1..]);
        TerminatesAppend(SentBy(polls[0]), SentOver(polls[1..]));
        assert SomePollEnds(polls) ==> SomePollEnds(polls[1..]) by {
          if SomePollEnds(polls) {
            var i :| 0 <= i < |polls| && Ends(polls[i]);
            assert Ends(polls[1..][i - 1]);
          }
        }
      }
    }
  }

  /** A stream sends one terminal message at most, as its last; and it sends one if and only if the job is completed or
      failed when the stream opens or at one of its polls, or the channel brought one. */
  lemma EndsIff(row: JobRow, polls: seq<Poll>)
    requires Pings(polls)
    ensures Terminates(Sent(Some(row), polls)) <==> Final(row) || SomePollEnds(polls)
    ensures TerminalIsLast(Sent(Some(row), polls))
  {
    LoopEndsIff(polls);
    var rest := if Final(row) then [Ended(StatusName(row.job.status))] else SentOver(polls);
    TerminatesAppend([SnapshotOf(row)], rest);
    assert !IsTerminal(SnapshotOf(row));
    assert Final(row) ==> IsTerminal(rest[0]);
  }

  /** Every poll finds the job as this run closed it, and the channel brings no end. */
  ghost predicate FindClosed(polls: seq<Poll>, job: Job) {
    forall i :: 0 <= i < |polls| ==>
      !ForwardsEnd(polls[i]) && polls[i].row.Some? && polls[i].row.value.job == job
  }

  /** The stream of a job whose run is over sends a terminal message if and only if none or all of its changes failed:
      one opened after a partial success goes on for as long as the client stays. */
  lemma FinishedJobEndsIff(src: SyncReplay.Source, job: Job, items: seq<SyncReplay.Item>, row: JobRow, polls: seq<Poll>)
    requires Pings(polls) && row.job == SyncReplay.Closed(src, job, items) && FindClosed(polls, row.job)
    ensures Terminates(Sent(Some(row), polls))
       <==> !SyncReplay.SomeFail(src, items) || SyncReplay.AllFail(src, items)
  {
    SyncReplay.ClosedJob(src, job, items);
    EndsIff(row, polls);
    if SomePollEnds(polls) {
      var i :| 0 <= i < |polls| && Ends(polls[i]);
      assert Final(polls[i].row.value);
    }
  }

  predicate UnderWay(job: Job) {
    job.status.Queued? || job.status.Running?
  }

  /** The channel brings no end, and the job is still under way or as this run closed it. */
  predicate Watches(p: Poll, job: Job) {
    !ForwardsEnd(p) && (p.row.None? || p.row.value.job == job || UnderWay(p.row.value.job))
  }

  /** A stream opened before the run is over and polled after it is, likewise. */
  lemma WatchedJobEndsIff(src: SyncReplay.Source, job: Job, items: seq<SyncReplay.Item>, row: JobRow, polls: seq<Poll>,
                          n: nat)
    requires Pings(polls) && UnderWay(row.job)
    requires forall i :: 0 <= i < |polls| ==> Watches(polls[i], SyncReplay.Closed(src, job, items))
    requires n < |polls| && polls[n].row.Some? && polls[n].row.value.job == SyncReplay.Closed(src, job, items)
    ensures Terminates(Sent(Some(row), polls))
       <==> !SyncReplay.SomeFail(src, items) || SyncReplay.AllFail(src, items)
  {
    SyncReplay.ClosedJob(src, job, items);
    EndsIff(row, polls);
    if SomePollEnds(polls) {
      var i :| 0 <= i < |polls| && Ends(polls[i]);
      assert Final(polls[i].row.value);
    }
    assert Final(polls[n].row.value) ==> Ends(polls[n]);
  }
}
