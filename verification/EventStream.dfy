/** The progress stream of a sync job: the server prints one message per event, and the browser pieces them back out of
    a byte stream that arrives in arbitrary pieces (sections 9.2.5 and 9.2.6 of the HTML Living Standard). */
module EventStream {
  import opened Collections
  import opened Wrappers
  import opened Texts
  import Json
  import Utf8

  const DATA := "data: "

  /** How payloads are printed and parsed: `json.dumps` and `JSON.parse`. */
  datatype Codec<!P> = Codec(dump: P -> string, parse: string -> Option<P>) {

    /** What is needed of one payload: it is printed on one line, and parsing undoes printing. */
    ghost predicate Sound(data: P) {
      Free(dump(data), "\n") && parse(dump(data)) == Some(data)
    }
  }

  datatype Event<P> = Event(name: string, data: P)

  /** One printed message. */
  function Sse<P>(codec: Codec<P>, e: Event<P>): string {
    "event: " + e.name + "\n" + (DATA + codec.dump(e.data)) + BLANK_LINE
  }

  function SseAll<P>(codec: Codec<P>, events: seq<Event<P>>): string {
    if events == [] then "" else Sse(codec, events[0]) + SseAll(codec, events[1..])
  }

  function DataOf<P>(events: seq<Event<P>>): seq<P> {
    if events == [] then [] else [events[0].data] + DataOf(events[1..])
  }

  // ----- what a text holds -----

  /** The first line that starts with `data: `. */
  function DataLine(lines: seq<string>): Option<string> {
    if lines == [] then None
    else if StartsWith(lines[0], DATA) then Some(lines[0])
    else DataLine(lines[1..])
  }

  /** The payload of one frame; a frame without one, or with a malformed one, is ignored. */
  function Payload<P>(codec: Codec<P>, frame: string): seq<P> {
    match DataLine(Split(frame, "\n"))
    case None => []
    case Some(line) => if |line| < |DATA| then [] else Parsed(codec, line[|DATA|..])
  }

  function Parsed<P>(codec: Codec<P>, text: string): seq<P> {
    match codec.parse(text)
    case None => []
    case Some(data) => [data]
  }

  /** The complete frames of a text, in order. */
  function Frames(text: string): seq<string>
    decreases |text|
  {
    var i := IndexOf(text, BLANK_LINE);
    if i < 0 then [] else [text[..i]] + Frames(text[i + 2..])
  }

  function PayloadsIn<P>(codec: Codec<P>, frames: seq<string>): seq<P> {
    if frames == [] then [] else Payload(codec, frames[0]) + PayloadsIn(codec, frames[1..])
  }

  function Payloads<P>(codec: Codec<P>, text: string): seq<P> {
    PayloadsIn(codec, Frames(text))
  }

  /** What follows the last complete frame. */
  function Unfinished(text: string): (rest: string)
    ensures Free(rest, BLANK_LINE)
    decreases |text|
  {
    var i := IndexOf(text, BLANK_LINE);
    if i < 0 then text else Unfinished(text[i + 2..])
  }

  // ----- the client -----

  /** Calls back with the payload of one frame; a malformed frame is skipped. */
  method Deliver<P>(codec: Codec<P>, frame: string, delivered: seq<P>) returns (now: seq<P>)
    ensures now == delivered + Payload(codec, frame)
  {
    now := delivered;
    var dataLine := DataLine(Split(frame, "\n"));
    if dataLine.Some? && |dataLine.value| >= |DATA| {
      var data := codec.parse(dataLine.value[|DATA|..]);
      if data.Some? {
        now := now + [data.value];
      }
    }
  }

  /** Takes every complete frame off the buffer. */
  method Drain<P>(codec: Codec<P>, buffer: string) returns (delivered: seq<P>, buf: string)
    ensures delivered == Payloads(codec, buffer) && buf == Unfinished(buffer)
  {
    delivered, buf := [], buffer;
    var idx := IndexOf(buf, BLANK_LINE);
    while idx >= 0
      invariant idx == IndexOf(buf, BLANK_LINE)
      invariant delivered + Payloads(codec, buf) == Payloads(codec, buffer) && Unfinished(buf) == Unfinished(buffer)
      decreases |buf|
    {
      var frame := buf[..idx];
      FirstFrame(codec, delivered, buf);
      delivered := Deliver(codec, frame, delivered);
      buf := buf[idx + 2..];
      idx := IndexOf(buf, BLANK_LINE);
    }
    assert Payloads(codec, buf) == [];
  }

  lemma OneFrame<P>(codec: Codec<P>, frame: string, frames: seq<string>)
    ensures PayloadsIn(codec, [frame] + frames) == Payload(codec, frame) + PayloadsIn(codec, frames)
  {
    assert ([frame] + frames)[1..] == frames;
  }

  lemma FirstFrame<P>(codec: Codec<P>, before: seq<P>, text: string)
    requires IndexOf(text, BLANK_LINE) >= 0
    ensures var i := IndexOf(text, BLANK_LINE);
            && before + Payloads(codec, text) == before + Payload(codec, text[..i]) + Payloads(codec, text[i + 2..])
            && Unfinished(text) == Unfinished(text[i + 2..])
  {
    var i := IndexOf(text, BLANK_LINE);
    OneFrame(codec, text[..i], Frames(text[i + 2..]));
    Associative(before, Payload(codec, text[..i]), Payloads(codec, text[i + 2..]));
  }

  /** The read loop: `pieces` is what was read before the stream ended or was aborted. The result depends on
      their concatenation only. */
  method Stream<P>(codec: Codec<P>, pieces: seq<seq<Byte>>) returns (delivered: seq<P>)
    ensures delivered == Payloads(codec, Utf8.Feed(Utf8.FRESH, Concat(pieces)).1)
  {
    delivered := [];
    var buf, decoder := "", Utf8.FRESH;
    ghost var text := "";
    for i := 0 to |pieces|
      invariant (decoder, text) == Utf8.Feed(Utf8.FRESH, Concat(pieces[..i]))
      invariant delivered == Payloads(codec, text) && buf == Unfinished(text)
    {
      var (next, decoded) := Utf8.Feed(decoder, pieces[i]);
      ConcatStep(pieces, i);
      Utf8.FeedAppend(Utf8.FRESH, Concat(pieces[..i]), pieces[i]);
      PayloadsAppend(codec, text, decoded);
      UnfinishedAppend(text, decoded);
      decoder, buf, text := next, buf + decoded, text + decoded;
      var more, rest := Drain(codec, buf);
      delivered, buf := delivered + more, rest;
    }
    assert pieces[..|pieces|] == pieces;
  }

  function Concat(pieces: seq<seq<Byte>>): seq<Byte> {
    if pieces == [] then [] else Concat(pieces[..|pieces| - 1]) + pieces[|pieces| - 1]
  }

  lemma ConcatStep(pieces: seq<seq<Byte>>, i: nat)
    requires i < |pieces|
    ensures Concat(pieces[..i + 1]) == Concat(pieces[..i]) + pieces[i]
  {
    assert pieces[..i + 1][..i] == pieces[..i];
  }

  /** The first gap of a text stays the first when the text goes on. */
  lemma FirstGapStays(text: string, more: string)
    requires IndexOf(text, BLANK_LINE) >= 0
    ensures IndexOf(text + more, BLANK_LINE) == IndexOf(text, BLANK_LINE)
  {
    var i, whole := IndexOf(text, BLANK_LINE), text + more;
    GapAt(text, more, i);
    if IndexOf(whole, BLANK_LINE) < 0 || i < IndexOf(whole, BLANK_LINE) {
      IndexOfIsFirst(whole, BLANK_LINE, i);
    } else if IndexOf(whole, BLANK_LINE) < i {
      GapAt(text, more, IndexOf(whole, BLANK_LINE));
      IndexOfIsFirst(text, BLANK_LINE, IndexOf(whole, BLANK_LINE));
    }
  }

  lemma GapAt(text: string, more: string, k: nat)
    requires k + 2 <= |text|
    ensures At(text, BLANK_LINE, k) <==> At(text + more, BLANK_LINE, k)
  {
    assert (text + more)[k..k + 2] == text[k..k + 2];
  }

  lemma Sides(text: string, more: string, i: nat)
    requires i + 2 <= |text|
    ensures (text + more)[..i] == text[..i] && (text + more)[i + 2..] == text[i + 2..] + more
  {
  }

  lemma {:induction false} FramesAppend(text: string, more: string)
    ensures Frames(text + more) == Frames(text) + Frames(Unfinished(text) + more)
    decreases |text|
  {
    var i := IndexOf(text, BLANK_LINE);
    if i >= 0 {
      FirstFrameStays(text, more);
      FramesAppend(text[i + 2..], more);
      Associative([text[..i]], Frames(text[i + 2..]), Frames(Unfinished(text[i + 2..]) + more));
    }
  }

  lemma FirstFrameStays(text: string, more: string)
    requires IndexOf(text, BLANK_LINE) >= 0
    ensures var i := IndexOf(text, BLANK_LINE); Frames(text + more) == [text[..i]] + Frames(text[i + 2..] + more)
  {
    FirstGapStays(text, more);
    Sides(text, more, IndexOf(text, BLANK_LINE));
  }

  lemma {:induction false} PayloadsInAppend<P>(codec: Codec<P>, a: seq<string>, b: seq<string>)
    ensures PayloadsIn(codec, a + b) == PayloadsIn(codec, a) + PayloadsIn(codec, b)
    decreases |a|
  {
    if a == [] {
      assert a + b == b;
    } else {
      assert (a + b)[1..] == a[1..] + b;
      PayloadsInAppend(codec, a[1..], b);
      Associative(Payload(codec, a[0]), PayloadsIn(codec, a[1..]), PayloadsIn(codec, b));
    }
  }

  /** Text that arrives later completes the unfinished frame and leaves the frames before it as they were. */
  lemma PayloadsAppend<P>(codec: Codec<P>, text: string, more: string)
    ensures Payloads(codec, text + more) == Payloads(codec, text) + Payloads(codec, Unfinished(text) + more)
  {
    FramesAppend(text, more);
    PayloadsInAppend(codec, Frames(text), Frames(Unfinished(text) + more));
  }

  lemma {:induction false} UnfinishedAppend(text: string, more: string)
    ensures Unfinished(text + more) == Unfinished(Unfinished(text) + more)
    decreases |text|
  {
    var i := IndexOf(text, BLANK_LINE);
    if i >= 0 {
      FirstGapStays(text, more);
      Sides(text, more, i);
      UnfinishedAppend(text[i + 2..], more);
    }
  }

  /** A message is its name and its payload on a line each, and a blank line. */
  lemma MessageLines<P>(codec: Codec<P>, e: Event<P>)
    ensures Sse(codec, e) == "event: " + e.name + "\n" + "data: " + codec.dump(e.data) + "\n\n"
  {
  }

  // ----- reading what was printed -----

  /** A text is free of a one-character string when the character is not in it. */
  lemma FreeOfNewline(s: string)
    ensures Free(s, "\n") <==> '\n' !in s
  {
    FreeMeansNowhere(s, "\n");
    forall k: nat ensures At(s, "\n", k) <==> k < |s| && s[k] == '\n' {
      if k < |s| {
        assert s[k..k + 1] == [s[k]];
      }
    }
    assert forall k: nat | k < |s| :: At(s, "\n", k) <==> s[k] == '\n';
  }

  lemma FirstGap(a: string, b: string, more: string)
    requires '\n' !in a && '\n' !in b && b != ""
    ensures IndexOf(a + "\n" + b + BLANK_LINE + more, BLANK_LINE) == |a| + 1 + |b|
  {
    var whole, n := a + "\n" + b + BLANK_LINE + more, |a| + 1 + |b|;
    assert whole[n..n + 2] == BLANK_LINE;
    forall k: nat | k < n ensures !At(whole, BLANK_LINE, k) {
      assert whole[k] == '\n' ==> k == |a|;
      assert whole[|a| + 1] == b[0];
    }
    var i := IndexOf(whole, BLANK_LINE);
    if i < 0 || n < i {
      IndexOfIsFirst(whole, BLANK_LINE, n);
    }
  }

  lemma SplitTwo(a: string, b: string)
    requires '\n' !in a && '\n' !in b
    ensures Split(a + "\n" + b, "\n") == [a, b]
  {
    var whole := a + "\n" + b;
    assert whole[|a|..|a| + 1] == "\n";
    forall k: nat | k < |a| ensures !At(whole, "\n", k) {
      assert whole[k] == a[k];
      assert whole[k..k + 1] == [a[k]];
    }
    var i := IndexOf(whole, "\n");
    if i < 0 || |a| < i {
      IndexOfIsFirst(whole, "\n", |a|);
    }
    assert whole[..i] == a && whole[i + 1..] == b;
    FreeOfNewline(b);
    assert Split(b, "\n") == [b];
  }

  /** Printable events: names without newlines, payloads that print and parse. */
  ghost predicate Printable<P>(codec: Codec<P>, events: seq<Event<P>>) {
    forall i :: 0 <= i < |events| ==> '\n' !in events[i].name && codec.Sound(events[i].data)
  }

  lemma PayloadOfLines<P>(codec: Codec<P>, name: string, data: P)
    requires '\n' !in name && codec.Sound(data)
    ensures Payload(codec, "event: " + name + "\n" + (DATA + codec.dump(data))) == [data]
  {
    var a, b := "event: " + name, DATA + codec.dump(data);
    FreeOfNewline(codec.dump(data));
    SplitTwo(a, b);
    assert a[0] == 'e' && !StartsWith(a, DATA);
    assert b[..|DATA|] == DATA && b[|DATA|..] == codec.dump(data);
    assert [a, b][1..] == [b];
    assert DataLine([b]) == Some(b);
  }

  lemma PayloadsOfSse<P>(codec: Codec<P>, e: Event<P>, more: string)
    requires '\n' !in e.name && codec.Sound(e.data)
    ensures Payloads(codec, Sse(codec, e) + more) == [e.data] + Payloads(codec, more)
    ensures Unfinished(Sse(codec, e) + more) == Unfinished(more)
  {
    var a, b := "event: " + e.name, DATA + codec.dump(e.data);
    FreeOfNewline(codec.dump(e.data));
    FirstGap(a, b, more);
    PayloadsOfFrame(codec, a + "\n" + b, more);
    PayloadOfLines(codec, e.name, e.data);
  }

  lemma PayloadsOfFrame<P>(codec: Codec<P>, frame: string, more: string)
    requires IndexOf(frame + BLANK_LINE + more, BLANK_LINE) == |frame|
    ensures Payloads(codec, frame + BLANK_LINE + more) == Payload(codec, frame) + Payloads(codec, more)
    ensures Unfinished(frame + BLANK_LINE + more) == Unfinished(more)
  {
    var whole := frame + BLANK_LINE + more;
    assert whole[..|frame|] == frame && whole[|frame| + 2..] == more;
    OneFrame(codec, frame, Frames(more));
  }

  /** The text of printed events holds exactly their payloads, in order, and nothing else. */
  lemma {:induction false} PrintedEvents<P>(codec: Codec<P>, events: seq<Event<P>>)
    requires Printable(codec, events)
    ensures Payloads(codec, SseAll(codec, events)) == DataOf(events) && Unfinished(SseAll(codec, events)) == ""
    decreases |events|
  {
    if events != [] {
      assert Printable(codec, events[1..]);
      PrintedEvents(codec, events[1..]);
      PayloadsOfSse(codec, events[0], SseAll(codec, events[1..]));
    }
  }

  /** End to end: whatever the pieces in which the printed bytes arrive, the client delivers exactly the payloads, in
      order. */
  lemma ClientUndoesServer<P>(codec: Codec<P>, events: seq<Event<P>>, pieces: seq<seq<Byte>>)
    requires Printable(codec, events) && Concat(pieces) == Utf8.Encode(SseAll(codec, events))
    ensures Payloads(codec, Utf8.Feed(Utf8.FRESH, Concat(pieces)).1) == DataOf(events)
  {
    if events != [] {
      assert Sse(codec, events[0])[0] == 'e';
      assert SseAll(codec, events)[0] == Sse(codec, events[0])[0];
    }
    Utf8.RoundTrip(false, SseAll(codec, events));
    PrintedEvents(codec, events);
  }

  // ----- JSON payloads -----

  /** `json.dumps` in its default layout, for objects. */
  const OBJECTS: Codec<seq<Json.Field>> := Codec(fs => Json.PrintObject(Json.Spaced, fs), t => Json.ReadObject(t))

  /** Every such object prints on one line and parses back. */
  lemma ObjectsAreSound(fs: seq<Json.Field>)
    ensures OBJECTS.Sound(fs)
  {
    Json.ReadPrintedObject(Json.Spaced, fs);
    Json.ObjectIsPrintable(Json.Spaced, fs);
    FreeOfNewline(Json.PrintObject(Json.Spaced, fs));
  }

  /** What the stream of a job sends: the job is missing; its snapshot; its end as the snapshot or the polling of the
      table saw it; a keep-alive with the clock reading; or what came in over the progress channel. */
  datatype Message =
    | Missing
    | Snapshot(id: string, sourceId: string, status: string, total: int, indexed: int, failed: int,
               startedAt: Option<string>, completedAt: Option<string>)
    | Ended(status: string)
    | Terminal(status: string, indexed: int, failed: int, total: int)
    | Ping(seconds: nat, fraction: Json.DigitString)
    | Forwarded(name: string, fields: seq<Json.Field>)

  function OrNull(s: Option<string>): Json.Value {
    if s.None? then Json.Null else Json.Text(s.value)
  }

  function EventOf(m: Message): Event<seq<Json.Field>> {
    match m
    case Missing => Event("error", [Json.Field("message", Json.Text("Job not found"))])
    case Snapshot(id, sourceId, status, total, indexed, failed, startedAt, completedAt) =>
      Event("snapshot", [
        Json.Field("id", Json.Text(id)), Json.Field("source_id", Json.Text(sourceId)),
        Json.Field("status", Json.Text(status)),
        Json.Field("total_docs", Json.Int(total)), Json.Field("indexed_docs", Json.Int(indexed)),
        Json.Field("failed_docs", Json.Int(failed)),
        Json.Field("started_at", OrNull(startedAt)), Json.Field("completed_at", OrNull(completedAt))])
    case Ended(status) => Event("terminal", [Json.Field("status", Json.Text(status))])
    case Terminal(status, indexed, failed, total) =>
      Event("terminal", [
        Json.Field("status", Json.Text(status)), Json.Field("indexed_docs", Json.Int(indexed)),
        Json.Field("failed_docs", Json.Int(failed)), Json.Field("total_docs", Json.Int(total))])
    case Ping(seconds, fraction) => Event("ping", [Json.Field("ts", Json.Number(false, seconds, fraction, None))])
    case Forwarded(name, fields) => Event(name, fields)
  }

  function EventsOf(ms: seq<Message>): (es: seq<Event<seq<Json.Field>>>)
    ensures |es| == |ms| && forall i :: 0 <= i < |ms| ==> es[i] == EventOf(ms[i])
  {
    seq(|ms|, i requires 0 <= i < |ms| => EventOf(ms[i]))
  }

  /** With nothing assumed of the payloads: in whatever pieces the bytes of a job's stream arrive, the client delivers
      exactly what the server sent, numbers and nulls included. */
  lemma JobStreamArrives(ms: seq<Message>, pieces: seq<seq<Byte>>)
    requires forall i :: 0 <= i < |ms| && ms[i].Forwarded? ==> '\n' !in ms[i].name
    ensures Concat(pieces) == Utf8.Encode(SseAll(OBJECTS, EventsOf(ms))) ==>
              Payloads(OBJECTS, Utf8.Feed(Utf8.FRESH, Concat(pieces)).1) == DataOf(EventsOf(ms))
  {
    var es := EventsOf(ms);
    forall i | 0 <= i < |es| ensures '\n' !in es[i].name && OBJECTS.Sound(es[i].data) {
      NameIsOneLine(ms[i]);
      ObjectsAreSound(es[i].data);
    }
    if Concat(pieces) == Utf8.Encode(SseAll(OBJECTS, es)) {
      ClientUndoesServer(OBJECTS, es, pieces);
    }
  }

  lemma NameIsOneLine(m: Message)
    requires m.Forwarded? ==> '\n' !in m.name
    ensures '\n' !in EventOf(m).name
  {
  }

  // ----- where live progress goes -----

  /** The channel the stream endpoint listens on, and the one the sync engine publishes to. */
  function StreamChannel(jobId: string): string {
    "kg:sync:" + ("progress:" + jobId)
  }

  function ProgressChannel(jobId: string): string {
    "kg:sync:" + (jobId + ":progress")
  }

  /** "progress", "progress:progress", and so on. */
  function Chain(k: nat): string {
    if k == 0 then "progress" else "progress:" + Chain(k - 1)
  }

  lemma {:induction false} ChainTurns(k: nat)
    ensures "progress:" + Chain(k) == Chain(k) + ":progress"
  {
    if k > 0 {
      ChainTurns(k - 1);
      assert "progress:" + (Chain(k - 1) + ":progress") == "progress:" + Chain(k - 1) + ":progress";
    }
  }

  lemma ShortTurn(id: string)
    requires "progress:" + id == id + ":progress" && |id| < 9
    ensures id == "progress"
  {
    var whole := "progress:" + id;
    assert whole[|id|] == ':' && whole[|id|] == "progress:"[|id|];
    assert |id| == 8;
    assert whole[..8] == id && whole[..8] == "progress:"[..8];
  }

  lemma LongTurn(id: string)
    requires "progress:" + id == id + ":progress" && |id| >= 9
    ensures id == "progress:" + id[9..] && "progress:" + id[9..] == id[9..] + ":progress"
  {
    var whole := "progress:" + id;
    assert whole[..9] == "progress:" && whole[..9] == id[..9];
    assert id == id[..9] + id[9..];
    assert whole[9..] == id && (id + ":progress")[9..] == id[9..] + ":progress";
  }

  lemma {:induction false} TurnIsChain(id: string)
    requires "progress:" + id == id + ":progress"
    ensures exists k: nat :: id == Chain(k)
    decreases |id|
  {
    if |id| < 9 {
      ShortTurn(id);
      assert id == Chain(0);
    } else {
      LongTurn(id);
      TurnIsChain(id[9..]);
      var k: nat :| id[9..] == Chain(k);
      assert id == Chain(k + 1);
    }
  }

  lemma ChainBegins(k: nat)
    ensures Chain(k) != "" && Chain(k)[0] == 'p'
  {
  }

  /** The two are the same channel for the ids "progress", "progress:progress" and so on, and for no others. Job ids are
      UUIDs: what the engine publishes is never what the endpoint forwards. */
  lemma ProgressIsNotStreamed(jobId: string)
    ensures StreamChannel(jobId) == ProgressChannel(jobId) <==> exists k: nat :: jobId == Chain(k)
    ensures jobId == "" || jobId[0] != 'p' ==> StreamChannel(jobId) != ProgressChannel(jobId)
  {
    if StreamChannel(jobId) == ProgressChannel(jobId) {
      assert StreamChannel(jobId)[8..] == "progress:" + jobId && ProgressChannel(jobId)[8..] == jobId + ":progress";
      TurnIsChain(jobId);
    }
    if k: nat :| jobId == Chain(k) {
      ChainTurns(k);
      ChainBegins(k);
    }
  }
}
