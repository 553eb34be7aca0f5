/** The opaque cursors of list pages: a small JSON object in unpadded URL-safe base64. A page cursor holds the timestamp
    and the id of a row, a role cursor a name and an id; what a handler makes of a text that is no cursor is in
    `DecodeCursor` and `DecodeRoleCursor`. */
module Cursors {
  import opened Wrappers
  import opened Json
  import Base64

  /** A cursor that is refused, and one whose fields have the wrong type, which no handler catches. */
  datatype CursorError = InvalidCursor | Uncaught

  /** How timestamps, counted in microseconds, are written and read: `isoformat` and `fromisoformat`. */
  datatype Clock = Clock(isoFormat: int -> string, fromIso: string -> Option<int>) {

    /** Reading undoes writing. */
    ghost predicate Sound()
    {
      forall t: int :: SoundFor(t)
    }

    ghost predicate SoundFor(t: int) {
      fromIso(isoFormat(t)) == Some(t)
    }
  }

  /** UTF-8 of text that is ASCII throughout: one byte per character. */
  function AsciiBytes(s: string): (b: seq<Byte>)
    requires AllPrintable(s)
    ensures |b| == |s| && forall i :: 0 <= i < |s| ==> b[i] == s[i] as int
  {
    seq(|s|, i requires 0 <= i < |s| => s[i] as int)
  }

  function AsciiText(b: seq<Byte>): Option<string> {
    if forall i :: 0 <= i < |b| ==> b[i] < 128 then Some(seq(|b|, i requires 0 <= i < |b| => b[i] as char)) else None
  }

  lemma AsciiRoundTrip(s: string)
    requires AllPrintable(s)
    ensures AsciiText(AsciiBytes(s)) == Some(s)
  {
    var b := AsciiBytes(s);
    var t := AsciiText(b);
    assert t.Some? && |t.value| == |s|;
    forall i | 0 <= i < |s| ensures t.value[i] == s[i] {
    }
    assert t.value == s;
  }

  /** The payload of a cursor in transport form, and back. */
  function Seal(fields: seq<Field>): string {
    ObjectIsPrintable(Compact, fields);
    Base64.EncodeUnpadded(AsciiBytes(PrintObject(Compact, fields)))
  }

  function Open(cursor: string): Option<seq<Field>> {
    var raw := Base64.DecodeUnpadded(cursor);
    if raw.None? then None
    else
      var text := AsciiText(raw.value);
      if text.None? then None else ReadObject(text.value)
  }

  lemma OpenSealed(fields: seq<Field>)
    ensures Open(Seal(fields)) == Some(fields)
  {
    ObjectIsPrintable(Compact, fields);
    var text := PrintObject(Compact, fields);
    Base64.UnpaddedRoundTrip(AsciiBytes(text));
    AsciiRoundTrip(text);
    ReadPrintedObject(Compact, fields);
  }

  function EncodeCursor(clock: Clock, createdAt: int, itemId: string): string {
    Seal([Field("ts", Text(clock.isoFormat(createdAt))), Field("id", Text(itemId))])
  }

  function DecodeCursor(clock: Clock, cursor: string): Result<(int, string), CursorError> {
    var fields := Open(cursor);
    if fields.None? then Err(InvalidCursor)
    else
      var ts, id := Lookup(fields.value, "ts"), Lookup(fields.value, "id");
      if ts.None? then Err(InvalidCursor)
      else if !ts.value.Text? then Err(Uncaught)
      else
        var createdAt := clock.fromIso(ts.value.text);
        if createdAt.None? || id.None? then Err(InvalidCursor)
        else if !id.value.Text? then Err(Uncaught)
        else Ok((createdAt.value, id.value.text))
  }

  function EncodeRoleCursor(name: string, itemId: string): string {
    Seal([Field("n", Text(name)), Field("id", Text(itemId))])
  }

  /** Python's `str` of a value that was read; fractions, lists and objects have none here. */
  function Str(v: Value): Option<string> {
    match v
    case Text(s) => Some(s)
    case Number(negative, whole, fraction, exponent) =>
      if fraction != "" || exponent.Some? then None else Some(PrintNumber(negative && whole > 0, whole, "", None))
    case Bool(flag) => Some(if flag then "True" else "False")
    case Null => Some("None")
    case _ => None
  }

  function DecodeRoleCursor(cursor: string): Result<(string, string), CursorError> {
    var fields := Open(cursor);
    if fields.None? then Err(InvalidCursor)
    else
      var name, id := Lookup(fields.value, "n"), Lookup(fields.value, "id");
      if name.None? || id.None? then Err(InvalidCursor)
      else
        var n, i := Str(name.value), Str(id.value);
        if n.None? || i.None? then Err(InvalidCursor) else Ok((n.value, i.value))
  }

  lemma LookupBoth(a: Field, b: Field)
    requires a.name != b.name
    ensures Lookup([a, b], a.name) == Some(a.value) && Lookup([a, b], b.name) == Some(b.value)
  {
    assert [a, b][..1] == [a];
    assert Lookup([a], a.name) == Some(a.value);
  }

  /** A cursor gives back the timestamp and the id it was made from, whatever characters the id holds. */
  lemma CursorRoundTrip(clock: Clock, createdAt: int, itemId: string)
    requires clock.SoundFor(createdAt)
    ensures DecodeCursor(clock, EncodeCursor(clock, createdAt, itemId)) == Ok((createdAt, itemId))
  {
    var ts, id := Field("ts", Text(clock.isoFormat(createdAt))), Field("id", Text(itemId));
    OpenSealed([ts, id]);
    LookupBoth(ts, id);
  }

  lemma CursorIsNotEmpty(clock: Clock, createdAt: int, itemId: string)
    ensures EncodeCursor(clock, createdAt, itemId) != ""
  {
    OpenSealed([Field("ts", Text(clock.isoFormat(createdAt))), Field("id", Text(itemId))]);
    assert Open("").None?;
  }

  lemma RoleCursorRoundTrip(name: string, itemId: string)
    ensures DecodeRoleCursor(EncodeRoleCursor(name, itemId)) == Ok((name, itemId))
  {
    var n, id := Field("n", Text(name)), Field("id", Text(itemId));
    OpenSealed([n, id]);
    LookupBoth(n, id);
  }

  /** A cursor is safe to put in a query string: symbols of the URL-safe alphabet only. */
  lemma CursorAlphabet(fields: seq<Field>)
    ensures forall i :: 0 <= i < |Seal(fields)| ==> Base64.InAlphabet(Seal(fields)[i])
  {
    ObjectIsPrintable(Compact, fields);
    Base64.UnpaddedRoundTrip(AsciiBytes(PrintObject(Compact, fields)));
  }
}
