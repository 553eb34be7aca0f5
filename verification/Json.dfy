/** JSON (sections 2 to 7 of RFC 8259): `json.dumps` with its default of escaping everything but printable ASCII, and
    reading back what it prints. The printer comes first, then a reader that takes one value from the front of a text
    and gives back the rest, as `JSON.parse` and `json.loads` do inside; then that reading undoes printing, for values
    of any depth in either layout; and at last that what is printed is printable ASCII. */
module Json {
  import opened Wrappers
  import opened Decimals

  function HexDigit(v: int): char
    requires 0 <= v < 16
  {
    if v < 10 then (v + '0' as int) as char else (v - 10 + 'a' as int) as char
  }

  function HexValue(c: char): Option<int> {
    if '0' <= c <= '9' then Some(c as int - '0' as int)
    else if 'a' <= c <= 'f' then Some(c as int - 'a' as int + 10)
    else if 'A' <= c <= 'F' then Some(c as int - 'A' as int + 10)
    else None
  }

  /** Four hexadecimal digits. */
  function Hex4(n: int): string
    requires 0 <= n < 0x10000
  {
    var (n1, n2, n3) := (n / 16, n / 16 / 16, n / 16 / 16 / 16);
    [HexDigit(n3), HexDigit(n2 % 16), HexDigit(n1 % 16), HexDigit(n % 16)]
  }

  function ReadHex4(a: char, b: char, c: char, d: char): Option<int> {
    match (HexValue(a), HexValue(b), HexValue(c), HexValue(d))
    case (Some(p), Some(q), Some(r), Some(s)) => Some(p * 4096 + q * 256 + r * 16 + s)
    case _ => None
  }

  predicate Printable(c: char) {
    ' ' <= c <= '~'
  }

  function Unit(n: int): string
    requires 0 <= n < 0x10000
  {
    "\\u" + Hex4(n)
  }

  function Escape(c: char): string {
    var n := c as int;
    if c == '"' then "\\\""
    else if c == '\\' then "\\\\"
    else if c == '\n' then "\\n"
    else if c == '\r' then "\\r"
    else if c == '\t' then "\\t"
    else if n == 8 then "\\b"
    else if n == 12 then "\\f"
    else if Printable(c) then [c]
    else if n < 0x10000 then Unit(n)
    else Unit(0xD800 + (n - 0x10000) / 1024) + Unit(0xDC00 + (n - 0x10000) % 1024)
  }

  function EscapeAll(s: string): string {
    if s == "" then "" else Escape(s[0]) + EscapeAll(s[1..])
  }

  function Quote(s: string): string {
    "\"" + (EscapeAll(s) + "\"")
  }

  function ShortEscape(c: char): Option<char> {
    if c == '"' || c == '\\' || c == '/' then Some(c)
    else if c == 'n' then Some('\n')
    else if c == 'r' then Some('\r')
    else if c == 't' then Some('\t')
    else if c == 'b' then Some(8 as char)
    else if c == 'f' then Some(12 as char)
    else None
  }

  /** The number written as `\u` and four digits at position `k`. */
  function ReadUnit(t: string, k: nat): Option<int> {
    if k + 6 <= |t| && t[k] == '\\' && t[k + 1] == 'u' then ReadHex4(t[k + 2], t[k + 3], t[k + 4], t[k + 5]) else None
  }

  /** Two surrogates as one character. */
  function Combine(hi: int, lo: int): Option<char> {
    if 0xD800 <= hi < 0xDC00 && 0xDC00 <= lo < 0xE000 then
      Some((0x10000 + (hi - 0xD800) * 1024 + (lo - 0xDC00)) as char)
    else None
  }

  /** The character that a backslash sequence at the front of `t` stands for, and the length of the sequence. */
  function ReadEscape(t: string): (r: Option<(char, nat)>)
    requires t != "" && t[0] == '\\'
    ensures r.Some? ==> 2 <= r.value.1 <= |t|
  {
    if |t| < 2 then None
    else if t[1] != 'u' then
      var c := ShortEscape(t[1]);
      if c.Some? then Some((c.value, 2)) else None
    else
      var n := ReadUnit(t, 0);
      if n.None? || n.value < 0 || n.value > 0xFFFF then None
      else if !(0xD800 <= n.value < 0xE000) then Some((n.value as char, 6))
      else
        var m := ReadUnit(t, 6);
        var c := if m.Some? then Combine(n.value, m.value) else None;
        if c.Some? then Some((c.value, 12)) else None
  }

  /** Reads up to the closing quote: the text read and what follows the quote. */
  function ReadChars(t: string): (r: Option<(string, string)>)
    ensures r.Some? ==> |r.value.1| < |t|
    decreases |t|
  {
    if t == "" then None
    else if t[0] == '"' then Some(("", t[1..]))
    else if t[0] == '\\' then
      match ReadEscape(t)
      case None => None
      case Some((c, n)) => Prepend(c, ReadChars(t[n..]))
    else if t[0] < ' ' then None
    else Prepend(t[0], ReadChars(t[1..]))
  }

  function Prepend(c: char, r: Option<(string, string)>): Option<(string, string)> {
    match r
    case None => None
    case Some((s, rest)) => Some(([c] + s, rest))
  }

  function ReadString(t: string): (r: Option<(string, string)>)
    ensures r.Some? ==> |r.value.1| < |t|
  {
    if t != "" && t[0] == '"' then ReadChars(t[1..]) else None
  }

  lemma HexDigitRoundTrip(v: int)
    requires 0 <= v < 16
    ensures HexValue(HexDigit(v)) == Some(v)
  {
  }

  lemma HexRoundTrip(n: int)
    requires 0 <= n < 0x10000
    ensures var h := Hex4(n); ReadHex4(h[0], h[1], h[2], h[3]) == Some(n)
  {
    var n1, n2, n3 := n / 16, n / 16 / 16, n / 16 / 16 / 16;
    HexDigitRoundTrip(n3);
    HexDigitRoundTrip(n2 % 16);
    HexDigitRoundTrip(n1 % 16);
    HexDigitRoundTrip(n % 16);
  }

  ghost predicate AllPrintable(s: string) {
    forall i :: 0 <= i < |s| ==> Printable(s[i])
  }

  lemma PrintableConcat(a: string, b: string)
    requires AllPrintable(a) && AllPrintable(b)
    ensures AllPrintable(a + b)
  {
  }

  lemma UnitIsPrintable(n: int)
    requires 0 <= n < 0x10000
    ensures AllPrintable(Unit(n))
  {
    assert AllPrintable("\\u");
    assert AllPrintable(Hex4(n));
    PrintableConcat("\\u", Hex4(n));
  }

  lemma ReadUnitAt(t: string, k: nat, n: int)
    requires 0 <= n < 0x10000 && k + 6 <= |t| && t[k..k + 6] == Unit(n)
    ensures ReadUnit(t, k) == Some(n)
  {
    HexRoundTrip(n);
    var u := t[k..k + 6];
    assert u[0] == t[k] && u[1] == t[k + 1] && u[2] == t[k + 2];
    assert u[3] == t[k + 3] && u[4] == t[k + 4] && u[5] == t[k + 5];
  }

  lemma SurrogatesRoundTrip(c: char)
    requires c as int >= 0x10000
    ensures Combine(0xD800 + (c as int - 0x10000) / 1024, 0xDC00 + (c as int - 0x10000) % 1024) == Some(c)
  {
  }

  lemma ReadTwelve(t: string, c: char, hi: int, lo: int)
    requires c as int >= 0x10000 && hi == 0xD800 + (c as int - 0x10000) / 1024
    requires lo == 0xDC00 + (c as int - 0x10000) % 1024
    requires t != "" && t[0] == '\\' && ReadUnit(t, 0) == Some(hi) && ReadUnit(t, 6) == Some(lo)
    ensures ReadEscape(t) == Some((c, 12))
  {
    SurrogatesRoundTrip(c);
  }

  lemma ReadPair(c: char, t: string, hi: int, lo: int)
    requires c as int >= 0x10000 && hi == 0xD800 + (c as int - 0x10000) / 1024
    requires lo == 0xDC00 + (c as int - 0x10000) % 1024
    requires |t| >= 12 && t[..12] == Unit(hi) + Unit(lo)
    ensures t[0] == '\\' && ReadEscape(t) == Some((c, 12))
  {
    var e := Unit(hi) + Unit(lo);
    assert t[0] == e[0];
    assert t[0..6] == e[..6] == Unit(hi);
    assert t[6..12] == e[6..] == Unit(lo);
    ReadUnitAt(t, 0, hi);
    ReadUnitAt(t, 6, lo);
    ReadTwelve(t, c, hi, lo);
  }

  /** Everything but a printable character is written as a backslash sequence. */
  predicate Escaped(c: char) {
    c == '"' || c == '\\' || !Printable(c)
  }

  lemma ReadEscapeOf(c: char, t: string)
    requires Escaped(c) && |t| >= |Escape(c)| && t[..|Escape(c)|] == Escape(c)
    ensures t != "" && t[0] == '\\' && ReadEscape(t) == Some((c, |Escape(c)|))
  {
    var e, n := Escape(c), c as int;
    assert t[0] == e[0] && t[1] == e[1];
    if |e| == 6 {
      assert t[0..6] == e == Unit(n);
      ReadUnitAt(t, 0, n);
    } else if |e| == 12 {
      ReadPair(c, t, 0xD800 + (n - 0x10000) / 1024, 0xDC00 + (n - 0x10000) % 1024);
    }
  }

  /** Reading one escaped character gives it back. */
  lemma ReadEscaped(c: char, tail: string)
    ensures ReadChars(Escape(c) + tail) == Prepend(c, ReadChars(tail))
  {
    var e := Escape(c);
    var t := e + tail;
    assert t[|e|..] == tail && t[..|e|] == e && t[0] == e[0];
    if Escaped(c) {
      ReadEscapeOf(c, t);
    }
  }

  lemma {:induction false} ReadEscapedAll(s: string, rest: string)
    ensures ReadChars(EscapeAll(s) + ("\"" + rest)) == Some((s, rest))
  {
    if s == "" {
      assert EscapeAll(s) + ("\"" + rest) == "\"" + rest;
      assert ("\"" + rest)[1..] == rest;
    } else {
      ReadEscapedAll(s[1..], rest);
      ReadEscaped(s[0], EscapeAll(s[1..]) + ("\"" + rest));
      assert Escape(s[0]) + (EscapeAll(s[1..]) + ("\"" + rest)) == EscapeAll(s) + ("\"" + rest);
      assert [s[0]] + s[1..] == s;
    }
  }

  /** Every string survives quoting, whatever follows it. */
  lemma ReadQuoted(s: string, rest: string)
    ensures ReadString(Quote(s) + rest) == Some((s, rest))
  {
    ReadEscapedAll(s, rest);
    assert (Quote(s) + rest)[1..] == EscapeAll(s) + ("\"" + rest);
  }

  lemma PairIsPrintable(hi: int, lo: int)
    requires 0 <= hi < 0x10000 && 0 <= lo < 0x10000
    ensures AllPrintable(Unit(hi) + Unit(lo))
  {
    UnitIsPrintable(hi);
    UnitIsPrintable(lo);
    PrintableConcat(Unit(hi), Unit(lo));
  }

  lemma EscapeIsPrintable(c: char)
    ensures AllPrintable(Escape(c))
  {
    var n := c as int;
    if !Escaped(c) || ShortEscaped(c) {
      ShortIsPrintable(c);
    } else if n < 0x10000 {
      UnitIsPrintable(n);
    } else {
      PairIsPrintable(0xD800 + (n - 0x10000) / 1024, 0xDC00 + (n - 0x10000) % 1024);
    }
  }

  predicate ShortEscaped(c: char) {
    c == '"' || c == '\\' || c == '\n' || c == '\r' || c == '\t' || c as int == 8 || c as int == 12
  }

  lemma ShortIsPrintable(c: char)
    requires !Escaped(c) || ShortEscaped(c)
    ensures AllPrintable(Escape(c))
  {
  }

  lemma {:induction false} EscapedIsPrintable(s: string)
    ensures AllPrintable(EscapeAll(s))
  {
    if s != "" {
      EscapedIsPrintable(s[1..]);
      EscapeIsPrintable(s[0]);
      PrintableConcat(Escape(s[0]), EscapeAll(s[1..]));
    }
  }

  // ----- values -----

  type DigitString = s: string | AllDigits(s) witness ""

  type SomeDigits = s: string | s != "" && AllDigits(s) witness "0"

  /** The power of ten behind a number, with its digits as printed. */
  datatype Exponent = Exponent(negative: bool, digits: SomeDigits)

  /** A number is its sign, its whole part, the digits behind the point, none for an integer, and its exponent, if it is
      printed with one. */
  datatype Value =
    | Text(text: string)
    | Number(negative: bool, whole: nat, fraction: DigitString, exponent: Option<Exponent>)
    | Bool(flag: bool)
    | Null
    | List(items: seq<Value>)
    | Object(fields: seq<Field>)

  datatype Field = Field(name: string, value: Value)

  function Int(n: int): Value {
    Number(n < 0, if n < 0 then -n else n, "", None)
  }

  /** What `json.dumps` puts between a name and its value, and between fields or items. */
  datatype Style = Compact | Spaced {
    function Gap(): string {
      if Compact? then "" else " "
    }
  }

  function PrintExponent(exponent: Option<Exponent>): string {
    match exponent
    case None => ""
    case Some(Exponent(negative, digits)) => "e" + ((if negative then "-" else "+") + digits)
  }

  function PrintFraction(fraction: DigitString): string {
    if fraction == "" then "" else "." + fraction
  }

  function PrintUnsigned(whole: nat, fraction: DigitString, exponent: Option<Exponent>): string {
    Digits(whole) + (PrintFraction(fraction) + PrintExponent(exponent))
  }

  function PrintNumber(negative: bool, whole: nat, fraction: DigitString, exponent: Option<Exponent>): string {
    (if negative then "-" else "") + PrintUnsigned(whole, fraction, exponent)
  }

  function PrintValue(style: Style, v: Value): string
    decreases v
  {
    match v
    case Text(s) => Quote(s)
    case Number(negative, whole, fraction, exponent) => PrintNumber(negative, whole, fraction, exponent)
    case Bool(flag) => if flag then "true" else "false"
    case Null => "null"
    case List(items) => if items == [] then "[]" else "[" + PrintItems(style, items)
    case Object(fields) => if fields == [] then "{}" else "{" + PrintFields(style, fields)
  }

  /** The items and the closing bracket. */
  function PrintItems(style: Style, items: seq<Value>): string
    requires items != []
    decreases items
  {
    PrintValue(style, items[0])
    + (if |items| == 1 then "]" else "," + (style.Gap() + PrintItems(style, items[1..])))
  }

  function PrintField(style: Style, f: Field): string
    decreases f
  {
    Quote(f.name) + (":" + (style.Gap() + PrintValue(style, f.value)))
  }

  /** The fields and the closing brace. */
  function PrintFields(style: Style, fs: seq<Field>): string
    requires fs != []
    decreases fs
  {
    PrintField(style, fs[0]) + (if |fs| == 1 then "}" else "," + (style.Gap() + PrintFields(style, fs[1..])))
  }

  function PrintObject(style: Style, fs: seq<Field>): string {
    PrintValue(style, Object(fs))
  }

  // ----- reading numbers and words -----

  /** A whole part has no leading zero. */
  function WholeLength(t: string): (n: nat)
    ensures n <= |t| && AllDigits(t[..n])
  {
    if t != "" && t[0] == '0' then 1 else DigitRun(t)
  }

  predicate IsSign(t: string) {
    t != "" && (t[0] == '-' || t[0] == '+')
  }

  /** Reads an exponent, if there is one. */
  function ReadExponent(t: string): (r: Option<(Option<Exponent>, string)>)
    ensures r.Some? ==> |r.value.1| <= |t|
  {
    if t != "" && (t[0] == 'e' || t[0] == 'E') then
      var u := if IsSign(t[1..]) then t[2..] else t[1..];
      var n := DigitRun(u);
      if n == 0 then None else Some((Some(Exponent(t[1] == '-', u[..n])), u[n..]))
    else Some((None, t))
  }

  /** Reads the digits behind the point, if there is one. */
  function ReadFraction(t: string): (r: Option<(DigitString, string)>)
    ensures r.Some? ==> |r.value.1| <= |t|
  {
    if t != "" && t[0] == '.' then
      var n := DigitRun(t[1..]);
      if n == 0 then None else Some((t[1..][..n], t[1..][n..]))
    else Some(("", t))
  }

  function ReadUnsigned(negative: bool, t: string): (r: Option<(Value, string)>)
    ensures r.Some? ==> |r.value.1| < |t|
  {
    var n := WholeLength(t);
    if n == 0 then None
    else
      match ReadFraction(t[n..])
      case None => None
      case Some((fraction, rest)) =>
        match ReadExponent(rest)
        case None => None
        case Some((exponent, after)) => Some((Number(negative, ValueOf(t[..n]), fraction, exponent), after))
  }

  function ReadNumber(t: string): (r: Option<(Value, string)>)
    ensures r.Some? ==> |r.value.1| < |t|
  {
    if t != "" && t[0] == '-' then ReadUnsigned(true, t[1..]) else ReadUnsigned(false, t)
  }

  function ReadWord(t: string, word: string, v: Value): (r: Option<(Value, string)>)
    requires word != ""
    ensures r.Some? ==> |r.value.1| < |t|
  {
    if |word| <= |t| && t[..|word|] == word then Some((v, t[|word|..])) else None
  }

  // ----- reading lists and objects -----

  predicate IsBlank(c: char) {
    c == ' ' || c == '\t' || c == '\n' || c == '\r'
  }

  function SkipSpace(t: string): (r: string)
    ensures |r| <= |t|
    decreases |t|
  {
    if t != "" && IsBlank(t[0]) then SkipSpace(t[1..]) else t
  }

  /** What follows an item or a field: the end of the list or object, or a comma and more. */
  datatype Next = Done(rest: string) | More(next: string) | Malformed

  function ReadNext(t: string, close: char): (r: Next)
    ensures r.Done? ==> |r.rest| < |t|
    ensures r.More? ==> |r.next| < |t|
  {
    var u := SkipSpace(t);
    if u == "" then Malformed
    else if u[0] == close then Done(u[1..])
    else if u[0] == ',' then More(SkipSpace(u[1..]))
    else Malformed
  }

  function ReadValue(t: string): (r: Option<(Value, string)>)
    ensures r.Some? ==> |r.value.1| < |t|
    decreases |t|, 1
  {
    if t == "" then None
    else if t[0] == '-' || IsDigit(t[0]) then ReadNumber(t)
    else if t[0] == '"' then
      match ReadString(t)
      case None => None
      case Some((s, rest)) => Some((Text(s), rest))
    else if t[0] == 't' then ReadWord(t, "true", Bool(true))
    else if t[0] == 'f' then ReadWord(t, "false", Bool(false))
    else if t[0] == 'n' then ReadWord(t, "null", Null)
    else if t[0] == '[' then ReadList(SkipSpace(t[1..]))
    else if t[0] == '{' then ReadMembers(SkipSpace(t[1..]))
    else None
  }

  /** A list from behind its bracket. */
  function ReadList(t: string): (r: Option<(Value, string)>)
    ensures r.Some? ==> |r.value.1| < |t|
    decreases |t|, 3
  {
    if t != "" && t[0] == ']' then Some((List([]), t[1..]))
    else
      match ReadItems(t)
      case None => None
      case Some((items, rest)) => Some((List(items), rest))
  }

  function ReadItems(t: string): (r: Option<(seq<Value>, string)>)
    ensures r.Some? ==> |r.value.1| < |t|
    decreases |t|, 2
  {
    match ReadValue(t)
    case None => None
    case Some((v, rest)) =>
      match ReadNext(rest, ']')
      case Malformed => None
      case Done(after) => Some(([v], after))
      case More(next) =>
        match ReadItems(next)
        case None => None
        case Some((items, after)) => Some(([v] + items, after))
  }

  /** An object from behind its brace. */
  function ReadMembers(t: string): (r: Option<(Value, string)>)
    ensures r.Some? ==> |r.value.1| < |t|
    decreases |t|, 3
  {
    if t != "" && t[0] == '}' then Some((Object([]), t[1..]))
    else
      match ReadFields(t)
      case None => None
      case Some((fs, rest)) => Some((Object(fs), rest))
  }

  /** Steps over a colon, with whitespace around it. */
  function SkipColon(t: string): (r: Option<string>)
    ensures r.Some? ==> |r.value| < |t|
  {
    var u := SkipSpace(t);
    if u != "" && u[0] == ':' then Some(SkipSpace(u[1..])) else None
  }

  function ReadField(t: string): (r: Option<(Field, string)>)
    ensures r.Some? ==> |r.value.1| < |t|
    decreases |t|, 1
  {
    match ReadString(t)
    case None => None
    case Some((name, rest)) =>
      match SkipColon(rest)
      case None => None
      case Some(v) =>
        match ReadValue(v)
        case None => None
        case Some((value, after)) => Some((Field(name, value), after))
  }

  function ReadFields(t: string): (r: Option<(seq<Field>, string)>)
    ensures r.Some? ==> |r.value.1| < |t|
    decreases |t|, 2
  {
    match ReadField(t)
    case None => None
    case Some((f, rest)) =>
      match ReadNext(rest, '}')
      case Malformed => None
      case Done(after) => Some(([f], after))
      case More(next) =>
        match ReadFields(next)
        case None => None
        case Some((fs, after)) => Some(([f] + fs, after))
  }

  /** A text that holds one object and nothing else. */
  function ReadObject(t: string): Option<seq<Field>> {
    match ReadValue(SkipSpace(t))
    case None => None
    case Some((v, rest)) => if v.Object? && SkipSpace(rest) == "" then Some(v.fields) else None
  }

  /** The value of a name; a later field replaces an earlier one. */
  function Lookup(fs: seq<Field>, name: string): Option<Value> {
    if fs == [] then None
    else if fs[|fs| - 1].name == name then Some(fs[|fs| - 1].value)
    else Lookup(fs[..|fs| - 1], name)
  }

  // ----- reading what was printed -----

  /** What may follow a value. */
  predicate Follows(rest: string) {
    rest == "" || rest[0] == ',' || rest[0] == '}' || rest[0] == ']'
  }

  lemma ReadPrintedExponent(exponent: Option<Exponent>, rest: string)
    requires Follows(rest)
    ensures ReadExponent(PrintExponent(exponent) + rest) == Some((exponent, rest))
  {
    match exponent
    case None =>
      assert "" + rest == rest;
    case Some(Exponent(negative, digits)) =>
      var sign := if negative then "-" else "+";
      var t := PrintExponent(exponent) + rest;
      assert t == "e" + (sign + (digits + rest));
      assert t[1..] == sign + (digits + rest) && t[2..] == digits + rest;
      RunOfDigits(digits, rest);
  }

  lemma ReadPrintedFraction(fraction: DigitString, rest: string)
    requires rest == "" || !(IsDigit(rest[0]) || rest[0] == '.')
    ensures ReadFraction(PrintFraction(fraction) + rest) == Some((fraction, rest))
  {
    if fraction == "" {
      assert "" + rest == rest;
    } else {
      var t := "." + fraction + rest;
      assert t[0] == '.' && t[1..] == fraction + rest;
      RunOfDigits(fraction, rest);
    }
  }

  lemma WholeOfDigits(n: nat, rest: string)
    requires rest != "" ==> !IsDigit(rest[0])
    ensures WholeLength(Digits(n) + rest) == |Digits(n)|
    ensures (Digits(n) + rest)[..|Digits(n)|] == Digits(n) && (Digits(n) + rest)[|Digits(n)|..] == rest
  {
    RunOfDigits(Digits(n), rest);
    assert (Digits(n) + rest)[0] == Digits(n)[0];
  }

  lemma UnsignedParts(whole: nat, fraction: DigitString, exponent: Option<Exponent>, rest: string)
    ensures PrintUnsigned(whole, fraction, exponent) + rest
         == Digits(whole) + (PrintFraction(fraction) + (PrintExponent(exponent) + rest))
  {
  }

  /** Neither a digit nor a point. */
  lemma EndsDigits(exponent: Option<Exponent>, rest: string)
    requires Follows(rest)
    ensures var t := PrintExponent(exponent) + rest; t == "" || !(IsDigit(t[0]) || t[0] == '.')
  {
    if exponent.None? {
      assert "" + rest == rest;
    } else {
      assert (PrintExponent(exponent) + rest)[0] == 'e';
    }
  }

  lemma EndsWhole(fraction: DigitString, tail: string)
    requires tail == "" || !(IsDigit(tail[0]) || tail[0] == '.')
    ensures var t := PrintFraction(fraction) + tail; t == "" || !IsDigit(t[0])
  {
    if fraction == "" {
      assert "" + tail == tail;
    } else {
      assert (PrintFraction(fraction) + tail)[0] == '.';
    }
  }

  lemma ReadPrintedUnsigned(negative: bool, whole: nat, fraction: DigitString, exponent: Option<Exponent>, rest: string)
    requires Follows(rest)
    ensures ReadUnsigned(negative, PrintUnsigned(whole, fraction, exponent) + rest)
         == Some((Number(negative, whole, fraction, exponent), rest))
  {
    var tail := PrintExponent(exponent) + rest;
    UnsignedParts(whole, fraction, exponent, rest);
    EndsDigits(exponent, rest);
    EndsWhole(fraction, tail);
    WholeOfDigits(whole, PrintFraction(fraction) + tail);
    DigitsRoundTrip(whole);
    ReadPrintedFraction(fraction, tail);
    ReadPrintedExponent(exponent, rest);
  }

  /** What begins with a sign or a digit is read as a number. */
  lemma NumberAhead(t: string)
    requires t != "" && (t[0] == '-' || IsDigit(t[0]))
    ensures ReadValue(t) == ReadNumber(t)
  {
  }

  lemma ReadPrintedNumber(negative: bool, whole: nat, fraction: DigitString, exponent: Option<Exponent>, rest: string)
    requires Follows(rest)
    ensures ReadValue(PrintNumber(negative, whole, fraction, exponent) + rest)
         == Some((Number(negative, whole, fraction, exponent), rest))
  {
    var u := PrintUnsigned(whole, fraction, exponent) + rest;
    ReadPrintedUnsigned(negative, whole, fraction, exponent, rest);
    UnsignedParts(whole, fraction, exponent, rest);
    assert u[0] == Digits(whole)[0];
    ReadSigned(negative, u);
    SignAhead(negative, PrintUnsigned(whole, fraction, exponent), rest);
    NumberAhead(if negative then "-" + u else u);
  }

  lemma SignAhead(negative: bool, u: string, rest: string)
    ensures (if negative then "-" else "") + u + rest == if negative then "-" + (u + rest) else u + rest
  {
  }

  lemma ReadSigned(negative: bool, u: string)
    requires u != "" && IsDigit(u[0])
    ensures ReadNumber(if negative then "-" + u else u) == ReadUnsigned(negative, u)
  {
    assert ("-" + u)[1..] == u;
  }

  lemma ReadPrintedText(s: string, rest: string)
    ensures ReadValue(Quote(s) + rest) == Some((Text(s), rest))
  {
    ReadQuoted(s, rest);
  }

  lemma ReadPrintedWord(word: string, v: Value, rest: string)
    requires word != ""
    ensures ReadWord(word + rest, word, v) == Some((v, rest))
  {
    assert (word + rest)[..|word|] == word && (word + rest)[|word|..] == rest;
  }

  /** How the text of a value begins. */
  predicate Opens(t: string) {
    t != "" && !IsBlank(t[0]) && t[0] != ']' && t[0] != '}'
  }

  lemma ValueOpens(style: Style, v: Value)
    ensures Opens(PrintValue(style, v))
  {
    if v.Number? {
      NumberOpens(v.negative, v.whole, v.fraction, v.exponent);
    }
  }

  lemma NumberOpens(negative: bool, whole: nat, fraction: DigitString, exponent: Option<Exponent>)
    ensures Opens(PrintNumber(negative, whole, fraction, exponent))
  {
    var u := PrintUnsigned(whole, fraction, exponent);
    assert u[0] == Digits(whole)[0];
    assert PrintNumber(negative, whole, fraction, exponent)[0] == if negative then '-' else u[0];
  }

  lemma ItemsOpen(style: Style, items: seq<Value>)
    requires items != []
    ensures Opens(PrintItems(style, items))
  {
    ValueOpens(style, items[0]);
  }

  lemma FieldsOpen(style: Style, fs: seq<Field>)
    requires fs != []
    ensures Opens(PrintFields(style, fs))
  {
  }

  lemma SkipGap(style: Style, t: string)
    requires t != "" && !IsBlank(t[0])
    ensures SkipSpace(t) == t && SkipSpace(style.Gap() + t) == t
  {
    var u := style.Gap() + t;
    if style.Spaced? {
      assert u[0] == ' ' && u[1..] == t;
    } else {
      assert u == t;
    }
  }

  lemma NextIsDone(close: char, rest: string)
    requires !IsBlank(close)
    ensures ReadNext([close] + rest, close) == Done(rest)
  {
    assert ([close] + rest)[1..] == rest;
  }

  lemma NextIsMore(style: Style, close: char, next: string)
    requires close != ',' && Opens(next)
    ensures ReadNext("," + (style.Gap() + next), close) == More(next)
  {
    SkipGap(style, next);
    assert ("," + (style.Gap() + next))[1..] == style.Gap() + next;
  }

  lemma ItemsParts(style: Style, items: seq<Value>, rest: string)
    requires items != []
    ensures PrintItems(style, items) + rest
         == PrintValue(style, items[0]) + if |items| == 1 then "]" + rest
                                          else "," + (style.Gap() + (PrintItems(style, items[1..]) + rest))
  {
  }

  lemma FieldsParts(style: Style, fs: seq<Field>, rest: string)
    requires fs != []
    ensures PrintFields(style, fs) + rest
         == PrintField(style, fs[0]) + if |fs| == 1 then "}" + rest
                                       else "," + (style.Gap() + (PrintFields(style, fs[1..]) + rest))
  {
  }

  lemma LastItem(t: string, v: Value, rest: string)
    requires ReadValue(t) == Some((v, "]" + rest))
    ensures ReadItems(t) == Some(([v], rest))
  {
    NextIsDone(']', rest);
  }

  lemma FirstItem(style: Style, t: string, v: Value, next: string, items: seq<Value>, rest: string)
    requires Opens(next) && ReadValue(t) == Some((v, "," + (style.Gap() + next)))
    requires ReadItems(next) == Some((items, rest))
    ensures ReadItems(t) == Some(([v] + items, rest))
  {
    NextIsMore(style, ']', next);
  }

  lemma LastField(t: string, f: Field, rest: string)
    requires ReadField(t) == Some((f, "}" + rest))
    ensures ReadFields(t) == Some(([f], rest))
  {
    NextIsDone('}', rest);
  }

  lemma FirstField(style: Style, t: string, f: Field, next: string, fs: seq<Field>, rest: string)
    requires Opens(next) && ReadField(t) == Some((f, "," + (style.Gap() + next)))
    requires ReadFields(next) == Some((fs, rest))
    ensures ReadFields(t) == Some(([f] + fs, rest))
  {
    NextIsMore(style, '}', next);
  }

  lemma BracketAhead(body: string, items: seq<Value>, rest: string)
    requires Opens(body) && ReadItems(body) == Some((items, rest))
    ensures ReadValue("[" + body) == Some((List(items), rest))
  {
    SkipGap(Compact, body);
    assert ("[" + body)[1..] == body;
  }

  lemma BraceAhead(body: string, fs: seq<Field>, rest: string)
    requires Opens(body) && ReadFields(body) == Some((fs, rest))
    ensures ReadValue("{" + body) == Some((Object(fs), rest))
  {
    SkipGap(Compact, body);
    assert ("{" + body)[1..] == body;
  }

  lemma NothingInside(rest: string)
    ensures ReadValue("[]" + rest) == Some((List([]), rest)) && ReadValue("{}" + rest) == Some((Object([]), rest))
  {
    assert ("[]" + rest)[1..] == "]" + rest && ("]" + rest)[1..] == rest;
    assert ("{}" + rest)[1..] == "}" + rest && ("}" + rest)[1..] == rest;
  }

  lemma OpenedList(style: Style, items: seq<Value>, rest: string)
    requires items != [] ==> ReadItems(PrintItems(style, items) + rest) == Some((items, rest))
    ensures ReadValue(PrintValue(style, List(items)) + rest) == Some((List(items), rest))
  {
    if items == [] {
      NothingInside(rest);
    } else {
      var body := PrintItems(style, items);
      ItemsOpen(style, items);
      BracketAhead(body + rest, items, rest);
      assert "[" + body + rest == "[" + (body + rest);
    }
  }

  lemma OpenedObject(style: Style, fs: seq<Field>, rest: string)
    requires fs != [] ==> ReadFields(PrintFields(style, fs) + rest) == Some((fs, rest))
    ensures ReadValue(PrintValue(style, Object(fs)) + rest) == Some((Object(fs), rest))
  {
    if fs == [] {
      NothingInside(rest);
    } else {
      var body := PrintFields(style, fs);
      FieldsOpen(style, fs);
      BraceAhead(body + rest, fs, rest);
      assert "{" + body + rest == "{" + (body + rest);
    }
  }

  /** Every value survives printing in either style, in front of a comma or a closing mark or at the end. */
  lemma {:induction false} ReadPrintedValue(style: Style, v: Value, rest: string)
    requires Follows(rest)
    ensures ReadValue(PrintValue(style, v) + rest) == Some((v, rest))
    decreases v
  {
    match v
    case Text(s) => ReadPrintedText(s, rest);
    case Number(negative, whole, fraction, exponent) => ReadPrintedNumber(negative, whole, fraction, exponent, rest);
    case Bool(flag) => ReadPrintedWord(PrintValue(style, v), v, rest);
    case Null => ReadPrintedWord("null", v, rest);
    case List(items) =>
      if items != [] {
        ReadPrintedItems(style, items, rest);
      }
      OpenedList(style, items, rest);
    case Object(fs) =>
      if fs != [] {
        ReadPrintedFields(style, fs, rest);
      }
      OpenedObject(style, fs, rest);
  }

  lemma {:induction false} ReadPrintedItems(style: Style, items: seq<Value>, rest: string)
    requires items != []
    ensures ReadItems(PrintItems(style, items) + rest) == Some((items, rest))
    decreases items
  {
    if |items| == 1 {
      ReadPrintedValue(style, items[0], "]" + rest);
      ItemsParts(style, items, rest);
      LastItem(PrintItems(style, items) + rest, items[0], rest);
      assert items == [items[0]];
    } else {
      var next := PrintItems(style, items[1..]) + rest;
      ReadPrintedItems(style, items[1..], rest);
      ReadPrintedValue(style, items[0], "," + (style.Gap() + next));
      MoreItems(style, items, next, rest);
    }
  }

  lemma MoreItems(style: Style, items: seq<Value>, next: string, rest: string)
    requires |items| > 1 && next == PrintItems(style, items[1..]) + rest
    requires ReadItems(next) == Some((items[1..], rest))
    requires ReadValue(PrintValue(style, items[0]) + ("," + (style.Gap() + next)))
          == Some((items[0], "," + (style.Gap() + next)))
    ensures ReadItems(PrintItems(style, items) + rest) == Some((items, rest))
  {
    ItemsParts(style, items, rest);
    ItemsOpen(style, items[1..]);
    OpensBehind(PrintItems(style, items[1..]), rest);
    FirstItem(style, PrintItems(style, items) + rest, items[0], next, items[1..], rest);
    FirstAndRest(items);
  }

  lemma OpensBehind(t: string, rest: string)
    requires Opens(t)
    ensures Opens(t + rest)
  {
  }

  lemma FirstAndRest<T>(xs: seq<T>)
    requires xs != []
    ensures [xs[0]] + xs[1..] == xs
  {
  }

  lemma {:induction false} ReadPrintedField(style: Style, f: Field, rest: string)
    requires Follows(rest)
    ensures ReadField(PrintField(style, f) + rest) == Some((f, rest))
    decreases f
  {
    ReadPrintedValue(style, f.value, rest);
    FieldOfValue(style, f, PrintValue(style, f.value), rest);
  }

  lemma ColonIsSkipped(style: Style, v: string)
    requires Opens(v)
    ensures SkipColon(":" + (style.Gap() + v)) == Some(v)
  {
    SkipGap(style, v);
    assert (":" + (style.Gap() + v))[1..] == style.Gap() + v;
  }

  lemma FieldParts(style: Style, f: Field, rest: string)
    ensures PrintField(style, f) + rest
         == Quote(f.name) + (":" + (style.Gap() + (PrintValue(style, f.value) + rest)))
  {
  }

  lemma FieldOfParts(t: string, f: Field, colon: string, v: string, rest: string)
    requires ReadString(t) == Some((f.name, colon)) && SkipColon(colon) == Some(v)
    requires ReadValue(v) == Some((f.value, rest))
    ensures ReadField(t) == Some((f, rest))
  {
  }

  lemma FieldOfValue(style: Style, f: Field, value: string, rest: string)
    requires value == PrintValue(style, f.value) && ReadValue(value + rest) == Some((f.value, rest))
    ensures ReadField(PrintField(style, f) + rest) == Some((f, rest))
  {
    var v := value + rest;
    var colon := ":" + (style.Gap() + v);
    FieldParts(style, f, rest);
    ReadQuoted(f.name, colon);
    ValueOpens(style, f.value);
    ColonIsSkipped(style, v);
    FieldOfParts(PrintField(style, f) + rest, f, colon, v, rest);
  }

  lemma {:induction false} ReadPrintedFields(style: Style, fs: seq<Field>, rest: string)
    requires fs != []
    ensures ReadFields(PrintFields(style, fs) + rest) == Some((fs, rest))
    decreases fs
  {
    if |fs| == 1 {
      ReadPrintedField(style, fs[0], "}" + rest);
      FieldsParts(style, fs, rest);
      LastField(PrintFields(style, fs) + rest, fs[0], rest);
      assert fs == [fs[0]];
    } else {
      var next := PrintFields(style, fs[1..]) + rest;
      ReadPrintedFields(style, fs[1..], rest);
      ReadPrintedField(style, fs[0], "," + (style.Gap() + next));
      MoreFields(style, fs, next, rest);
    }
  }

  lemma MoreFields(style: Style, fs: seq<Field>, next: string, rest: string)
    requires |fs| > 1 && next == PrintFields(style, fs[1..]) + rest
    requires ReadFields(next) == Some((fs[1..], rest))
    requires ReadField(PrintField(style, fs[0]) + ("," + (style.Gap() + next)))
          == Some((fs[0], "," + (style.Gap() + next)))
    ensures ReadFields(PrintFields(style, fs) + rest) == Some((fs, rest))
  {
    FieldsParts(style, fs, rest);
    FieldsOpen(style, fs[1..]);
    OpensBehind(PrintFields(style, fs[1..]), rest);
    FirstField(style, PrintFields(style, fs) + rest, fs[0], next, fs[1..], rest);
    FirstAndRest(fs);
  }

  /** Every object survives printing, in either style. */
  lemma ReadPrintedObject(style: Style, fs: seq<Field>)
    ensures ReadObject(PrintObject(style, fs)) == Some(fs)
  {
    var t := PrintObject(style, fs);
    ReadPrintedValue(style, Object(fs), "");
    assert t + "" == t;
    assert t[0] == '{';
    SkipGap(style, t);
  }

  // ----- what is printed -----

  lemma QuoteIsPrintable(s: string)
    ensures AllPrintable(Quote(s))
  {
    EscapedIsPrintable(s);
    PrintableConcat(EscapeAll(s), "\"");
    PrintableConcat("\"", EscapeAll(s) + "\"");
  }

  lemma DigitsArePrintable(s: string)
    requires AllDigits(s)
    ensures AllPrintable(s)
  {
  }

  lemma ExponentIsPrintable(exponent: Option<Exponent>)
    ensures AllPrintable(PrintExponent(exponent))
  {
    if exponent.Some? {
      var e := exponent.value;
      DigitsArePrintable(e.digits);
      PrintableConcat(if e.negative then "-" else "+", e.digits);
      PrintableConcat("e", (if e.negative then "-" else "+") + e.digits);
    }
  }

  lemma FractionIsPrintable(fraction: DigitString)
    ensures AllPrintable(PrintFraction(fraction))
  {
    DigitsArePrintable(fraction);
    PrintableConcat(".", fraction);
  }

  lemma NumberIsPrintable(negative: bool, whole: nat, fraction: DigitString, exponent: Option<Exponent>)
    ensures AllPrintable(PrintNumber(negative, whole, fraction, exponent))
  {
    ExponentIsPrintable(exponent);
    FractionIsPrintable(fraction);
    DigitsArePrintable(Digits(whole));
    PrintableConcat(PrintFraction(fraction), PrintExponent(exponent));
    PrintableConcat(Digits(whole), PrintFraction(fraction) + PrintExponent(exponent));
    PrintableConcat(if negative then "-" else "", PrintUnsigned(whole, fraction, exponent));
  }

  lemma {:induction false} ValueIsPrintable(style: Style, v: Value)
    ensures AllPrintable(PrintValue(style, v))
    decreases v
  {
    match v
    case Text(s) => QuoteIsPrintable(s);
    case Number(negative, whole, fraction, exponent) => NumberIsPrintable(negative, whole, fraction, exponent);
    case List(items) =>
      if items != [] {
        ItemsArePrintable(style, items);
        PrintableConcat("[", PrintItems(style, items));
      }
    case Object(fs) =>
      if fs != [] {
        FieldsArePrintable(style, fs);
        PrintableConcat("{", PrintFields(style, fs));
      }
    case _ =>
  }

  lemma BehindGap(style: Style, mark: string, t: string)
    requires AllPrintable(mark) && AllPrintable(t)
    ensures AllPrintable(mark + (style.Gap() + t))
  {
    PrintableConcat(style.Gap(), t);
    PrintableConcat(mark, style.Gap() + t);
  }

  lemma {:induction false} ItemsArePrintable(style: Style, items: seq<Value>)
    requires items != []
    ensures AllPrintable(PrintItems(style, items))
    decreases items
  {
    ValueIsPrintable(style, items[0]);
    if |items| == 1 {
      PrintableConcat(PrintValue(style, items[0]), "]");
    } else {
      var next := PrintItems(style, items[1..]);
      ItemsArePrintable(style, items[1..]);
      BehindGap(style, ",", next);
      PrintableConcat(PrintValue(style, items[0]), "," + (style.Gap() + next));
    }
  }

  lemma {:induction false} FieldsArePrintable(style: Style, fs: seq<Field>)
    requires fs != []
    ensures AllPrintable(PrintFields(style, fs))
    decreases fs
  {
    var f := fs[0];
    QuoteIsPrintable(f.name);
    ValueIsPrintable(style, f.value);
    BehindGap(style, ":", PrintValue(style, f.value));
    PrintableConcat(Quote(f.name), ":" + (style.Gap() + PrintValue(style, f.value)));
    if |fs| == 1 {
      PrintableConcat(PrintField(style, f), "}");
    } else {
      var next := PrintFields(style, fs[1..]);
      FieldsArePrintable(style, fs[1..]);
      BehindGap(style, ",", next);
      PrintableConcat(PrintField(style, f), "," + (style.Gap() + next));
    }
  }

  /** What is printed is printable ASCII: no raw newline, and its UTF-8 form is one byte per character. */
  lemma ObjectIsPrintable(style: Style, fs: seq<Field>)
    ensures AllPrintable(PrintObject(style, fs))
  {
    ValueIsPrintable(style, Object(fs));
  }
}
