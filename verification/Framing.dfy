/** Newline framing over a byte stream that arrives in arbitrary pieces, and the reason a JSON
    message never contains the delimiter.
*/
module Framing {
  import opened Records

  datatype Received = Message(text: string) | ConnectionClosed

  function Flatten(chunks: seq<string>): string {
    if |chunks| == 0 then "" else Flatten(chunks[..|chunks| - 1]) + chunks[|chunks| - 1]
  }

  lemma {:induction false} FlattenPrefix(chunks: seq<string>, i: nat)
    requires i <= |chunks|
    ensures Flatten(chunks[..i]) <= Flatten(chunks)
  {
    if i < |chunks| {
      FlattenPrefix(chunks[..|chunks| - 1], i);
      assert chunks[..|chunks| - 1][..i] == chunks[..i];
    } else {
      assert chunks[..i] == chunks;
    }
  }

  /** The text before the first newline. */
  function FirstLine(s: string): string
    requires '\n' in s
  {
    if s[0] == '\n' then "" else [s[0]] + FirstLine(s[1..])
  }

  lemma {:induction false} FirstLineOfPrefix(s: string, t: string)
    requires s <= t && '\n' in s
    ensures '\n' in t && FirstLine(t) == FirstLine(s)
  {
    assert t[0] == s[0];
    if s[0] != '\n' {
      assert s[1..] <= t[1..];
      FirstLineOfPrefix(s[1..], t[1..]);
    }
  }

  lemma {:induction false} FirstLineOfFrame(payload: string, tail: string)
    requires '\n' !in payload
    ensures '\n' in payload + "\n" + tail && FirstLine(payload + "\n" + tail) == payload
  {
    var s := payload + "\n" + tail;
    assert s[|payload|] == '\n';
    if |payload| > 0 {
      FirstLineOfFrame(payload[1..], tail);
      assert s[1..] == payload[1..] + "\n" + tail;
    }
  }

  /** The chunks that recv() returns before the end of the stream. */
  function BeforeEnd(chunks: seq<string>): seq<string> {
    if |chunks| == 0 || chunks[0] == "" then [] else [chunks[0]] + BeforeEnd(chunks[1..])
  }

  lemma {:induction false} BeforeEndShape(chunks: seq<string>)
    ensures BeforeEnd(chunks) <= chunks
    ensures forall i | 0 <= i < |BeforeEnd(chunks)| :: chunks[i] != ""
    ensures |BeforeEnd(chunks)| < |chunks| ==> chunks[|BeforeEnd(chunks)|] == ""
  {
    if |chunks| > 0 && chunks[0] != "" {
      BeforeEndShape(chunks[1..]);
    }
  }

  /** The receive loop over the results of successive recv() calls; after the last one, and from
      an empty one on, the stream has ended.  It delivers the first line of the stream, and
      fails exactly when the stream ends before a newline. */
  method ReceiveMessage(chunks: seq<string>) returns (r: Received)
    ensures r == var stream := Flatten(BeforeEnd(chunks));
                 if '\n' in stream then Message(FirstLine(stream)) else ConnectionClosed
  {
    ghost var live := BeforeEnd(chunks);
    BeforeEndShape(chunks);
    var buffer := "";
    var i := 0;
    while '\n' !in buffer
      invariant 0 <= i <= |live| && buffer == Flatten(live[..i])
      decreases |live| - i
    {
      var chunk := if i < |chunks| then chunks[i] else "";
      if chunk == "" {
        assert i == |live| && live[..i] == live;
        return ConnectionClosed;
      }
      assert i < |live| && live[..i + 1][..i] == live[..i];
      buffer := buffer + chunk;
      i := i + 1;
    }
    FlattenPrefix(live, i);
    FirstLineOfPrefix(buffer, Flatten(live));
    r := Message(FirstLine(buffer));
  }

  ghost predicate IsPiece(stream: string, start: nat, end: nat, chunk: string) {
    start < end <= |stream| && chunk == stream[start..end]
  }

  /** `chunks` are the pieces of `stream` between consecutive cuts, none of them empty. */
  ghost predicate Pieces(stream: string, cuts: seq<nat>, chunks: seq<string>) {
    && |cuts| == |chunks| + 1 && cuts[0] == 0 && cuts[|chunks|] == |stream|
    && forall i | 0 <= i < |chunks| :: IsPiece(stream, cuts[i], cuts[i + 1], chunks[i])
  }

  /** The pieces put together again are the stream. */
  lemma {:induction false} PiecesUpTo(stream: string, cuts: seq<nat>, chunks: seq<string>, n: nat)
    requires Pieces(stream, cuts, chunks) && n <= |chunks|
    ensures cuts[n] <= |stream| && Flatten(chunks[..n]) == stream[..cuts[n]]
  {
    if n > 0 {
      PiecesUpTo(stream, cuts, chunks, n - 1);
      assert chunks[..n][..n - 1] == chunks[..n - 1];
      assert IsPiece(stream, cuts[n - 1], cuts[n], chunks[n - 1]);
      assert stream[..cuts[n]] == stream[..cuts[n - 1]] + stream[cuts[n - 1]..cuts[n]];
    }
  }

  lemma PiecesMakeStream(stream: string, cuts: seq<nat>, chunks: seq<string>)
    requires Pieces(stream, cuts, chunks)
    ensures Flatten(chunks) == stream && forall i | 0 <= i < |chunks| :: chunks[i] != ""
  {
    PiecesUpTo(stream, cuts, chunks, |chunks|);
    assert chunks[..|chunks|] == chunks && stream[..|stream|] == stream;
    forall i | 0 <= i < |chunks| ensures chunks[i] != "" {
      assert IsPiece(stream, cuts[i], cuts[i + 1], chunks[i]);
    }
  }

  lemma {:induction false} BeforeEndOf(data: seq<string>, rest: seq<string>)
    requires (forall i | 0 <= i < |data| :: data[i] != "") && (|rest| > 0 ==> rest[0] == "")
    ensures BeforeEnd(data + rest) == data
  {
    if |data| > 0 {
      BeforeEndOf(data[1..], rest);
      assert (data + rest)[1..] == data[1..] + rest;
    } else {
      assert data + rest == rest;
    }
  }

  /** Receiving a stream that arrives in any pieces and then ends: a stream without a newline is an
      error, and of any other exactly what precedes its first newline is delivered. */
  method ReceivePieces(ghost stream: string, ghost cuts: seq<nat>, ghost data: seq<string>, ghost rest: seq<string>,
                       chunks: seq<string>)
    returns (r: Received)
    requires chunks == data + rest && Pieces(stream, cuts, data) && (|rest| > 0 ==> rest[0] == "")
    ensures '\n' !in stream ==> r == ConnectionClosed
    ensures forall payload: string, tail: string ::
              '\n' !in payload && stream == payload + "\n" + tail ==> r == Message(payload)
  {
    PiecesMakeStream(stream, cuts, data);
    BeforeEndOf(data, rest);
    r := ReceiveMessage(chunks);
    forall payload: string, tail: string | '\n' !in payload && stream == payload + "\n" + tail
      ensures r == Message(payload)
    {
      FirstLineOfFrame(payload, tail);
    }
  }

  /** Framing round trip: the first line of a newline-free payload with its delimiter is the payload,
      whatever follows it and wherever the stream is cut. */
  lemma RoundTrip(payload: string, tail: string, cuts: seq<nat>, chunks: seq<string>)
    requires '\n' !in payload && Pieces(payload + "\n" + tail, cuts, chunks)
    ensures '\n' in Flatten(chunks) && FirstLine(Flatten(chunks)) == payload
  {
    PiecesMakeStream(payload + "\n" + tail, cuts, chunks);
    FirstLineOfFrame(payload, tail);
  }

  /** What is sent is received. */
  method SendAndReceive(payload: string, tail: string, ghost cuts: seq<nat>, chunks: seq<string>) returns (r: Received)
    requires '\n' !in payload
    requires Pieces(payload + "\n" + tail, cuts, chunks)
    ensures r == Message(payload)
  {
    assert chunks == chunks + [];
    r := ReceivePieces(payload + "\n" + tail, cuts, chunks, [], chunks);
  }

  // ---------- JSON text ----------

  datatype Json =
    | JNull
    | JBool(b: bool)
    | JInt(n: int)
    | JFloat(f: Float)
    | JString(s: string)
    | JArray(items: seq<Json>)
    | JObject(fields: seq<Field>)

  datatype Field = Field(name: string, value: Json)

  /** A floating-point number by the shortest digits that stand for it, as repr() chooses them:
      sign, digits before and after the point, and an exponent if it is far from 1. */
  datatype Float =
    | Finite(negative: bool, whole: nat, fraction: seq<Digit>, exponent: Option<int>)
    | Infinite(negative: bool)
    | NotANumber

  type Digit = d: nat | d < 10

  /** From space to tilde: what json.dumps leaves unescaped. */
  ghost predicate Printable(s: string) {
    forall i | 0 <= i < |s| :: ' ' <= s[i] <= '~'
  }

  lemma PrintableConcat(s: string, t: string)
    requires Printable(s) && Printable(t)
    ensures Printable(s + t)
  {
  }

  const HEX := "0123456789abcdef"

  function Hex(n: nat, width: nat): (r: string)
    ensures |r| == width
  {
    if width == 0 then "" else Hex(n / 16, width - 1) + [HEX[n % 16]]
  }

  lemma {:induction false} HexPrintable(n: nat, width: nat)
    ensures Printable(Hex(n, width))
  {
    if width > 0 {
      HexPrintable(n / 16, width - 1);
      assert forall i | 0 <= i < 16 :: '0' <= HEX[i] <= 'f';
    }
  }

  function Escape(c: char): string {
    if c == '"' then "\\\""
    else if c == '\\' then "\\\\"
    else if c == '\n' then "\\n"
    else if c == '\r' then "\\r"
    else if c == '\t' then "\\t"
    else if c as int == 8 then "\\b"
    else if c as int == 12 then "\\f"
    else if ' ' <= c <= '~' then [c]
    else if (c as int) < 0x10000 then "\\u" + Hex(c as int, 4)
    else
      var v := c as int - 0x10000;  // a surrogate pair
      "\\u" + Hex(0xd800 + v / 0x400, 4) + "\\u" + Hex(0xdc00 + v % 0x400, 4)
  }

  function EscapeAll(s: string): string {
    if |s| == 0 then "" else Escape(s[0]) + EscapeAll(s[1..])
  }

  function Quoted(s: string): string {
    "\"" + EscapeAll(s) + "\""
  }

  function Decimal(n: nat): string {
    if n < 10 then [HEX[n]] else Decimal(n / 10) + [HEX[n % 10]]
  }

  function Digits(ds: seq<Digit>): string {
    if |ds| == 0 then "" else [HEX[ds[0]]] + Digits(ds[1..])
  }

  function Sign(negative: bool): string {
    if negative then "-" else ""
  }

  function Point(fraction: seq<Digit>): string {
    if |fraction| > 0 then "." + Digits(fraction) else ""
  }

  /** Always signed, at least two digits. */
  function Exponent(exponent: Option<int>): string {
    match exponent
    case None => ""
    case Some(e) =>
      var n := if e < 0 then -e else e;
      (if e < 0 then "e-" else "e+") + ((if n < 10 then "0" else "") + Decimal(n))
  }

  function DumpFloat(f: Float): string {
    match f
    case Finite(negative, whole, fraction, exponent) =>
      Sign(negative) + (Decimal(whole) + (Point(fraction) + Exponent(exponent)))
    case Infinite(negative) => Sign(negative) + "Infinity"
    case NotANumber => "NaN"
  }

  /** json.dumps with its default separators and ensure_ascii. */
  function Dumps(j: Json): string {
    match j
    case JNull => "null"
    case JBool(b) => if b then "true" else "false"
    case JInt(n) => if n < 0 then "-" + Decimal(-n) else Decimal(n)
    case JFloat(f) => DumpFloat(f)
    case JString(s) => Quoted(s)
    case JArray(items) => "[" + DumpItems(items) + "]"
    case JObject(fields) => "{" + DumpFields(fields) + "}"
  }

  function DumpItems(items: seq<Json>): string {
    if |items| == 0 then ""
    else if |items| == 1 then Dumps(items[0])
    else Dumps(items[0]) + ", " + DumpItems(items[1..])
  }

  function DumpFields(fields: seq<Field>): string {
    if |fields| == 0 then ""
    else
      var field := Quoted(fields[0].name) + ": " + Dumps(fields[0].value);
      if |fields| == 1 then field else field + ", " + DumpFields(fields[1..])
  }

  lemma UnicodeEscapePrintable(n: nat)
    ensures Printable("\\u" + Hex(n, 4))
  {
    HexPrintable(n, 4);
    PrintableConcat("\\u", Hex(n, 4));
  }

  lemma PairPrintable(c: char)
    requires c as int >= 0x10000
    ensures Printable(Escape(c))
  {
    var v := c as int - 0x10000;
    var high, low := "\\u" + Hex(0xd800 + v / 0x400, 4), "\\u" + Hex(0xdc00 + v % 0x400, 4);
    UnicodeEscapePrintable(0xd800 + v / 0x400);
    UnicodeEscapePrintable(0xdc00 + v % 0x400);
    PrintableConcat(high, low);
    assert Escape(c) == high + low;
  }

  lemma EscapePrintable(c: char)
    ensures Printable(Escape(c))
  {
    if c as int >= 0x10000 {
      PairPrintable(c);
    } else {
      UnicodeEscapePrintable(c as int);
    }
  }

  lemma {:induction false} QuotedPrintable(s: string)
    ensures Printable(EscapeAll(s)) && Printable(Quoted(s))
  {
    if |s| > 0 {
      EscapePrintable(s[0]);
      QuotedPrintable(s[1..]);
    }
  }

  lemma {:induction false} DecimalPrintable(n: nat)
    ensures Printable(Decimal(n))
  {
    assert forall i | 0 <= i < 10 :: '0' <= HEX[i] <= '9';
    if n >= 10 {
      DecimalPrintable(n / 10);
    }
  }

  lemma {:induction false} DigitsPrintable(ds: seq<Digit>)
    ensures Printable(Digits(ds))
  {
    if |ds| > 0 {
      DigitsPrintable(ds[1..]);
      assert forall i | 0 <= i < 10 :: '0' <= HEX[i] <= '9';
    }
  }

  lemma ExponentPrintable(exponent: Option<int>)
    ensures Printable(Exponent(exponent))
  {
    if exponent.Some? {
      var n := if exponent.value < 0 then -exponent.value else exponent.value;
      DecimalPrintable(n);
      PrintableConcat(if n < 10 then "0" else "", Decimal(n));
      PrintableConcat(if exponent.value < 0 then "e-" else "e+", (if n < 10 then "0" else "") + Decimal(n));
    }
  }

  lemma FinitePrintable(negative: bool, whole: nat, fraction: seq<Digit>, exponent: Option<int>)
    ensures Printable(DumpFloat(Finite(negative, whole, fraction, exponent)))
  {
    ExponentPrintable(exponent);
    DigitsPrintable(fraction);
    DecimalPrintable(whole);
    PrintableConcat(Point(fraction), Exponent(exponent));
    PrintableConcat(Decimal(whole), Point(fraction) + Exponent(exponent));
    PrintableConcat(Sign(negative), Decimal(whole) + (Point(fraction) + Exponent(exponent)));
  }

  lemma FloatPrintable(f: Float)
    ensures Printable(DumpFloat(f))
  {
    if f.Finite? {
      FinitePrintable(f.negative, f.whole, f.fraction, f.exponent);
    }
  }

  lemma PrintableBetween(open: string, s: string, close: string)
    requires Printable(open) && Printable(s) && Printable(close)
    ensures Printable(open + s + close)
  {
    PrintableConcat(open, s);
    PrintableConcat(open + s, close);
  }

  lemma {:induction false} DumpsPrintable(j: Json)
    ensures Printable(Dumps(j))
  {
    match j
    case JNull =>
    case JBool(_) =>
    case JInt(n) =>
      DecimalPrintable(if n < 0 then -n else n);
      PrintableConcat("-", Decimal(if n < 0 then -n else n));
    case JFloat(f) => FloatPrintable(f);
    case JString(s) => QuotedPrintable(s);
    case JArray(items) =>
      ItemsPrintable(items);
      PrintableBetween("[", DumpItems(items), "]");
    case JObject(fields) =>
      FieldsPrintable(fields);
      PrintableBetween("{", DumpFields(fields), "}");
  }

  lemma {:induction false} ItemsPrintable(items: seq<Json>)
    ensures Printable(DumpItems(items))
  {
    if |items| > 0 {
      DumpsPrintable(items[0]);
      ItemsPrintable(items[1..]);
      PrintableBetween(Dumps(items[0]), ", ", DumpItems(items[1..]));
    }
  }

  lemma {:induction false} FieldsPrintable(fields: seq<Field>)
    ensures Printable(DumpFields(fields))
  {
    if |fields| > 0 {
      QuotedPrintable(fields[0].name);
      DumpsPrintable(fields[0].value);
      FieldsPrintable(fields[1..]);
      PrintableBetween(Quoted(fields[0].name), ": ", Dumps(fields[0].value));
      PrintableBetween(Quoted(fields[0].name) + ": " + Dumps(fields[0].value), ", ", DumpFields(fields[1..]));
    }
  }

  // ---------- Reading escapes and digits back ----------

  function HexDigit(c: char): Option<nat> {
    if '0' <= c <= '9' then Some(c as int - '0' as int)
    else if 'a' <= c <= 'f' then Some(c as int - 'a' as int + 10)
    else None
  }

  function HexValue(s: string): Option<nat> {
    if |s| == 0 then Some(0)
    else
      match (HexValue(s[..|s| - 1]), HexDigit(s[|s| - 1]))
      case (Some(v), Some(d)) => Some(16 * v + d)
      case _ => None
  }

  lemma {:induction false} HexReadsBack(n: nat, width: nat)
    requires n < Power16(width)
    ensures HexValue(Hex(n, width)) == Some(n)
  {
    if width > 0 {
      HexReadsBack(n / 16, width - 1);
      var s := Hex(n, width);
      assert s[..|s| - 1] == Hex(n / 16, width - 1);
      DigitReadsBack(n % 16);
    }
  }

  function Power16(width: nat): (p: nat)
    ensures p > 0
  {
    if width == 0 then 1 else 16 * Power16(width - 1)
  }

  lemma DigitReadsBack(d: nat)
    requires d < 16
    ensures HexDigit(HEX[d]) == Some(d)
  {
    var digits := "0123456789abcdef";
    assert HEX == digits;
  }

  function Unescaped(c: char): Option<char> {
    match c
    case '"' => Some('"')
    case '\\' => Some('\\')
    case '/' => Some('/')
    case 'n' => Some('\n')
    case 'r' => Some('\r')
    case 't' => Some('\t')
    case 'b' => Some(8 as char)
    case 'f' => Some(12 as char)
    case _ => None
  }

  function Prepend(c: char, rest: Option<string>): Option<string> {
    if rest.Some? then Some([c] + rest.value) else None
  }

  /** The code unit of a six-character escape. */
  function CodeUnit(s: string): Option<nat> {
    if |s| >= 6 && s[..2] == "\\u" then HexValue(s[2..6]) else None
  }

  /** What a JSON string body stands for, as in section 7 of RFC 8259; None if it is malformed. */
  function Unescape(s: string): Option<string> {
    if |s| == 0 then Some("")
    else if s[0] == '"' then None
    else if s[0] != '\\' then Prepend(s[0], Unescape(s[1..]))
    else if CodeUnit(s).Some? then
      var u := CodeUnit(s).value;
      if u < 0xd800 || 0xe000 <= u < 0x10000 then Prepend(u as char, Unescape(s[6..]))
      else if u < 0xdc00 && CodeUnit(s[6..]).Some? && 0xdc00 <= CodeUnit(s[6..]).value < 0xe000 then
        Prepend((0x10000 + 0x400 * (u - 0xd800) + (CodeUnit(s[6..]).value - 0xdc00)) as char, Unescape(s[12..]))
      else None
    else if |s| >= 2 && Unescaped(s[1]).Some? then Prepend(Unescaped(s[1]).value, Unescape(s[2..]))
    else None
  }

  lemma SixCharacters(hex: string, rest: string)
    requires |hex| == 4
    ensures var s := "\\u" + hex + rest;
            |s| == 6 + |rest| && s[..2] == "\\u" && s[2..6] == hex && s[6..] == rest
  {
  }

  lemma UnitReadsBack(n: nat, rest: string)
    requires n < 0x10000
    ensures CodeUnit("\\u" + Hex(n, 4) + rest) == Some(n)
    ensures ("\\u" + Hex(n, 4) + rest)[6..] == rest
  {
    SixCharacters(Hex(n, 4), rest);
    FourDigits();
    HexReadsBack(n, 4);
  }

  lemma FourDigits()
    ensures Power16(4) == 0x10000
  {
    assert Power16(1) == 16 && Power16(2) == 256 && Power16(3) == 4096;
  }

  lemma EscapeReadsBack(c: char, rest: string)
    ensures Unescape(Escape(c) + rest) == Prepend(c, Unescape(rest))
  {
    var s := Escape(c) + rest;
    if ' ' <= c <= '~' && c != '"' && c != '\\' {
      assert s[1..] == rest;
    } else if c as int >= 0x10000 {
      PairReadsBack(c, rest);
    } else if Escape(c)[1] == 'u' {
      UnitReadsBack(c as int, rest);
    } else {
      assert s[2..] == rest;
    }
  }

  lemma PairReadsBack(c: char, rest: string)
    requires c as int >= 0x10000
    ensures Unescape(Escape(c) + rest) == Prepend(c, Unescape(rest))
  {
    var v := c as int - 0x10000;
    var high, low := 0xd800 + v / 0x400, 0xdc00 + v % 0x400;
    var tail := "\\u" + Hex(low, 4) + rest;
    assert Escape(c) + rest == "\\u" + Hex(high, 4) + tail;
    UnitReadsBack(high, tail);
    UnitReadsBack(low, rest);
    assert (Escape(c) + rest)[12..] == rest;
  }

  /** The escaped text of a string stands for that string. */
  lemma {:induction false} EscapeRoundTrip(s: string)
    ensures Unescape(EscapeAll(s)) == Some(s)
  {
    if |s| > 0 {
      EscapeRoundTrip(s[1..]);
      EscapeReadsBack(s[0], EscapeAll(s[1..]));
      assert s == [s[0]] + s[1..];
    }
  }

  function DecimalValue(s: string): Option<nat> {
    if |s| == 0 then Some(0)
    else
      match (DecimalValue(s[..|s| - 1]), HexDigit(s[|s| - 1]))
      case (Some(v), Some(d)) => if d < 10 then Some(10 * v + d) else None
      case _ => None
  }

  /** The digits of a number stand for that number. */
  lemma {:induction false} DecimalRoundTrip(n: nat)
    ensures DecimalValue(Decimal(n)) == Some(n)
  {
    DigitReadsBack(n % 10);
    if n >= 10 {
      DecimalRoundTrip(n / 10);
      var s := Decimal(n);
      assert s[..|s| - 1] == Decimal(n / 10);
    } else {
      assert Decimal(n)[..0] == "";
    }
  }

  /** Every JSON message, whatever control or non-ASCII characters its strings hold, is printable
      ASCII and so free of the delimiter: it survives framing. */
  method JsonSurvivesFraming(message: Json, tail: string, ghost cuts: seq<nat>, chunks: seq<string>)
    returns (r: Received)
    requires Pieces(Dumps(message) + "\n" + tail, cuts, chunks)
    ensures r == Message(Dumps(message))
  {
    DumpsPrintable(message);
    r := SendAndReceive(Dumps(message), tail, cuts, chunks);
  }
}
