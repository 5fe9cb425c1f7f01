/**
  Length-prefixed messages on a language server's pipes (LSP 3.17, section "Base Protocol"):
  writing a message, and reading one from a stream of bytes.
 */
module LspFraming {
  import opened Basics
  import Utf8

  const MAX_MESSAGE: nat := 8 * 1024 * 1024
  const MAX_HEADERS: nat := 16 * 1024
  const USIZE_MAX: nat := 0xFFFF_FFFF_FFFF_FFFF

  const CR: byte := 13
  const LF: byte := 10
  const COLON: byte := 58
  const SPACE: byte := 32

  /** "Content-Length" */
  const CONTENT_LENGTH: Bytes := [67, 111, 110, 116, 101, 110, 116, 45, 76, 101, 110, 103, 116, 104]

  datatype FrameError =
    | Closed | NotText | HeadersTooLong | DuplicateLength | BadLength | MissingLength | MessageTooLong | Cut

  // ---- Decimal numbers --------------------------------------------------------------------

  predicate IsDigit(b: byte) {
    48 <= b <= 57
  }

  function Decimal(n: nat): (s: Bytes)
    ensures s != [] && forall b | b in s :: IsDigit(b)
  {
    if n < 10 then [(48 + n) as byte] else Decimal(n / 10) + [(48 + n % 10) as byte]
  }

  /** Digits read from the left; `None` on anything else and on overflow. */
  function ParseDigits(s: Bytes): Option<nat> {
    if s == [] then Some(0)
    else
      match ParseDigits(s[..|s| - 1])
      case None => None
      case Some(high) =>
        var b := s[|s| - 1];
        if !IsDigit(b) then None
        else if high * 10 + (b as nat - 48) > USIZE_MAX then None
        else Some(high * 10 + (b as nat - 48))
  }

  /** `str::parse::<usize>`: digits, after at most one plus sign. */
  function ParseUsize(s: Bytes): Option<nat> {
    var digits := if s != [] && s[0] == 43 then s[1..] else s;
    if digits == [] then None else ParseDigits(digits)
  }

  lemma {:induction false} DecimalRoundTrip(n: nat)
    requires n <= USIZE_MAX
    ensures ParseDigits(Decimal(n)) == Some(n)
  {
    var s := Decimal(n);
    if n < 10 {
      assert s[..|s| - 1] == [];
    } else {
      DecimalRoundTrip(n / 10);
      assert s[..|s| - 1] == Decimal(n / 10);
    }
  }

  lemma ParsesBack(n: nat)
    requires n <= USIZE_MAX
    ensures ParseUsize(Decimal(n)) == Some(n)
  {
    DecimalRoundTrip(n);
    assert Decimal(n)[0] in Decimal(n);
  }

  // ---- Lines ------------------------------------------------------------------------------

  predicate IsSpace(b: byte) {
    9 <= b <= 13 || b == SPACE
  }

  function TrimStart(s: Bytes): Bytes {
    if s != [] && IsSpace(s[0]) then TrimStart(s[1..]) else s
  }

  function TrimEnd(s: Bytes): Bytes {
    if s != [] && IsSpace(s[|s| - 1]) then TrimEnd(s[..|s| - 1]) else s
  }

  function Trim(s: Bytes): Bytes {
    TrimEnd(TrimStart(s))
  }

  function TrimLineEnd(s: Bytes): Bytes {
    if s != [] && (s[|s| - 1] == CR || s[|s| - 1] == LF) then TrimLineEnd(s[..|s| - 1]) else s
  }

  /** Length of the first line with its line feed; everything if there is none. */
  function LineLength(s: Bytes): (n: nat)
    ensures n <= |s| && (s != [] ==> n > 0)
  {
    if s == [] then 0 else if s[0] == LF then 1 else 1 + LineLength(s[1..])
  }

  function ColonAt(s: Bytes): Option<nat> {
    if s == [] then None
    else if s[0] == COLON then Some(0)
    else match ColonAt(s[1..]) case None => None case Some(i) => Some(i + 1)
  }

  lemma {:induction false} ColonInside(s: Bytes)
    ensures ColonAt(s).Some? ==> ColonAt(s).value < |s|
  {
    if s != [] {
      ColonInside(s[1..]);
    }
  }

  function Lower(b: byte): byte {
    if 65 <= b <= 90 then b + 32 else b
  }

  predicate IsContentLength(name: Bytes) {
    |name| == |CONTENT_LENGTH| && forall i | 0 <= i < |name| :: Lower(name[i]) == Lower(CONTENT_LENGTH[i])
  }

  // ---- One message ------------------------------------------------------------------------

  /** What one header line does to the length known so far. */
  function Header(line: Bytes, length: Option<nat>): Result<Option<nat>, FrameError> {
    match ColonAt(line)
    case None => Ok(length)
    case Some(i) =>
      ColonInside(line);
      if !IsContentLength(Trim(line[..i])) then Ok(length)
      else if length.Some? then Err(DuplicateLength)
      else
        match ParseUsize(Trim(line[i + 1..]))
        case None => Err(BadLength)
        case Some(n) => Ok(Some(n))
  }

  datatype Headers = Headers(length: Option<nat>, rest: Bytes)

  /** The header lines of one message, up to the empty one; `used` bytes were read before. */
  function ReadHeaders(s: Bytes, length: Option<nat>, used: nat): Result<Headers, FrameError>
    decreases |s|
  {
    if s == [] then Err(Closed)
    else
      var n := LineLength(s);
      if !Utf8.ValidUtf8(s[..n]) then Err(NotText)
      else if used + n > MAX_HEADERS then Err(HeadersTooLong)
      else
        var line := TrimLineEnd(s[..n]);
        if line == [] then Ok(Headers(length, s[n..]))
        else
          match Header(line, length)
          case Err(e) => Err(e)
          case Ok(length') => ReadHeaders(s[n..], length', used + n)
  }

  lemma NoHeaders()
    ensures forall length, used :: ReadHeaders([], length, used) == Err(Closed)
  {
  }

  /** Reading headers one line at a time. */
  lemma OneLine(s: Bytes, length: Option<nat>, used: nat)
    requires s != []
    ensures var n := LineLength(s);
            var r := ReadHeaders(s, length, used);
            if !Utf8.ValidUtf8(s[..n]) then r == Err(NotText)
            else if used + n > MAX_HEADERS then r == Err(HeadersTooLong)
            else if TrimLineEnd(s[..n]) == [] then r == Ok(Headers(length, s[n..]))
            else
              match Header(TrimLineEnd(s[..n]), length)
              case Err(e) => r == Err(e)
              case Ok(length') => r == ReadHeaders(s[n..], length', used + n)
  {
    hide LineLength, TrimLineEnd, Header, Utf8.ValidUtf8;
  }

  datatype Message = Message(body: Bytes, rest: Bytes)

  function AfterHeaders(h: Headers): Result<Message, FrameError> {
    if h.length.None? then Err(MissingLength)
    else
      var n := h.length.value;
      if n > MAX_MESSAGE then Err(MessageTooLong)
      else if n > |h.rest| then Err(Cut)
      else Ok(Message(h.rest[..n], h.rest[n..]))
  }

  /** One message off the front of a stream. */
  function Read(s: Bytes): Result<Message, FrameError> {
    match ReadHeaders(s, None, 0)
    case Err(e) => Err(e)
    case Ok(h) => AfterHeaders(h)
  }

  /** `send`'s bytes for one body. */
  function Frame(body: Bytes): Bytes {
    CONTENT_LENGTH + [COLON, SPACE] + Decimal(|body|) + [CR, LF, CR, LF] + body
  }

  /** A server's output: the bytes not read yet. */
  class Pipe {
    var stream: Bytes

    constructor (stream: Bytes)
      ensures this.stream == stream
    {
      this.stream := stream;
    }

    /** `send`. */
    method Send(body: Bytes) returns (ok: bool)
      modifies this
      ensures ok <==> |body| <= MAX_MESSAGE
      ensures stream == if ok then old(stream) + Frame(body) else old(stream)
    {
      if |body| > MAX_MESSAGE {
        return false;
      }
      stream := stream + (CONTENT_LENGTH + [COLON, SPACE] + Decimal(|body|) + [CR, LF, CR, LF]);
      stream := stream + body;
      return true;
    }

    /** `read_lsp_message`, up to parsing the body. */
    method ReadMessage() returns (r: Result<Bytes, FrameError>)
      modifies this
      ensures match Read(old(stream))
              case Ok(m) => r == Ok(m.body) && stream == m.rest
              case Err(e) => r == Err(e)
    {
      hide Header, TrimLineEnd, LineLength, ReadHeaders, Utf8.ValidUtf8;
      var contentLength: Option<nat> := None;
      var headerBytes := 0;
      while true
        invariant ReadHeaders(old(stream), None, 0) == ReadHeaders(stream, contentLength, headerBytes)
        decreases |stream|
      {
        if stream == [] {
          NoHeaders();
          return Err(Closed);
        }
        OneLine(stream, contentLength, headerBytes);
        var read := LineLength(stream);
        var line := stream[..read];
        if !Utf8.ValidUtf8(line) {
          return Err(NotText);
        }
        ghost var before := stream;
        stream := stream[read..];
        headerBytes := headerBytes + read;
        if headerBytes > MAX_HEADERS {
          return Err(HeadersTooLong);
        }
        var trimmed := TrimLineEnd(line);
        if trimmed == [] {
          break;
        }
        match Header(trimmed, contentLength) {
          case Err(e) => return Err(e);
          case Ok(length) => contentLength := length;
        }
      }
      if contentLength.None? {
        return Err(MissingLength);
      }
      var length := contentLength.value;
      if length > MAX_MESSAGE {
        return Err(MessageTooLong);
      }
      if length > |stream| {
        return Err(Cut);
      }
      r := Ok(stream[..length]);
      stream := stream[length..];
    }
  }

  // ---- Round trips ------------------------------------------------------------------------

  lemma {:induction false} LineLengthSkips(prefix: Bytes, rest: Bytes)
    requires LF !in prefix
    ensures LineLength(prefix + [LF] + rest) == |prefix| + 1
  {
    var s := prefix + [LF] + rest;
    if prefix != [] {
      assert s[1..] == prefix[1..] + [LF] + rest;
      LineLengthSkips(prefix[1..], rest);
    }
  }

  lemma {:induction false} AsciiIsText(s: Bytes)
    requires forall b | b in s :: b < 0x80
    ensures Utf8.ValidUtf8(s)
  {
    if s != [] {
      assert s[0] in s;
      assert forall b | b in s[1..] :: b in s;
      AsciiIsText(s[1..]);
    }
  }

  lemma {:induction false} FirstColon(prefix: Bytes, rest: Bytes)
    requires COLON !in prefix
    ensures ColonAt(prefix + [COLON] + rest) == Some(|prefix|)
  {
    var s := prefix + [COLON] + rest;
    if prefix != [] {
      assert s[1..] == prefix[1..] + [COLON] + rest;
      FirstColon(prefix[1..], rest);
    }
  }

  lemma TrimmedAlready(s: Bytes)
    requires s != [] && !IsSpace(s[0]) && !IsSpace(s[|s| - 1])
    ensures Trim(s) == s && Trim([SPACE] + s) == s
  {
    assert ([SPACE] + s)[1..] == s;
  }

  /** A header line: a field, or anything without a colon. */
  datatype Field = Field(name: Bytes, value: Bytes) | Bare(text: Bytes)

  /** ASCII on one line, and no white space or colon in the name of a field. */
  predicate Plain(f: Field) {
    match f
    case Field(name, value) =>
      && name != []
      && (forall b | b in name :: b < 0x80 && !IsSpace(b) && b != COLON)
      && (forall b | b in value :: b < 0x80 && b != CR && b != LF)
    case Bare(text) => text != [] && forall b | b in text :: b < 0x80 && b != CR && b != LF && b != COLON
  }

  function Line(f: Field): Bytes {
    match f
    case Field(name, value) => name + [COLON, SPACE] + value
    case Bare(text) => text
  }

  function Lowered(s: Bytes): Bytes {
    seq(|s|, i requires 0 <= i < |s| => Lower(s[i]))
  }

  /** Whatever its case. */
  predicate NamesLength(f: Field) {
    f.Field? && Lowered(f.name) == Lowered(CONTENT_LENGTH)
  }

  lemma NamesLengthIff(f: Field)
    requires f.Field?
    ensures NamesLength(f) <==> IsContentLength(f.name)
  {
    if NamesLength(f) {
      assert |Lowered(f.name)| == |f.name| && |Lowered(CONTENT_LENGTH)| == |CONTENT_LENGTH|;
      forall i | 0 <= i < |f.name|
        ensures Lower(f.name[i]) == Lower(CONTENT_LENGTH[i])
      {
        assert Lowered(f.name)[i] == Lowered(CONTENT_LENGTH)[i];
      }
    }
  }

  /** What a field says: nothing unless it is the length, and that may be said once. */
  lemma HeaderOfField(f: Field, length: Option<nat>)
    requires Plain(f)
    ensures !NamesLength(f) ==> Header(Line(f), length) == Ok(length)
    ensures NamesLength(f) && length.Some? ==> Header(Line(f), length) == Err(DuplicateLength)
    ensures NamesLength(f) && length.None? ==>
              forall n: nat | n <= USIZE_MAX && f.value == Decimal(n) :: Header(Line(f), length) == Ok(Some(n))
  {
    if f.Field? {
      HeaderOfPair(f, length);
    } else {
      NoColon(f.text);
    }
  }

  lemma {:induction false} NoColon(text: Bytes)
    requires COLON !in text
    ensures ColonAt(text) == None
  {
    if text != [] {
      NoColon(text[1..]);
    }
  }

  lemma HeaderOfPair(f: Field, length: Option<nat>)
    requires Plain(f) && f.Field?
    ensures !NamesLength(f) ==> Header(Line(f), length) == Ok(length)
    ensures NamesLength(f) && length.Some? ==> Header(Line(f), length) == Err(DuplicateLength)
    ensures NamesLength(f) && length.None? ==>
              forall n: nat | n <= USIZE_MAX && f.value == Decimal(n) :: Header(Line(f), length) == Ok(Some(n))
  {
    hide ParseUsize, Decimal, Trim, ColonAt, NamesLength, IsContentLength;
    var line := Line(f);
    assert line == f.name + [COLON] + ([SPACE] + f.value);
    FirstColon(f.name, [SPACE] + f.value);
    assert line[..|f.name|] == f.name && line[|f.name| + 1..] == [SPACE] + f.value;
    assert f.name[0] in f.name && f.name[|f.name| - 1] in f.name;
    TrimmedAlready(f.name);
    NamesLengthIff(f);
    forall n: nat | n <= USIZE_MAX && f.value == Decimal(n)
      ensures ParseUsize(Trim([SPACE] + f.value)) == Some(n)
    {
      assert f.value[0] in f.value && f.value[|f.value| - 1] in f.value;
      TrimmedAlready(f.value);
      ParsesBack(n);
    }
  }

  lemma LineIsText(f: Field)
    requires Plain(f)
    ensures LF !in Line(f) && Line(f) != [] && forall b | b in Line(f) :: b < 0x80
    ensures TrimLineEnd(Line(f) + [CR, LF]) == Line(f)
  {
    hide TrimLineEnd;
    var line := Line(f);
    forall b | b in line
      ensures b < 0x80 && b != LF && b != CR
    {
      assert f.Field? ==> b in f.name || b in [COLON, SPACE] || b in f.value;
    }
    assert line[|line| - 1] in line;
    TrimLineEndTwice(line);
  }

  /** ... and is what trimming its end leaves. */
  lemma TrimLineEndTwice(line: Bytes)
    requires line == [] || (line[|line| - 1] != CR && line[|line| - 1] != LF)
    ensures TrimLineEnd(line + [CR, LF]) == line
  {
    var full := line + [CR, LF];
    assert full[..|full| - 1] == line + [CR];
    assert (line + [CR])[..|line|] == line;
    assert TrimLineEnd(full) == TrimLineEnd(line + [CR]);
    assert TrimLineEnd(line + [CR]) == TrimLineEnd(line);
  }

  /** Seven digits are enough for any admitted length. */
  lemma DecimalOfMessage(n: nat)
    requires n <= MAX_MESSAGE
    ensures |Decimal(n)| <= 7
  {
    Digits(n, 7);
  }

  function Pow10(k: nat): nat {
    if k == 0 then 1 else 10 * Pow10(k - 1)
  }

  lemma {:induction false} Digits(n: nat, k: nat)
    requires k > 0 && n < Pow10(k)
    ensures |Decimal(n)| <= k
  {
    if n >= 10 {
      assert k > 1;
      Digits(n / 10, k - 1);
    }
  }

  function Block(fields: seq<Field>): Bytes {
    if fields == [] then [] else Line(fields[0]) + [CR, LF] + Block(fields[1..])
  }

  /** The header section of a message: its fields and the empty line. */
  function Section(fields: seq<Field>): Bytes {
    Block(fields) + [CR, LF]
  }

  lemma OneField(f: Field, s: Bytes, length: Option<nat>, used: nat)
    requires Plain(f) && used + |Line(f)| + 2 <= MAX_HEADERS
    ensures ReadHeaders(Line(f) + [CR, LF] + s, length, used) ==
            match Header(Line(f), length)
            case Err(e) => Err(e)
            case Ok(length') => ReadHeaders(s, length', used + |Line(f)| + 2)
  {
    hide ReadHeaders, Header, TrimLineEnd, LineLength, Utf8.ValidUtf8, Line;
    var all := Line(f) + [CR, LF] + s;
    LineIsText(f);
    FirstLineOf(all, Line(f), s);
    OneLine(all, length, used);
    assert all[|Line(f)| + 2..] == s;
  }

  /** Fields that say nothing about the length. */
  predicate Others(fields: seq<Field>) {
    forall i | 0 <= i < |fields| :: Plain(fields[i]) && !NamesLength(fields[i])
  }

  /** Other fields are passed over. */
  lemma {:induction false} OthersArePassed(fields: seq<Field>, s: Bytes, length: Option<nat>, used: nat)
    requires Others(fields)
    requires used + |Block(fields)| <= MAX_HEADERS
    ensures ReadHeaders(Block(fields) + s, length, used) == ReadHeaders(s, length, used + |Block(fields)|)
  {
    hide ReadHeaders, Header, Line, NamesLength, Plain;
    if fields == [] {
      assert Block(fields) + s == s;
    } else {
      var f, rest := fields[0], fields[1..];
      assert Block(fields) + s == Line(f) + [CR, LF] + (Block(rest) + s);
      OneField(f, Block(rest) + s, length, used);
      HeaderOfField(f, length);
      OthersArePassed(rest, s, length, used + |Line(f)| + 2);
    }
  }

  lemma BlankLine(tail: Bytes, length: Option<nat>, used: nat)
    requires used + 2 <= MAX_HEADERS
    ensures ReadHeaders([CR, LF] + tail, length, used) == Ok(Headers(length, tail))
  {
    hide ReadHeaders, Header, TrimLineEnd, LineLength, Utf8.ValidUtf8;
    var s := [CR, LF] + tail;
    assert s == [] + [CR, LF] + tail;
    FirstLineOf(s, [], tail);
    TrimLineEndTwice([]);
    assert [] + [CR, LF] == [CR, LF];
    OneLine(s, length, used);
    assert s[2..] == tail;
  }

  lemma BlockConcat(a: seq<Field>, b: seq<Field>)
    ensures Block(a + b) == Block(a) + Block(b)
  {
    hide Line;
    if a == [] {
      assert a + b == b;
    } else {
      BlockConcat(a[1..], b);
      assert (a + b)[1..] == a[1..] + b;
    }
  }

  /** A message is read back whole, whatever bytes it holds, whatever follows it, whatever other fields
      stand before and behind the length, and in whatever case that is named - if the header section
      is within 16 KiB and the body within 8 MiB. */
  lemma MessageRoundTrip(before: seq<Field>, length: Field, behind: seq<Field>, body: Bytes, rest: Bytes)
    requires Others(before) && Others(behind)
    requires Plain(length) && NamesLength(length) && length.value == Decimal(|body|)
    requires |Section(before + [length] + behind)| <= 16 * 1024 && |body| <= 8 * 1024 * 1024
    ensures Read(Section(before + [length] + behind) + body + rest) == Ok(Message(body, rest))
  {
    hide ReadHeaders, Read, Line, NamesLength, Plain, Decimal, Block, Section, Others;
    var fields, tail := before + [length] + behind, body + rest;
    SectionThen(fields, body, rest);
    HeadersOfFields(before, length, behind, tail, |body|);
    BodyAfterHeaders(Block(fields) + ([CR, LF] + tail), body, rest);
  }

  lemma BodyAfterHeaders(s: Bytes, body: Bytes, rest: Bytes)
    requires ReadHeaders(s, None, 0) == Ok(Headers(Some(|body|), body + rest)) && |body| <= MAX_MESSAGE
    ensures Read(s) == Ok(Message(body, rest))
  {
    hide ReadHeaders;
    assert (body + rest)[..|body|] == body && (body + rest)[|body|..] == rest;
  }

  lemma HeadersOfFields(before: seq<Field>, length: Field, behind: seq<Field>, tail: Bytes, n: nat)
    requires Others(before) && Others(behind)
    requires Plain(length) && NamesLength(length) && n <= USIZE_MAX && length.value == Decimal(n)
    requires |Block(before + [length] + behind)| + 2 <= MAX_HEADERS
    ensures ReadHeaders(Block(before + [length] + behind) + ([CR, LF] + tail), None, 0) == Ok(Headers(Some(n), tail))
  {
    hide ReadHeaders, Header, Line, NamesLength, Plain, Decimal, Block, Others;
    FieldsSize(before, length, behind);
    var end := [CR, LF] + tail;
    LengthIsFound(before, length, behind, end, n);
    var used := |Block(before)| + |Line(length)| + 2;
    OthersArePassed(behind, end, Some(n), used);
    BlankLine(tail, Some(n), used + |Block(behind)|);
  }

  lemma FieldsSize(before: seq<Field>, length: Field, behind: seq<Field>)
    ensures |Block(before + [length] + behind)| == |Block(before)| + |Line(length)| + 2 + |Block(behind)|
  {
    hide Block, Line;
    FieldsApart(before, length, behind);
  }

  lemma SectionThen(fields: seq<Field>, body: Bytes, rest: Bytes)
    ensures Section(fields) + body + rest == Block(fields) + ([CR, LF] + (body + rest))
    ensures |Section(fields)| == |Block(fields)| + 2
  {
    hide Block;
  }

  lemma FieldsApart(before: seq<Field>, length: Field, behind: seq<Field>)
    ensures Block(before + [length] + behind) == Block(before) + (Line(length) + [CR, LF] + Block(behind))
  {
    hide Line;
    BlockConcat(before, [length] + behind);
    assert before + [length] + behind == before + ([length] + behind);
    assert ([length] + behind)[1..] == behind;
  }

  lemma LengthIsFound(before: seq<Field>, length: Field, behind: seq<Field>, s: Bytes, n: nat)
    requires Others(before) && Others(behind)
    requires Plain(length) && NamesLength(length) && n <= USIZE_MAX && length.value == Decimal(n)
    requires |Block(before + [length] + behind)| <= MAX_HEADERS
    ensures ReadHeaders(Block(before + [length] + behind) + s, None, 0) ==
            ReadHeaders(Block(behind) + s, Some(n), |Block(before)| + |Line(length)| + 2)
  {
    hide ReadHeaders, Header, Line, NamesLength, Plain, Decimal, Block, Others;
    FieldsApart(before, length, behind);
    var next := Line(length) + [CR, LF] + (Block(behind) + s);
    assert Block(before + [length] + behind) + s == Block(before) + next;
    OthersArePassed(before, next, None, 0);
    HeaderOfField(length, None);
    OneField(length, Block(behind) + s, None, |Block(before)|);
  }

  /** A second length is refused, whatever it says and whatever stands between. */
  lemma SecondLengthIsRefused(before: seq<Field>, length: Field, between: seq<Field>, second: Field, n: nat, s: Bytes)
    requires Others(before) && Others(between)
    requires Plain(length) && NamesLength(length) && n <= USIZE_MAX && length.value == Decimal(n)
    requires Plain(second) && NamesLength(second)
    requires |Block(before + [length] + between)| + |Line(second)| + 2 <= 16 * 1024
    ensures Read(Block(before + [length] + between) + (Line(second) + [CR, LF] + s)) == Err(DuplicateLength)
  {
    hide ReadHeaders, Header, Line, NamesLength, Plain, Decimal, Block, Others;
    var next := Line(second) + [CR, LF] + s;
    LengthIsFound(before, length, between, next, n);
    FieldsApart(before, length, between);
    OthersArePassed(between, next, Some(n), |Block(before)| + |Line(length)| + 2);
    HeaderOfField(second, Some(n));
    OneField(second, s, Some(n), |Block(before)| + |Line(length)| + 2 + |Block(between)|);
  }

  /** Whatever length is named: above 8 MiB it is refused, and a stream that ends before the body does
      is cut. */
  lemma LengthDecides(before: seq<Field>, length: Field, behind: seq<Field>, tail: Bytes, n: nat)
    requires Others(before) && Others(behind)
    requires Plain(length) && NamesLength(length) && n <= USIZE_MAX && length.value == Decimal(n)
    requires |Section(before + [length] + behind)| <= 16 * 1024
    ensures Read(Block(before + [length] + behind) + ([CR, LF] + tail)) ==
            if n > 8 * 1024 * 1024 then Err(MessageTooLong)
            else if |tail| < n then Err(Cut)
            else Ok(Message(tail[..n], tail[n..]))
  {
    hide ReadHeaders, Line, NamesLength, Plain, Decimal, Block, Others;
    HeadersOfFields(before, length, behind, tail, n);
  }

  /** Without a length there is no message. */
  lemma NoLengthIsRefused(fields: seq<Field>, tail: Bytes)
    requires Others(fields) && |Section(fields)| <= 16 * 1024
    ensures Read(Block(fields) + ([CR, LF] + tail)) == Err(MissingLength)
  {
    hide ReadHeaders, Line, Block, Others;
    OthersArePassed(fields, [CR, LF] + tail, None, 0);
    BlankLine(tail, None, |Block(fields)|);
  }

  lemma {:induction false} NotDigits(s: Bytes, k: nat)
    requires k < |s| && !IsDigit(s[k])
    ensures ParseDigits(s) == None
  {
    if k < |s| - 1 {
      NotDigits(s[..|s| - 1], k);
    }
  }

  /** Nor with one that is no number. */
  lemma BadLengthIsRefused(before: seq<Field>, length: Field, k: nat, s: Bytes)
    requires Others(before) && Plain(length) && NamesLength(length)
    requires k < |length.value| && !IsDigit(length.value[k]) && (k == 0 ==> length.value[0] != 43)
    requires forall b | b in length.value :: !IsSpace(b)
    requires |Block(before)| + |Line(length)| + 2 <= 16 * 1024
    ensures Read(Block(before) + (Line(length) + [CR, LF] + s)) == Err(BadLength)
  {
    hide ReadHeaders, Header, Line, NamesLength, Plain, Block, Others, Trim, IsSpace, ParseDigits;
    var next := Line(length) + [CR, LF] + s;
    OthersArePassed(before, next, None, 0);
    BadLengthHeader(length, k);
    OneField(length, s, None, |Block(before)|);
  }

  lemma BadLengthHeader(length: Field, k: nat)
    requires Plain(length) && NamesLength(length)
    requires k < |length.value| && !IsDigit(length.value[k]) && (k == 0 ==> length.value[0] != 43)
    requires forall b | b in length.value :: !IsSpace(b)
    ensures Header(Line(length), None) == Err(BadLength)
  {
    hide Trim, ColonAt, IsContentLength, ParseDigits;
    var line, value := Line(length), length.value;
    assert line == length.name + [COLON] + ([SPACE] + value);
    FirstColon(length.name, [SPACE] + value);
    assert line[..|length.name|] == length.name && line[|length.name| + 1..] == [SPACE] + value;
    assert length.name[0] in length.name && length.name[|length.name| - 1] in length.name;
    TrimmedAlready(length.name);
    NamesLengthIff(length);
    assert value[0] in value && value[|value| - 1] in value;
    TrimmedAlready(value);
    if value[0] == 43 {
      NotDigits(value[1..], k - 1);
    } else {
      NotDigits(value, k);
    }
  }

  /** What `send` writes is such a message. */
  lemma FrameRoundTrip(body: Bytes, rest: Bytes)
    requires |body| <= MAX_MESSAGE
    ensures Read(Frame(body) + rest) == Ok(Message(body, rest))
  {
    hide Read, Decimal;
    var length := Field(CONTENT_LENGTH, Decimal(|body|));
    DecimalOfMessage(|body|);
    assert forall b | b in Decimal(|body|) :: IsDigit(b);
    assert Block([length][1..]) == [];
    assert [] + [length] + [] == [length];
    assert Section([length]) == Line(length) + [CR, LF] + [CR, LF];
    MessageRoundTrip([], length, [], body, rest);
    assert Frame(body) == Section([length]) + body;
  }

  lemma FirstLineOf(s: Bytes, line: Bytes, rest: Bytes)
    requires s == line + [CR, LF] + rest && LF !in line && (forall b | b in line :: b < 0x80)
    ensures LineLength(s) == |line| + 2 && s[..|line| + 2] == line + [CR, LF]
    ensures Utf8.ValidUtf8(s[..|line| + 2])
  {
    assert s == (line + [CR]) + [LF] + rest;
    LineLengthSkips(line + [CR], rest);
    AsciiIsText(line + [CR, LF]);
  }

  function FrameAll(bodies: seq<Bytes>): Bytes {
    if bodies == [] then [] else Frame(bodies[0]) + FrameAll(bodies[1..])
  }

  /** Messages read until the stream gives no more (`read_lsp_stream`), and why it stopped. */
  function ReadAll(s: Bytes): (seq<Bytes>, FrameError)
    decreases |s|
  {
    match Read(s)
    case Err(e) => ([], e)
    case Ok(m) =>
      ReadConsumes(s);
      var (bodies, e) := ReadAll(m.rest);
      ([m.body] + bodies, e)
  }

  lemma {:induction false} HeadersConsume(s: Bytes, length: Option<nat>, used: nat)
    requires ReadHeaders(s, length, used).Ok?
    ensures |ReadHeaders(s, length, used).value.rest| < |s|
    decreases |s|
  {
    hide Header, TrimLineEnd, Utf8.ValidUtf8;
    var n := LineLength(s);
    if TrimLineEnd(s[..n]) != [] {
      HeadersConsume(s[n..], Header(TrimLineEnd(s[..n]), length).value, used + n);
    }
  }

  lemma ReadConsumes(s: Bytes)
    requires Read(s).Ok?
    ensures |Read(s).value.rest| < |s|
  {
    HeadersConsume(s, None, 0);
  }

  /** Any sequence of framed messages comes back in order, each whole, with nothing left over. */
  lemma {:induction false} StreamRoundTrip(bodies: seq<Bytes>)
    requires forall b | b in bodies :: |b| <= MAX_MESSAGE
    ensures ReadAll(FrameAll(bodies)) == (bodies, Closed)
  {
    hide ReadHeaders, Frame;
    if bodies == [] {
      NoHeaders();
    } else {
      var rest := FrameAll(bodies[1..]);
      FrameRoundTrip(bodies[0], rest);
      StreamRoundTrip(bodies[1..]);
      assert [bodies[0]] + bodies[1..] == bodies;
    }
  }
}
