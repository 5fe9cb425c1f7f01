/**
  Positions in a text document, as the client computes them and as a server reads them (LSP 3.17,
  sections "Text Documents" and "Position"). Text is a sequence of code points.
 */
module LspText {
  import opened Basics

  type Text = seq<nat>

  const LF: nat := 10
  const CR: nat := 13

  datatype Position = Position(line: nat, character: nat)

  /** UTF-16 code units of one character and of a text. */
  function Units(c: nat): nat {
    if c < 0x10000 then 1 else 2
  }

  function Utf16(text: Text): nat {
    if text == [] then 0 else Units(text[0]) + Utf16(text[1..])
  }

  /** UTF-16, section 3.9 of the Unicode Standard: a character above U+FFFF is a surrogate pair. */
  function EncodeOne(c: nat): Text {
    if c < 0x10000 then [c] else [0xD800 + (c - 0x10000) / 0x400, 0xDC00 + (c - 0x10000) % 0x400]
  }

  function EncodeUtf16(text: Text): Text {
    if text == [] then [] else EncodeOne(text[0]) + EncodeUtf16(text[1..])
  }

  predicate Surrogate(c: nat) {
    0xD800 <= c < 0xE000
  }

  predicate Scalar(c: nat) {
    c < 0x110000 && !Surrogate(c)
  }

  /** Reads surrogate pairs; `None` if one is not whole. */
  function DecodeUtf16(units: Text): Option<Text> {
    if units == [] then Some([])
    else if !Surrogate(units[0]) then
      match DecodeUtf16(units[1..]) case None => None case Some(rest) => Some([units[0]] + rest)
    else if units[0] < 0xDC00 && |units| > 1 && 0xDC00 <= units[1] < 0xE000 then
      match DecodeUtf16(units[2..])
      case None => None
      case Some(rest) => Some([0x10000 + (units[0] - 0xD800) * 0x400 + (units[1] - 0xDC00)] + rest)
    else None
  }

  /** Unicode text. */
  predicate Scalars(text: Text) {
    forall i | 0 <= i < |text| :: Scalar(text[i])
  }

  lemma {:induction false} DecodeEncodeUtf16(text: Text)
    requires Scalars(text)
    ensures DecodeUtf16(EncodeUtf16(text)) == Some(text)
  {
    if text != [] {
      var one, rest := EncodeOne(text[0]), EncodeUtf16(text[1..]);
      DecodeEncodeUtf16(text[1..]);
      DecodeOne(text[0], rest);
      assert [text[0]] + text[1..] == text;
    }
  }

  lemma DecodeOne(c: nat, rest: Text)
    requires Scalar(c)
    ensures DecodeUtf16(EncodeOne(c) + rest) ==
            match DecodeUtf16(rest) case None => None case Some(text) => Some([c] + text)
  {
    var all := EncodeOne(c) + rest;
    assert all[|EncodeOne(c)|..] == rest;
  }

  function CountLf(text: Text): nat {
    if text == [] then 0 else (if text[0] == LF then 1 else 0) + CountLf(text[1..])
  }

  /** What follows the last line feed. */
  function LastTail(text: Text): Text {
    if CountLf(text) == 0 then text else LastTail(text[1..])
  }

  /** `source_end_position`. */
  function EndPosition(text: Text): Position {
    Position(CountLf(text), Utf16(LastTail(text)))
  }

  /** Length of the end-of-line mark at the front, 0 if there is none: LF, CRLF or CR. */
  function EolLength(text: Text): nat {
    if text == [] then 0
    else if text[0] == LF then 1
    else if text[0] == CR then if |text| > 1 && text[1] == LF then 2 else 1
    else 0
  }

  /** Length of the first line with its end mark; of everything if it has none. */
  function SkipLine(text: Text): (n: nat)
    ensures n <= |text| && (text != [] ==> n > 0)
  {
    if text == [] then 0
    else if EolLength(text) > 0 then EolLength(text)
    else 1 + SkipLine(text[1..])
  }

  /** Offset of column `units` in the first line; beyond its end, the end of that line. */
  function Column(text: Text, units: nat): (n: nat)
    ensures n <= |text|
  {
    if text == [] || EolLength(text) > 0 || Units(text[0]) > units then 0
    else 1 + Column(text[1..], units - Units(text[0]))
  }

  /** The offset a server gives a position. */
  function OffsetOf(text: Text, p: Position): (n: nat)
    ensures n <= |text|
    decreases p.line
  {
    if p.line == 0 then Column(text, p.character)
    else SkipLine(text) + OffsetOf(text[SkipLine(text)..], Position(p.line - 1, p.character))
  }

  /** The document after a change of the range from its start to `end`. */
  function Edited(text: Text, end: Position, insertion: Text): Text {
    insertion + text[OffsetOf(text, end)..]
  }

  /** A carriage return that is not half of a CRLF. */
  predicate BareAt(text: Text, i: nat) {
    i < |text| && text[i] == CR && (i + 1 == |text| || text[i + 1] != LF)
  }

  predicate BareCr(text: Text) {
    exists i | 0 <= i < |text| :: BareAt(text, i)
  }

  lemma BareAtTail(text: Text, n: nat, i: nat)
    requires n <= |text|
    ensures BareAt(text[n..], i) <==> BareAt(text, n + i)
  {
  }

  /** Whether a carriage return stands bare does not depend on what is in front of it. */
  lemma BareCrTail(text: Text, n: nat)
    requires n <= |text| && forall i: nat | i < n :: !BareAt(text, i)
    ensures BareCr(text) <==> BareCr(text[n..])
  {
    hide BareAt;
    forall i: nat
      ensures BareAt(text[n..], i) <==> BareAt(text, n + i)
    {
      BareAtTail(text, n, i);
    }
    if BareCr(text) {
      var i :| 0 <= i < |text| && BareAt(text, i);
      assert BareAt(text[n..], i - n);
    }
    if BareCr(text[n..]) {
      var i :| 0 <= i < |text[n..]| && BareAt(text[n..], i);
      assert BareAt(text, n + i);
    }
  }

  /** The server's first line ends with a line feed, ... */
  predicate EndsWithLf(text: Text) {
    CountLf(text) == CountLf(text[SkipLine(text)..]) + 1
  }

  lemma CrWithoutLfIsBare(text: Text)
    requires text != [] && text[0] == CR && EolLength(text) == 1
    ensures BareCr(text)
  {
    assert BareAt(text, 0);
  }

  lemma CrLf(text: Text)
    requires EolLength(text) == 2
    ensures CountLf(text) == CountLf(text[2..]) + 1 && LastTail(text) == LastTail(text[2..])
    ensures BareCr(text) <==> BareCr(text[2..])
  {
    assert text[1..][0] == LF;
    assert text[1..][1..] == text[2..];
    BareCrTail(text, 2);
  }

  /** ... and then it is the client's first line as well; or with a bare carriage return, or not at
      all, and then the text is that one line. */
  lemma {:induction false} FirstLine(text: Text)
    ensures EndsWithLf(text) ==>
              && LastTail(text) == LastTail(text[SkipLine(text)..])
              && (BareCr(text) <==> BareCr(text[SkipLine(text)..]))
    ensures !EndsWithLf(text) ==> CountLf(text) == CountLf(text[SkipLine(text)..])
    ensures !EndsWithLf(text) && BareCr(text) ==> forall u :: Column(text, u) < |text|
    ensures !EndsWithLf(text) && !BareCr(text) ==> CountLf(text) == 0
  {
    var n := SkipLine(text);
    if text == [] {
    } else if EolLength(text) == 2 {
      CrLf(text);
    } else if EolLength(text) == 1 {
      if text[0] == CR {
        CrWithoutLfIsBare(text);
      } else {
        BareCrTail(text, 1);
      }
    } else {
      var rest := text[1..];
      FirstLine(rest);
      assert text[n..] == rest[n - 1..];
      BareCrTail(text, 1);
    }
  }

  /** A text with more line feeds than the lines skipped is not read to its end. */
  lemma {:induction false} StopsBeforeLf(text: Text, n: nat, units: nat)
    requires CountLf(text) > n
    ensures OffsetOf(text, Position(n, units)) < |text|
    decreases n
  {
    if n == 0 {
      ColumnStopsAtEol(text, units);
    } else {
      FirstLine(text);
      StopsBeforeLf(text[SkipLine(text)..], n - 1, units);
    }
  }

  lemma {:induction false} ColumnStopsAtEol(text: Text, units: nat)
    requires CountLf(text) > 0
    ensures Column(text, units) < |text|
  {
    if EolLength(text) == 0 && Units(text[0]) <= units {
      ColumnStopsAtEol(text[1..], units - Units(text[0]));
    }
  }

  lemma {:induction false} ColumnReachesEnd(text: Text)
    requires CountLf(text) == 0 && !BareCr(text)
    ensures Column(text, Utf16(text)) == |text|
  {
    if text != [] {
      NoEolAtFront(text);
      BareCrTail(text, 1);
      ColumnReachesEnd(text[1..]);
    }
  }

  lemma NoEolAtFront(text: Text)
    requires text != [] && CountLf(text) == 0 && !BareCr(text)
    ensures EolLength(text) == 0
  {
    if EolLength(text) == 1 && text[0] == CR {
      CrWithoutLfIsBare(text);
    }
    if EolLength(text) == 2 {
      CrLf(text);
    }
  }

  /** The client's end position is the end of the document for the server exactly when the document
      has no bare carriage return. */
  lemma {:induction false} EndCoversExactly(text: Text)
    ensures OffsetOf(text, EndPosition(text)) == |text| <==> !BareCr(text)
    decreases |text|
  {
    hide BareCr, Column, Utf16, EolLength;
    var n, end := SkipLine(text), EndPosition(text);
    var rest := text[n..];
    FirstLine(text);
    if EndsWithLf(text) {
      assert n > 0;
      EndCoversExactly(rest);
      assert EndPosition(rest) == Position(end.line - 1, end.character);
    } else if BareCr(text) {
      if end.line > 0 {
        StopsBeforeLf(rest, end.line - 1, end.character);
        assert OffsetOf(rest, Position(end.line - 1, end.character)) < |rest|;
      } else {
        assert Column(text, end.character) < |text|;
      }
    } else {
      ColumnReachesEnd(text);
      LastTailWithoutLf(text);
    }
  }

  lemma LastTailWithoutLf(text: Text)
    requires CountLf(text) == 0
    ensures LastTail(text) == text
  {
  }

  // ---- The same in code units ----------------------------------------------------------------

  /** The end position counts the line feeds and the UTF-16 code units behind the last of them. */
  lemma {:induction false} EndIsCounted(text: Text) returns (head: Text, tail: Text)
    ensures text == head + tail && LF !in tail && (head != [] ==> head[|head| - 1] == LF)
    ensures EndPosition(text) == Position(multiset(text)[LF], |EncodeUtf16(tail)|)
  {
    if CountLf(text) == 0 {
      head, tail := [], text;
      NoLf(text);
    } else {
      head, tail := EndIsCounted(text[1..]);
      head := [text[0]] + head;
      assert text == [text[0]] + text[1..];
      CountsLf(text);
      CountsLf(text[1..]);
      if |head| == 1 {
        assert text[1..] == tail;
        assert text[0] == LF;
      }
    }
    UnitLength(tail);
  }

  lemma {:induction false} CountsLf(text: Text)
    ensures CountLf(text) == multiset(text)[LF]
  {
    if text != [] {
      CountsLf(text[1..]);
      assert text == [text[0]] + text[1..];
    }
  }

  lemma NoLf(text: Text)
    requires CountLf(text) == 0
    ensures LF !in text && multiset(text)[LF] == 0
  {
    CountsLf(text);
  }

  lemma {:induction false} UnitLength(text: Text)
    ensures Utf16(text) == |EncodeUtf16(text)|
  {
    if text != [] {
      UnitLength(text[1..]);
    }
  }

  lemma EncodeEol(text: Text)
    ensures EolLength(EncodeUtf16(text)) == EolLength(text)
  {
    if |text| > 1 {
      assert text[1..][0] == text[1];
    }
  }

  lemma {:induction false} EncodeConcat(a: Text, b: Text)
    ensures EncodeUtf16(a + b) == EncodeUtf16(a) + EncodeUtf16(b)
  {
    if a == [] {
      assert a + b == b;
    } else {
      hide EncodeUtf16, EncodeOne;
      EncodeConcat(a[1..], b);
      EncodeFront(a);
      EncodeFront(a + b);
      FrontOfConcat(a, b);
      Associates(EncodeOne(a[0]), EncodeUtf16(a[1..]), EncodeUtf16(b));
    }
  }

  lemma FrontOfConcat(a: Text, b: Text)
    requires a != []
    ensures (a + b)[0] == a[0] && (a + b)[1..] == a[1..] + b
  {
  }

  lemma Associates(a: Text, b: Text, c: Text)
    ensures a + (b + c) == a + b + c
  {
  }

  lemma EncodeFront(text: Text)
    requires text != []
    ensures EncodeUtf16(text) == EncodeOne(text[0]) + EncodeUtf16(text[1..])
  {
  }

  lemma EncodeSplit(text: Text, n: nat)
    requires n <= |text|
    ensures EncodeUtf16(text) == EncodeUtf16(text[..n]) + EncodeUtf16(text[n..])
  {
    hide EncodeUtf16;
    EncodeConcat(text[..n], text[n..]);
    assert text == text[..n] + text[n..];
  }

  /** How many units the first `n` characters take. */
  function UnitsBefore(text: Text, n: nat): nat
    requires n <= |text|
  {
    |EncodeUtf16(text[..n])|
  }

  /** A position in the unit sequence is that character boundary, or splits the pair behind it. */
  predicate Boundary(text: Text, n: nat, unit: nat) {
    && n <= |text|
    && (unit == UnitsBefore(text, n) || (n < |text| && text[n] >= 0x10000 && unit == UnitsBefore(text, n) + 1))
  }

  lemma UnitsBeforeNext(text: Text, n: nat)
    requires 0 < n <= |text|
    ensures UnitsBefore(text, n) == |EncodeOne(text[0])| + UnitsBefore(text[1..], n - 1)
  {
    assert text[..n][1..] == text[1..][..n - 1];
  }

  lemma {:induction false} ColumnInUnits(text: Text, units: nat)
    requires Scalars(text)
    ensures Boundary(text, Column(text, units), Column(EncodeUtf16(text), units))
  {
    hide EolLength;
    EncodeEol(text);
    if text != [] && EolLength(text) == 0 && units > 0 {
      ColumnPastOne(text, units);
      if Units(text[0]) <= units {
        ColumnInUnits(text[1..], units - Units(text[0]));
        UnitsBeforeNext(text, Column(text, units));
      }
    }
  }

  /** The units of the first character are passed one by one. */
  lemma ColumnPastOne(text: Text, units: nat)
    requires Scalars(text) && text != [] && EolLength(text) == 0 && units > 0
    ensures var n, all := |EncodeOne(text[0])|, EncodeUtf16(text);
            Column(all, units) == if units < n then units else n + Column(EncodeUtf16(text[1..]), units - n)
  {
    hide EolLength;
    var one, rest, all := EncodeOne(text[0]), EncodeUtf16(text[1..]), EncodeUtf16(text);
    EncodeEol(text);
    assert all[|one|..] == rest;
    if |one| == 2 {
      assert all[1..] == [one[1]] + rest;
      assert all[1..][1..] == rest;
      NoMark(all[1..]);
    }
  }

  lemma NoMark(text: Text)
    requires text != [] && text[0] != LF && text[0] != CR
    ensures EolLength(text) == 0
  {
  }

  lemma {:induction false} SkipLineInUnits(text: Text)
    requires Scalars(text)
    ensures SkipLine(EncodeUtf16(text)) == UnitsBefore(text, SkipLine(text))
  {
    hide EolLength;
    EncodeEol(text);
    var n := EolLength(text);
    if text != [] && n > 0 {
      MarkIsUnits(text);
    } else if text != [] {
      var one, rest, all := EncodeOne(text[0]), EncodeUtf16(text[1..]), EncodeUtf16(text);
      SkipLineInUnits(text[1..]);
      UnitsBeforeNext(text, SkipLine(text));
      assert all[|one|..] == rest;
      if |one| == 2 {
        assert all[1..] == [one[1]] + rest;
        assert all[1..][1..] == rest;
        NoMark(all[1..]);
      }
    }
  }

  lemma MarkIsUnits(text: Text)
    requires EolLength(text) > 0
    ensures UnitsBefore(text, EolLength(text)) == EolLength(text)
  {
    var n := EolLength(text);
    SmallIsUnits(text[..n]);
  }

  lemma {:induction false} SmallIsUnits(text: Text)
    requires forall i | 0 <= i < |text| :: text[i] < 0x10000
    ensures |EncodeUtf16(text)| == |text|
  {
    if text != [] {
      SmallIsUnits(text[1..]);
    }
  }

  /** A server that keeps the document as UTF-16 code units, as the positions of the protocol are
      counted, finds the same place - or, behind the first half of a surrogate pair, the middle of
      the character at which reading by characters stops. */
  lemma {:induction false} OffsetInUnits(text: Text, p: Position)
    requires Scalars(text)
    ensures Boundary(text, OffsetOf(text, p), OffsetOf(EncodeUtf16(text), p))
    decreases p.line
  {
    hide Column, SkipLine, EncodeUtf16, Scalar, OffsetOf, Boundary, UnitsBefore;
    OffsetPastLine(text, p);
    OffsetPastLine(EncodeUtf16(text), p);
    if p.line == 0 {
      ColumnInUnits(text, p.character);
    } else {
      var n, next := SkipLine(text), Position(p.line - 1, p.character);
      SkipLineInUnits(text);
      UnitsBehind(text, n);
      OffsetInUnits(text[n..], next);
      BoundaryBehind(text, n, OffsetOf(text[n..], next), OffsetOf(EncodeUtf16(text[n..]), next));
    }
  }

  lemma OffsetPastLine(text: Text, p: Position)
    ensures OffsetOf(text, p) == if p.line == 0 then Column(text, p.character)
            else SkipLine(text) + OffsetOf(text[SkipLine(text)..], Position(p.line - 1, p.character))
  {
  }

  lemma UnitsBehind(text: Text, n: nat)
    requires n <= |text|
    ensures UnitsBefore(text, n) <= |EncodeUtf16(text)|
    ensures EncodeUtf16(text)[UnitsBefore(text, n)..] == EncodeUtf16(text[n..])
  {
    hide EncodeUtf16;
    EncodeSplit(text, n);
  }

  lemma BoundaryBehind(text: Text, n: nat, more: nat, unit: nat)
    requires n <= |text| && Boundary(text[n..], more, unit)
    ensures Boundary(text, n + more, UnitsBefore(text, n) + unit)
  {
    hide EncodeUtf16;
    EncodeConcat(text[..n], text[n..][..more]);
    assert text[..n] + text[n..][..more] == text[..n + more];
  }

  /** On such a server, too, the edit from the start to the end position replaces the whole document
      exactly when it has no bare carriage return. */
  lemma EndCoversUnits(text: Text)
    requires Scalars(text)
    ensures OffsetOf(EncodeUtf16(text), EndPosition(text)) == |EncodeUtf16(text)| <==> !BareCr(text)
  {
    hide EncodeUtf16, OffsetOf, BareCr, EndPosition, Scalar;
    var n := OffsetOf(text, EndPosition(text));
    EndCoversExactly(text);
    OffsetInUnits(text, EndPosition(text));
    EncodeSplit(text, n);
    if n < |text| {
      EncodeNonempty(text[n..]);
    } else {
      assert text[..n] == text;
    }
  }

  lemma EncodeNonempty(text: Text)
    requires text != []
    ensures |EncodeUtf16(text)| >= |EncodeOne(text[0])|
  {
  }
}
