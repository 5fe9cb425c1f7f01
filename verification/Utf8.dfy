/**
  UTF-8 as section 4 of RFC 3629 and section 3.9 of the Unicode Standard define it, and the
  lossy decoding that replaces each maximal ill-formed subpart by U+FFFD.
  Text is a sequence of code points.
 */
module Utf8 {
  import opened Basics

  type Text = seq<nat>

  const REPLACEMENT: nat := 0xFFFD

  /** What a byte can do as the first of a well-formed sequence (Table 3-7): the length of the
      sequence and the range of its second byte. A length of 0 means it starts none. */
  datatype Lead = Lead(length: nat, low: byte, high: byte)

  function LeadOf(b: byte): (lead: Lead)
    ensures lead.length <= 4
    ensures 0x80 <= lead.low && lead.high <= 0xBF && lead.low <= lead.high
  {
    if b <= 0x7F then Lead(1, 0x80, 0xBF)
    else if b < 0xC2 then Lead(0, 0x80, 0xBF)
    else if b <= 0xDF then Lead(2, 0x80, 0xBF)
    else if b == 0xE0 then Lead(3, 0xA0, 0xBF)
    else if b == 0xED then Lead(3, 0x80, 0x9F)
    else if b <= 0xEF then Lead(3, 0x80, 0xBF)
    else if b == 0xF0 then Lead(4, 0x90, 0xBF)
    else if b <= 0xF3 then Lead(4, 0x80, 0xBF)
    else if b == 0xF4 then Lead(4, 0x80, 0x8F)
    else Lead(0, 0x80, 0xBF)
  }

  predicate Continues(b: byte) {
    0x80 <= b <= 0xBF
  }

  /** `s` is one well-formed sequence of Table 3-7. */
  predicate WellFormedChar(s: Bytes) {
    && s != []
    && var lead := LeadOf(s[0]);
    && |s| == lead.length
    && (|s| >= 2 ==> lead.low <= s[1] <= lead.high)
    && (forall i :: 2 <= i < |s| ==> Continues(s[i]))
  }

  /** `s` can be completed to one well-formed sequence by at least one more byte. */
  ghost predicate Completable(s: Bytes) {
    exists t :: t != [] && WellFormedChar(s + t)
  }

  /** What stands at the front of a byte string. */
  datatype Head =
    | Char(length: nat)      // a well-formed sequence of that many bytes
    | Broken(length: nat)    // an ill-formed maximal subpart of that many bytes
    | Truncated              // everything left is the beginning of a well-formed sequence

  /** The front of `s`, by looking at up to four bytes (`from_utf8` and `error_len`). */
  function First(s: Bytes): (head: Head)
    requires s != []
    ensures head.Char? ==> 1 <= head.length <= 4 && head.length <= |s|
    ensures head.Broken? ==> 1 <= head.length <= 3 && head.length <= |s|
    ensures head.Truncated? ==> |s| <= 3
  {
    var lead := LeadOf(s[0]);
    if lead.length == 0 then Broken(1)
    else if lead.length == 1 then Char(1)
    else if |s| < 2 then Truncated
    else if !(lead.low <= s[1] <= lead.high) then Broken(1)
    else if lead.length == 2 then Char(2)
    else if |s| < 3 then Truncated
    else if !Continues(s[2]) then Broken(2)
    else if lead.length == 3 then Char(3)
    else if |s| < 4 then Truncated
    else if !Continues(s[3]) then Broken(3)
    else Char(4)
  }

  /** Completing a sequence: what it takes of a nonempty prefix, byte by byte. */
  lemma CompletableExactly(s: Bytes)
    requires s != []
    ensures Completable(s) <==>
            && |s| < LeadOf(s[0]).length
            && (|s| >= 2 ==> LeadOf(s[0]).low <= s[1] <= LeadOf(s[0]).high)
            && (|s| >= 3 ==> Continues(s[2]))
  {
    var lead := LeadOf(s[0]);
    if Completable(s) {
      var t :| t != [] && WellFormedChar(s + t);
      var w := s + t;
      assert w[0] == s[0];
      assert |s| >= 2 ==> w[1] == s[1];
      assert |s| >= 3 ==> w[2] == s[2];
    }
    if && |s| < lead.length
       && (|s| >= 2 ==> lead.low <= s[1] <= lead.high)
       && (|s| >= 3 ==> Continues(s[2]))
    {
      var t: Bytes := if |s| == 1 then [lead.low, 0x80, 0x80][..lead.length - 1]
                      else [0x80, 0x80][..lead.length - |s|];
      assert t != [] && WellFormedChar(s + t);
    }
  }

  /** The one-step decoder agrees with the Standard: a character is reported exactly when a
      prefix is well-formed, truncation exactly when the whole rest can still be completed, and
      otherwise the reported length is the maximal subpart (definition D93b): one byte, or the
      longest prefix some well-formed sequence begins with. */
  lemma FirstMeetsStandard(s: Bytes)
    requires s != []
    ensures forall n | 1 <= n <= |s| :: First(s) == Char(n) <==> WellFormedChar(s[..n])
    ensures First(s).Truncated? <==> Completable(s)
    ensures First(s).Broken? ==>
              var n := First(s).length;
              && (n == 1 || Completable(s[..n]))
              && (forall m | n < m <= |s| :: !Completable(s[..m]))
  {
    var lead := LeadOf(s[0]);
    forall n | 1 <= n <= |s|
      ensures First(s) == Char(n) <==> WellFormedChar(s[..n])
    {
      assert s[..n][0] == s[0];
      if First(s) == Char(n) {
        assert WellFormedChar(s[..n]);
      }
      if WellFormedChar(s[..n]) {
        assert n == lead.length;
        assert n >= 2 ==> s[..n][1] == s[1];
        assert n >= 3 ==> Continues(s[..n][2]);
        assert n >= 4 ==> Continues(s[..n][3]);
      }
    }
    CompletableExactly(s);
    if First(s).Broken? {
      var n := First(s).length;
      CompletableExactly(s[..n]);
      forall m | n < m <= |s|
        ensures !Completable(s[..m])
      {
        CompletableExactly(s[..m]);
      }
    }
  }

  /** A front that is not truncated does not depend on what follows. */
  lemma FirstIsLocal(s: Bytes, t: Bytes)
    requires s != []
    requires !First(s).Truncated?
    ensures First(s + t) == First(s)
  {
  }

  /** The code point a well-formed sequence stands for (Table 3-6). */
  function ValueOf(s: Bytes): nat
    requires WellFormedChar(s)
  {
    var lead := s[0] as nat;
    if |s| == 1 then lead
    else
      var high := (lead - [0xC0, 0xE0, 0xF0][|s| - 2]) * 64 + (s[1] as nat - 0x80);
      if |s| == 2 then high
      else
        assert Continues(s[2]);
        var higher := high * 64 + (s[2] as nat - 0x80);
        if |s| == 3 then higher else assert Continues(s[3]); higher * 64 + (s[3] as nat - 0x80)
  }

  predicate Scalar(c: nat) {
    c < 0xD800 || 0xE000 <= c < 0x110000
  }

  /** A continuation byte carrying six bits. */
  function Tail(bits: nat): byte
    requires bits < 64
  {
    (0x80 + bits) as byte
  }

  /** The UTF-8 form of a scalar value: six bits a byte from the right. */
  function Encode(c: nat): Bytes
    requires Scalar(c)
  {
    if c < 0x80 then [c as byte]
    else
      var c1 := c / 64;
      if c < 0x800 then [(0xC0 + c1) as byte, Tail(c % 64)]
      else
        var c2 := c1 / 64;
        if c < 0x10000 then [(0xE0 + c2) as byte, Tail(c1 % 64), Tail(c % 64)]
        else [(0xF0 + c2 / 64) as byte, Tail(c2 % 64), Tail(c1 % 64), Tail(c % 64)]
  }

  lemma DecodeEncode(c: nat)
    requires Scalar(c)
    ensures WellFormedChar(Encode(c)) && ValueOf(Encode(c)) == c
  {
    var s := Encode(c);
    assert c == c / 64 * 64 + c % 64;
    if |s| >= 3 {
      assert Continues(s[2]);
    }
    if |s| == 4 {
      assert Continues(s[3]);
    }
  }

  lemma SixBits(high: nat, low: nat)
    requires low < 64
    ensures (high * 64 + low) / 64 == high && (high * 64 + low) % 64 == low
  {
  }

  /** Two bytes have one value, ... */
  lemma EncodeDecode2(s: Bytes)
    requires WellFormedChar(s) && |s| == 2
    ensures Scalar(ValueOf(s)) && Encode(ValueOf(s)) == s
  {
    SixBits(s[0] as nat - 0xC0, s[1] as nat - 0x80);
  }

  /** ... three do, ... */
  lemma EncodeDecode3(s: Bytes)
    requires WellFormedChar(s) && |s| == 3
    ensures Scalar(ValueOf(s)) && Encode(ValueOf(s)) == s
  {
    assert Continues(s[2]);
    var high := (s[0] as nat - 0xE0) * 64 + (s[1] as nat - 0x80);
    SixBits(s[0] as nat - 0xE0, s[1] as nat - 0x80);
    SixBits(high, s[2] as nat - 0x80);
  }

  /** ... and four do. */
  lemma EncodeDecode4(s: Bytes)
    requires WellFormedChar(s) && |s| == 4
    ensures Scalar(ValueOf(s)) && Encode(ValueOf(s)) == s
  {
    assert Continues(s[2]) && Continues(s[3]);
    var high := (s[0] as nat - 0xF0) * 64 + (s[1] as nat - 0x80);
    SixBits(s[0] as nat - 0xF0, s[1] as nat - 0x80);
    SixBits(high, s[2] as nat - 0x80);
    SixBits(high * 64 + (s[2] as nat - 0x80), s[3] as nat - 0x80);
  }

  lemma EncodeDecode(s: Bytes)
    requires WellFormedChar(s)
    ensures Scalar(ValueOf(s)) && Encode(ValueOf(s)) == s
  {
    match |s|
    case 2 => EncodeDecode2(s);
    case 3 => EncodeDecode3(s);
    case 4 => EncodeDecode4(s);
    case _ =>
  }

  /** The whole of `s` decoded at once, each maximal ill-formed subpart becoming U+FFFD
      (`String::from_utf8_lossy`). */
  function Lossy(s: Bytes): Text
    decreases |s|
  {
    if s == [] then []
    else
      match First(s)
      case Char(n) => FirstMeetsStandard(s); [ValueOf(s[..n])] + Lossy(s[n..])
      case Broken(n) => [REPLACEMENT] + Lossy(s[n..])
      case Truncated => [REPLACEMENT]
  }

  /** The outcome of strict decoding: the text, or how far the input is valid and the length of
      the offending subpart, `None` when the input merely ends too early (`Utf8Error`). */
  datatype Strict = Valid(text: Text) | Invalid(validUpTo: nat, errorLength: Option<nat>)

  function FromUtf8(s: Bytes): (r: Strict)
    ensures r.Invalid? ==> r.validUpTo < |s|
    ensures r.Invalid? && r.errorLength.Some? ==> 1 <= r.errorLength.value <= |s| - r.validUpTo
    ensures r.Invalid? && r.errorLength.None? ==> |s| - r.validUpTo <= 3
    decreases |s|
  {
    if s == [] then Valid([])
    else
      match First(s)
      case Char(n) => (
        FirstMeetsStandard(s);
        match FromUtf8(s[n..])
        case Valid(text) => Valid([ValueOf(s[..n])] + text)
        case Invalid(upTo, len) => Invalid(n + upTo, len)
      )
      case Broken(n) => Invalid(0, Some(n))
      case Truncated => Invalid(0, None)
  }

  predicate ValidUtf8(s: Bytes) {
    FromUtf8(s).Valid?
  }

  predicate AllScalar(text: Text) {
    forall i | 0 <= i < |text| :: Scalar(text[i])
  }

  /** The bytes of a text of scalar values. */
  function EncodeAll(text: Text): Bytes
    requires AllScalar(text)
  {
    if text == [] then [] else Encode(text[0]) + EncodeAll(text[1..])
  }

  /** Encoded text decodes to itself, strictly and lossily alike. */
  lemma {:induction false} DecodeEncodeAll(text: Text)
    requires AllScalar(text)
    ensures Lossy(EncodeAll(text)) == text
    ensures FromUtf8(EncodeAll(text)) == Valid(text)
  {
    if text != [] {
      var e, rest := Encode(text[0]), EncodeAll(text[1..]);
      var s := e + rest;
      DecodeEncode(text[0]);
      FirstMeetsStandard(s);
      assert s[..|e|] == e && s[|e|..] == rest;
      DecodeEncodeAll(text[1..]);
    }
  }

  lemma ValidFront(s: Bytes) returns (n: nat)
    requires ValidUtf8(s) && s != []
    ensures 1 <= n <= |s| && WellFormedChar(s[..n]) && ValidUtf8(s[n..])
    ensures FromUtf8(s).text == [ValueOf(s[..n])] + FromUtf8(s[n..]).text
  {
    FirstMeetsStandard(s);
    n := First(s).length;
  }

  lemma EncodeOneMore(c: nat, text: Text)
    requires Scalar(c) && AllScalar(text)
    ensures AllScalar([c] + text)
    ensures EncodeAll([c] + text) == Encode(c) + EncodeAll(text)
  {
    assert ([c] + text)[1..] == text;
  }

  lemma NothingIsValid()
    ensures FromUtf8([]) == Valid([]) && AllScalar([]) && EncodeAll([]) == []
  {
  }

  /** And only encoded text is valid. */
  lemma {:induction false} ValidIsEncoded(s: Bytes)
    requires ValidUtf8(s)
    ensures var text := FromUtf8(s).text;
            AllScalar(text) && EncodeAll(text) == s
    decreases |s|
  {
    hide FromUtf8, EncodeAll, AllScalar, Scalar, Encode, ValueOf, WellFormedChar;
    if s == [] {
      NothingIsValid();
    } else {
      var n := ValidFront(s);
      EncodeDecode(s[..n]);
      ValidIsEncoded(s[n..]);
      EncodeOneMore(ValueOf(s[..n]), FromUtf8(s[n..]).text);
      assert s == s[..n] + s[n..];
    }
  }

  /** The first `n` bytes are an ill-formed maximal subpart (definition D93b). */
  ghost predicate Subpart(s: Bytes, n: nat) {
    && 1 <= n <= |s|
    && (forall m | 1 <= m <= |s| :: !WellFormedChar(s[..m]))
    && (n == 1 || Completable(s[..n]))
    && (forall m | n < m <= |s| :: !Completable(s[..m]))
  }

  /** What the Standard recommends: each character as it is, each maximal subpart replaced. */
  ghost predicate ReadsAs(s: Bytes, text: Text)
    decreases |s|
  {
    if s == [] then text == []
    else
      && text != []
      && exists n | 1 <= n <= |s| ::
           && (if WellFormedChar(s[..n]) then text[0] == ValueOf(s[..n]) else Subpart(s, n) && text[0] == 0xFFFD)
           && ReadsAs(s[n..], text[1..])
  }

  lemma FirstSubpart(s: Bytes, n: nat)
    requires s != [] && 1 <= n <= |s|
    ensures Subpart(s, n) <==> First(s) == Broken(n) || (First(s).Truncated? && n == |s|)
  {
    FirstMeetsStandard(s);
    assert s[..|s|] == s;
    hide First, WellFormedChar, Completable;
    var head := First(s);
    if head.Char? {
      assert WellFormedChar(s[..head.length]);
    } else {
      forall m | 1 <= m <= |s| ensures !WellFormedChar(s[..m]) {
        assert First(s) != Char(m);
      }
    }
  }

  /** Lossy decoding is exactly that. */
  lemma {:induction false} LossyReads(s: Bytes, text: Text)
    ensures ReadsAs(s, text) <==> text == Lossy(s)
    decreases |s|
  {
    hide First, WellFormedChar, Completable, Subpart;
    if s != [] {
      FirstMeetsStandard(s);
      forall n | 1 <= n <= |s|
        ensures Subpart(s, n) <==> First(s) == Broken(n) || (First(s).Truncated? && n == |s|)
        ensures text != [] ==> (ReadsAs(s[n..], text[1..]) <==> text[1..] == Lossy(s[n..]))
      {
        FirstSubpart(s, n);
        if text != [] {
          LossyReads(s[n..], text[1..]);
        }
      }
      var n := if First(s).Truncated? then |s| else First(s).length;
      assert s[|s|..] == [];
      if text == Lossy(s) {
        assert text[1..] == Lossy(s[n..]);
        assert ReadsAs(s[n..], text[1..]);
      }
      if ReadsAs(s, text) {
        var k :| 1 <= k <= |s|
            && (if WellFormedChar(s[..k]) then text[0] == ValueOf(s[..k]) else Subpart(s, k) && text[0] == 0xFFFD)
            && ReadsAs(s[k..], text[1..]);
        assert text == [text[0]] + text[1..];
      }
    }
  }
}
