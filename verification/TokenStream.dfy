/**
  The sink between the model and the consumer of its text: token pieces arrive as bytes cut
  anywhere, even inside a character, and leave as text.
 */
module TokenStream {
  import opened Basics
  import opened Utf8

  /** What `bytes` yields when more may follow: the text that is settled and the bytes that are
      not, because they may still become a character. */
  datatype Drained = Drained(text: Text, rest: Bytes)

  function Drain(bytes: Bytes): Drained
    decreases |bytes|
  {
    if bytes == [] then Drained([], [])
    else
      match First(bytes)
      case Char(n) =>
        FirstMeetsStandard(bytes);
        var d := Drain(bytes[n..]);
        Drained([ValueOf(bytes[..n])] + d.text, d.rest)
      case Broken(n) => var d := Drain(bytes[n..]); Drained([REPLACEMENT] + d.text, d.rest)
      case Truncated => Drained([], bytes)
  }

  /** What is held back is nothing, or at most three bytes that some well-formed sequence begins
      with; it yields no text by itself. */
  lemma {:induction false} RestIsIncompleteChar(bytes: Bytes)
    ensures var rest := Drain(bytes).rest;
            rest == [] || (|rest| <= 3 && Completable(rest) && First(rest).Truncated?)
    decreases |bytes|
  {
    if bytes != [] {
      FirstMeetsStandard(bytes);
      match First(bytes)
      case Char(n) => RestIsIncompleteChar(bytes[n..]);
      case Broken(n) => RestIsIncompleteChar(bytes[n..]);
      case Truncated =>
    }
  }

  /** Draining in two parts is draining at once: a token boundary can fall anywhere. */
  lemma {:induction false} DrainSplit(s: Bytes, t: Bytes)
    ensures var d, e := Drain(s), Drain(Drain(s).rest + t);
            Drain(s + t) == Drained(d.text + e.text, e.rest)
    decreases |s|
  {
    if s == [] {
      assert s + t == t;
      assert [] + t == t;
    } else if First(s).Truncated? {
      assert Drain(s) == Drained([], s);
    } else {
      var n := First(s).length;
      FirstIsLocal(s, t);
      assert (s + t)[..n] == s[..n];
      assert (s + t)[n..] == s[n..] + t;
      DrainSplit(s[n..], t);
    }
  }

  /** Lossy decoding is draining, with one replacement character for a character cut short. */
  lemma {:induction false} LossyIsDrainAndFlush(bytes: Bytes)
    ensures var d := Drain(bytes);
            && Lossy(bytes) == d.text + Lossy(d.rest)
            && Lossy(d.rest) == if d.rest == [] then [] else [REPLACEMENT]
    decreases |bytes|
  {
    RestIsIncompleteChar(bytes);
    if bytes != [] && !First(bytes).Truncated? {
      LossyIsDrainAndFlush(bytes[First(bytes).length..]);
    }
  }

  /** `d` with more settled text in front. */
  function After(text: Text, d: Drained): Drained {
    Drained(text + d.text, d.rest)
  }

  /** What one strict decoding says about draining: it settles the valid text up to the first
      offence, and that offence is what stands at the front of the rest. */
  lemma {:induction false} StrictStep(bytes: Bytes)
    ensures match FromUtf8(bytes)
            case Valid(text) => Drain(bytes) == Drained(text, [])
            case Invalid(upTo, len) =>
              && FromUtf8(bytes[..upTo]).Valid?
              && Drain(bytes) == After(FromUtf8(bytes[..upTo]).text, Drain(bytes[upTo..]))
              && First(bytes[upTo..]) == if len.None? then Truncated else Broken(len.value)
    decreases |bytes|
  {
    hide First, WellFormedChar, ValueOf;
    if bytes != [] {
      match First(bytes)
      case Broken(n) => NothingValid(bytes);
      case Truncated => NothingValid(bytes);
      case Char(n) =>
        var rest := bytes[n..];
        StrictStep(rest);
        match FromUtf8(rest)
        case Valid(_) =>
        case Invalid(upTo, len) =>
          CharThenPrefix(bytes, n, n + upTo);
          Slices(bytes, n, upTo);
          AfterAfter([ValueOf(bytes[..n])], FromUtf8(rest[..upTo]).text, Drain(rest[upTo..]));
    }
  }

  lemma Slices(s: Bytes, a: nat, b: nat)
    requires a + b <= |s|
    ensures s[a..][b..] == s[a + b..] && s[a..][..b] == s[a..a + b] == s[..a + b][a..]
  {
  }

  lemma AfterAfter(a: Text, b: Text, d: Drained)
    ensures After(a, After(b, d)) == After(a + b, d)
  {
    assert a + (b + d.text) == a + b + d.text;
  }

  lemma NothingValid(bytes: Bytes)
    ensures bytes[..0] == [] && bytes[0..] == bytes
    ensures FromUtf8(bytes[..0]) == Valid([]) && Drain(bytes) == After([], Drain(bytes))
  {
  }

  /** Cutting valid input after its first character leaves that character in place. */
  lemma CharThenPrefix(bytes: Bytes, n: nat, upTo: nat)
    requires bytes != [] && First(bytes) == Char(n) && n <= upTo <= |bytes|
    requires FromUtf8(bytes[n..][..upTo - n]).Valid?
    ensures WellFormedChar(bytes[..n])
    ensures FromUtf8(bytes[..upTo]) ==
            Valid([ValueOf(bytes[..n])] + FromUtf8(bytes[n..][..upTo - n]).text)
  {
    hide First, WellFormedChar, ValueOf;
    FirstMeetsStandard(bytes);
    var front := bytes[..upTo];
    assert front[..n] == bytes[..n];
    Slices(bytes, n, upTo - n);
    FirstMeetsStandard(front);
  }

  /** The text settled after all of `tokens`, one at a time from the left. */
  function Streamed(tokens: seq<Bytes>): Drained {
    if tokens == [] then Drained([], [])
    else
      var before := Streamed(tokens[..|tokens| - 1]);
      var d := Drain(before.rest + tokens[|tokens| - 1]);
      Drained(before.text + d.text, d.rest)
  }

  /** Whatever the token boundaries, streaming settles the text that draining the whole would. */
  lemma {:induction false} StreamedIsWhole(tokens: seq<Bytes>)
    ensures Streamed(tokens) == Drain(Flatten(tokens))
  {
    if tokens != [] {
      var front, last := tokens[..|tokens| - 1], tokens[|tokens| - 1];
      StreamedIsWhole(front);
      DrainSplit(Flatten(front), last);
      assert tokens == front + [last];
      FlattenAppend(front, last);
    }
  }

  /** Valid text survives every token boundary, whole and exactly. */
  lemma TextSurvivesTokenBoundaries(text: Text, tokens: seq<Bytes>)
    requires AllScalar(text)
    requires Flatten(tokens) == EncodeAll(text)
    ensures Streamed(tokens) == Drained(text, [])
  {
    StreamedIsWhole(tokens);
    DecodeEncodeAll(text);
    StrictStep(EncodeAll(text));
  }

  /** One turn of the loop up to the first offence, or to the end. */
  lemma StrictAdvance(all: Bytes, consumed: nat, text: Text)
    requires consumed <= |all| && Drain(all) == After(text, Drain(all[consumed..]))
    ensures match FromUtf8(all[consumed..])
            case Valid(valid) =>
              all[|all|..] == [] && Drain(all) == After(text + valid, Drain(all[|all|..]))
            case Invalid(upTo, len) =>
              && FromUtf8(all[consumed..][..upTo]).Valid?
              && Drain(all) == After(text + FromUtf8(all[consumed..][..upTo]).text,
                                     Drain(all[consumed + upTo..]))
              && First(all[consumed + upTo..]) == if len.None? then Truncated else Broken(len.value)
  {
    var rest := all[consumed..];
    StrictStep(rest);
    match FromUtf8(rest)
    case Valid(valid) => AfterAfter(text, valid, Drained([], []));
    case Invalid(upTo, _) =>
      Slices(all, consumed, upTo);
      AfterAfter(text, FromUtf8(rest[..upTo]).text, Drain(rest[upTo..]));
  }

  lemma DrainBroken(s: Bytes)
    requires s != [] && First(s).Broken?
    ensures Drain(s) == After([REPLACEMENT], Drain(s[First(s).length..]))
  {
    hide First;
  }

  /** One turn past an ill-formed subpart. */
  lemma ReplaceAdvance(all: Bytes, at: nat, text: Text)
    requires at < |all| && Drain(all) == After(text, Drain(all[at..]))
    requires First(all[at..]).Broken?
    ensures var n := First(all[at..]).length;
            at + n <= |all| && Drain(all) == After(text + [REPLACEMENT], Drain(all[at + n..]))
  {
    hide *;
    var rest := all[at..];
    var n := First(rest).length;
    DrainBroken(rest);
    assert rest[n..] == all[at + n..];
    AfterAfter(text, [REPLACEMENT], Drain(rest[n..]));
  }

  /** When the loop ends, with everything consumed or a truncated front, the drain is known. */
  lemma Held(all: Bytes, text: Text, consumed: nat)
    requires consumed <= |all|
    requires Drain(all) == After(text, Drain(all[consumed..]))
    requires consumed == |all| || First(all[consumed..]).Truncated?
    ensures Drain(all) == Drained(text, all[consumed..])
  {
    assert text + [] == text;
  }

  /** `TokenSink`. The consumer is a closure with state of its own: its answer may depend on
      every text it has been given. */
  class TokenSink {
    const consumer: seq<Text> -> bool
    var calls: seq<Text>   // what the consumer was given, call by call
    var pending: Bytes
    var stopped: bool

    constructor (consumer: seq<Text> -> bool)
      ensures this.consumer == consumer
      ensures calls == [] && pending == [] && !stopped
    {
      this.consumer := consumer;
      calls, pending, stopped := [], [], false;
    }

    method Emit(text: Text) returns (go: bool)
      modifies this`calls, this`stopped
      ensures go == !stopped
      ensures old(stopped) ==> stopped && calls == old(calls)
      ensures !old(stopped) ==> calls == old(calls) + [text] && stopped == !consumer(calls)
    {
      if stopped {
        return false;
      }
      calls := calls + [text];
      stopped := !consumer(calls);
      go := !stopped;
    }

    method OnToken(token: Bytes) returns (go: bool)
      modifies this
      ensures go == !stopped
      ensures old(stopped) ==> stopped && calls == old(calls) && pending == old(pending)
      ensures !old(stopped) ==>
                var d := Drain(old(pending) + token);
                calls == old(calls) + [d.text] && pending == d.rest && stopped == !consumer(calls)
    {
      hide Drain, First, FromUtf8;
      if stopped {
        return false;
      }
      pending := pending + token;
      var text: Text := [];
      var consumed := 0;
      ghost var all := pending;
      while consumed < |pending|
        invariant consumed <= |pending|
        invariant pending == all && calls == old(calls) && !stopped
        invariant Drain(all) == After(text, Drain(all[consumed..]))
      {
        var rest := pending[consumed..];
        match FromUtf8(rest) {
          case Valid(valid) =>
            StrictAdvance(all, consumed, text);
            text := text + valid;
            consumed := |pending|;
          case Invalid(upTo, length) =>
            StrictAdvance(all, consumed, text);
            text := text + FromUtf8(rest[..upTo]).text;
            consumed := consumed + upTo;
            if length.None? {
              break;
            }
            ReplaceAdvance(all, consumed, text);
            text := text + [REPLACEMENT];
            consumed := consumed + length.value;
        }
      }
      Held(all, text, consumed);
      pending := pending[consumed..];
      go := Emit(text);
    }

    /** Only a normal end replaces a truncated last character, and at most once. */
    method Finish()
      modifies this
      ensures old(stopped || pending == []) ==>
                calls == old(calls) && pending == old(pending) && stopped == old(stopped)
      ensures !old(stopped || pending == []) ==>
                && calls == old(calls) + [Lossy(old(pending))]
                && pending == [] && stopped == !consumer(calls)
    {
      if !stopped && pending != [] {
        var remaining := Lossy(pending);
        pending := [];
        var _ := Emit(remaining);
      }
    }

    /** One generation over a fresh sink: pieces until the sink says stop, then `finish` unless
        the engine failed. A consumer that never stops has seen exactly the lossy decoding of all
        bytes together, or all that was settled when the engine failed; one that stops has seen what
        was settled by then, one call a token, and is not called again. */
    method Generate(tokens: seq<Bytes>, engineFails: bool)
      requires calls == [] && pending == [] && !stopped
      modifies this
      ensures Flatten(calls) <= Lossy(Flatten(tokens))
      ensures !stopped && !engineFails ==> Flatten(calls) == Lossy(Flatten(tokens)) && pending == []
      ensures !stopped && engineFails ==> |calls| == |tokens| && Flatten(calls) == Drain(Flatten(tokens)).text
      ensures stopped ==>
                || Flatten(calls) == Lossy(Flatten(tokens))
                || (|calls| <= |tokens| && Flatten(calls) == Drain(Flatten(tokens[..|calls|])).text)
      ensures !stopped ==> Agreed(calls)
      ensures stopped ==> calls != [] && !consumer(calls) && Agreed(calls[..|calls| - 1])
      ensures |pending| <= 3
    {
      hide Drain, Lossy, Flatten;
      NothingYet(tokens);
      var i := 0;
      while i < |tokens|
        invariant i <= |tokens| && |calls| == i && !stopped
        invariant Drained(Flatten(calls), pending) == Drain(Flatten(tokens[..i]))
        invariant Agreed(calls)
      {
        SeenOneMore(tokens, i, calls, pending);
        label before:
        var go := OnToken(tokens[i]);
        AgreedOneMore(old@before(calls), calls[|calls| - 1]);
        i := i + 1;
        if !go {
          break;
        }
      }
      Seen(tokens, i);
      assert i == |tokens| ==> tokens[..i] == tokens;
      if !engineFails {
        FlattenAppend(calls, Lossy(pending));
        AgreedOneMore(calls, Lossy(pending));
        Finish();
      }
    }

    /** The consumer answered every call but possibly the last with "go on". */
    ghost predicate Agreed(calls: seq<Text>) {
      forall k | 0 < k <= |calls| :: consumer(calls[..k])
    }

    lemma AgreedOneMore(calls: seq<Text>, text: Text)
      ensures (calls + [text])[..|calls|] == calls
      ensures Agreed(calls) && consumer(calls + [text]) ==> Agreed(calls + [text])
    {
      var more := calls + [text];
      assert more[..|more|] == more;
      assert forall k | 0 < k <= |calls| :: more[..k] == calls[..k];
    }
  }

  lemma NothingYet(tokens: seq<Bytes>)
    ensures Drain(Flatten(tokens[..0])) == Drained(Flatten<nat>([]), [])
  {
    assert tokens[..0] == [];
  }

  /** What one more token does to the text seen. */
  lemma SeenOneMore(tokens: seq<Bytes>, i: nat, calls: seq<Text>, pending: Bytes)
    requires i < |tokens|
    requires Drained(Flatten(calls), pending) == Drain(Flatten(tokens[..i]))
    ensures var d := Drain(pending + tokens[i]);
            Drained(Flatten(calls + [d.text]), d.rest) == Drain(Flatten(tokens[..i + 1]))
  {
    hide Drain, Flatten;
    assert tokens[..i + 1] == tokens[..i] + [tokens[i]];
    FlattenAppend(tokens[..i], tokens[i]);
    FlattenAppend(calls, Drain(pending + tokens[i]).text);
    DrainSplit(Flatten(tokens[..i]), tokens[i]);
  }

  /** What the first tokens settled is a prefix of the whole decoding, and with the flush of
      what is pending after the last token it is all of it. */
  lemma Seen(tokens: seq<Bytes>, i: nat)
    requires i <= |tokens|
    ensures var d := Drain(Flatten(tokens[..i]));
            && |d.rest| <= 3
            && d.text <= Lossy(Flatten(tokens))
            && (i == |tokens| ==>
                  d.text + (if d.rest == [] then [] else Lossy(d.rest)) == Lossy(Flatten(tokens)))
  {
    hide Drain, Lossy, Flatten;
    var front, back := Flatten(tokens[..i]), Flatten(tokens[i..]);
    FlattenConcat(tokens[..i], tokens[i..]);
    assert tokens == tokens[..i] + tokens[i..];
    RestIsIncompleteChar(front);
    DrainSplit(front, back);
    LossyIsDrainAndFlush(front + back);
    if i == |tokens| {
      assert tokens[..i] == tokens;
      LossyIsDrainAndFlush(front);
    }
  }
}
