/**
  Recognising answers that are no answers: nothing but tool-call tags, or one short fragment over
  and over.
 */
module RunawayAnswers {
  import opened Basics

  // ---- Tags --------------------------------------------------------------------------------

  const TAGS: seq<string> := ["<tool_call>", "</tool_call>", "<tool_response>", "</tool_response>"]

  predicate StartsWith(s: string, tag: string) {
    |tag| <= |s| && s[..|tag|] == tag
  }

  /** All occurrences of `tag` deleted, in one pass from the left. */
  function Remove(s: string, tag: string): string
    requires tag != []
  {
    if s == [] then []
    else if StartsWith(s, tag) then Remove(s[|tag|..], tag)
    else [s[0]] + Remove(s[1..], tag)
  }

  /** The occurrences found by that pass. */
  function Occurrences(s: string, tag: string): nat
    requires tag != []
  {
    if s == [] then 0
    else if StartsWith(s, tag) then 1 + Occurrences(s[|tag|..], tag)
    else Occurrences(s[1..], tag)
  }

  predicate Nonempty(tags: seq<string>) { forall k | 0 <= k < |tags| :: tags[k] != [] }

  function RemoveAll(s: string, tags: seq<string>): string
    requires Nonempty(tags)
    decreases tags
  {
    if tags == [] then s else RemoveAll(Remove(s, tags[0]), tags[1..])
  }

  function CountAll(s: string, tags: seq<string>): nat
    requires Nonempty(tags)
    decreases tags
  {
    if tags == [] then 0 else Occurrences(s, tags[0]) + CountAll(Remove(s, tags[0]), tags[1..])
  }

  /** Angle brackets at both ends and nowhere else. */
  predicate IsTag(t: string) {
    && |t| >= 2 && t[0] == '<' && t[|t| - 1] == '>'
    && forall k | 0 < k < |t| - 1 :: t[k] != '<' && t[k] != '>'
  }

  /** In front of a tag, `tag` only begins if it is that tag. */
  lemma BeginsOnlyItself(tag: string, t: string, rest: string)
    requires IsTag(tag) && IsTag(t)
    ensures StartsWith(t + rest, tag) <==> tag == t
  {
    var s := t + rest;
    assert s[..|t|] == t;
    if StartsWith(s, tag) {
      assert forall k | 0 <= k < |tag| :: tag[k] == s[k];
      assert forall k | 0 <= k < |t| :: t[k] == s[k];
      assert s[|t| - 1] == '>' && s[|tag| - 1] == '>';
    }
  }

  /** Inside a tag nothing begins: the pass copies the rest of it. */
  lemma {:induction false} InsideIsCopied(tag: string, inside: string, rest: string)
    requires IsTag(tag) && forall k | 0 <= k < |inside| :: inside[k] != '<'
    ensures Remove(inside + rest, tag) == inside + Remove(rest, tag)
    ensures Occurrences(inside + rest, tag) == Occurrences(rest, tag)
  {
    if inside == [] {
      assert inside + rest == rest;
    } else {
      var s := inside + rest;
      assert s[0] != tag[0];
      assert s[1..] == inside[1..] + rest;
      InsideIsCopied(tag, inside[1..], rest);
    }
  }

  function Without(ts: seq<string>, t: string): seq<string> {
    if ts == [] then [] else (if ts[0] == t then [] else [ts[0]]) + Without(ts[1..], t)
  }

  predicate AllTags(ts: seq<string>) { forall k | 0 <= k < |ts| :: IsTag(ts[k]) }

  lemma RemoveItself(tag: string, rest: string)
    requires IsTag(tag)
    ensures Remove(tag + rest, tag) == Remove(rest, tag)
    ensures Occurrences(tag + rest, tag) == 1 + Occurrences(rest, tag)
  {
    BeginsOnlyItself(tag, tag, rest);
    assert (tag + rest)[|tag|..] == rest;
  }

  lemma RemoveOther(tag: string, t: string, rest: string)
    requires IsTag(tag) && IsTag(t) && t != tag
    ensures Remove(t + rest, tag) == t + Remove(rest, tag)
    ensures Occurrences(t + rest, tag) == Occurrences(rest, tag)
  {
    var s := t + rest;
    BeginsOnlyItself(tag, t, rest);
    assert s[1..] == t[1..] + rest;
    hide IsTag, StartsWith;
    InsideIsCopied(tag, t[1..], rest);
    assert [s[0]] + (t[1..] + Remove(rest, tag)) == t + Remove(rest, tag);
  }

  lemma FlattenCons(head: string, rest: seq<string>)
    ensures Flatten([head] + rest) == head + Flatten(rest)
  {
    assert ([head] + rest)[1..] == rest;
  }

  /** Deleting one kind of tag from a sequence of tags leaves the others as they were. */
  lemma {:induction false} RemoveOneKind(ts: seq<string>, tag: string)
    requires AllTags(ts) && IsTag(tag)
    ensures Remove(Flatten(ts), tag) == Flatten(Without(ts, tag))
    ensures Occurrences(Flatten(ts), tag) + |Without(ts, tag)| == |ts|
  {
    if ts != [] {
      hide IsTag, Remove, Occurrences;
      var t, rest := ts[0], ts[1..];
      RemoveOneKind(rest, tag);
      FlattenCons(t, rest);
      assert [t] + rest == ts;
      if t == tag {
        RemoveItself(tag, Flatten(rest));
        assert Without(ts, tag) == Without(rest, tag);
      } else {
        RemoveOther(tag, t, Flatten(rest));
        FlattenCons(t, Without(rest, tag));
      }
    }
  }

  lemma {:induction false} WithoutKeepsTheRest(ts: seq<string>, t: string, kinds: seq<string>)
    requires kinds != [] && kinds[0] == t
    requires forall k | 0 <= k < |ts| :: ts[k] in kinds
    ensures forall k | 0 <= k < |Without(ts, t)| :: Without(ts, t)[k] in kinds[1..] && Without(ts, t)[k] in ts
  {
    if ts != [] {
      WithoutKeepsTheRest(ts[1..], t, kinds);
    }
  }

  /** Deleting every kind in turn leaves nothing of a sequence of tags, and counts every tag. */
  lemma {:induction false} RemoveEveryKind(ts: seq<string>, kinds: seq<string>)
    requires AllTags(kinds) && forall k | 0 <= k < |ts| :: ts[k] in kinds
    ensures RemoveAll(Flatten(ts), kinds) == [] && CountAll(Flatten(ts), kinds) == |ts|
    decreases kinds
  {
    if kinds != [] {
      RemoveOneKind(ts, kinds[0]);
      WithoutKeepsTheRest(ts, kinds[0], kinds);
      RemoveEveryKind(Without(ts, kinds[0]), kinds[1..]);
    }
  }

  /** Deleting tags never deletes a character that is in no tag. */
  lemma {:induction false} OtherTextIsKept(s: string, kinds: seq<string>, c: char)
    requires Nonempty(kinds) && c in s && forall k | 0 <= k < |kinds| :: c !in kinds[k]
    ensures c in RemoveAll(s, kinds)
    decreases kinds
  {
    if kinds != [] {
      OtherTextIsKeptOnce(s, kinds[0], c);
      OtherTextIsKept(Remove(s, kinds[0]), kinds[1..], c);
    }
  }

  lemma {:induction false} OtherTextIsKeptOnce(s: string, tag: string, c: char)
    requires tag != [] && c in s && c !in tag
    ensures c in Remove(s, tag)
  {
    if StartsWith(s, tag) {
      assert s == tag + s[|tag|..];
      OtherTextIsKeptOnce(s[|tag|..], tag, c);
    } else if s[0] != c {
      OtherTextIsKeptOnce(s[1..], tag, c);
    }
  }

  // ---- Periods -----------------------------------------------------------------------------

  /** Positions below `n` that differ from the one `p` earlier. */
  function Mismatches(s: string, p: nat, n: nat): nat
    requires 0 < p && n <= |s|
  {
    if n == 0 then 0
    else Mismatches(s, p, n - 1) + if n - 1 >= p && s[n - 1] != s[n - 1 - p] then 1 else 0
  }

  predicate Repeats(s: string, p: nat) {
    |s| >= 200 && 0 < p && |s| / p >= 20 && Mismatches(s, p, |s|) * 20 <= |s|
  }

  predicate Degenerate(compact: string) {
    || (CountAll(compact, TAGS) > 0 && RemoveAll(compact, TAGS) == [])
    || exists p | 1 <= p <= 32 :: Repeats(compact, p)
  }

  /** `s` reads the same `p` characters further on, as far as it goes. */
  predicate Periodic(s: string, p: nat) {
    0 < p && forall i | p <= i < |s| :: s[i] == s[i - p]
  }

  /** Leading junk costs at most one mismatch a character. */
  lemma {:induction false} JunkCostsItsLength(junk: string, body: string, p: nat, n: nat)
    requires Periodic(body, p) && n <= |junk + body|
    ensures Mismatches(junk + body, p, n) <= if n <= p then 0 else if n <= |junk| + p then n - p else |junk|
  {
    if n > 0 {
      JunkCostsItsLength(junk, body, p, n - 1);
      if n - 1 >= |junk| + p {
        assert body[n - 1 - |junk|] == body[n - 1 - |junk| - p];
      }
    }
  }

  /** Text of a period up to 32, possibly cut short, after junk of at most a twentieth of the whole. */
  lemma RunawayIsFlagged(junk: string, body: string, p: nat)
    requires 1 <= p <= 32 && Periodic(body, p)
    requires |junk + body| >= 200 && 20 * |junk| <= |junk + body| && |junk + body| / p >= 20
    ensures Degenerate(junk + body)
  {
    JunkCostsItsLength(junk, body, p, |junk + body|);
    assert Repeats(junk + body, p);
  }

  predicate Pieces(pieces: seq<string>, p: nat) {
    forall k | 0 <= k < |pieces| :: Periodic(pieces[k], p)
  }

  /** What few mismatches mean: the text is a row of periodic pieces, one more than mismatches. */
  lemma {:induction false} FewMismatchesFewPieces(s: string, p: nat, n: nat) returns (pieces: seq<string>)
    requires 0 < p && n <= |s|
    ensures Flatten(pieces) == s[..n] && Pieces(pieces, p)
    ensures |pieces| == Mismatches(s, p, n) + 1
  {
    if n == 0 {
      pieces := [""];
      assert Flatten(pieces) == "" + Flatten(pieces[1..]);
    } else {
      var before := FewMismatchesFewPieces(s, p, n - 1);
      var c := s[n - 1];
      assert s[..n] == s[..n - 1] + [c];
      if n - 1 >= p && c != s[n - 1 - p] {
        pieces := before + [[c]];
        FlattenAppend(before, [c]);
      } else {
        pieces := GrowLast(before, s[..n - 1], c, p);
      }
    }
  }

  lemma GrowLast(pieces: seq<string>, s: string, c: char, p: nat) returns (grown: seq<string>)
    requires pieces != [] && Pieces(pieces, p) && Flatten(pieces) == s
    requires |s| >= p ==> c == s[|s| - p]
    ensures Flatten(grown) == s + [c] && Pieces(grown, p) && |grown| == |pieces|
  {
    hide Flatten;
    var m := |pieces| - 1;
    var init, last := pieces[..m], pieces[m];
    assert pieces == init + [last];
    FlattenAppend(init, last);
    FlattenAppend(init, last + [c]);
    grown := init + [last + [c]];
    LastPieceGrows(s, Flatten(init), last, c, p);
    assert Flatten(init) + last + [c] == Flatten(init) + (last + [c]);
  }

  lemma LastPieceGrows(s: string, init: string, last: string, c: char, p: nat)
    requires s == init + last && Periodic(last, p)
    requires |s| >= p ==> c == s[|s| - p]
    ensures Periodic(last + [c], p)
  {
    if |last| >= p {
      assert s[|s| - p] == last[|last| - p];
    }
  }

  /** And conversely: each seam between pieces costs at most `p` mismatches. */
  lemma {:induction false} PiecesBoundMismatches(pieces: seq<string>, p: nat)
    requires 0 < p && pieces != [] && Pieces(pieces, p)
    ensures Mismatches(Flatten(pieces), p, |Flatten(pieces)|) <= (|pieces| - 1) * p
  {
    var m := |pieces| - 1;
    var init, last := pieces[..m], pieces[m];
    assert pieces == init + [last];
    FlattenAppend(init, last);
    if m == 0 {
      assert Flatten(pieces) == [] + last;
      JunkCostsItsLength([], last, p, |last|);
    } else {
      PiecesBoundMismatches(init, p);
      OneMoreSeam(Flatten(init), last, p, m);
    }
  }

  lemma OneMoreSeam(a: string, last: string, p: nat, m: nat)
    requires m > 0 && Periodic(last, p) && Mismatches(a, p, |a|) <= (m - 1) * p
    ensures Mismatches(a + last, p, |a + last|) <= m * p
  {
    hide Mismatches;
    SeamCost(a, last, p, |a + last|);
    MismatchesOfPrefix(a, last, p, |a|);
    assert (m - 1) * p + p == m * p;
  }

  lemma {:induction false} MismatchesOfPrefix(a: string, b: string, p: nat, n: nat)
    requires 0 < p && n <= |a|
    ensures Mismatches(a + b, p, n) == Mismatches(a, p, n)
  {
    if n > 0 {
      MismatchesOfPrefix(a, b, p, n - 1);
    }
  }

  lemma {:induction false} SeamCost(a: string, b: string, p: nat, n: nat)
    requires Periodic(b, p) && |a| <= n <= |a + b|
    ensures Mismatches(a + b, p, n) <= Mismatches(a + b, p, |a|) + if n <= |a| + p then n - |a| else p
  {
    if n > |a| {
      SeamCost(a, b, p, n - 1);
      if n - 1 >= |a| + p {
        assert b[n - 1 - |a|] == b[n - 1 - |a| - p];
      }
    }
  }

  /** The positions that differ from the one `p` earlier. */
  function Broken(s: string, p: nat, n: nat): set<nat>
    requires n <= |s|
  {
    set i: nat | i < n && DiffersAt(s, p, i)
  }

  predicate DiffersAt(s: string, p: nat, i: nat) {
    p <= i < |s| && s[i] != s[i - p]
  }

  lemma {:induction false} MismatchesAreBroken(s: string, p: nat, n: nat)
    requires 0 < p && n <= |s|
    ensures Mismatches(s, p, n) == |Broken(s, p, n)|
  {
    if n > 0 {
      MismatchesAreBroken(s, p, n - 1);
      if n - 1 >= p && s[n - 1] != s[n - 1 - p] {
        assert Broken(s, p, n) == Broken(s, p, n - 1) + {n - 1};
      } else {
        assert Broken(s, p, n) == Broken(s, p, n - 1);
      }
    }
  }

  /** Exactly which long answers are taken for a repetition: for some period up to 32 that fits in
      twenty times, at most one position in twenty is broken. */
  lemma RepetitionIff(compact: string)
    requires exists c :: c in compact && forall k | 0 <= k < |TAGS| :: c !in TAGS[k]
    ensures Degenerate(compact) <==>
            |compact| >= 200 && exists p :: 1 <= p <= 32 && 20 * p <= |compact|
                                            && 20 * |Broken(compact, p, |compact|)| <= |compact|
  {
    hide Mismatches, TAGS, Broken;
    var c :| c in compact && forall k | 0 <= k < |TAGS| :: c !in TAGS[k];
    TagsAreTags();
    OtherTextIsKept(compact, TAGS, c);
    forall p | 1 <= p <= 32
      ensures Repeats(compact, p) <==>
              |compact| >= 200 && 20 * p <= |compact| && 20 * |Broken(compact, p, |compact|)| <= |compact|
    {
      MismatchesAreBroken(compact, p, |compact|);
      FitsTwentyTimes(|compact|, p);
    }
  }

  lemma FitsTwentyTimes(n: nat, p: nat)
    requires p > 0
    ensures n / p >= 20 <==> 20 * p <= n
  {
  }

  /** What is flagged has no character that is in no tag, or is a row of periodic pieces with hardly
      more seams than one in twenty characters. */
  lemma FlaggedIsRunaway(compact: string) returns (p: nat, pieces: seq<string>)
    requires Degenerate(compact)
    ensures || (forall c | c in compact :: exists k :: 0 <= k < |TAGS| && c in TAGS[k])
            || (|compact| >= 200 && 1 <= p <= 32 && 20 * p <= |compact|
                && Flatten(pieces) == compact && Pieces(pieces, p) && 20 * (|pieces| - 1) <= |compact|)
  {
    hide Mismatches, TAGS;
    TagsAreTags();
    p, pieces := 0, [];
    if CountAll(compact, TAGS) > 0 && RemoveAll(compact, TAGS) == [] {
      forall c | c in compact
        ensures exists k :: 0 <= k < |TAGS| && c in TAGS[k]
      {
        if forall k | 0 <= k < |TAGS| :: c !in TAGS[k] {
          OtherTextIsKept(compact, TAGS, c);
          assert false;
        }
      }
    } else {
      p :| 1 <= p <= 32 && Repeats(compact, p);
      pieces := FewMismatchesFewPieces(compact, p, |compact|);
      assert compact[..|compact|] == compact;
      FitsTwentyTimes(|compact|, p);
    }
  }

  // ---- The check ---------------------------------------------------------------------------

  /** The answer without white space and control characters. */
  function Compact(content: string, dropped: char -> bool): string {
    if content == [] then []
    else Compact(content[..|content| - 1], dropped)
         + if dropped(content[|content| - 1]) then [] else [content[|content| - 1]]
  }

  method CountMismatches(s: string, p: nat) returns (m: nat)
    requires 0 < p <= |s|
    ensures m == Mismatches(s, p, |s|)
  {
    m := 0;
    NoneBeforePeriod(s, p, p);
    for i := p to |s|
      invariant m == Mismatches(s, p, i)
    {
      if s[i] != s[i - p] {
        m := m + 1;
      }
    }
  }

  lemma {:induction false} NoneBeforePeriod(s: string, p: nat, n: nat)
    requires 0 < p && n <= p && n <= |s|
    ensures Mismatches(s, p, n) == 0
  {
    if n > 0 {
      NoneBeforePeriod(s, p, n - 1);
    }
  }

  method IsDegenerate(content: string, dropped: char -> bool) returns (r: bool)
    ensures r <==> Degenerate(Compact(content, dropped))
  {
    hide Remove, Occurrences, Mismatches;
    var compact := "";
    for i := 0 to |content|
      invariant compact == Compact(content[..i], dropped)
    {
      assert content[..i + 1][..i] == content[..i];
      if !dropped(content[i]) {
        compact := compact + [content[i]];
      }
    }
    assert content[..|content|] == content;
    if compact == [] {
      NothingIsNotDegenerate(TAGS);
      return false;
    }
    var remainder, tags := compact, 0;
    for i := 0 to |TAGS|
      invariant RemoveAll(compact, TAGS) == RemoveAll(remainder, TAGS[i..])
      invariant CountAll(compact, TAGS) == tags + CountAll(remainder, TAGS[i..])
    {
      assert TAGS[i..][0] == TAGS[i] && TAGS[i..][1..] == TAGS[i + 1..];
      tags := tags + Occurrences(remainder, TAGS[i]);
      remainder := Remove(remainder, TAGS[i]);
    }
    if tags > 0 && remainder == [] {
      return true;
    }
    if |compact| < 200 {
      return false;
    }
    for period := 1 to 33
      invariant forall p | 1 <= p < period :: !Repeats(compact, p)
    {
      if |compact| / period >= 20 {
        var m := CountMismatches(compact, period);
        if m * 20 <= |compact| {
          assert Repeats(compact, period);
          return true;
        }
      }
    }
    return false;
  }

  lemma {:induction false} NothingIsNotDegenerate(kinds: seq<string>)
    requires Nonempty(kinds)
    ensures CountAll([], kinds) == 0
    decreases kinds
  {
    if kinds != [] {
      NothingIsNotDegenerate(kinds[1..]);
    }
  }

  // ---- Answers made of tags ----------------------------------------------------------------

  predicate Blank(s: string, dropped: char -> bool) {
    forall k | 0 <= k < |s| :: dropped(s[k])
  }

  predicate Kept(s: string, dropped: char -> bool) {
    forall k | 0 <= k < |s| :: !dropped(s[k])
  }

  lemma {:induction false} CompactConcat(a: string, b: string, dropped: char -> bool)
    ensures Compact(a + b, dropped) == Compact(a, dropped) + Compact(b, dropped)
  {
    if b == [] {
      assert a + b == a;
    } else {
      var init := b[..|b| - 1];
      assert (a + b)[..|a + b| - 1] == a + init;
      CompactConcat(a, init, dropped);
    }
  }

  lemma {:induction false} CompactOfBlank(s: string, dropped: char -> bool)
    requires Blank(s, dropped)
    ensures Compact(s, dropped) == []
  {
    if s != [] {
      CompactOfBlank(s[..|s| - 1], dropped);
    }
  }

  lemma {:induction false} CompactOfKept(s: string, dropped: char -> bool)
    requires Kept(s, dropped)
    ensures Compact(s, dropped) == s
  {
    if s != [] {
      CompactOfKept(s[..|s| - 1], dropped);
    }
  }

  /** The tags among pieces that are tags or blank. */
  function TagsOf(pieces: seq<string>): seq<string> {
    if pieces == [] then [] else (if pieces[0] in TAGS then [pieces[0]] else []) + TagsOf(pieces[1..])
  }

  lemma {:induction false} TagsOfAreTags(pieces: seq<string>)
    ensures forall k | 0 <= k < |TagsOf(pieces)| :: TagsOf(pieces)[k] in TAGS
  {
    hide TAGS;
    if pieces != [] {
      TagsOfAreTags(pieces[1..]);
    }
  }

  lemma {:induction false} TagsOfKeepsTags(pieces: seq<string>, k: nat)
    requires k < |pieces| && pieces[k] in TAGS
    ensures TagsOf(pieces) != []
  {
    hide TAGS;
    if k > 0 {
      TagsOfKeepsTags(pieces[1..], k - 1);
    }
  }

  lemma {:induction false} CompactIsTags(pieces: seq<string>, dropped: char -> bool)
    requires forall k | 0 <= k < |TAGS| :: Kept(TAGS[k], dropped)
    requires forall k | 0 <= k < |pieces| :: pieces[k] in TAGS || Blank(pieces[k], dropped)
    ensures Compact(Flatten(pieces), dropped) == Flatten(TagsOf(pieces))
  {
    hide Compact, TAGS;
    if pieces != [] {
      var head, rest := pieces[0], pieces[1..];
      CompactIsTags(rest, dropped);
      CompactConcat(head, Flatten(rest), dropped);
      if head in TAGS {
        CompactOfKept(head, dropped);
        FlattenCons(head, TagsOf(rest));
      } else {
        CompactOfBlank(head, dropped);
        assert TagsOf(pieces) == TagsOf(rest);
        assert Compact(Flatten(pieces), dropped) == [] + Compact(Flatten(rest), dropped);
      }
    } else {
      CompactOfBlank("", dropped);
    }
  }

  lemma TagsAreTags()
    ensures AllTags(TAGS)
  {
    assert IsTag(TAGS[0]) && IsTag(TAGS[1]) && IsTag(TAGS[2]) && IsTag(TAGS[3]);
  }

  /** An answer of tags only, in any order and with any white space around them, is flagged. Nothing
      but the tags' own characters is assumed to survive the compaction. */
  lemma TagsAreFlagged(pieces: seq<string>, dropped: char -> bool)
    requires forall k | 0 <= k < |TAGS| :: Kept(TAGS[k], dropped)
    requires forall k | 0 <= k < |pieces| :: pieces[k] in TAGS || Blank(pieces[k], dropped)
    requires exists k :: 0 <= k < |pieces| && pieces[k] in TAGS
    ensures Degenerate(Compact(Flatten(pieces), dropped))
  {
    hide TAGS;
    CompactIsTags(pieces, dropped);
    TagsOfAreTags(pieces);
    var k :| 0 <= k < |pieces| && pieces[k] in TAGS;
    TagsOfKeepsTags(pieces, k);
    TagsOnlyAreFlagged(TagsOf(pieces));
  }

  lemma TagsOnlyAreFlagged(ts: seq<string>)
    requires ts != [] && forall k | 0 <= k < |ts| :: ts[k] in TAGS
    ensures Degenerate(Flatten(ts))
  {
    TagsAreTags();
    hide TAGS;
    RemoveEveryKind(ts, TAGS);
  }

  /** A short answer with any character that is in no tag is an answer. */
  lemma ShortAnswerIsKept(compact: string, c: char)
    requires |compact| < 200 && c in compact && forall k | 0 <= k < |TAGS| :: c !in TAGS[k]
    ensures !Degenerate(compact)
  {
    OtherTextIsKept(compact, TAGS, c);
  }
}
