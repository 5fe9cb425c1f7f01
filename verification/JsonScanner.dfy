/**
  Finding the one JSON object in a model's answer: from the first brace to the brace that balances
  it, counting only braces outside strings.
 */
module JsonScanner {
  import opened Basics

  // ---- The scanner ------------------------------------------------------------------------

  datatype Lex = Lex(depth: int, inString: bool, escaped: bool)

  const OPENED := Lex(1, false, false)

  /** One character after the first brace. */
  function Advance(l: Lex, c: char): Lex {
    if l.inString then
      if l.escaped then l.(escaped := false)
      else if c == '\\' then l.(escaped := true)
      else if c == '"' then l.(inString := false)
      else l
    else if c == '"' then l.(inString := true)
    else if c == '{' then l.(depth := l.depth + 1)
    else if c == '}' then l.(depth := l.depth - 1)
    else l
  }

  function Run(l: Lex, s: string): Lex
    decreases s
  {
    if s == [] then l else Run(Advance(l, s[0]), s[1..])
  }

  /** `s` is one brace group: its braces outside strings match up by its end. */
  predicate Balanced(s: string) {
    s != [] && s[0] == '{' && Run(OPENED, s[1..]).depth == 0
  }

  function Later(n: nat, close: Option<nat>): Option<nat> {
    match close case None => None case Some(m) => Some(n + m)
  }

  /** How many characters it takes until the depth is 0, if it ever is. */
  function Close(l: Lex, s: string): Option<nat>
    decreases s
  {
    if s == [] then None
    else
      var l' := Advance(l, s[0]);
      if l'.depth == 0 then Some(1) else Later(1, Close(l', s[1..]))
  }

  function Extract(text: string): Option<string> {
    if text == [] then None
    else if text[0] == '{' then
      match Close(OPENED, text[1..])
      case None => None
      case Some(n) => CloseIsFirst(OPENED, text[1..]); Some(text[..n + 1])
    else Extract(text[1..])
  }

  /** Closing is reaching depth 0 for the first time. */
  lemma {:induction false} CloseIsFirst(l: Lex, s: string)
    ensures match Close(l, s)
            case Some(n) =>
              && 1 <= n <= |s| && Run(l, s[..n]).depth == 0
              && forall k | 0 < k < n :: Run(l, s[..k]).depth != 0
            case None => forall k | 0 < k <= |s| :: Run(l, s[..k]).depth != 0
    decreases s
  {
    if s != [] {
      var l', rest := Advance(l, s[0]), s[1..];
      CloseIsFirst(l', rest);
      forall k | 0 < k <= |s|
        ensures Run(l, s[..k]) == Run(l', rest[..k - 1])
      {
        assert s[..k][1..] == rest[..k - 1];
      }
      assert Run(l', rest[..0]) == l';
    }
  }

  lemma {:induction false} JunkIsSkipped(junk: string, rest: string)
    requires '{' !in junk
    ensures Extract(junk + rest) == Extract(rest)
  {
    if junk == [] {
      assert junk + rest == rest;
    } else {
      JunkIsSkipped(junk[1..], rest);
      assert (junk + rest)[1..] == junk[1..] + rest;
    }
  }

  /** Where the extracted slice begins, if there is one. */
  function BeginsAt(text: string): Option<nat> {
    if text == [] then None
    else if text[0] == '{' then if Close(OPENED, text[1..]).Some? then Some(0) else None
    else Later(1, BeginsAt(text[1..]))
  }

  /** It begins at the first opening brace. */
  lemma {:induction false} BeginsAtBrace(text: string)
    ensures match Extract(text)
            case None => BeginsAt(text) == None
            case Some(r) =>
              && BeginsAt(text).Some? && r != []
              && var s := BeginsAt(text).value;
              s + |r| <= |text| && r == text[s..s + |r|] && r[0] == '{' && '{' !in text[..s]
  {
    if text != [] {
      if text[0] == '{' {
        CloseIsFirst(OPENED, text[1..]);
      } else {
        BeginsAtBrace(text[1..]);
        if Extract(text).Some? {
          var s := BeginsAt(text).value;
          assert text[..s] == [text[0]] + text[1..][..s - 1];
        }
      }
    }
  }

  lemma NothingToExtract(text: string)
    requires '{' !in text
    ensures Extract(text) == None
  {
    JunkIsSkipped(text, []);
    assert text + [] == text;
  }

  /** Whatever precedes the first brace, the result is the shortest balanced slice that starts
      there, and there is a result exactly when some slice from there is balanced. */
  lemma ExtractIsShortestBalanced(junk: string, rest: string)
    requires '{' !in junk && rest != [] && rest[0] == '{'
    ensures match Extract(junk + rest)
            case Some(r) => r <= rest && Balanced(r) && forall k | 0 <= k < |r| :: !Balanced(rest[..k])
            case None => forall k | 0 <= k <= |rest| :: !Balanced(rest[..k])
  {
    JunkIsSkipped(junk, rest);
    CloseIsFirst(OPENED, rest[1..]);
    assert !Balanced(rest[..0]);
    forall k | 0 < k <= |rest|
      ensures Balanced(rest[..k]) <==> Run(OPENED, rest[1..][..k - 1]).depth == 0
    {
      assert rest[..k][1..] == rest[1..][..k - 1];
    }
  }

  /** The slice from `start` to where the scan, now at `index`, closes. */
  function Cut(text: string, start: nat, index: nat, close: Option<nat>): Option<string>
    requires start <= index <= |text|
  {
    if close.Some? && index + close.value <= |text| then Some(text[start..index + close.value]) else None
  }

  lemma ExtractAtBrace(text: string, index: nat)
    requires index < |text| && text[index] == '{'
    ensures Extract(text[index..]) == Cut(text, index, index + 1, Close(OPENED, text[index + 1..]))
  {
    var rest := text[index..];
    assert rest[1..] == text[index + 1..];
    CloseIsFirst(OPENED, rest[1..]);
    var close := Close(OPENED, rest[1..]);
    assert close.Some? ==> rest[..close.value + 1] == text[index..index + 1 + close.value];
  }

  /** The scan itself: one pass with four variables. */
  method ExtractBalancedJsonObject(text: string) returns (r: Option<string>)
    ensures r == Extract(text)
  {
    var start: Option<nat> := None;
    var l := Lex(0, false, false);
    var index := 0;
    while index < |text|
      invariant index <= |text|
      invariant start.None? ==> Extract(text) == Extract(text[index..])
      invariant start.Some? ==> start.value < index
      invariant start.Some? ==> Extract(text) == Cut(text, start.value, index, Close(l, text[index..]))
    {
      var c := text[index];
      assert text[index..][0] == c && text[index..][1..] == text[index + 1..];
      CloseIsFirst(OPENED, text[index + 1..]);
      if start.None? {
        if c == '{' {
          start, l := Some(index), OPENED;
          ExtractAtBrace(text, index);
        }
      } else {
        l := Advance(l, c);
        if l.depth == 0 {
          return Some(text[start.value..index + 1]);
        }
      }
      index := index + 1;
    }
    assert text[index..] == [];
    return None;
  }

  // ---- JSON texts (sections 2 to 7 of RFC 8259) --------------------------------------------

  /** One character of a string, or a backslash and the character it escapes. The four digits of a
      `\u` escape are characters of their own. */
  datatype StringChar = Plain(c: char) | Escape(c: char)

  /** JSON texts with all their white space, in document order. `Scalar` is a number or one of the
      three literal names. */
  datatype Json =
    | Scalar(text: string)
    | Str(chars: seq<StringChar>)
    | Arr(blank: string, items: Items)
    | Obj(blank: string, members: Members)

  datatype Items = NoItems | Item(before: string, value: Json, after: string, rest: Items)

  datatype Members =
    | NoMembers
    | Member(before: string, key: seq<StringChar>, beforeColon: string,
             afterColon: string, value: Json, after: string, rest: Members)

  predicate IsBlank(s: string) {
    forall c | c in s :: c in " \t\n\r"
  }

  predicate IsScalar(s: string) {
    s in ["true", "false", "null"] || (s != [] && forall c | c in s :: c in "0123456789+-.eE")
  }

  predicate IsString(chars: seq<StringChar>) {
    forall x | x in chars :: x.Plain? ==> x.c >= ' ' && x.c != '"' && x.c != '\\'
  }

  predicate IsJson(v: Json) {
    match v
    case Scalar(text) => IsScalar(text)
    case Str(chars) => IsString(chars)
    case Arr(blank, items) => IsBlank(blank) && AreItems(items)
    case Obj(blank, members) => IsBlank(blank) && AreMembers(members)
  }

  predicate AreItems(items: Items) {
    match items
    case NoItems => true
    case Item(before, value, after, rest) =>
      IsBlank(before) && IsJson(value) && IsBlank(after) && AreItems(rest)
  }

  predicate AreMembers(members: Members) {
    match members
    case NoMembers => true
    case Member(before, key, beforeColon, afterColon, value, after, rest) =>
      && IsBlank(before) && IsString(key) && IsBlank(beforeColon) && IsBlank(afterColon)
      && IsJson(value) && IsBlank(after) && AreMembers(rest)
  }

  function CharsText(chars: seq<StringChar>): string {
    if chars == [] then "\""
    else (if chars[0].Plain? then [chars[0].c] else ['\\', chars[0].c]) + CharsText(chars[1..])
  }

  function Text(v: Json): string {
    match v
    case Scalar(text) => text
    case Str(chars) => "\"" + CharsText(chars)
    case Arr(blank, items) => "[" + (blank + (ItemsText(items) + "]"))
    case Obj(blank, members) => "{" + (blank + (MembersText(members) + "}"))
  }

  function ItemsText(items: Items): string {
    match items
    case NoItems => ""
    case Item(before, value, after, rest) =>
      before + (Text(value) + (after + (if rest.NoItems? then "" else "," + ItemsText(rest))))
  }

  function MembersText(members: Members): string {
    match members
    case NoMembers => ""
    case Member(before, key, beforeColon, afterColon, value, after, rest) =>
      before + ("\"" + (CharsText(key) + (beforeColon + (":" + (afterColon
      + (Text(value) + (after + (if rest.NoMembers? then "" else "," + MembersText(rest)))))))))
  }

  // ---- The scanner passes over every value -------------------------------------------------

  /** Outside strings at depth `d`. */
  function At(d: nat): Lex { Lex(d, false, false) }

  /** From state `l`, scanning `s` leads to state `l'` without closing, whatever follows. */
  ghost predicate Passes(l: Lex, s: string, l': Lex) {
    forall t: string :: Close(l, s + t) == Later(|s|, Close(l', t))
  }

  lemma PassesThen(l: Lex, a: string, m: Lex, b: string, r: Lex)
    requires Passes(l, a, m) && Passes(m, b, r)
    ensures Passes(l, a + b, r)
  {
    forall t: string ensures Close(l, a + b + t) == Later(|a + b|, Close(r, t)) {
      assert a + b + t == a + (b + t);
    }
  }

  lemma PassesOne(l: Lex, c: char)
    requires Advance(l, c).depth != 0
    ensures Passes(l, [c], Advance(l, c))
  {
    forall t: string ensures Close(l, [c] + t) == Later(1, Close(Advance(l, c), t)) {
      assert ([c] + t)[1..] == t;
    }
  }

  lemma PassesNothing(l: Lex)
    ensures Passes(l, "", l)
  {
    forall t: string ensures Close(l, "" + t) == Later(0, Close(l, t)) {
      assert "" + t == t;
    }
  }

  predicate Quiet(c: char) { c != '"' && c != '{' && c != '}' }

  lemma {:induction false} PassesQuiet(d: nat, s: string)
    requires d > 0 && forall c | c in s :: Quiet(c)
    ensures Passes(At(d), s, At(d))
  {
    hide Passes;
    PassesNothing(At(d));
    if s != [] {
      assert Quiet(s[0]);
      PassesOne(At(d), s[0]);
      PassesQuiet(d, s[1..]);
      PassesThen(At(d), [s[0]], At(d), s[1..], At(d));
      assert [s[0]] + s[1..] == s;
    }
  }

  /** The characters of a string and its closing quote, from just after the opening one. */
  lemma {:induction false} PassesChars(d: nat, chars: seq<StringChar>)
    requires d > 0 && IsString(chars)
    ensures Passes(Lex(d, true, false), CharsText(chars), At(d))
  {
    hide Passes;
    var inside := Lex(d, true, false);
    if chars == [] {
      PassesOne(inside, '"');
    } else {
      var c := chars[0].c;
      if chars[0].Plain? {
        PassesOne(inside, c);
      } else {
        PassesOne(inside, '\\');
        PassesOne(Lex(d, true, true), c);
        PassesThen(inside, ['\\'], Lex(d, true, true), [c], inside);
        assert ['\\'] + [c] == ['\\', c];
      }
      PassesChars(d, chars[1..]);
      PassesThen(inside, if chars[0].Plain? then [c] else ['\\', c], inside, CharsText(chars[1..]), At(d));
    }
  }

  lemma PassesString(d: nat, chars: seq<StringChar>)
    requires d > 0 && IsString(chars)
    ensures Passes(At(d), "\"" + CharsText(chars), At(d))
  {
    hide Passes;
    PassesOne(At(d), '"');
    PassesChars(d, chars);
    PassesThen(At(d), "\"", Lex(d, true, false), CharsText(chars), At(d));
  }

  /** Passing `s` at the same depth in front of something that passes. */
  lemma PassesBefore(d: nat, s: string, rest: string)
    requires Passes(At(d), s, At(d)) && Passes(At(d), rest, At(d))
    ensures Passes(At(d), s + rest, At(d))
  {
    PassesThen(At(d), s, At(d), rest, At(d));
  }

  lemma {:induction false} PassesValue(d: nat, v: Json)
    requires d > 0 && IsJson(v)
    ensures Passes(At(d), Text(v), At(d))
    decreases v
  {
    hide Passes;
    match v
    case Scalar(text) =>
      PassesQuiet(d, text);
    case Str(chars) =>
      PassesString(d, chars);
    case Arr(blank, items) =>
      PassesQuiet(d, blank);
      PassesItems(d, items);
      PassesBrackets(d, blank, ItemsText(items));
    case Obj(blank, members) =>
      PassesInside(d + 1, blank, members);
      PassesBraces(d, blank, MembersText(members));
  }

  lemma PassesBrackets(d: nat, blank: string, inside: string)
    requires d > 0 && Passes(At(d), blank, At(d)) && Passes(At(d), inside, At(d))
    ensures Passes(At(d), "[" + (blank + (inside + "]")), At(d))
  {
    hide Passes;
    PassesQuiet(d, "[");
    PassesQuiet(d, "]");
    PassesBefore(d, inside, "]");
    PassesBefore(d, blank, inside + "]");
    PassesBefore(d, "[", blank + (inside + "]"));
  }

  lemma PassesBraces(d: nat, blank: string, inside: string)
    requires d > 0 && Passes(At(d + 1), blank + inside, At(d + 1))
    ensures Passes(At(d), "{" + (blank + (inside + "}")), At(d))
  {
    hide Passes;
    PassesOne(At(d), '{');
    PassesOne(At(d + 1), '}');
    PassesThen(At(d + 1), blank + inside, At(d + 1), "}", At(d));
    assert blank + (inside + "}") == blank + inside + "}";
    PassesThen(At(d), "{", At(d + 1), blank + inside + "}", At(d));
  }

  lemma {:induction false} PassesInside(d: nat, blank: string, members: Members)
    requires d > 0 && IsBlank(blank) && AreMembers(members)
    ensures Passes(At(d), blank + MembersText(members), At(d))
    decreases members, 1
  {
    hide Passes;
    PassesQuiet(d, blank);
    PassesMembers(d, members);
    PassesBefore(d, blank, MembersText(members));
  }

  lemma {:induction false} PassesItems(d: nat, items: Items)
    requires d > 0 && AreItems(items)
    ensures Passes(At(d), ItemsText(items), At(d))
    decreases items
  {
    hide Passes;
    match items
    case NoItems => PassesNothing(At(d));
    case Item(before, value, after, rest) =>
      PassesItems(d, rest);
      PassesQuiet(d, ",");
      PassesBefore(d, ",", ItemsText(rest));
      PassesNothing(At(d));
      var more := if rest.NoItems? then "" else "," + ItemsText(rest);
      PassesQuiet(d, after);
      PassesBefore(d, after, more);
      PassesValue(d, value);
      PassesBefore(d, Text(value), after + more);
      PassesQuiet(d, before);
      PassesBefore(d, before, Text(value) + (after + more));
  }

  lemma {:induction false} PassesMembers(d: nat, members: Members)
    requires d > 0 && AreMembers(members)
    ensures Passes(At(d), MembersText(members), At(d))
    decreases members, 0
  {
    hide Passes;
    match members
    case NoMembers => PassesNothing(At(d));
    case Member(before, key, beforeColon, afterColon, value, after, rest) =>
      PassesMembers(d, rest);
      PassesQuiet(d, ",");
      PassesBefore(d, ",", MembersText(rest));
      PassesNothing(At(d));
      var more := if rest.NoMembers? then "" else "," + MembersText(rest);
      PassesQuiet(d, after);
      PassesBefore(d, after, more);
      PassesValue(d, value);
      PassesBefore(d, Text(value), after + more);
      PassesQuiet(d, afterColon);
      PassesBefore(d, afterColon, Text(value) + (after + more));
      var colon := ":" + (afterColon + (Text(value) + (after + more)));
      PassesQuiet(d, ":");
      PassesBefore(d, ":", afterColon + (Text(value) + (after + more)));
      PassesQuiet(d, beforeColon);
      PassesBefore(d, beforeColon, colon);
      PassesString(d, key);
      PassesBefore(d, "\"" + CharsText(key), beforeColon + colon);
      assert "\"" + (CharsText(key) + (beforeColon + colon)) == ("\"" + CharsText(key)) + (beforeColon + colon);
      PassesQuiet(d, before);
      PassesBefore(d, before, "\"" + (CharsText(key) + (beforeColon + colon)));
  }

  // ---- Extraction is exact -----------------------------------------------------------------

  /** Any text without an opening brace, one JSON object and any text at all: what is extracted is
      the object, character for character. */
  lemma ObjectIsExtracted(junk: string, v: Json, suffix: string)
    requires '{' !in junk && v.Obj? && IsJson(v)
    ensures Extract(junk + Text(v) + suffix) == Some(Text(v))
  {
    hide *;
    var inside := v.blank + MembersText(v.members);
    ObjectText(junk, v, inside, suffix);
    JunkIsSkipped(junk, Text(v) + suffix);
    PassesObject(v);
    ClosesBehind(inside, suffix);
    ExtractClosed(Text(v) + suffix, |inside| + 1);
  }

  lemma ExtractClosed(text: string, n: nat)
    requires text != [] && text[0] == '{' && Close(OPENED, text[1..]) == Some(n) && n < |text|
    ensures Extract(text) == Some(text[..n + 1])
  {
    hide Close;
  }

  /** The text of an object and what surrounds it, piece by piece. */
  lemma ObjectText(junk: string, v: Json, inside: string, suffix: string)
    requires v.Obj? && inside == v.blank + MembersText(v.members)
    ensures var rest := Text(v) + suffix;
            && junk + Text(v) + suffix == junk + rest
            && rest != [] && rest[0] == '{' && rest[1..] == inside + ("}" + suffix)
            && |inside| + 1 < |rest| && rest[..|inside| + 1 + 1] == Text(v)
  {
    hide MembersText;
    assert Text(v) == "{" + inside + "}";
  }

  lemma PassesObject(v: Json)
    requires v.Obj? && IsJson(v)
    ensures Passes(At(1), v.blank + MembersText(v.members), At(1))
  {
    PassesInside(1, v.blank, v.members);
  }

  lemma ClosesBehind(inside: string, suffix: string)
    requires Passes(At(1), inside, At(1))
    ensures Close(OPENED, inside + ("}" + suffix)) == Some(|inside| + 1)
  {
    BraceCloses(suffix);
    hide Close;
    assert At(1) == OPENED;
  }

  lemma BraceCloses(suffix: string)
    ensures Close(At(1), "}" + suffix) == Some(1)
  {
    assert ("}" + suffix)[0] == '}';
    assert Advance(At(1), '}').depth == 0;
  }

  /** Exactly when: the slice extracted is the one at the object, rather than an earlier one or none,
      if and only if no opening brace stands in front of the object. */
  lemma ObjectIsFoundIff(junk: string, v: Json, suffix: string)
    requires v.Obj? && IsJson(v)
    ensures BeginsAt(junk + Text(v) + suffix) == Some(|junk|) <==> '{' !in junk
  {
    var text := junk + Text(v) + suffix;
    BeginsAtBrace(text);
    assert text[..|junk|] == junk && text[|junk|] == '{';
    if '{' !in junk {
      ObjectIsExtracted(junk, v, suffix);
      OneFirstBrace(text, BeginsAt(text).value, |junk|);
    }
  }

  lemma OneFirstBrace(text: string, s: nat, m: nat)
    requires s < |text| && text[s] == '{' && '{' !in text[..s]
    requires m < |text| && text[m] == '{' && '{' !in text[..m]
    ensures s == m
  {
    assert forall i | 0 <= i < s :: text[..s][i] == text[i] && text[i] in text[..s];
    assert forall i | 0 <= i < m :: text[..m][i] == text[i] && text[i] in text[..m];
  }

  /** One stray brace directly in front of the object and nothing behind it: nothing is found. */
  lemma BraceInFrontWins(junk: string, v: Json)
    requires '{' !in junk && v.Obj? && IsJson(v)
    ensures Extract(junk + "{" + Text(v)) == None
  {
    var rest := "{" + Text(v);
    assert junk + "{" + Text(v) == junk + rest;
    JunkIsSkipped(junk, rest);
    PassesValue(1, v);
    assert rest[1..] == Text(v) + "";
    assert Close(OPENED, "") == None;
  }
}
