/**
  The recursive sanitizers of language-server results: one budget is threaded through a whole tree
  of document symbols, or through all the strings of a hover.
 */
module LspSanitizers {
  import opened Basics

  const MAX_DEPTH: nat := 16
  const MAX_HOVER_ITEMS: nat := 32

  function Take<T>(s: seq<T>, n: nat): seq<T> {
    if n <= |s| then s[..n] else s
  }

  /** Taking from two pieces in turn, with what the first leaves of the budget. */
  lemma TakeTwo<T>(a: seq<T>, b: seq<T>, n: nat)
    ensures |Take(a, n)| <= n
    ensures Take(a + b, n) == Take(a, n) + Take(b, n - |Take(a, n)|)
  {
    if n >= |a| {
      assert (a + b)[..|a|] == a;
    }
  }

  // ---- Document symbols -------------------------------------------------------------------

  /** A symbol as the server sent it: whether its own fields are acceptable, whether it is the flat
      kind with a location (which has no children), and what identifies it. */
  datatype Symbol = Symbol(id: nat, acceptable: bool, flat: bool, children: seq<Symbol>)

  datatype Node = Node(id: nat, children: seq<Node>)

  datatype Sanitized<T> = Sanitized(out: T, left: nat)

  /** `sanitize_document_symbol_item`. */
  function Item(s: Symbol, depth: nat, budget: nat): Sanitized<Option<Node>>
    decreases s, 1
  {
    if depth >= MAX_DEPTH || budget == 0 || !s.acceptable then Sanitized(None, budget)
    else if s.flat then Sanitized(Some(Node(s.id, [])), budget - 1)
    else
      var inner := Items(s.children, depth + 1, budget - 1);
      Sanitized(Some(Node(s.id, inner.out)), inner.left)
  }

  /** The loop over siblings. */
  function Items(symbols: seq<Symbol>, depth: nat, budget: nat): Sanitized<seq<Node>>
    decreases symbols, 0
  {
    if symbols == [] || budget == 0 then Sanitized([], budget)
    else
      var first := Item(symbols[0], depth, budget);
      var rest := Items(symbols[1..], depth, first.left);
      Sanitized((if first.out.Some? then [first.out.value] else []) + rest.out, rest.left)
  }

  /** A line of an outline: how deep a symbol stands and which one it is. */
  datatype Row = Row(level: nat, id: nat)

  /** The outline in document order, as if the budget were endless. */
  function Listing(s: Symbol, depth: nat): seq<Row>
    decreases s, 1
  {
    if depth >= MAX_DEPTH || !s.acceptable then []
    else if s.flat then [Row(depth, s.id)]
    else [Row(depth, s.id)] + Listings(s.children, depth + 1)
  }

  function Listings(symbols: seq<Symbol>, depth: nat): seq<Row>
    decreases symbols, 0
  {
    if symbols == [] then [] else Listing(symbols[0], depth) + Listings(symbols[1..], depth)
  }

  function Outline(n: Node, depth: nat): seq<Row>
    decreases n, 1
  {
    [Row(depth, n.id)] + Outlines(n.children, depth + 1)
  }

  function Outlines(nodes: seq<Node>, depth: nat): seq<Row>
    decreases nodes, 0
  {
    if nodes == [] then [] else Outline(nodes[0], depth) + Outlines(nodes[1..], depth)
  }

  predicate NotAbove(rows: seq<Row>, level: nat) {
    forall k | 0 <= k < |rows| :: rows[k].level >= level
  }

  lemma {:induction false} OutlinesAreBelow(nodes: seq<Node>, depth: nat)
    ensures NotAbove(Outlines(nodes, depth), depth)
    ensures nodes != [] ==> Outlines(nodes, depth) != [] && Outlines(nodes, depth)[0] == Row(depth, nodes[0].id)
    decreases nodes
  {
    if nodes != [] {
      var inner := Outlines(nodes[0].children, depth + 1);
      OutlinesAreBelow(nodes[0].children, depth + 1);
      OutlinesAreBelow(nodes[1..], depth);
      assert NotAbove([Row(depth, nodes[0].id)] + inner, depth);
    }
  }

  /** An outline tells the nodes and how they are nested. */
  lemma {:induction false} OutlineIsUnique(a: seq<Node>, b: seq<Node>, depth: nat)
    requires Outlines(a, depth) == Outlines(b, depth)
    ensures a == b
    decreases a
  {
    hide Outlines, Outline, NotAbove;
    OutlinesAreBelow(a, depth);
    OutlinesAreBelow(b, depth);
    OutlineParts(a, depth);
    OutlineParts(b, depth);
    if a != [] {
      OutlineParts(a[1..], depth);
    }
    if b != [] {
      OutlineParts(b[1..], depth);
    }
    if a != [] && b != [] {
      OutlinesAreBelow(a[0].children, depth + 1);
      OutlinesAreBelow(b[0].children, depth + 1);
      OutlinesAreBelow(a[1..], depth);
      OutlinesAreBelow(b[1..], depth);
      CutWhereLevelFalls(Outlines(a[0].children, depth + 1), Outlines(a[1..], depth),
                         Outlines(b[0].children, depth + 1), Outlines(b[1..], depth), depth);
      OutlineIsUnique(a[0].children, b[0].children, depth + 1);
      OutlineIsUnique(a[1..], b[1..], depth);
      assert a == [a[0]] + a[1..] && b == [b[0]] + b[1..];
    }
  }

  lemma OutlineParts(nodes: seq<Node>, depth: nat)
    ensures nodes == [] ==> Outlines(nodes, depth) == []
    ensures nodes != [] ==>
              && Outlines(nodes, depth) != [] && Outlines(nodes, depth)[0] == Row(depth, nodes[0].id)
              && Outlines(nodes, depth)[1..] == Outlines(nodes[0].children, depth + 1) + Outlines(nodes[1..], depth)
  {
    if nodes != [] {
      RowsBehind(Row(depth, nodes[0].id), Outlines(nodes[0].children, depth + 1), Outlines(nodes[1..], depth));
    }
  }

  lemma RowsBehind(row: Row, inner: seq<Row>, rest: seq<Row>)
    ensures ([row] + inner + rest)[0] == row && ([row] + inner + rest)[1..] == inner + rest
  {
  }

  lemma CutWhereLevelFalls(inA: seq<Row>, restA: seq<Row>, inB: seq<Row>, restB: seq<Row>, depth: nat)
    requires inA + restA == inB + restB
    requires NotAbove(inA, depth + 1) && NotAbove(inB, depth + 1)
    requires (restA != [] ==> restA[0].level == depth) && (restB != [] ==> restB[0].level == depth)
    ensures inA == inB && restA == restB
  {
    var all := inA + restA;
    assert |inA| < |all| ==> all[|inA|] == restA[0];
    assert |inB| < |all| ==> all[|inB|] == restB[0];
    assert inA == all[..|inA|] && inB == all[..|inB|];
    assert restA == all[|inA|..] && restB == all[|inB|..];
  }

  /** The budget is conserved and spent in document order: what comes out is the outline cut after
      as many nodes as the budget pays for, every node at its place, and every node out has been paid
      for. */
  lemma {:induction false} SymbolBudget(s: Symbol, depth: nat, budget: nat)
    ensures var r := Item(s, depth, budget);
            var out := if r.out.Some? then Outline(r.out.value, depth) else [];
            out == Take(Listing(s, depth), budget) && |out| + r.left == budget
    decreases s, 1
  {
    if depth < MAX_DEPTH && budget > 0 && s.acceptable {
      if s.flat {
        assert Outlines([], depth + 1) == [];
      } else {
        SymbolsBudget(s.children, depth + 1, budget - 1);
        TakeTwo([Row(depth, s.id)], Listings(s.children, depth + 1), budget);
      }
    }
  }

  lemma {:induction false} SymbolsBudget(symbols: seq<Symbol>, depth: nat, budget: nat)
    ensures var r := Items(symbols, depth, budget);
            && Outlines(r.out, depth) == Take(Listings(symbols, depth), budget)
            && |Outlines(r.out, depth)| + r.left == budget
    decreases symbols, 0
  {
    if symbols != [] && budget > 0 {
      var first := Item(symbols[0], depth, budget);
      SymbolBudget(symbols[0], depth, budget);
      SymbolsBudget(symbols[1..], depth, first.left);
      TakeTwo(Listing(symbols[0], depth), Listings(symbols[1..], depth), budget);
      var rest := Items(symbols[1..], depth, first.left).out;
      if first.out.Some? {
        assert ([first.out.value] + rest)[1..] == rest;
      } else {
        assert [] + rest == rest;
      }
    }
  }

  function Height(n: Node): nat
    decreases n, 1
  {
    1 + Heights(n.children)
  }

  function Heights(nodes: seq<Node>): nat
    decreases nodes, 0
  {
    if nodes == [] then 0
    else if Height(nodes[0]) >= Heights(nodes[1..]) then Height(nodes[0]) else Heights(nodes[1..])
  }

  lemma HeightsBounded(n: Node, rest: seq<Node>, bound: nat)
    requires Height(n) <= bound && Heights(rest) <= bound
    ensures Heights([n] + rest) <= bound
  {
    assert ([n] + rest)[1..] == rest;
  }

  /** Nothing below the sixteenth level comes out. */
  lemma {:induction false} SymbolDepth(symbols: seq<Symbol>, depth: nat, budget: nat)
    requires depth <= MAX_DEPTH
    ensures Heights(Items(symbols, depth, budget).out) <= MAX_DEPTH - depth
    decreases symbols
  {
    if symbols != [] && budget > 0 {
      var s := symbols[0];
      var first := Item(s, depth, budget);
      var rest := Items(symbols[1..], depth, first.left).out;
      SymbolDepth(symbols[1..], depth, first.left);
      if first.out.Some? {
        if s.flat {
          assert Heights([]) == 0;
        } else {
          SymbolDepth(s.children, depth + 1, budget - 1);
        }
        HeightsBounded(first.out.value, rest, MAX_DEPTH - depth);
      } else {
        assert [] + rest == rest;
      }
    }
  }

  /** `sanitize_document_symbol_item` as the source has it: a budget that counts down, and a loop
      over the children that stops when it is spent. */
  method SanitizeItem(s: Symbol, depth: nat, remaining: nat) returns (out: Option<Node>, left: nat)
    ensures Sanitized(out, left) == Item(s, depth, remaining)
    decreases s, 1
  {
    left := remaining;
    if depth >= MAX_DEPTH || left == 0 || !s.acceptable {
      return None, left;
    }
    left := left - 1;
    if s.flat {
      return Some(Node(s.id, [])), left;
    }
    var children;
    children, left := SanitizeItems(s, depth + 1, left);
    out := Some(Node(s.id, children));
  }

  method SanitizeItems(parent: Symbol, depth: nat, remaining: nat) returns (out: seq<Node>, left: nat)
    ensures Sanitized(out, left) == Items(parent.children, depth, remaining)
    decreases parent, 0
  {
    out, left := [], remaining;
    var i := 0;
    FollowingNothing(Items(parent.children, depth, remaining));
    assert parent.children[0..] == parent.children;
    while i < |parent.children|
      invariant i <= |parent.children|
      invariant Items(parent.children, depth, remaining) == Following(out, Items(parent.children[i..], depth, left))
    {
      if left == 0 {
        break;
      }
      ghost var rest, before, budget := parent.children[i..], out, left;
      assert rest[1..] == parent.children[i + 1..];
      var child;
      child, left := SanitizeItem(parent.children[i], depth, left);
      if child.Some? {
        out := out + [child.value];
      }
      FollowingOneMore(before, rest, depth, budget);
      i := i + 1;
    }
    assert Items(parent.children[i..], depth, left) == Sanitized([], left);
    assert out + [] == out;
  }

  function Following(before: seq<Node>, r: Sanitized<seq<Node>>): Sanitized<seq<Node>> {
    Sanitized(before + r.out, r.left)
  }

  lemma FollowingNothing(r: Sanitized<seq<Node>>)
    ensures Following([], r) == r
  {
    assert [] + r.out == r.out;
  }

  lemma FollowingOneMore(before: seq<Node>, symbols: seq<Symbol>, depth: nat, budget: nat)
    requires symbols != [] && budget > 0
    ensures var first := Item(symbols[0], depth, budget);
            Following(before, Items(symbols, depth, budget)) ==
            Following(if first.out.Some? then before + [first.out.value] else before,
                      Items(symbols[1..], depth, first.left))
  {
    var first := Item(symbols[0], depth, budget);
    var rest := Items(symbols[1..], depth, first.left).out;
    if first.out.Some? {
      assert before + ([first.out.value] + rest) == before + [first.out.value] + rest;
    } else {
      assert [] + rest == rest;
    }
  }

  // ---- Hover ------------------------------------------------------------------------------

  /** The parts of a JSON value a hover keeps. */
  datatype Hover =
    | Plain(text: seq<nat>)
    | Many(items: seq<Hover>)
    | Marked(parts: seq<Hover>)   // those of "kind", "language" and "value" that are present
    | Nothing

  /** `hover_contents_has_data`. */
  predicate HasData(h: Hover)
    decreases h
  {
    match h
    case Plain(text) => text != []
    case Many(items) => exists i | 0 <= i < |items| :: HasData(items[i])
    case Marked(parts) => exists i | 0 <= i < |parts| :: HasData(parts[i])
    case Nothing => false
  }

  /** `sanitize_hover_contents`. */
  function Contents(h: Hover, budget: nat): Sanitized<Hover>
    decreases h, 1
  {
    if budget == 0 then Sanitized(Nothing, budget)
    else
      match h
      case Plain(text) => Sanitized(Plain(Take(text, budget)), budget - |Take(text, budget)|)
      case Many(items) => var r := Parts(items, MAX_HOVER_ITEMS, budget); Sanitized(Many(r.out), r.left)
      case Marked(parts) => var r := Parts(parts, |parts|, budget); Sanitized(Marked(r.out), r.left)
      case Nothing => Sanitized(Nothing, budget)
  }

  /** Each of the first `quota` parts in turn; parts without data are dropped. */
  function Parts(parts: seq<Hover>, quota: nat, budget: nat): Sanitized<seq<Hover>>
    decreases parts, 0
  {
    if parts == [] || quota == 0 then Sanitized([], budget)
    else
      var first := Contents(parts[0], budget);
      var rest := Parts(parts[1..], quota - 1, first.left);
      Sanitized((if HasData(first.out) then [first.out] else []) + rest.out, rest.left)
  }

  datatype Kind = InList | InObject

  /** A character of a hover, whether its string begins with it, and the lists and objects that the
      string is in, outermost first. */
  datatype Glyph = Glyph(c: nat, starts: bool, within: seq<Kind>)

  function Glyphs(text: seq<nat>, within: seq<Kind>): seq<Glyph> {
    seq(|text|, i requires 0 <= i < |text| => Glyph(text[i], i == 0, within))
  }

  /** All characters a hover shows, in order, and where they stand. */
  function Shown(h: Hover, within: seq<Kind>): seq<Glyph>
    decreases h, 1
  {
    match h
    case Plain(text) => Glyphs(text, within)
    case Many(items) => ShownParts(items, within + [InList])
    case Marked(parts) => ShownParts(parts, within + [InObject])
    case Nothing => []
  }

  function ShownParts(parts: seq<Hover>, within: seq<Kind>): seq<Glyph>
    decreases parts, 0
  {
    if parts == [] then [] else Shown(parts[0], within) + ShownParts(parts[1..], within)
  }

  /** The characters of a hover whose lists are cut to their first 32 items, everywhere. */
  function Admitted(h: Hover, within: seq<Kind>): seq<Glyph>
    decreases h, 1
  {
    match h
    case Plain(text) => Glyphs(text, within)
    case Many(items) => AdmittedParts(items, 32, within + [InList])
    case Marked(parts) => AdmittedParts(parts, |parts|, within + [InObject])
    case Nothing => []
  }

  function AdmittedParts(parts: seq<Hover>, quota: nat, within: seq<Kind>): seq<Glyph>
    decreases parts, 0
  {
    if parts == [] || quota == 0 then []
    else Admitted(parts[0], within) + AdmittedParts(parts[1..], quota - 1, within)
  }

  /** Nothing with data shows no character, and nothing without data shows one. */
  lemma {:induction false} DataIsShown(h: Hover, within: seq<Kind>)
    ensures HasData(h) <==> Shown(h, within) != []
    decreases h, 1
  {
    match h
    case Plain(_) =>
    case Many(items) => PartsDataIsShown(items, within + [InList]);
    case Marked(parts) => PartsDataIsShown(parts, within + [InObject]);
    case Nothing =>
  }

  lemma {:induction false} PartsDataIsShown(parts: seq<Hover>, within: seq<Kind>)
    ensures (exists i | 0 <= i < |parts| :: HasData(parts[i])) <==> ShownParts(parts, within) != []
    decreases parts, 0
  {
    if parts != [] {
      DataIsShown(parts[0], within);
      PartsDataIsShown(parts[1..], within);
      if i :| 0 <= i < |parts[1..]| && HasData(parts[1..][i]) {
        assert HasData(parts[i + 1]);
      }
    }
  }

  /** The characters emitted and the budget left always make up the budget given, even though parts
      without data are dropped; and what is emitted is the admitted text, cut where it runs out. */
  lemma {:induction false} HoverBudget(h: Hover, budget: nat, within: seq<Kind>)
    ensures var r := Contents(h, budget);
            Shown(r.out, within) == Take(Admitted(h, within), budget) && |Shown(r.out, within)| + r.left == budget
    decreases h, 1
  {
    if budget > 0 {
      match h
      case Plain(text) => assert Glyphs(Take(text, budget), within) == Take(Glyphs(text, within), budget);
      case Many(items) => PartsBudget(items, MAX_HOVER_ITEMS, budget, within + [InList]);
      case Marked(parts) => PartsBudget(parts, |parts|, budget, within + [InObject]);
      case Nothing =>
    }
  }

  lemma {:induction false} PartsBudget(parts: seq<Hover>, quota: nat, budget: nat, within: seq<Kind>)
    ensures var r := Parts(parts, quota, budget);
            && ShownParts(r.out, within) == Take(AdmittedParts(parts, quota, within), budget)
            && |ShownParts(r.out, within)| + r.left == budget
    decreases parts, 0
  {
    if parts != [] && quota > 0 {
      var first := Contents(parts[0], budget);
      var rest := Parts(parts[1..], quota - 1, first.left).out;
      HoverBudget(parts[0], budget, within);
      PartsBudget(parts[1..], quota - 1, first.left, within);
      DataIsShown(first.out, within);
      TakeTwo(Admitted(parts[0], within), AdmittedParts(parts[1..], quota - 1, within), budget);
      if HasData(first.out) {
        assert ([first.out] + rest)[1..] == rest;
      } else {
        assert [] + rest == rest;
      }
    }
  }
}
