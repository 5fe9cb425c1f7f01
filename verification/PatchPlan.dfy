/**
  What a patch asks for and what it means: the operations, the preflight that turns them into
  planned changes against one snapshot, and the plain in-memory reading of a patch, one operation
  after the other.
 */
module PatchPlan {
  import opened Basics
  import opened WorkspaceDisk
  import Utf8

  const MAX_OPERATIONS: nat := 64
  const MAX_BYTES: nat := 16 * 1024 * 1024
  const USIZE_MAX: nat := 0xFFFF_FFFF_FFFF_FFFF

  /** An `expectedSha256` precondition: absent, not 64 hexadecimal digits, or a digest. */
  datatype Expected = NoHash | BadHash | Hash(digest: nat)

  datatype Operation =
    | Replace(path: Path, needle: Bytes, insertion: Bytes, expected: Expected)
    | Create(path: Path, content: Bytes)
    | Write(path: Path, content: Bytes, expected: Expected)
    | Delete(path: Path, expected: Expected)

  datatype Kind = Created | Replaced | Deleted

  datatype Change = Change(path: Path, original: Option<Bytes>, replacement: Option<Bytes>, kind: Kind)

  datatype Problem =
    | InvalidPath | DuplicatePath | EmptyOld | NotAFile | AlreadyExists
    | MalformedHash | StaleFile | NotUtf8 | MatchCount(found: nat) | TooLarge

  /** The digest function, a parameter of everything that checks a hash. */
  type Digest = Bytes -> nat

  /** A path the transaction accepts: relative, not escaping, and not in its own store. */
  predicate ValidPath(p: Path) {
    && p != []
    && (forall c :: c in p ==> c != TRANSACTION_DIR && c != ".." && c != "")
  }

  // ---- Text replacement -------------------------------------------------------------------

  /** Non-overlapping occurrences of `needle`, found from the left (`match_indices().count()`). */
  function CountMatches(text: Bytes, needle: Bytes): nat
    requires needle != []
    decreases |text|
  {
    if |text| < |needle| then 0
    else if needle <= text then 1 + CountMatches(text[|needle|..], needle)
    else CountMatches(text[1..], needle)
  }

  /** The leftmost occurrence replaced (`replacen(.., 1)`). */
  function ReplaceFirst(text: Bytes, needle: Bytes, insertion: Bytes): Bytes
    requires needle != []
    decreases |text|
  {
    if |text| < |needle| then text
    else if needle <= text then insertion + text[|needle|..]
    else [text[0]] + ReplaceFirst(text[1..], needle, insertion)
  }

  predicate MatchesAt(text: Bytes, needle: Bytes, at: nat) {
    at + |needle| <= |text| && text[at..at + |needle|] == needle
  }

  lemma MatchesAtFront(text: Bytes, needle: Bytes)
    ensures MatchesAt(text, needle, 0) <==> needle <= text
  {
    if |needle| <= |text| {
      assert text[0..|needle|] == text[..|needle|];
    }
  }

  lemma MatchesAtTail(text: Bytes, needle: Bytes, at: nat)
    requires text != []
    ensures MatchesAt(text, needle, at + 1) <==> MatchesAt(text[1..], needle, at)
  {
    if at + 1 + |needle| <= |text| {
      assert text[at + 1..at + 1 + |needle|] == text[1..][at..at + |needle|];
    }
  }

  /** `at` is where `needle` occurs first. */
  ghost predicate FirstAt(text: Bytes, needle: Bytes, at: nat) {
    MatchesAt(text, needle, at) && forall k: nat | k < at :: !MatchesAt(text, needle, k)
  }

  lemma FirstAtTail(text: Bytes, needle: Bytes, at: nat)
    requires text != [] && !(needle <= text) && FirstAt(text[1..], needle, at)
    ensures FirstAt(text, needle, at + 1)
  {
    hide MatchesAt;
    MatchesAtFront(text, needle);
    MatchesAtTail(text, needle, at);
    forall k: nat | k < at + 1
      ensures !MatchesAt(text, needle, k)
    {
      if k > 0 {
        MatchesAtTail(text, needle, k - 1);
      }
    }
  }

  /** Replacing takes the leftmost occurrence out and puts the new text in its place. */
  lemma {:induction false} ReplaceFirstSplits(text: Bytes, needle: Bytes, insertion: Bytes) returns (at: nat)
    requires needle != [] && CountMatches(text, needle) >= 1
    ensures FirstAt(text, needle, at) && at + |needle| <= |text|
    ensures ReplaceFirst(text, needle, insertion) == text[..at] + insertion + text[at + |needle|..]
    decreases |text|
  {
    hide *;
    if needle <= text {
      at := 0;
      ReplaceNow(text, needle, insertion);
      FirstAtFront(text, needle);
    } else {
      CountLater(text, needle);
      var inner := ReplaceFirstSplits(text[1..], needle, insertion);
      at := inner + 1;
      FirstAtTail(text, needle, inner);
      ReplaceLater(text, needle, insertion);
      Reassemble(text, inner, |needle|, insertion);
    }
  }

  lemma CountLater(text: Bytes, needle: Bytes)
    requires needle != [] && !(needle <= text) && CountMatches(text, needle) >= 1
    ensures |needle| <= |text| && CountMatches(text[1..], needle) >= 1
  {
  }

  lemma ReplaceNow(text: Bytes, needle: Bytes, insertion: Bytes)
    requires needle != [] && needle <= text
    ensures ReplaceFirst(text, needle, insertion) == text[..0] + insertion + text[0 + |needle|..]
  {
    assert text[..0] + insertion == insertion;
  }

  lemma ReplaceLater(text: Bytes, needle: Bytes, insertion: Bytes)
    requires needle != [] && !(needle <= text) && |needle| <= |text|
    ensures ReplaceFirst(text, needle, insertion) == [text[0]] + ReplaceFirst(text[1..], needle, insertion)
  {
  }

  lemma FirstAtFront(text: Bytes, needle: Bytes)
    requires needle <= text
    ensures FirstAt(text, needle, 0)
  {
  }

  lemma Reassemble(text: Bytes, inner: nat, gap: nat, insertion: Bytes)
    requires inner + 1 + gap <= |text|
    ensures [text[0]] + (text[1..][..inner] + insertion + text[1..][inner + gap..])
         == text[..inner + 1] + insertion + text[inner + 1 + gap..]
  {
    assert [text[0]] + text[1..][..inner] == text[..inner + 1];
    assert text[1..][inner + gap..] == text[inner + 1 + gap..];
  }

  // ---- One operation ----------------------------------------------------------------------

  function HashProblem(expected: Expected, bytes: Bytes, digest: Digest): Option<Problem> {
    match expected
    case NoHash => None
    case BadHash => Some(MalformedHash)
    case Hash(h) => if digest(bytes) == h then None else Some(StaleFile)
  }

  /** The change one operation asks for on a disk, or why it is refused. */
  function PlanOne(d: Disk, op: Operation, digest: Digest): Result<Change, Problem> {
    if !ValidPath(op.path) then Err(InvalidPath)
    else
      match op
      case Replace(p, needle, insertion, expected) =>
        if needle == [] then Err(EmptyOld)
        else if p !in d.files then Err(NotAFile)
        else if HashProblem(expected, d.files[p], digest).Some? then
          Err(HashProblem(expected, d.files[p], digest).value)
        else if !Utf8.ValidUtf8(d.files[p]) then Err(NotUtf8)
        else if CountMatches(d.files[p], needle) != 1 then Err(MatchCount(CountMatches(d.files[p], needle)))
        else Ok(Change(p, Some(d.files[p]), Some(ReplaceFirst(d.files[p], needle, insertion)), Replaced))
      case Create(p, content) =>
        if Exists(d, p) then Err(AlreadyExists) else Ok(Change(p, None, Some(content), Created))
      case Write(p, content, expected) =>
        if p !in d.files then Err(NotAFile)
        else if HashProblem(expected, d.files[p], digest).Some? then
          Err(HashProblem(expected, d.files[p], digest).value)
        else Ok(Change(p, Some(d.files[p]), Some(content), Replaced))
      case Delete(p, expected) =>
        if p !in d.files then Err(NotAFile)
        else if HashProblem(expected, d.files[p], digest).Some? then
          Err(HashProblem(expected, d.files[p], digest).value)
        else Ok(Change(p, Some(d.files[p]), None, Deleted))
  }

  // ---- What an operation does to its file --------------------------------------------------

  /** The file is the one the caller knew. */
  ghost predicate AsExpected(expected: Expected, bytes: Bytes, digest: Digest) {
    expected == NoHash || expected == Hash(digest(bytes))
  }

  /** `needle` occurs at `at`, not before, and not anywhere behind that occurrence. */
  ghost predicate OnlyAt(text: Bytes, needle: Bytes, at: nat) {
    && FirstAt(text, needle, at)
    && forall k: nat | at + |needle| <= k :: !MatchesAt(text, needle, k)
  }

  lemma OnlyAtTail(text: Bytes, needle: Bytes, at: nat)
    requires needle != [] && text != [] && !(needle <= text)
    ensures OnlyAt(text, needle, at + 1) <==> OnlyAt(text[1..], needle, at)
  {
    hide MatchesAt;
    MatchesAtFront(text, needle);
    forall k: nat
      ensures MatchesAt(text, needle, k + 1) <==> MatchesAt(text[1..], needle, k)
    {
      MatchesAtTail(text, needle, k);
    }
    if OnlyAt(text, needle, at + 1) {
      forall k: nat | k < at ensures !MatchesAt(text[1..], needle, k) {
        assert !MatchesAt(text, needle, k + 1);
      }
      forall k: nat | at + |needle| <= k ensures !MatchesAt(text[1..], needle, k) {
        assert !MatchesAt(text, needle, k + 1);
      }
    }
    if OnlyAt(text[1..], needle, at) {
      FirstAtTail(text, needle, at);
      forall k: nat | at + 1 + |needle| <= k ensures !MatchesAt(text, needle, k) {
        assert !MatchesAt(text[1..], needle, k - 1);
      }
    }
  }

  /** Nothing is counted exactly if the needle occurs nowhere. */
  lemma {:induction false} NoneIsCounted(text: Bytes, needle: Bytes)
    requires needle != []
    ensures CountMatches(text, needle) == 0 <==> forall k: nat :: !MatchesAt(text, needle, k)
    decreases |text|
  {
    hide MatchesAt;
    if |needle| <= |text| {
      MatchesAtFront(text, needle);
      if !(needle <= text) {
        NoneIsCounted(text[1..], needle);
        if CountMatches(text, needle) == 0 {
          forall k: nat ensures !MatchesAt(text, needle, k) {
            if k > 0 {
              MatchesAtTail(text, needle, k - 1);
            }
          }
        }
        if forall k: nat :: !MatchesAt(text, needle, k) {
          forall k: nat ensures !MatchesAt(text[1..], needle, k) {
            MatchesAtTail(text, needle, k);
          }
        }
      }
    } else {
      TooShort(text, needle);
    }
  }

  lemma TooShort(text: Bytes, needle: Bytes)
    requires |text| < |needle|
    ensures forall k: nat :: !MatchesAt(text, needle, k)
  {
  }

  /** One is counted exactly if it is the only one, where an occurrence that overlaps it at its end
      is passed over. */
  lemma {:induction false} OneIsCounted(text: Bytes, needle: Bytes)
    requires needle != []
    ensures CountMatches(text, needle) == 1 <==> exists at: nat :: OnlyAt(text, needle, at)
    decreases |text|
  {
    hide MatchesAt, FirstAt, OnlyAt;
    if |text| < |needle| {
      NoOnlyAt(text, needle);
    } else if needle <= text {
      NoneIsCounted(text[|needle|..], needle);
      OnlyAtFront(text, needle);
    } else {
      OneIsCounted(text[1..], needle);
      NotAtFront(text, needle);
      if at: nat :| OnlyAt(text[1..], needle, at) {
        OnlyAtTail(text, needle, at);
      }
      if at: nat :| OnlyAt(text, needle, at) {
        OnlyAtTail(text, needle, at - 1);
      }
    }
  }

  lemma NoOnlyAt(text: Bytes, needle: Bytes)
    requires |text| < |needle|
    ensures !exists at: nat :: OnlyAt(text, needle, at)
  {
  }

  lemma NotAtFront(text: Bytes, needle: Bytes)
    requires !(needle <= text)
    ensures !OnlyAt(text, needle, 0)
  {
    MatchesAtFront(text, needle);
  }

  lemma OnlyAtFront(text: Bytes, needle: Bytes)
    requires needle != [] && needle <= text
    ensures (exists at: nat :: OnlyAt(text, needle, at)) <==>
            forall k: nat :: !MatchesAt(text[|needle|..], needle, k)
  {
    var rest := text[|needle|..];
    MatchesAtFront(text, needle);
    forall k: nat
      ensures MatchesAt(text, needle, |needle| + k) <==> MatchesAt(rest, needle, k)
    {
      MatchesBehind(text, needle, k);
    }
    if at: nat :| OnlyAt(text, needle, at) {
      assert at == 0;
      forall k: nat ensures !MatchesAt(rest, needle, k) {
        assert !MatchesAt(text, needle, |needle| + k);
      }
    }
    if forall k: nat :: !MatchesAt(rest, needle, k) {
      forall k: nat | |needle| <= k ensures !MatchesAt(text, needle, k) {
        assert !MatchesAt(rest, needle, k - |needle|);
      }
      assert OnlyAt(text, needle, 0);
    }
  }

  lemma MatchesBehind(text: Bytes, needle: Bytes, k: nat)
    requires |needle| <= |text|
    ensures MatchesAt(text, needle, |needle| + k) <==> MatchesAt(text[|needle|..], needle, k)
  {
    if |needle| + k + |needle| <= |text| {
      assert text[|needle| + k..|needle| + k + |needle|] == text[|needle|..][k..k + |needle|];
    }
  }

  /** The place where the replaced text stood and what stands around it. */
  ghost predicate Swapped(before: Bytes, needle: Bytes, insertion: Bytes, after: Bytes, at: nat) {
    && OnlyAt(before, needle, at) && at + |needle| <= |before|
    && after == before[..at] + insertion + before[at + |needle|..]
  }

  ghost predicate SwappedSomewhere(before: Bytes, needle: Bytes, insertion: Bytes, after: Bytes) {
    exists at: nat :: Swapped(before, needle, insertion, after, at)
  }

  /** What an operation asks of the file it names: for a new file that there is nothing yet, for any
      other that the file is there and is the one the caller knew, and for a replacement that it is
      text with the old passage in it exactly once. */
  ghost predicate Granted(op: Operation, dirs: set<Path>, digest: Digest, before: Option<Bytes>) {
    && ValidPath(op.path)
    && match op
       case Create(p, _) => before == None && p !in dirs
       case Write(_, _, expected) => before.Some? && AsExpected(expected, before.value, digest)
       case Delete(_, expected) => before.Some? && AsExpected(expected, before.value, digest)
       case Replace(_, needle, _, expected) =>
         && before.Some? && AsExpected(expected, before.value, digest)
         && needle != [] && Utf8.ValidUtf8(before.value)
         && exists at: nat :: OnlyAt(before.value, needle, at)
  }

  /** And what it makes of it: exactly the content given, nothing, or the file with the new passage
      where the old one stood. */
  ghost predicate Made(op: Operation, before: Option<Bytes>, after: Option<Bytes>) {
    match op
    case Create(_, content) => after == Some(content)
    case Write(_, content, _) => after == Some(content)
    case Delete(_, _) => after == None
    case Replace(_, needle, insertion, _) =>
      before.Some? && after.Some? && SwappedSomewhere(before.value, needle, insertion, after.value)
  }

  /** An operation is planned exactly if the disk grants what it asks, and the change is what it makes
      of its file. */
  lemma PlanOneIsMade(d: Disk, op: Operation, digest: Digest)
    ensures PlanOne(d, op, digest).Ok? <==> Granted(op, d.dirs, digest, Lookup(d.files, op.path))
    ensures PlanOne(d, op, digest).Ok? ==>
              var c := PlanOne(d, op, digest).value;
              && c.path == op.path && c.original == Lookup(d.files, op.path)
              && forall after :: Made(op, c.original, after) <==> after == c.replacement
  {
    if op.Replace? && op.path in d.files && op.needle != [] {
      ReplacementIsMade(d.files[op.path], op.needle, op.insertion);
    }
  }

  /** What a refusal says is true of the request and the disk. */
  ghost predicate Objects(op: Operation, dirs: set<Path>, digest: Digest, before: Option<Bytes>, problem: Problem) {
    match problem
    case InvalidPath => !ValidPath(op.path)
    case EmptyOld => op.Replace? && op.needle == []
    case NotAFile => !op.Create? && before == None
    case AlreadyExists => op.Create? && (before.Some? || op.path in dirs)
    case MalformedHash => !op.Create? && before.Some? && op.expected == BadHash
    case StaleFile => !op.Create? && before.Some? && op.expected.Hash? && digest(before.value) != op.expected.digest
    case NotUtf8 => op.Replace? && before.Some? && !Utf8.ValidUtf8(before.value)
    case MatchCount(found) =>
      && op.Replace? && before.Some? && found != 1
      && (forall at: nat :: !OnlyAt(before.value, op.needle, at))
      && (found == 0 <==> forall at: nat :: !MatchesAt(before.value, op.needle, at))
    case DuplicatePath => false
    case TooLarge => false
  }

  lemma RefusalIsObjection(d: Disk, op: Operation, digest: Digest)
    requires PlanOne(d, op, digest).Err?
    ensures Objects(op, d.dirs, digest, Lookup(d.files, op.path), PlanOne(d, op, digest).error)
  {
    hide MatchesAt, OnlyAt, CountMatches, ReplaceFirst;
    if op.Replace? && op.path in d.files && op.needle != [] {
      NoneIsCounted(d.files[op.path], op.needle);
      OneIsCounted(d.files[op.path], op.needle);
    }
  }

  lemma ReplacementIsMade(text: Bytes, needle: Bytes, insertion: Bytes)
    requires needle != []
    ensures CountMatches(text, needle) == 1 <==> exists at: nat :: OnlyAt(text, needle, at)
    ensures CountMatches(text, needle) == 1 ==>
              forall after :: SwappedSomewhere(text, needle, insertion, after) <==>
                              after == ReplaceFirst(text, needle, insertion)
  {
    hide MatchesAt, CountMatches, ReplaceFirst;
    OneIsCounted(text, needle);
    if CountMatches(text, needle) == 1 {
      var at := ReplaceFirstSplits(text, needle, insertion);
      var only: nat :| OnlyAt(text, needle, only);
      FirstIsUnique(text, needle, at, only);
      assert Swapped(text, needle, insertion, ReplaceFirst(text, needle, insertion), at);
      forall after, k: nat | Swapped(text, needle, insertion, after, k)
        ensures after == ReplaceFirst(text, needle, insertion)
      {
        FirstIsUnique(text, needle, at, k);
      }
    }
  }

  lemma FirstIsUnique(text: Bytes, needle: Bytes, a: nat, b: nat)
    requires FirstAt(text, needle, a) && FirstAt(text, needle, b)
    ensures a == b
  {
  }

  function Size(b: Option<Bytes>): nat {
    match b case None => 0 case Some(bytes) => |bytes|
  }

  function BytesOf(c: Change): nat {
    Size(c.original) + Size(c.replacement)
  }

  function TotalBytes(plan: seq<Change>): nat {
    if plan == [] then 0 else TotalBytes(plan[..|plan| - 1]) + BytesOf(plan[|plan| - 1])
  }

  function Content(b: Option<Bytes>): Bytes {
    match b case None => [] case Some(bytes) => bytes
  }

  /** What a plan reads and what it writes. */
  function Contents(plan: seq<Change>): seq<Bytes> {
    if plan == [] then []
    else
      var last := plan[|plan| - 1];
      Contents(plan[..|plan| - 1]) + [Content(last.original)] + [Content(last.replacement)]
  }

  lemma {:induction false} TotalBytesIsLength(plan: seq<Change>)
    ensures TotalBytes(plan) == |Flatten(Contents(plan))|
  {
    if plan != [] {
      var before, last := Contents(plan[..|plan| - 1]), plan[|plan| - 1];
      TotalBytesIsLength(plan[..|plan| - 1]);
      FlattenAppend(before, Content(last.original));
      FlattenAppend(before + [Content(last.original)], Content(last.replacement));
    }
  }

  function SaturatingAdd(a: nat, b: nat): nat {
    if a + b > USIZE_MAX then USIZE_MAX else a + b
  }

  ghost predicate DistinctPaths(plan: seq<Change>) {
    forall i, j | 0 <= i < j < |plan| :: plan[i].path != plan[j].path
  }

  // ---- A plan against a disk --------------------------------------------------------------

  /** The plan was made from this disk: every change describes the file as it stands. */
  ghost predicate Fits(d: Disk, plan: seq<Change>) {
    && 1 <= |plan| <= MAX_OPERATIONS
    && DistinctPaths(plan)
    && (forall i | 0 <= i < |plan| :: FitsOne(d, plan[i]))
  }

  ghost predicate FitsOne(d: Disk, c: Change) {
    && ValidPath(c.path)
    && c.path !in d.dirs
    && Lookup(d.files, c.path) == c.original
    && (c.original.Some? ==> HasParents(d, c.path))
    && c.kind == KindOf(c)
    && (c.original.None? ==> c.replacement.Some?)
  }

  function KindOf(c: Change): Kind {
    if c.original.None? then Created else if c.replacement.None? then Deleted else Replaced
  }

  lemma PlanOneFits(d: Disk, op: Operation, digest: Digest)
    requires IsTree(d) && PlanOne(d, op, digest).Ok?
    ensures FitsOne(d, PlanOne(d, op, digest).value)
  {
    assert Exists(d, op.path) ==> HasParents(d, op.path);
  }

  /** `planned` is what the first operations ask for, in order. */
  ghost predicate Plans(d: Disk, ops: seq<Operation>, digest: Digest, planned: seq<Change>) {
    && |planned| <= |ops|
    && forall i | 0 <= i < |planned| ::
         planned[i].path == ops[i].path && PlanOne(d, ops[i], digest) == Ok(planned[i])
  }

  /** Why a preflight may refuse: some operation is refused by itself, two name the same path, or
      the first operations are too large together. */
  ghost predicate Inadmissible(d: Disk, ops: seq<Operation>, digest: Digest, problem: Problem) {
    || (exists i | 0 <= i < |ops| :: PlanOne(d, ops[i], digest) == Err(problem))
    || (problem == DuplicatePath && exists i, j | 0 <= i < j < |ops| :: ops[i].path == ops[j].path)
    || (problem == TooLarge && exists planned :: Plans(d, ops, digest, planned) && TotalBytes(planned) > MAX_BYTES)
  }

  lemma PlansOneMore(d: Disk, ops: seq<Operation>, digest: Digest, planned: seq<Change>)
    requires IsTree(d) && |planned| < |ops|
    requires Plans(d, ops, digest, planned) && DistinctPaths(planned)
    requires PlanOne(d, ops[|planned|], digest).Ok?
    requires forall c | c in planned :: c.path != ops[|planned|].path
    ensures var change := PlanOne(d, ops[|planned|], digest).value;
            && change.path == ops[|planned|].path
            && FitsOne(d, change)
            && Plans(d, ops, digest, planned + [change])
            && DistinctPaths(planned + [change])
            && TotalBytes(planned + [change]) == TotalBytes(planned) + BytesOf(change)
  {
    hide FitsOne, TotalBytes, PlanOne, DistinctPaths, IsTree, Plans, BytesOf;
    var change := PlanOne(d, ops[|planned|], digest).value;
    PlanOneFits(d, ops[|planned|], digest);
    PlanOnePath(d, ops[|planned|], digest);
    BytesOneMore(planned, change);
    DistinctOneMore(planned, change);
    PlansAppended(d, ops, digest, planned, change);
  }

  lemma PlansAppended(d: Disk, ops: seq<Operation>, digest: Digest, planned: seq<Change>, change: Change)
    requires |planned| < |ops| && Plans(d, ops, digest, planned)
    requires PlanOne(d, ops[|planned|], digest) == Ok(change) && change.path == ops[|planned|].path
    ensures Plans(d, ops, digest, planned + [change])
  {
    hide PlanOne;
  }

  lemma DistinctOneMore(planned: seq<Change>, change: Change)
    requires DistinctPaths(planned) && forall c | c in planned :: c.path != change.path
    ensures DistinctPaths(planned + [change])
  {
    assert forall i | 0 <= i < |planned| :: planned[i] in planned;
  }

  lemma PlanOnePath(d: Disk, op: Operation, digest: Digest)
    requires PlanOne(d, op, digest).Ok?
    ensures PlanOne(d, op, digest).value.path == op.path
  {
  }

  lemma BytesOneMore(planned: seq<Change>, change: Change)
    ensures TotalBytes(planned + [change]) == TotalBytes(planned) + BytesOf(change)
  {
    assert (planned + [change])[..|planned|] == planned;
  }

  /** `preflight`: plans every operation against the one snapshot, or refuses them all. */
  method Preflight(d: Disk, ops: seq<Operation>, digest: Digest) returns (r: Result<seq<Change>, Problem>)
    requires IsTree(d) && 1 <= |ops| <= MAX_OPERATIONS
    ensures r.Ok? ==>
              && Plans(d, ops, digest, r.value) && |r.value| == |ops|
              && Fits(d, r.value) && TotalBytes(r.value) <= MAX_BYTES
    ensures r.Ok? ==> forall i | 0 <= i < |ops| :: Answers(d, ops[i], digest, r.value[i])
    ensures r.Err? ==> Inadmissible(d, ops, digest, r.error)
  {
    hide PlanOne, FitsOne, TotalBytes, Answers;
    var seen: set<Path> := {};
    var total := 0;
    var planned: seq<Change> := [];
    assert TotalBytes([]) == 0 by { NoBytes(); }
    for k := 0 to |ops|
      invariant |planned| == k
      invariant seen == set c | c in planned :: c.path
      invariant Plans(d, ops, digest, planned) && DistinctPaths(planned)
      invariant forall i | 0 <= i < k :: FitsOne(d, planned[i])
      invariant total == TotalBytes(planned) <= MAX_BYTES
    {
      var op := ops[k];
      if !ValidPath(op.path) {
        InvalidPathIsRefused(d, op, digest);
        return Err(InvalidPath);
      }
      if op.path in seen {
        var c :| c in planned && c.path == op.path;
        return Err(DuplicatePath);
      }
      seen := seen + {op.path};
      var one := PlanOne(d, op, digest);
      if one.Err? {
        return Err(one.error);
      }
      var change := one.value;
      PlansOneMore(d, ops, digest, planned);
      total := SaturatingAdd(SaturatingAdd(total, Size(change.original)), Size(change.replacement));
      planned := planned + [change];
      if total > MAX_BYTES {
        return Err(TooLarge);
      }
    }
    PlansAnswer(d, ops, digest, planned);
    return Ok(planned);
  }

  /** The change does what the operation asks, and the disk grants it. */
  ghost predicate Answers(d: Disk, op: Operation, digest: Digest, c: Change) {
    && c.path == op.path && c.original == Lookup(d.files, op.path)
    && Granted(op, d.dirs, digest, c.original)
    && Made(op, c.original, c.replacement)
  }

  lemma PlansAnswer(d: Disk, ops: seq<Operation>, digest: Digest, plan: seq<Change>)
    requires Plans(d, ops, digest, plan)
    ensures forall i | 0 <= i < |plan| :: Answers(d, ops[i], digest, plan[i])
  {
    hide PlanOne, Granted, Made;
    forall i | 0 <= i < |plan| ensures Answers(d, ops[i], digest, plan[i]) {
      PlanOneIsMade(d, ops[i], digest);
    }
  }

  lemma NoBytes()
    ensures TotalBytes([]) == 0
  {
  }

  lemma InvalidPathIsRefused(d: Disk, op: Operation, digest: Digest)
    requires !ValidPath(op.path)
    ensures PlanOne(d, op, digest) == Err(InvalidPath)
  {
  }

  // ---- What a plan means ------------------------------------------------------------------

  function Install(files: Files, c: Change): Files {
    match c.replacement
    case None => files - {c.path}
    case Some(bytes) => files[c.path := bytes]
  }

  /** The workspace after the whole plan: each change installed in turn. */
  function Updated(files: Files, plan: seq<Change>): Files {
    if plan == [] then files
    else Install(Updated(files, plan[..|plan| - 1]), plan[|plan| - 1])
  }

  /** For distinct targets the result is one simultaneous update: every planned path holds its
      replacement, every other path is as it was. */
  lemma {:induction false} UpdatedAt(files: Files, plan: seq<Change>)
    requires DistinctPaths(plan)
    ensures forall i | 0 <= i < |plan| :: Lookup(Updated(files, plan), plan[i].path) == plan[i].replacement
    ensures forall p | (forall i | 0 <= i < |plan| :: plan[i].path != p) ::
              Lookup(Updated(files, plan), p) == Lookup(files, p)
  {
    if plan != [] {
      var front, last := plan[..|plan| - 1], plan[|plan| - 1];
      UpdatedAt(files, front);
      assert forall i | 0 <= i < |front| :: plan[i] == front[i];
    }
  }

  /** Anything that answers like a simultaneous update is the update. */
  lemma UpdatedIsUnique(files: Files, plan: seq<Change>, result: Files)
    requires DistinctPaths(plan)
    requires forall i | 0 <= i < |plan| :: Lookup(result, plan[i].path) == plan[i].replacement
    requires forall p | (forall i | 0 <= i < |plan| :: plan[i].path != p) ::
               Lookup(result, p) == Lookup(files, p)
    ensures result == Updated(files, plan)
  {
    UpdatedAt(files, plan);
    forall p
      ensures Lookup(result, p) == Lookup(Updated(files, plan), p)
    {
      if i :| 0 <= i < |plan| && plan[i].path == p {
      }
    }
    SameLookups(result, Updated(files, plan));
  }

  /** The order of the operations does not matter. */
  lemma OrderDoesNotMatter(files: Files, plan: seq<Change>, other: seq<Change>)
    requires DistinctPaths(plan) && DistinctPaths(other)
    requires forall c :: c in plan <==> c in other
    ensures Updated(files, plan) == Updated(files, other)
  {
    var result := Updated(files, plan);
    UpdatedAt(files, plan);
    forall i | 0 <= i < |other|
      ensures Lookup(result, other[i].path) == other[i].replacement
    {
      assert other[i] in plan;
    }
    forall p | (forall i | 0 <= i < |other| :: other[i].path != p)
      ensures Lookup(result, p) == Lookup(files, p)
    {
      forall i | 0 <= i < |plan|
        ensures plan[i].path != p
      {
        assert plan[i] in other;
      }
    }
    UpdatedIsUnique(files, other, result);
  }

  /** The in-memory reading of a patch: plan each operation against what the earlier ones left,
      and install it at once. */
  function StageAll(d: Disk, ops: seq<Operation>, digest: Digest): Result<Files, Problem>
    decreases |ops|
  {
    if ops == [] then Ok(d.files)
    else
      match PlanOne(d, ops[0], digest)
      case Err(e) => Err(e)
      case Ok(c) => StageAll(d.(files := Install(d.files, c)), ops[1..], digest)
  }

  /** A plan made from one snapshot agrees with staging one operation at a time. */
  lemma {:induction false} SnapshotAgreesWithStaging(d: Disk, ops: seq<Operation>, plan: seq<Change>, digest: Digest)
    requires |plan| == |ops| && DistinctPaths(plan)
    requires Plans(d, ops, digest, plan)
    ensures StageAll(d, ops, digest) == Ok(Updated(d.files, plan))
    decreases |ops|
  {
    hide PlanOne;
    if ops != [] {
      var c := plan[0];
      var d' := d.(files := Install(d.files, c));
      forall i | 0 <= i < |ops| - 1
        ensures PlanOne(d', ops[1..][i], digest) == Ok(plan[1..][i])
      {
        assert PlanOne(d, ops[i + 1], digest) == Ok(plan[i + 1]);
        OtherPathsPlanTheSame(d, c, ops[i + 1], digest);
      }
      assert PlanOne(d, ops[0], digest) == Ok(c);
      SnapshotAgreesWithStaging(d', ops[1..], plan[1..], digest);
      FirstThenRest(d.files, plan);
    }
  }

  /** The result of a patch, said of each file for itself: what every operation asks is granted, each
      target is what its operation makes of it, and no other file is touched. */
  ghost predicate Obeyed(d: Disk, ops: seq<Operation>, digest: Digest, after: Files) {
    && (forall i | 0 <= i < |ops| :: Carried(d, ops[i], digest, after))
    && forall p | !Targeted(ops, p) :: Lookup(after, p) == Lookup(d.files, p)
  }

  ghost predicate Carried(d: Disk, op: Operation, digest: Digest, after: Files) {
    && Granted(op, d.dirs, digest, Lookup(d.files, op.path))
    && Made(op, Lookup(d.files, op.path), Lookup(after, op.path))
  }

  predicate Targeted(ops: seq<Operation>, p: Path) {
    exists i | 0 <= i < |ops| :: ops[i].path == p
  }

  ghost predicate DistinctTargets(ops: seq<Operation>) {
    forall i, j | 0 <= i < j < |ops| :: ops[i].path != ops[j].path
  }

  /** On distinct paths the operations one after the other come to exactly that. */
  lemma {:induction false} StagedIsObeyed(d: Disk, ops: seq<Operation>, digest: Digest, after: Files)
    requires DistinctTargets(ops)
    ensures StageAll(d, ops, digest) == Ok(after) <==> Obeyed(d, ops, digest, after)
    decreases |ops|
  {
    hide PlanOne, Granted, Made;
    if ops == [] {
      if Obeyed(d, ops, digest, after) {
        assert forall p :: !Targeted(ops, p);
        SameLookups(after, d.files);
      }
    } else {
      var one := PlanOne(d, ops[0], digest);
      PlanOneIsMade(d, ops[0], digest);
      if one.Ok? {
        var d' := d.(files := Install(d.files, one.value));
        StagedIsObeyed(d', ops[1..], digest, after);
        ObeyedFirstThenRest(d, ops, digest, one.value, after);
      } else {
        assert !Carried(d, ops[0], digest, after);
      }
    }
  }

  lemma ObeyedFirstThenRest(d: Disk, ops: seq<Operation>, digest: Digest, c: Change, after: Files)
    requires ops != [] && DistinctTargets(ops) && PlanOne(d, ops[0], digest) == Ok(c)
    ensures Obeyed(d.(files := Install(d.files, c)), ops[1..], digest, after) <==> Obeyed(d, ops, digest, after)
  {
    hide PlanOne, Granted, Made;
    PlanOneIsMade(d, ops[0], digest);
    var d' := d.(files := Install(d.files, c));
    var rest := ops[1..];
    forall p ensures Lookup(d'.files, p) == if p == c.path then c.replacement else Lookup(d.files, p) {
    }
    assert !Targeted(rest, c.path);
    forall p ensures Targeted(ops, p) <==> p == c.path || Targeted(rest, p) {
      TargetedFirstOrRest(ops, p);
    }
    forall i | 1 <= i < |ops|
      ensures Carried(d', rest[i - 1], digest, after) <==> Carried(d, ops[i], digest, after)
    {
      assert ops[0].path != ops[i].path;
    }
    if Obeyed(d', rest, digest, after) {
      forall i | 0 <= i < |ops| ensures Carried(d, ops[i], digest, after) {
        if i > 0 {
          assert Carried(d', rest[i - 1], digest, after);
        }
      }
    }
    if Obeyed(d, ops, digest, after) {
      assert Carried(d, ops[0], digest, after);
      assert Lookup(after, c.path) == c.replacement;
      forall i | 0 <= i < |rest| ensures Carried(d', rest[i], digest, after) {
        assert Carried(d, ops[i + 1], digest, after);
      }
    }
  }

  lemma TargetedFirstOrRest(ops: seq<Operation>, p: Path)
    requires ops != []
    ensures Targeted(ops, p) <==> p == ops[0].path || Targeted(ops[1..], p)
  {
    if Targeted(ops, p) && p != ops[0].path {
      var i :| 0 <= i < |ops| && ops[i].path == p;
      assert ops[1..][i - 1].path == p;
    }
    if Targeted(ops[1..], p) {
      var i :| 0 <= i < |ops[1..]| && ops[1..][i].path == p;
      assert ops[i + 1].path == p;
    }
  }

  lemma OtherPathsPlanTheSame(d: Disk, c: Change, op: Operation, digest: Digest)
    requires c.path != op.path
    ensures PlanOne(d.(files := Install(d.files, c)), op, digest) == PlanOne(d, op, digest)
  {
    var d' := d.(files := Install(d.files, c));
    assert op.path in d'.files <==> op.path in d.files;
    assert op.path in d.files ==> d'.files[op.path] == d.files[op.path];
  }

  lemma FirstThenRest(files: Files, plan: seq<Change>)
    requires plan != [] && DistinctPaths(plan)
    ensures Updated(Install(files, plan[0]), plan[1..]) == Updated(files, plan)
  {
    var mid := Install(files, plan[0]);
    var result := Updated(mid, plan[1..]);
    UpdatedAt(mid, plan[1..]);
    forall i | 0 <= i < |plan|
      ensures Lookup(result, plan[i].path) == plan[i].replacement
    {
      if i > 0 {
        assert plan[1..][i - 1] == plan[i];
      } else {
        assert forall j | 0 <= j < |plan[1..]| :: plan[1..][j] == plan[j + 1];
      }
    }
    forall p | (forall i | 0 <= i < |plan| :: plan[i].path != p)
      ensures Lookup(result, p) == Lookup(files, p)
    {
      assert plan[0].path != p;
      assert forall j | 0 <= j < |plan[1..]| :: plan[1..][j] == plan[j + 1];
    }
    UpdatedIsUnique(files, plan, result);
  }

  // ---- The report -------------------------------------------------------------------------

  function CountKind(plan: seq<Change>, kind: Kind): nat {
    if plan == [] then 0
    else CountKind(plan[..|plan| - 1], kind) + (if plan[|plan| - 1].kind == kind then 1 else 0)
  }

  /** A kind is counted as often as it is planned. */
  lemma {:induction false} CountKindIs(plan: seq<Change>, kind: Kind)
    ensures CountKind(plan, kind) == |set i | 0 <= i < |plan| && plan[i].kind == kind|
  {
    if plan != [] {
      var n := |plan| - 1;
      CountKindIs(plan[..n], kind);
      var before := set i | 0 <= i < n && plan[..n][i].kind == kind;
      var all := set i | 0 <= i < |plan| && plan[i].kind == kind;
      if plan[n].kind == kind {
        assert all == before + {n};
      } else {
        assert all == before;
      }
    }
  }

  lemma {:induction false} KindsAddUp(plan: seq<Change>)
    ensures CountKind(plan, Created) + CountKind(plan, Replaced) + CountKind(plan, Deleted) == |plan|
  {
    if plan != [] {
      KindsAddUp(plan[..|plan| - 1]);
    }
  }
}
