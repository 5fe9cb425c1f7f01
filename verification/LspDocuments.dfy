/**
  Keeping a language server's copy of the open documents equal to the client's, by open, change and
  close notifications (LSP 3.17, section "Text Document Synchronization").
 */
module LspDocuments {
  import opened Basics
  import opened LspText

  const MAX_OPEN: nat := 128
  const I64_MAX: nat := 0x7FFF_FFFF_FFFF_FFFF

  type Uri = string

  datatype SyncKind = None_ | Full | Incremental

  datatype Notification =
    | DidOpen(uri: Uri, version: nat, text: Text)
    | DidChange(uri: Uri, version: nat, end: Option<Position>, text: Text)  // range from the start
    | DidClose(uri: Uri)

  // ---- The server's side ------------------------------------------------------------------

  datatype ServerDoc = ServerDoc(version: nat, text: Text)

  type ServerDocs = map<Uri, ServerDoc>

  /** What a notification does to a server, `None` if the protocol forbids it there: a document is
      opened when it is not open, changed or closed when it is, and changes raise its version. */
  function Receive(docs: ServerDocs, m: Notification): Option<ServerDocs> {
    match m
    case DidOpen(uri, version, text) =>
      if uri in docs then None else Some(docs[uri := ServerDoc(version, text)])
    case DidChange(uri, version, end, text) =>
      if uri !in docs || version <= docs[uri].version then None
      else
        var after := match end case None => text case Some(p) => Edited(docs[uri].text, p, text);
        Some(docs[uri := ServerDoc(version, after)])
    case DidClose(uri) =>
      if uri !in docs then None else Some(docs - {uri})
  }

  function Replay(log: seq<Notification>): Option<ServerDocs> {
    if log == [] then Some(map[])
    else
      match Replay(log[..|log| - 1])
      case None => None
      case Some(docs) => Receive(docs, log[|log| - 1])
  }

  lemma ReplayOneMore(log: seq<Notification>, m: Notification)
    ensures Replay(log + [m]) == match Replay(log) case None => None case Some(docs) => Receive(docs, m)
  {
    assert (log + [m])[..|log|] == log;
  }

  // ---- The client's side ------------------------------------------------------------------

  datatype DocumentState = DocumentState(version: nat, fingerprint: nat, end: Position, lastUsed: nat)

  function SaturatingNext(version: nat): nat {
    if version >= I64_MAX then I64_MAX else version + 1
  }

  predicate OldestDocument(open: map<Uri, DocumentState>, uri: Uri) {
    uri in open && forall u | u in open :: open[uri].lastUsed <= open[u].lastUsed
  }

  lemma OldestDocumentExists(open: map<Uri, DocumentState>) returns (oldest: Uri)
    requires open != map[]
    ensures OldestDocument(open, oldest)
  {
    oldest := OldestAmong(open, open.Keys);
  }

  lemma {:induction false} OldestAmong(open: map<Uri, DocumentState>, uris: set<Uri>) returns (oldest: Uri)
    requires uris != {} && uris <= open.Keys
    ensures oldest in uris && forall u | u in uris :: open[oldest].lastUsed <= open[u].lastUsed
  {
    var some :| some in uris;
    oldest := some;
    var rest := uris - {some};
    assert uris == {some} + rest;
    if rest != {} {
      var least := OldestAmong(open, rest);
      if open[least].lastUsed < open[some].lastUsed {
        oldest := least;
      }
    }
  }

  ghost predicate Injective(fingerprintOf: Text -> nat) {
    forall a, b :: fingerprintOf(a) == fingerprintOf(b) ==> a == b
  }

  function Record(fingerprintOf: Text -> nat, version: nat, text: Text, now: nat): DocumentState {
    DocumentState(version, fingerprintOf(text), EndPosition(text), now)
  }

  /** The record was made for `text`. */
  predicate RecordOf(state: DocumentState, text: Text, fingerprintOf: Text -> nat) {
    state.fingerprint == fingerprintOf(text) && state.end == EndPosition(text)
  }

  ghost predicate Genuine(state: DocumentState, fingerprintOf: Text -> nat) {
    exists text :: RecordOf(state, text, fingerprintOf)
  }

  /** The log is legal, at most 128 documents are open, and client and server agree on which they
      are and on their versions. This says nothing about texts. */
  ghost predicate Legal(open: map<Uri, DocumentState>, log: seq<Notification>, fingerprintOf: Text -> nat) {
    && |open| <= MAX_OPEN
    && Replay(log).Some? && open.Keys == Docs(log).Keys
    && forall u | u in open ::
         open[u].version == Docs(log)[u].version && open[u].version <= |log| && Genuine(open[u], fingerprintOf)
  }

  /** The server's copy is the text the client believes it to be. */
  predicate Exact(open: map<Uri, DocumentState>, docs: ServerDocs, fingerprintOf: Text -> nat, u: Uri) {
    u in open && u in docs && RecordOf(open[u], docs[u].text, fingerprintOf)
  }

  function Docs(log: seq<Notification>): ServerDocs {
    match Replay(log) case Some(docs) => docs case None => map[]
  }

  lemma LegalOn(open: map<Uri, DocumentState>, log: seq<Notification>, fingerprintOf: Text -> nat, uri: Uri)
    requires Legal(open, log, fingerprintOf)
    ensures Replay(log).Some? && open.Keys == Docs(log).Keys && |open| <= MAX_OPEN && |Docs(log)| == |open|
    ensures uri in open ==> open[uri].version == Docs(log)[uri].version <= |log| && Genuine(open[uri], fingerprintOf)
  {
    assert |open| == |open.Keys| && |Docs(log)| == |Docs(log).Keys|;
  }

  lemma AfterTouch(open: map<Uri, DocumentState>, log: seq<Notification>, fingerprintOf: Text -> nat, uri: Uri,
                   now: nat)
    requires Legal(open, log, fingerprintOf) && uri in open
    ensures Legal(open[uri := open[uri].(lastUsed := now)], log, fingerprintOf)
  {
    hide EndPosition, Replay, Docs;
    var open' := open[uri := open[uri].(lastUsed := now)];
    assert open'.Keys == open.Keys;
    SameSize(open, open');
    var text :| RecordOf(open[uri], text, fingerprintOf);
    assert RecordOf(open'[uri], text, fingerprintOf);
  }

  lemma SameSize<A, B>(a: map<Uri, A>, b: map<Uri, B>)
    requires a.Keys == b.Keys
    ensures |a| == |b|
  {
    assert |a| == |a.Keys| && |b| == |b.Keys|;
  }

  lemma AfterClose(open: map<Uri, DocumentState>, log: seq<Notification>, fingerprintOf: Text -> nat, uri: Uri)
    requires Legal(open, log, fingerprintOf) && uri in open
    ensures Legal(open - {uri}, log + [DidClose(uri)], fingerprintOf)
    ensures Docs(log + [DidClose(uri)]) == Docs(log) - {uri}
    ensures |open - {uri}| == |open| - 1
  {
    hide Genuine, Edited;
    ReplayOneMore(log, DidClose(uri));
    assert (open - {uri}).Keys == open.Keys - {uri};
    assert |(open - {uri}).Keys| == |open.Keys| - 1;
  }

  lemma RecordIsGenuine(fingerprintOf: Text -> nat, version: nat, text: Text, now: nat)
    ensures Genuine(Record(fingerprintOf, version, text, now), fingerprintOf)
  {
    assert RecordOf(Record(fingerprintOf, version, text, now), text, fingerprintOf);
  }

  lemma AfterOpen(open: map<Uri, DocumentState>, log: seq<Notification>, fingerprintOf: Text -> nat,
                  uri: Uri, version: nat, text: Text, now: nat)
    requires Legal(open, log, fingerprintOf) && uri !in open && |open| < MAX_OPEN && version <= |log| + 1
    ensures var m := DidOpen(uri, version, text);
            && Legal(open[uri := Record(fingerprintOf, version, text, now)], log + [m], fingerprintOf)
            && Docs(log + [m]) == Docs(log)[uri := ServerDoc(version, text)]
  {
    hide Edited, EndPosition, Replay, Genuine;
    ReplayOneMore(log, DidOpen(uri, version, text));
    RecordIsGenuine(fingerprintOf, version, text, now);
    var open' := open[uri := Record(fingerprintOf, version, text, now)];
    assert open'.Keys == open.Keys + {uri};
    assert |open'.Keys| == |open.Keys| + 1;
  }

  /** A change with a rising version is legal whatever the texts; only what it makes of the server's
      copy depends on the range. */
  lemma AfterChange(open: map<Uri, DocumentState>, log: seq<Notification>, fingerprintOf: Text -> nat,
                    uri: Uri, version: nat, end: Option<Position>, text: Text, now: nat)
    requires Legal(open, log, fingerprintOf) && uri in open && open[uri].version < version <= |log| + 1
    ensures var m := DidChange(uri, version, end, text);
            var after := match end case None => text case Some(p) => Edited(Docs(log)[uri].text, p, text);
            && Docs(log + [m]) == Docs(log)[uri := ServerDoc(version, after)]
            && Legal(open[uri := Record(fingerprintOf, version, text, now)], log + [m], fingerprintOf)
  {
    hide Edited, EndPosition, Replay, Genuine;
    var m := DidChange(uri, version, end, text);
    ReplayOneMore(log, m);
    LegalOn(open, log, fingerprintOf, uri);
    RecordIsGenuine(fingerprintOf, version, text, now);
    var open' := open[uri := Record(fingerprintOf, version, text, now)];
    assert Receive(Docs(log), m) == Some(Docs(log + [m]));
    SameSize(open, open');
  }

  /** Replacing from the start to the believed end replaces the document exactly when that end is
      its end, whether the server keeps characters or UTF-16 code units. */
  lemma EditCoversExactly(before: Text, text: Text)
    ensures Edited(before, EndPosition(before), text) == text <==> !BareCr(before)
    ensures Scalars(before) ==>
              (Edited(EncodeUtf16(before), EndPosition(before), EncodeUtf16(text)) == EncodeUtf16(text)
               <==> !BareCr(before))
  {
    hide EncodeUtf16, EndPosition, BareCr, OffsetOf, Scalar;
    EndCoversExactly(before);
    if Scalars(before) {
      EndCoversUnits(before);
      var units := EncodeUtf16(before);
      var changed := Edited(units, EndPosition(before), EncodeUtf16(text));
      assert |changed| == |EncodeUtf16(text)| + |units| - OffsetOf(units, EndPosition(before));
    }
    var after := Edited(before, EndPosition(before), text);
    assert |after| == |text| + |before| - OffsetOf(before, EndPosition(before));
  }

  /** An incremental change of a document whose old text had a bare carriage return: the range
      ends too early and a stale tail stays. */
  ghost predicate Stale(kind: SyncKind, before: ServerDocs, uri: Uri, text: Text) {
    kind.Incremental? && uri in before && before[uri].text != text && BareCr(before[uri].text)
  }

  /** What the server's copy becomes when the client synchronises `text`, given the client's record
      and the copy, which need not fit each other. */
  function Sent(kind: SyncKind, existing: DocumentState, copy: Text, text: Text, fingerprintOf: Text -> nat): Text {
    if existing.fingerprint == fingerprintOf(text) then copy
    else if kind.Incremental? then Edited(copy, existing.end, text)
    else text
  }

  /** If the copy was exact, it becomes the text unless the change is stale. */
  lemma SentIsTextIff(kind: SyncKind, open: map<Uri, DocumentState>, docs: ServerDocs, fingerprintOf: Text -> nat,
                      uri: Uri, text: Text)
    requires Injective(fingerprintOf) && Exact(open, docs, fingerprintOf, uri)
    ensures Sent(kind, open[uri], docs[uri].text, text, fingerprintOf) == text <==> !Stale(kind, docs, uri, text)
  {
    EditCoversExactly(docs[uri].text, text);
  }

  /** The record after synchronising `text` fits the server's copy exactly if that is `text`. */
  lemma ExactIff(state: DocumentState, copy: Text, text: Text, fingerprintOf: Text -> nat)
    requires Injective(fingerprintOf) && Genuine(state, fingerprintOf) && state.fingerprint == fingerprintOf(text)
    ensures RecordOf(state, copy, fingerprintOf) <==> copy == text
  {
    var made :| RecordOf(state, made, fingerprintOf);
    assert made == text;
  }

  /** What a successful synchronisation makes of the server's documents: `after` is the new copy, and
      all other copies stay, but that one document may be closed when 128 are open. */
  ghost predicate Synced(before: ServerDocs, docs: ServerDocs, uri: Uri, after: Text) {
    && uri in docs && docs[uri].text == after
    && (uri in before ==> before[uri].version <= docs[uri].version && docs.Keys == before.Keys)
    && (forall u | u in docs && u != uri :: u in before && docs[u] == before[u])
    && (|before| < MAX_OPEN ==> before.Keys <= docs.Keys)
    && exists closed: Uri :: before.Keys <= docs.Keys + {closed}
  }

  lemma SyncedSame(before: ServerDocs, uri: Uri)
    requires uri in before
    ensures Synced(before, before, uri, before[uri].text)
  {
    assert before.Keys <= before.Keys + {uri};
  }

  lemma SyncedChange(before: ServerDocs, uri: Uri, version: nat, after: Text)
    requires uri in before && before[uri].version <= version
    ensures Synced(before, before[uri := ServerDoc(version, after)], uri, after)
  {
    assert before.Keys <= before[uri := ServerDoc(version, after)].Keys + {uri};
  }

  lemma SyncedOpen(before: ServerDocs, room: ServerDocs, uri: Uri, text: Text, closed: Uri)
    requires uri !in before && (room == before || (|before| >= MAX_OPEN && room == before - {closed}))
    ensures Synced(before, room[uri := ServerDoc(1, text)], uri, text)
  {
    assert before.Keys <= room[uri := ServerDoc(1, text)].Keys + {closed};
  }

  /** Where neither record nor copy changes, exactness stays. */
  lemma OthersStayExact(open: map<Uri, DocumentState>, open': map<Uri, DocumentState>,
                        before: ServerDocs, docs: ServerDocs, uri: Uri, after: Text, fingerprintOf: Text -> nat)
    requires RecordsKept(open, open', uri) && Synced(before, docs, uri, after) && open'.Keys == docs.Keys
    ensures forall u | u in open' && u != uri && Exact(open, before, fingerprintOf, u) ::
              Exact(open', docs, fingerprintOf, u)
  {
  }

  /** The client's records: only `uri` is touched, except that the least recently used document may
      leave when 128 are open. */
  predicate RecordsKept(open: map<Uri, DocumentState>, open': map<Uri, DocumentState>, uri: Uri) {
    && (forall u | u in open' && u != uri :: u in open && open'[u] == open[u])
    && (forall u | u in open && u !in open' :: |open| >= MAX_OPEN && uri !in open && OldestDocument(open, u))
  }

  lemma NothingTouched(open: map<Uri, DocumentState>, uri: Uri)
    ensures RecordsKept(open, open, uri)
  {
  }

  lemma OneLeaves(open: map<Uri, DocumentState>, oldest: Uri, uri: Uri)
    requires |open| >= MAX_OPEN && uri !in open && OldestDocument(open, oldest)
    ensures RecordsKept(open, open - {oldest}, uri)
  {
  }

  lemma OneTouched(open: map<Uri, DocumentState>, open': map<Uri, DocumentState>, uri: Uri, state: DocumentState)
    requires RecordsKept(open, open', uri)
    ensures RecordsKept(open, open'[uri := state], uri)
  {
  }

  lemma LeastRecentlyUsedLeaves(open: map<Uri, DocumentState>, open': map<Uri, DocumentState>, uri: Uri)
    requires RecordsKept(open, open', uri)
    ensures forall u, v | u in open && u !in open' && v in open ::
              |open| >= 128 && uri !in open && open[u].lastUsed <= open[v].lastUsed
    ensures forall u | u in open && u in open' && u != uri :: open'[u] == open[u]
  {
  }

  /** Every version fits 64 bits. */
  predicate Narrow(open: map<Uri, DocumentState>) {
    forall u | u in open :: open[u].version < 0x8000_0000_0000_0000
  }

  /** What is sent about a document that is open and whose text has changed. */
  function Messages(kind: SyncKind, uri: Uri, existing: DocumentState, text: Text): seq<Notification> {
    var version := SaturatingNext(existing.version);
    match kind
    case Full => [DidChange(uri, version, None, text)]
    case Incremental => [DidChange(uri, version, Some(existing.end), text)]
    case None_ => [DidClose(uri), DidOpen(uri, version, text)]
  }

  /** After a synchronisation that kept the log legal: this document is mirrored exactly if the copy
      is the text, and the others are if they were. */
  ghost predicate MirrorsAfter(open: map<Uri, DocumentState>, open': map<Uri, DocumentState>, before: ServerDocs,
                               docs: ServerDocs, uri: Uri, text: Text, fingerprintOf: Text -> nat) {
    && uri in docs && (Exact(open', docs, fingerprintOf, uri) <==> docs[uri].text == text)
    && forall u | u in open' && u != uri && Exact(open, before, fingerprintOf, u) ::
        Exact(open', docs, fingerprintOf, u)
  }

  lemma SyncedMirrors(open: map<Uri, DocumentState>, open': map<Uri, DocumentState>, before: ServerDocs,
                      log: seq<Notification>, uri: Uri, after: Text, text: Text, fingerprintOf: Text -> nat)
    requires Injective(fingerprintOf) && Legal(open', log, fingerprintOf) && RecordsKept(open, open', uri)
    requires Synced(before, Docs(log), uri, after)
    requires uri in open' && open'[uri].fingerprint == fingerprintOf(text)
    ensures MirrorsAfter(open, open', before, Docs(log), uri, text, fingerprintOf)
  {
    hide Legal, Docs, Injective, RecordsKept, EndPosition, Genuine, RecordOf;
    LegalOn(open', log, fingerprintOf, uri);
    ExactIff(open'[uri], after, text, fingerprintOf);
    OthersStayExact(open, open', before, Docs(log), uri, after, fingerprintOf);
  }

  /** `LspSession`, as far as documents go. */
  class Session {
    const fingerprintOf: Text -> nat   // SHA-256
    const openClose: bool
    const kind: SyncKind
    var openDocuments: map<Uri, DocumentState>
    var log: seq<Notification>         // what reached the server
    var wire: seq<bool>                // whether the next writes succeed; later ones do

    constructor (fingerprintOf: Text -> nat, openClose: bool, kind: SyncKind, wire: seq<bool>)
      requires Injective(fingerprintOf)
      ensures this.fingerprintOf == fingerprintOf && this.openClose == openClose && this.kind == kind
      ensures Valid() && openDocuments == map[] && log == [] && this.wire == wire
    {
      this.fingerprintOf, this.openClose, this.kind := fingerprintOf, openClose, kind;
      openDocuments, log, this.wire := map[], [], wire;
    }

    ghost predicate Valid()
      reads this
    {
      Injective(fingerprintOf) && Legal(openDocuments, log, fingerprintOf)
    }

    /** The server's copy of `u` is what the client believes it to be. */
    predicate Mirrored(u: Uri)
      reads this
    {
      Exact(openDocuments, Docs(log), fingerprintOf, u)
    }

    /** No write is going to fail. */
    predicate WritesSucceed()
      reads this
    {
      forall i | 0 <= i < |wire| :: wire[i]
    }

    method Notify(m: Notification) returns (ok: bool)
      modifies this`log, this`wire
      ensures old(WritesSucceed()) ==> ok && WritesSucceed()
      ensures log == if ok then old(log) + [m] else old(log)
    {
      ok := true;
      if wire != [] {
        ok, wire := wire[0], wire[1..];
      }
      if ok {
        log := log + [m];
      }
    }

    /** `sync_document`. On success the message log is legal again, whatever texts the server holds;
        the copy of this document is what was sent; and other documents are untouched, except that
        the least recently used one may be closed to make room. The copy is the client's text, and
        known to be, unless the change was stale or the copy was not mirrored before; other mirrored
        documents stay so. Text with an unchanged fingerprint sends nothing. */
    method SyncDocument(uri: Uri, text: Text, now: nat) returns (ok: bool)
      modifies this
      ensures old(WritesSucceed()) ==> ok && WritesSucceed()
      ensures !openClose ==> ok && log == old(log) && openDocuments == old(openDocuments)
      ensures RecordsKept(old(openDocuments), openDocuments, uri)
      ensures forall u, v | u in old(openDocuments) && u !in openDocuments && v in old(openDocuments) ::
                |old(openDocuments)| >= 128 && old(openDocuments)[u].lastUsed <= old(openDocuments)[v].lastUsed
      ensures openClose && ok && uri in old(openDocuments)
              && old(openDocuments)[uri].fingerprint != fingerprintOf(text) ==>
                log == old(log) + Messages(kind, uri, old(openDocuments)[uri], text)
      ensures openClose && ok ==> uri in openDocuments && openDocuments[uri].lastUsed == now
      ensures old(Narrow(openDocuments)) ==> Narrow(openDocuments)
      ensures old(Valid()) && openClose && old(|log|) < I64_MAX && ok ==>
                && Valid() && Synced(old(Docs(log)), Docs(log), uri, old(Outcome(uri, text)))
                && MirrorsAfter(old(openDocuments), openDocuments, old(Docs(log)), Docs(log), uri, text, fingerprintOf)
                && (old(uri in openDocuments ==> Mirrored(uri)) ==>
                      (Docs(log)[uri].text == text <==> !Stale(kind, old(Docs(log)), uri, text)))
      ensures old(uri in openDocuments && openDocuments[uri].fingerprint == fingerprintOf(text)) ==> log == old(log)
    {
      hide Legal, Synced, Replay, Docs, Injective, RecordsKept, Edited, EndPosition, Genuine, RecordOf;
      hide MirrorsAfter;
      NothingTouched(openDocuments, uri);
      if !openClose {
        return true;
      }
      ghost var sound, open, before := Valid(), openDocuments, Docs(log);
      ghost var after := Outcome(uri, text);
      if sound {
        LegalOn(openDocuments, log, fingerprintOf, uri);
      }
      if uri in openDocuments {
        ok := Resync(uri, text, now);
      } else {
        ok := OpenNew(uri, text, now);
      }
      LeastRecentlyUsedLeaves(open, openDocuments, uri);
      if sound && old(|log|) < I64_MAX && ok {
        SyncedHas(before, Docs(log), uri, after);
        if Exact(open, before, fingerprintOf, uri) {
          SentIsTextIff(kind, open, before, fingerprintOf, uri, text);
        }
      }
    }

    /** What the server's copy of `uri` is going to be. */
    function Outcome(uri: Uri, text: Text): Text
      reads this
    {
      if uri in openDocuments && uri in Docs(log)
      then Sent(kind, openDocuments[uri], Docs(log)[uri].text, text, fingerprintOf)
      else text
    }

    /** A document already open, in all three modes. */
    method Resync(uri: Uri, text: Text, now: nat) returns (ok: bool)
      requires uri in openDocuments
      modifies this
      ensures old(WritesSucceed()) ==> ok && WritesSucceed()
      ensures RecordsKept(old(openDocuments), openDocuments, uri)
      ensures ok ==> uri in openDocuments && openDocuments[uri].lastUsed == now
      ensures old(Narrow(openDocuments)) ==> Narrow(openDocuments)
      ensures ok ==> openDocuments[uri].fingerprint == fingerprintOf(text)
      ensures ok && old(openDocuments)[uri].fingerprint != fingerprintOf(text) ==>
                log == old(log) + Messages(kind, uri, old(openDocuments)[uri], text)
      ensures old(Valid()) && old(|log|) < I64_MAX && ok ==>
                && Valid() && Synced(old(Docs(log)), Docs(log), uri, old(Outcome(uri, text)))
                && MirrorsAfter(old(openDocuments), openDocuments, old(Docs(log)), Docs(log), uri, text, fingerprintOf)
      ensures old(openDocuments)[uri].fingerprint == fingerprintOf(text) ==> ok && log == old(log)
    {
      hide Legal, Replay, Docs, EndPosition, Edited, Injective, RecordsKept, Synced, Genuine, MirrorsAfter;
      ghost var sound, open, before := Valid() && |log| < I64_MAX, openDocuments, Docs(log);
      NothingTouched(open, uri);
      if sound {
        LegalOn(openDocuments, log, fingerprintOf, uri);
      }
      var existing := openDocuments[uri];
      var fingerprint := fingerprintOf(text);
      if existing.fingerprint == fingerprint {
        OneTouched(open, open, uri, existing.(lastUsed := now));
        openDocuments := openDocuments[uri := existing.(lastUsed := now)];
        if sound {
          AfterTouch(open, log, fingerprintOf, uri, now);
          SyncedSame(before, uri);
          SyncedMirrors(open, openDocuments, before, log, uri, before[uri].text, text, fingerprintOf);
        }
        return true;
      }
      var version := SaturatingNext(existing.version);
      match kind {
        case Full =>
          if sound {
            AfterChange(open, log, fingerprintOf, uri, version, None, text, now);
          }
          ok := Notify(DidChange(uri, version, None, text));
        case Incremental =>
          if sound {
            AfterChange(open, log, fingerprintOf, uri, version, Some(existing.end), text, now);
          }
          ok := Notify(DidChange(uri, version, Some(existing.end), text));
        case None_ =>
          ok := Reopen(uri, version, text, now);
      }
      if ok {
        OneTouched(open, open, uri, DocumentState(version, fingerprint, EndPosition(text), now));
        openDocuments := openDocuments[uri := DocumentState(version, fingerprint, EndPosition(text), now)];
        if sound {
          ghost var after := Sent(kind, existing, before[uri].text, text, fingerprintOf);
          SyncedChange(before, uri, version, after);
          SyncedMirrors(open, openDocuments, before, log, uri, after, text, fingerprintOf);
        }
      }
    }

    /** A server without incremental changes gets the document closed and opened again. */
    method Reopen(uri: Uri, version: nat, text: Text, ghost now: nat) returns (ok: bool)
      requires uri in openDocuments
      modifies this`log, this`wire
      ensures old(WritesSucceed()) ==> ok && WritesSucceed()
      ensures ok ==> log == old(log) + [DidClose(uri), DidOpen(uri, version, text)]
      ensures old(Valid()) && version <= old(|log|) + 1 && ok ==>
                && Legal(openDocuments[uri := Record(fingerprintOf, version, text, now)], log, fingerprintOf)
                && Docs(log) == old(Docs(log))[uri := ServerDoc(version, text)]
    {
      hide Legal, Replay, Docs, EndPosition, Injective;
      ghost var sound, open := Valid() && version <= |log| + 1, openDocuments;
      if sound {
        LegalOn(open, log, fingerprintOf, uri);
        AfterClose(open, log, fingerprintOf, uri);
      }
      ok := Notify(DidClose(uri));
      if !ok {
        return;
      }
      if sound {
        AfterOpen(open - {uri}, log, fingerprintOf, uri, version, text, now);
        assert (open - {uri})[uri := Record(fingerprintOf, version, text, now)]
            == open[uri := Record(fingerprintOf, version, text, now)];
      }
      ok := Notify(DidOpen(uri, version, text));
    }

    /** With 128 documents open, the least recently used one is closed first. */
    method MakeRoom(uri: Uri) returns (ok: bool, ghost closed: Uri)
      requires uri !in openDocuments
      modifies this
      ensures old(WritesSucceed()) ==> ok && WritesSucceed()
      ensures RecordsKept(old(openDocuments), openDocuments, uri) && uri !in openDocuments
      ensures old(Narrow(openDocuments)) ==> Narrow(openDocuments)
      ensures old(Valid()) && ok ==>
                && Valid() && |openDocuments| < MAX_OPEN
                && (Docs(log) == old(Docs(log))
                    || (|old(Docs(log))| >= MAX_OPEN && Docs(log) == old(Docs(log)) - {closed}))
                && (forall u | u in openDocuments && old(Mirrored(u)) :: Mirrored(u))
    {
      hide Legal, Replay, Docs, EndPosition, Injective, RecordsKept, RecordOf;
      ghost var sound, open := Valid(), openDocuments;
      closed := uri;
      NothingTouched(open, uri);
      if sound {
        LegalOn(open, log, fingerprintOf, uri);
      }
      if |openDocuments| < MAX_OPEN {
        return true, uri;
      }
      ghost var some := OldestDocumentExists(openDocuments);
      var oldest :| oldest in openDocuments && OldestDocument(openDocuments, oldest);
      if sound {
        AfterClose(open, log, fingerprintOf, oldest);
      }
      OneLeaves(open, oldest, uri);
      ok := Notify(DidClose(oldest));
      if ok {
        openDocuments := openDocuments - {oldest};
        closed := oldest;
        if sound {
          LegalOn(openDocuments, log, fingerprintOf, uri);
        }
      }
    }

    method OpenNew(uri: Uri, text: Text, now: nat) returns (ok: bool)
      requires uri !in openDocuments
      modifies this
      ensures old(WritesSucceed()) ==> ok && WritesSucceed()
      ensures RecordsKept(old(openDocuments), openDocuments, uri)
      ensures ok ==> uri in openDocuments && openDocuments[uri].lastUsed == now
      ensures old(Narrow(openDocuments)) ==> Narrow(openDocuments)
      ensures ok ==> openDocuments[uri].fingerprint == fingerprintOf(text)
      ensures old(Valid()) && ok ==>
                && Valid() && Synced(old(Docs(log)), Docs(log), uri, text) && uri !in old(Docs(log))
                && MirrorsAfter(old(openDocuments), openDocuments, old(Docs(log)), Docs(log), uri, text, fingerprintOf)
    {
      hide Legal, Replay, Docs, EndPosition, Injective, RecordsKept, Synced, MirrorsAfter;
      ghost var sound, before, open := Valid(), Docs(log), openDocuments;
      if sound {
        LegalOn(open, log, fingerprintOf, uri);
      }
      ghost var closed;
      ok, closed := MakeRoom(uri);
      if !ok {
        return;
      }
      var state := DocumentState(1, fingerprintOf(text), EndPosition(text), now);
      if sound {
        AfterOpen(openDocuments, log, fingerprintOf, uri, 1, text, now);
        SyncedOpen(before, Docs(log), uri, text, closed);
      }
      ok := Notify(DidOpen(uri, 1, text));
      if ok {
        OneTouched(open, openDocuments, uri, state);
        openDocuments := openDocuments[uri := state];
        if sound {
          SyncedMirrors(open, openDocuments, before, log, uri, text, text, fingerprintOf);
        }
      }
    }
  }

  lemma SyncedHas(before: ServerDocs, docs: ServerDocs, uri: Uri, after: Text)
    requires Synced(before, docs, uri, after)
    ensures uri in docs && docs[uri].text == after
  {
  }
}
