/**
  The disk under a workspace as the patch transaction sees it: regular files and directories by
  relative path, and the transaction store `.openmindai-patch-transactions`, one directory of
  artifacts per transaction. `Exec` is one atomic file-system step.
 */
module WorkspaceDisk {
  import opened Basics

  /** A normalised relative path: its components, outermost first. */
  type Path = seq<string>

  type Files = map<Path, Bytes>

  /** A transaction id. UUIDs have fixed-width names, so their order is that of their numbers. */
  type TxId = nat

  const TRANSACTION_DIR := ".openmindai-patch-transactions"

  /** The file names the protocol uses inside a transaction directory. */
  datatype Artifact =
    | JournalFile | JournalTemp | MarkerFile | MarkerTemp
    | Stage(index: nat) | Backup(index: nat) | Original(index: nat)

  datatype JournalEntry = JournalEntry(path: Path, originalExisted: bool, backup: Artifact, staged: Artifact)

  datatype Journal = Journal(version: nat, id: TxId, entries: seq<JournalEntry>)

  datatype Marker = Marker(version: nat, id: TxId)

  /** What an artifact holds. Metadata that parses is kept as the document it parses to; anything
      else is bytes. A directory moved out of the workspace is kept whole. */
  datatype Content =
    | Data(bytes: Bytes)
    | JournalDoc(journal: Journal)
    | MarkerDoc(marker: Marker)
    | Folder(files: Files, dirs: set<Path>)

  type TxDir = map<Artifact, Content>

  datatype Disk = Disk(files: Files, dirs: set<Path>, txs: map<TxId, TxDir>)

  /** `exists()`: a file or a directory. */
  predicate Exists(d: Disk, p: Path) {
    p in d.files || p in d.dirs
  }

  /** All proper ancestors of `p` below the root are directories. */
  predicate HasParents(d: Disk, p: Path) {
    forall k | 0 < k < |p| :: p[..k] in d.dirs
  }

  /** What every file system keeps: nothing is both a file and a directory, and everything lies in
      directories. The root itself is not listed. */
  ghost predicate IsTree(d: Disk) {
    && [] !in d.files && [] !in d.dirs
    && d.files.Keys !! d.dirs
    && forall p | Exists(d, p) :: HasParents(d, p)
  }

  datatype Op =
    | MakeDir(path: Path)
    | MakeTx(id: TxId)
    | DropTx(id: TxId)                                        // remove_dir_all
    | CreateArtifact(id: TxId, name: Artifact)                // create_new: still empty
    | FillArtifact(id: TxId, name: Artifact, content: Content) // the write completes
    | RenameArtifact(id: TxId, name: Artifact, to: Artifact)
    | RemoveArtifact(id: TxId, name: Artifact)
    | MoveOut(path: Path, id: TxId, name: Artifact)
    | MoveIn(id: TxId, name: Artifact, path: Path)
    | RemoveFile(path: Path)
    | CreateFile(path: Path)
    | FillFile(path: Path, bytes: Bytes)

  /** Everything at or below `p`. */
  predicate Under(p: Path, q: Path) {
    p <= q
  }

  /** One step of the file system; `None` when it refuses. */
  function Exec(d: Disk, op: Op): Option<Disk> {
    match op
    case MakeDir(p) =>
      if p != [] && HasParents(d, p) && !Exists(d, p) then Some(d.(dirs := d.dirs + {p})) else None
    case MakeTx(id) =>
      if id !in d.txs then Some(d.(txs := d.txs[id := map[]])) else None
    case DropTx(id) =>
      if id in d.txs then Some(d.(txs := d.txs - {id})) else None
    case CreateArtifact(id, name) =>
      if id in d.txs && name !in d.txs[id] then Some(WithDir(d, id, d.txs[id][name := Data([])])) else None
    case FillArtifact(id, name, content) =>
      if id in d.txs && name in d.txs[id] then Some(WithDir(d, id, d.txs[id][name := content])) else None
    case RenameArtifact(id, name, to) =>
      if id in d.txs && name in d.txs[id]
      then Some(WithDir(d, id, (d.txs[id] - {name})[to := d.txs[id][name]]))
      else None
    case RemoveArtifact(id, name) =>
      if id in d.txs && name in d.txs[id] then Some(WithDir(d, id, d.txs[id] - {name})) else None
    case MoveOut(p, id, name) =>
      if id !in d.txs then None
      else if p in d.files then
        Some(WithDir(d.(files := d.files - {p}), id, d.txs[id][name := Data(d.files[p])]))
      else if p in d.dirs && name !in d.txs[id] then
        var files := map q | q in d.files && Under(p, q) :: d.files[q];
        var dirs := set q | q in d.dirs && Under(p, q);
        Some(WithDir(d.(files := d.files - files.Keys, dirs := d.dirs - dirs), id,
                     d.txs[id][name := Folder(files, dirs)]))
      else None
    case MoveIn(id, name, p) =>
      if id in d.txs && name in d.txs[id] && d.txs[id][name].Data? && p != [] && HasParents(d, p) && p !in d.dirs
      then Some(WithDir(d.(files := d.files[p := d.txs[id][name].bytes]), id, d.txs[id] - {name}))
      else None
    case RemoveFile(p) =>
      if p in d.files then Some(d.(files := d.files - {p})) else None
    case CreateFile(p) =>
      if p != [] && HasParents(d, p) && !Exists(d, p) then Some(d.(files := d.files[p := []])) else None
    case FillFile(p, bytes) =>
      if p in d.files then Some(d.(files := d.files[p := bytes])) else None
  }

  /** `d` with the directory of transaction `id` replaced. */
  function WithDir(d: Disk, id: TxId, dir: TxDir): Disk {
    d.(txs := d.txs[id := dir])
  }

  /** No step tears the tree apart. */
  lemma ExecKeepsTree(d: Disk, op: Op)
    requires IsTree(d) && Exec(d, op).Some?
    ensures IsTree(Exec(d, op).value)
  {
    var e := Exec(d, op).value;
    forall p | Exists(e, p)
      ensures HasParents(e, p)
    {
      if Exists(d, p) {
        assert HasParents(d, p);
        if op.MoveOut? && op.path in d.dirs && op.path !in d.files {
          var top := op.path;
          forall k | 0 < k < |p|
            ensures p[..k] in e.dirs
          {
            assert top <= p[..k] ==> top <= p;
          }
        }
      }
    }
  }
}
