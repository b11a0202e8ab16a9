// The filesystem operations (vfs crate, davfs.rs) on the three stores together: metadata
// tables, blobs and search index. Each operation runs atomically here.
module FsModel {
  import opened Base
  import opened Manifests
  import opened BlobStores
  import opened Paths
  import opened FileNames
  import opened MetaTables
  import opened Namespace
  import opened Sweeps

  datatype FsError = Missing | Forbidden | AlreadyExists | GeneralFailure

  type FsOutcome<T> = Result<T, FsError>

  function MetaToFs(e: MetaError): FsError {
    match e
    case NotFound => Missing
    case Exists => AlreadyExists
    case Corrupt => GeneralFailure
    case _ => Forbidden
  }

  function FromMeta<T>(r: Outcome<T>): FsOutcome<T> {
    match r
    case Ok(x) => Ok(x)
    case Err(e) => Err(MetaToFs(e))
  }

  /** `docs` is the committed search index: the text held for each node id. */
  datatype Fs = Fs(tables: Tables, blobs: map<Hash, seq<byte>>, docs: map<nat, seq<byte>>)

  const FRESH_FS := Fs(FRESH_TABLES, map[], map[])

  const MAX_INDEX_BYTES: nat := 4 * 1024 * 1024

  // ---- Index maintenance ----

  predicate IsTextFile(n: Node) {
    !n.isDir && n.current.Some? && IsIndexableName(n.name)
  }

  /** Brings a node's document in line with its content. Failures are logged and leave the
      index as it is. */
  ghost function Reindex(f: Fs, id: nat): Fs {
    if id !in f.tables.nodes || !IsTextFile(f.tables.nodes[id]) then f
    else if f.tables.nodes[id].size > MAX_INDEX_BYTES then f.(docs := f.docs - {id})
    else match CurrentManifest(f.tables, id)
      case Err(_) => f
      case Ok(m) => if Hashes(m) <= f.blobs.Keys then f.(docs := f.docs[id := Content(m)]) else f
  }

  /** Drops the document of a removed file, if its name could have had one. */
  function Deindex(f: Fs, id: nat, name: seq<byte>): Fs {
    if IsIndexableName(name) then f.(docs := f.docs - {id}) else f
  }

  // ---- Operations ----

  /** The parent collection and the name that a path to be created or replaced denotes. */
  ghost function Target(nodes: Nodes, path: seq<byte>): FsOutcome<(nat, seq<byte>)> {
    var segs := Segments(path);
    if segs == [] then Err(Forbidden)
    else match Resolve(nodes, Init(segs))
      case None => Err(Missing)
      case Some(p) => if p in nodes && nodes[p].isDir then Ok((p, Last(segs))) else Err(Forbidden)
  }

  ghost function Find(f: Fs, path: seq<byte>): FsOutcome<nat> {
    match Resolve(f.tables.nodes, Segments(path))
    case None => Err(Missing)
    case Some(id) => Ok(id)
  }

  /** Creating a collection, or the file node that opening a new file for writing needs. */
  ghost function Create(f: Fs, path: seq<byte>, isDir: bool): (Fs, FsOutcome<nat>) {
    match Target(f.tables.nodes, path)
    case Err(e) => (f, Err(e))
    case Ok((parent, name)) =>
      var (t, r) := Insert(f.tables, parent, name, isDir);
      (f.(tables := t), FromMeta(r))
  }

  ghost function DeleteDir(f: Fs, path: seq<byte>): (Fs, FsOutcome<()>) {
    match Find(f, path)
    case Err(e) => (f, Err(e))
    case Ok(id) =>
      if id == ROOT_ID then (f, Err(Forbidden))
      else
        var (t, r) := RemoveDir(f.tables, id);
        (f.(tables := t), FromMeta(r))
  }

  ghost function DeleteFile(f: Fs, path: seq<byte>): (Fs, FsOutcome<()>) {
    match Find(f, path)
    case Err(e) => (f, Err(e))
    case Ok(id) =>
      var (t, r) := RemoveFile(f.tables, id);
      if r.Err? then (f, FromMeta(r))
      else if id in f.tables.nodes then (Deindex(f.(tables := t), id, f.tables.nodes[id].name), Ok(()))
      else (f, Err(Missing))
  }

  /** Makes room at the destination of a rename: a file there is deleted. */
  ghost function Clobber(f: Fs, existing: nat): Fs
    requires existing in f.tables.nodes
  {
    Deindex(f.(tables := Delete(f.tables, existing)), existing, f.tables.nodes[existing].name)
  }

  /** Whether moving or copying `src` under `parent` would put a collection into itself. */
  function IntoItself(nodes: Nodes, src: nat, parent: nat): FsOutcome<bool> {
    if src in nodes && nodes[src].isDir then FromMeta(AncestorWalk(nodes, src, parent, WALK_LIMIT)) else Ok(false)
  }

  ghost function Relocate(f: Fs, src: nat, parent: nat, name: seq<byte>): (Fs, FsOutcome<()>) {
    var (t, r) := Rename(f.tables, src, parent, name);
    (f.(tables := t), FromMeta(r))
  }

  ghost function MoveTo(f: Fs, src: nat, parent: nat, name: seq<byte>): (Fs, FsOutcome<()>) {
    match IntoItself(f.tables.nodes, src, parent)
    case Err(e) => (f, Err(e))
    case Ok(true) => (f, Err(Forbidden))
    case Ok(false) =>
      match Child(f.tables.nodes, parent, name)
      case None => Relocate(f, src, parent, name)
      case Some(e) =>
        if f.tables.nodes[e].isDir then (f, Err(AlreadyExists)) else Relocate(Clobber(f, e), src, parent, name)
  }

  ghost function RenameFile(f: Fs, from: seq<byte>, to: seq<byte>): (Fs, FsOutcome<()>) {
    match Find(f, from)
    case Err(e) => (f, Err(e))
    case Ok(src) =>
      if src == ROOT_ID then (f, Err(Forbidden))
      else match Target(f.tables.nodes, to)
        case Err(e) => (f, Err(e))
        case Ok((parent, name)) => MoveTo(f, src, parent, name)
  }

  /** Makes an already stored manifest the content of a node, then re-indexes it. */
  ghost function Reference(f: Fs, id: nat, m: Outcome<Manifest>): (Fs, FsOutcome<()>) {
    match m
    case Err(e) => (f, Err(MetaToFs(e)))
    case Ok(m) =>
      var (t, r) := SetContent(f.tables, id, m);
      if r.Err? then (f, FromMeta(r)) else (Reindex(f.(tables := t), id), Ok(()))
  }

  ghost function CopyOnto(f: Fs, src: nat, parent: nat, name: seq<byte>): (Fs, FsOutcome<()>)
    requires src in f.tables.nodes
  {
    var n := f.tables.nodes[src];
    match Child(f.tables.nodes, parent, name)
    case Some(e) =>
      if f.tables.nodes[e].isDir != n.isDir then (f, Err(AlreadyExists))
      else if n.isDir then (f, Ok(()))
      else Reference(f, e, CurrentManifest(f.tables, src))
    case None =>
      var (t, r) := Insert(f.tables, parent, name, n.isDir);
      if r.Err? then (f, Err(MetaToFs(r.error)))
      else if n.isDir || n.current.None? then (f.(tables := t), Ok(()))
      else Reference(f.(tables := t), r.value, CurrentManifest(t, src))
  }

  ghost function CopyFile(f: Fs, from: seq<byte>, to: seq<byte>): (Fs, FsOutcome<()>) {
    match Find(f, from)
    case Err(e) => (f, Err(e))
    case Ok(src) =>
      match Target(f.tables.nodes, to)
      case Err(e) => (f, Err(e))
      case Ok((parent, name)) =>
        match IntoItself(f.tables.nodes, src, parent)
        case Err(e) => (f, Err(e))
        case Ok(true) => (f, Err(Forbidden))
        case Ok(false) => if src in f.tables.nodes then CopyOnto(f, src, parent, name) else (f, Err(Missing))
  }

  /** Flushing a write handle of node `id` whose staged content the chunker splits into
      `pieces`. */
  ghost function Flush(f: Fs, id: nat, pieces: seq<seq<byte>>): (Fs, FsOutcome<()>) {
    if id !in f.tables.nodes then (f, Err(Missing))
    else Reference(f.(blobs := PutAll(f.blobs, pieces)), id, Ok(ManifestOf(pieces)))
  }

  /** The version APIs, which report metadata errors as they are. */
  ghost function FileAt(f: Fs, path: seq<byte>): Outcome<nat> {
    match Resolve(f.tables.nodes, Segments(path))
    case None => Err(NotFound)
    case Some(id) => if id in f.tables.nodes && f.tables.nodes[id].isDir then Err(IsADirectory) else Ok(id)
  }

  ghost function Revert(f: Fs, path: seq<byte>, number: nat): (Fs, Outcome<()>) {
    match FileAt(f, path)
    case Err(e) => (f, Err(e))
    case Ok(id) =>
      match VersionId(f.tables, id, number)
      case None => (f, Err(NotFound))
      case Some(v) =>
        var (t, r) := SetContent(f.tables, id, ManifestAt(f.tables, v));
        if r.Err? then (f, r) else (Reindex(f.(tables := t), id), Ok(()))
  }

  ghost function Prune(f: Fs, path: seq<byte>, number: nat): (Fs, Outcome<()>) {
    match FileAt(f, path)
    case Err(e) => (f, Err(e))
    case Ok(id) =>
      var (t, r) := DeleteVersion(f.tables, id, number);
      (f.(tables := t), r)
  }

  ghost function Collect(f: Fs, listed: seq<Hash>, failing: set<Hash>): (Fs, GcStats) {
    var (left, stats) := SweepAll(f.blobs, Referenced(f.tables), listed, failing);
    (f.(blobs := left), stats)
  }
}
